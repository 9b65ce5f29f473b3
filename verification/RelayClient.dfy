/** The RELAY client object: its handlers update the tables in place and are proved to take
    exactly the steps of the two machines in `RelayRpc` and `RelayCalls`.  The class stands for
    the state the handlers share; each handler runs as one step. */
module RelayClient {
  import opened Json
  import opened RelayAction
  import Rpc = RelayRpc
  import Calls = RelayCalls

  lemma {:induction false} StepIsCallNews(s: Calls.State, callId: string, node: string, state: string, tag: string)
    ensures Calls.Step(s, Calls.CallNews(callId, node, state, tag)) == Calls.CallNewsStep(s, callId, node, state, tag)
  {
  }

  class RelayClient {
    // pending_requests_ and the promises the callers wait on
    var pendingRequests: set<string>
    var requests: map<string, Rpc.Request>
    var fault: bool
    // pending_dials_ and the dialling callers
    var pendingDials: set<string>
    var dials: map<string, Calls.Dial>
    // calls_ and owned_calls_; a call is named by its position in owned
    var calls: map<string, nat>
    var owned: seq<Calls.Call>
    // the shared state blocks of all actions started
    var actions: seq<Action>

    function RpcView(): Rpc.State
      reads this
    {
      Rpc.State(pendingRequests, requests, fault)
    }

    function Latches(): (r: seq<Latch>)
      reads this, actions
      ensures |r| == |actions|
      ensures forall i :: 0 <= i < |r| ==> r[i] == actions[i].View()
    {
      seq(|actions|, i requires 0 <= i < |actions| reads this, actions => actions[i].View())
    }

    function CallsView(): Calls.State
      reads this, actions
    {
      Calls.State(pendingDials, dials, calls, owned, Latches())
    }

    /** The state blocks are distinct objects. */
    ghost predicate Valid()
      reads this
    {
      forall i, j :: 0 <= i < j < |actions| ==> actions[i] != actions[j]
    }

    constructor ()
      ensures Valid()
      ensures RpcView() == Rpc.INIT && CallsView() == Calls.INIT
    {
      pendingRequests, requests, fault := {}, map[], false;
      pendingDials, dials := {}, map[];
      calls, owned, actions := map[], [], [];
    }

    // ---------------------------------------------------------------- requests

    method BeginRequest(id: string)
      modifies this`pendingRequests, this`requests
      ensures RpcView() == Rpc.Step(old(RpcView()), Rpc.Begin(id))
    {
      pendingRequests := pendingRequests + {id};
      requests := requests[id := Rpc.Request(Rpc.Sending, None)];
    }

    method FinishSend(id: string, ok: bool)
      modifies this`pendingRequests, this`requests
      ensures RpcView() == Rpc.Step(old(RpcView()), if ok then Rpc.Sent(id) else Rpc.SendError(id))
    {
      if id in requests && requests[id].phase.Sending? {
        if ok {
          requests := requests[id := requests[id].(phase := Rpc.Waiting)];
        } else {
          pendingRequests := pendingRequests - {id};
          requests := requests[id := requests[id].(phase := Rpc.Done(Rpc.SendFailed))];
        }
      }
    }

    /** `future.wait_for` comes back: the entry is erased whatever the status, and the caller gets
        the JSON value of the answer, if there is one. */
    method FinishWait(id: string, timedOut: bool) returns (outcome: Option<Rpc.Outcome>, value: Option<Json>)
      modifies this`pendingRequests, this`requests
      ensures RpcView() == Rpc.Step(old(RpcView()), if timedOut then Rpc.Timeout(id) else Rpc.Wake(id))
      ensures outcome.Some? ==> id in requests && requests[id].phase == Rpc.Done(outcome.value)
      ensures value == match outcome
                       case Some(Returned(answer)) => Some(Rpc.AnswerJson(answer))
                       case _ => None
    {
      outcome, value := None, None;
      if id in requests && requests[id].phase.Waiting? {
        var r := requests[id];
        if timedOut && r.promise.None? {
          outcome := Some(Rpc.TimedOut);
        } else if !timedOut && r.promise.Some? {
          outcome := Some(Rpc.Returned(r.promise.value));
          value := Some(Rpc.AnswerJson(r.promise.value));
        }
        if outcome.Some? {
          pendingRequests := pendingRequests - {id};
          requests := requests[id := r.(phase := Rpc.Done(outcome.value))];
        }
      }
    }

    method HandleReply(id: string, reply: Rpc.Reply)
      modifies this`requests, this`fault
      ensures RpcView() == Rpc.Step(old(RpcView()), Rpc.Replied(id, reply))
    {
      if id in pendingRequests && id in requests {
        var pending := requests[id];
        if pending.promise.Some? {
          fault := true;
        } else {
          requests := requests[id := pending.(promise := Some(Rpc.FromServer(reply)))];
        }
      }
    }

    method RejectRequests()
      modifies this`pendingRequests, this`requests
      ensures RpcView() == Rpc.RejectAll(old(RpcView()))
    {
      var ids := pendingRequests;
      while ids != {}
        invariant ids <= pendingRequests == old(pendingRequests)
        invariant requests.Keys == old(requests).Keys
        invariant forall id :: id in requests ==>
          requests[id] == if id in pendingRequests && id !in ids then Rpc.Fulfil(old(requests)[id], Rpc.ConnectionLost)
                          else old(requests)[id]
        decreases ids
      {
        var id :| id in ids;
        if id in requests && requests[id].promise.None? {
          requests := requests[id := requests[id].(promise := Some(Rpc.ConnectionLost))];
        }
        ids := ids - {id};
      }
      pendingRequests := {};
    }

    method RejectDials()
      modifies this`pendingDials, this`dials
      ensures CallsView() == Calls.Step(old(CallsView()), Calls.Loss)
    {
      var tags := pendingDials;
      while tags != {}
        invariant tags <= pendingDials == old(pendingDials)
        invariant dials.Keys == old(dials).Keys
        invariant forall tag :: tag in dials ==>
          dials[tag] ==
          if tag in pendingDials && tag !in tags then Calls.SettleDial(old(dials)[tag]) else old(dials)[tag]
        decreases tags
      {
        var tag :| tag in tags;
        if tag in dials && dials[tag].promise.None? {
          dials := dials[tag := dials[tag].(promise := Some(None))];
        }
        tags := tags - {tag};
      }
      pendingDials := {};
    }

    method RejectAllPending()
      modifies this`pendingRequests, this`requests, this`pendingDials, this`dials
      ensures RpcView() == Rpc.Step(old(RpcView()), Rpc.Loss)
      ensures CallsView() == Calls.Step(old(CallsView()), Calls.Loss)
    {
      RejectRequests();
      RejectDials();
    }

    // ---------------------------------------------------------------- dials

    method BeginDial(tag: string)
      modifies this`pendingDials, this`dials
      ensures CallsView() == Calls.Step(old(CallsView()), Calls.DialBegin(tag))
    {
      pendingDials := pendingDials + {tag};
      dials := dials[tag := Calls.Dial(Calls.Dialing, None)];
    }

    method FinishDialRpc(tag: string, ok: bool)
      modifies this`pendingDials, this`dials
      ensures CallsView() == Calls.Step(old(CallsView()), if ok then Calls.DialSent(tag) else Calls.DialError(tag))
    {
      if tag in dials && dials[tag].phase.Dialing? {
        if ok {
          dials := dials[tag := dials[tag].(phase := Calls.Waiting)];
        } else {
          pendingDials := pendingDials - {tag};
          dials := dials[tag := dials[tag].(phase := Calls.Done(None))];
        }
      }
    }

    method FinishDialWait(tag: string, timedOut: bool)
      modifies this`pendingDials, this`dials
      ensures CallsView() ==
              Calls.Step(old(CallsView()), if timedOut then Calls.DialTimeout(tag) else Calls.DialWake(tag))
    {
      if tag in dials && dials[tag].phase.Waiting? {
        var d := dials[tag];
        if timedOut == d.promise.None? {
          pendingDials := pendingDials - {tag};
          dials := dials[tag := d.(phase := Calls.Done(if timedOut then None else d.promise.value))];
        }
      }
    }

    method RegisterCall(call: Calls.Call) returns (ref: nat)
      modifies this`calls, this`owned
      ensures CallsView() == Calls.AddCall(old(CallsView()), call)
      ensures ref == |old(owned)|
    {
      ref := |owned|;
      calls := calls[call.id := ref];
      owned := owned + [call];
    }

    method HandleDialEvent(tag: string, dialState: string, callId: string, node: string)
      modifies this
      ensures actions == old(actions) && RpcView() == old(RpcView())
      ensures CallsView() == Calls.Step(old(CallsView()), Calls.DialNews(tag, dialState, callId, node))
    {
      if tag !in pendingDials || tag !in dials {
        return;
      }
      var pending := dials[tag];
      pendingDials := pendingDials - {tag};
      if dialState == "answered" {
        var ref;
        if callId in calls {
          ref := calls[callId];
        } else {
          ref := RegisterCall(Calls.Call(callId, node, "outbound", tag, "answered", map[]));
        }
        dials := dials[tag := pending.(promise := Some(Some(ref)))];
      } else if dialState == "failed" {
        dials := dials[tag := pending.(promise := Some(None))];
      }
    }

    // ---------------------------------------------------------------- calls

    method HandleInboundCall(callId: string, node: string)
      modifies this`calls, this`owned
      ensures CallsView() == Calls.Step(old(CallsView()), Calls.Inbound(callId, node))
    {
      if callId == "" {
        return;
      }
      var _ := RegisterCall(Calls.Call(callId, node, "inbound", "", "created", map[]));
    }

    // One state block changes, the others keep theirs.
    method ResolveAction(index: nat, state: string, result: Json)
      requires Valid() && index < |actions|
      modifies actions[index]
      ensures Latches() == old(Latches())[index := old(actions[index].View()).Resolved(state, result)]
    {
      actions[index].Resolve(state, result);
    }

    method UpdateAction(index: nat, state: string, result: Json)
      requires Valid() && index < |actions|
      modifies actions[index]
      ensures Latches() == old(Latches())[index := old(actions[index].View()).Updated(state, result)]
    {
      actions[index].UpdateState(state, result);
    }

    method ReturnAction(index: nat)
      requires Valid() && index < |actions|
      modifies actions[index]
      ensures Latches() == old(Latches())[index := old(actions[index].View()).(phase := Returned)]
    {
      actions[index].Return();
    }

    /** Finishes one action of a call, unless it has completed. */
    method FinishAction(a: nat, ghost was: seq<Latch>, ghost seen: set<nat>)
      requires Valid() && Latches() == Calls.ResolveAll(was, seen)
      modifies actions
      ensures Latches() == Calls.ResolveAll(was, seen + {a})
    {
      if a < |actions| {
        if !actions[a].isCompleted {
          ResolveAction(a, "finished", JObject([]));
        }
      }
      assert Latches() == Calls.ResolveAll(was, seen + {a});
    }

    /** Call::resolve_all_actions over the call's registry. */
    method ResolveAllActions(ref: nat)
      requires Valid() && ref < |owned|
      modifies this`owned, actions
      ensures actions == old(actions)
      ensures Latches() == Calls.ResolveAll(old(Latches()), old(owned[ref].actions.Values))
      ensures owned == old(owned)[ref := old(owned[ref]).(actions := map[])]
    {
      ghost var open := owned[ref].actions.Values;
      ghost var was := Latches();
      var left := owned[ref].actions.Keys;
      ghost var seen: set<nat> := {};
      while left != {}
        invariant owned == old(owned) && actions == old(actions) && left <= owned[ref].actions.Keys
        invariant seen == set control | control in owned[ref].actions && control !in left :: owned[ref].actions[control]
        invariant Latches() == Calls.ResolveAll(was, seen)
        decreases left
      {
        var control :| control in left;
        left := left - {control};
        FinishAction(owned[ref].actions[control], was, seen);
        seen := seen + {owned[ref].actions[control]};
      }
      assert seen == open;
      owned := owned[ref := owned[ref].(actions := map[])];
    }

    /** The early leg of a pending dial becomes a call. */
    method EnsureLeg(callId: string, node: string, tag: string)
      requires Valid()
      modifies this
      ensures Valid() && actions == old(actions) && RpcView() == old(RpcView())
      ensures calls - {callId} == old(calls) - {callId}
      ensures var s := old(CallsView());
              CallsView() == if tag != "" && tag in s.pendingDials && callId !in s.calls then
                               Calls.AddCall(s, Calls.Call(callId, node, "outbound", tag, "created", map[]))
                             else s
    {
      if tag != "" && tag in pendingDials && callId !in calls {
        var _ := RegisterCall(Calls.Call(callId, node, "outbound", tag, "created", map[]));
      }
    }

    method HandleCallState(callId: string, node: string, state: string, tag: string)
      requires Valid()
      modifies this, actions
      ensures Valid() && actions == old(actions) && RpcView() == old(RpcView())
      ensures CallsView() == Calls.Step(old(CallsView()), Calls.CallNews(callId, node, state, tag))
    {
      hide Calls.EndCall, Calls.Step;
      assert Calls.Step(CallsView(), Calls.CallNews(callId, node, state, tag))
          == Calls.CallNewsStep(CallsView(), callId, node, state, tag) by {
        StepIsCallNews(CallsView(), callId, node, state, tag);
      }
      if callId == "" {
        return;
      }
      EnsureLeg(callId, node, tag);
      if callId in calls && calls[callId] < |owned| {
        UpdateCallState(calls[callId], state);
        if state == "ended" {
          calls := calls - {callId};
        }
      }
    }

    /** Call::update_state: an ended call finishes the actions registered on it. */
    method UpdateCallState(ref: nat, state: string)
      requires Valid() && ref < |owned|
      modifies this`owned, actions
      ensures actions == old(actions)
      ensures state == "ended" ==> CallsView() == Calls.EndCall(old(CallsView()), ref)
      ensures state != "ended" ==>
                CallsView() == old(CallsView()).(owned := old(owned)[ref := old(owned)[ref].(state := state)])
    {
      hide Calls.ResolveAll;
      owned := owned[ref := owned[ref].(state := state)];
      if state == "ended" {
        ResolveAllActions(ref);
      }
    }

    // ---------------------------------------------------------------- actions

    method UnregisterAction(ref: nat, control: string)
      requires ref < |owned|
      modifies this`owned
      ensures CallsView() == Calls.Unregister(old(CallsView()), ref, control)
    {
      owned := owned[ref := owned[ref].(actions := owned[ref].actions - {control})];
    }

    method HandleComponentEvent(callId: string, control: string, eventType: string, state: string, params: seq<Field>)
      requires Valid()
      modifies this, actions
      ensures Valid() && actions == old(actions) && RpcView() == old(RpcView())
      ensures CallsView() ==
              Calls.Step(old(CallsView()), Calls.ComponentNews(callId, control, eventType, state, params))
    {
      hide Contains, Calls.Delivered;
      if callId == "" || callId !in calls || calls[callId] >= |owned| {
        return;
      }
      var ref := calls[callId];
      if control == "" || control !in owned[ref].actions || owned[ref].actions[control] >= |actions| {
        return;
      }
      var index := owned[ref].actions[control];
      var matches := actions[index].EventTypeMatches(eventType);
      if matches {
        var done := Deliver(index, state, params);
        if done {
          UnregisterAction(ref, control);
        }
      }
    }

    /** Routes an event to one action; says whether the action is to be unregistered. */
    method Deliver(index: nat, state: string, params: seq<Field>) returns (done: bool)
      requires Valid() && index < |actions|
      modifies actions[index]
      ensures var d := Calls.Delivered(old(actions[index].View()), state, params);
              Latches() == old(Latches())[index := d.0] && done == d.1
    {
      hide Contains;
      done := false;
      if actions[index].resolveOnDetect {
        if Contains(params, "detect") {
          ResolveAction(index, "finished", JObject(params));
          done := true;
        }
      } else if actions[index].resolveOnResult {
        if Contains(params, "result") {
          ResolveAction(index, "finished", JObject(params));
          done := true;
        } else if state != "" {
          UpdateAction(index, state, JObject(params));
        }
      } else {
        UpdateAction(index, state, JObject(params));
        assert actions[index].View() == Latches()[index];
        done := actions[index].isCompleted;
      }
    }

    /** Call::execute_action up to the start request. */
    method StartAction(ref: nat, control: string, kind: Kind)
      requires Valid()
      modifies this`owned, this`actions
      ensures Valid() && fresh(set a | a in actions && a !in old(actions))
      ensures CallsView() == Calls.Step(old(CallsView()), Calls.StartAction(ref, control, kind))
    {
      if ref < |owned| {
        var action := new Action(ref, control, kind);
        owned := owned[ref := owned[ref].(actions := owned[ref].actions[control := |actions|])];
        actions := actions + [action];
      }
    }

    /** Call::execute_action after the start request: `reply` is its code and result, or none
        when it threw. */
    method FinishStart(index: nat, reply: Option<(string, Json)>)
      requires Valid()
      modifies this`owned, actions
      ensures Valid() && actions == old(actions)
      ensures CallsView() == Calls.Step(old(CallsView()),
                if reply.Some? then Calls.ActionReply(index, reply.value.0, reply.value.1)
                else Calls.ActionThrew(index))
    {
      hide Calls.FailStep;
      if index >= |actions| || !actions[index].phase.Executing? {
        return;
      }
      if reply.None? {
        FailStart(index, "error", JObject([]));
      } else {
        var code := reply.value.0;
        if code == "404" || code == "410" {
          FailStart(index, "finished", JObject([]));
        } else if |code| >= 1 && code[0] != '2' {
          FailStart(index, "error", reply.value.1);
        } else {
          ReturnAction(index);
        }
      }
    }

    /** The failure branches of Call::execute_action: unregister, then resolve. */
    method FailStart(index: nat, finalState: string, result: Json)
      requires Valid() && index < |actions|
      modifies this`owned, actions
      ensures actions == old(actions)
      ensures CallsView() == Calls.FailStep(old(CallsView()), index, finalState, result)
    {
      var action := actions[index];
      if action.call < |owned| {
        UnregisterAction(action.call, action.control);
      }
      ResolveAction(index, finalState, result);
      assert actions[index].View() == Latches()[index];
      ReturnAction(index);
    }

    method ConfigureAction(index: nat)
      requires Valid()
      modifies actions
      ensures CallsView() == Calls.Step(old(CallsView()), Calls.Configure(index))
    {
      if index < |actions| && actions[index].phase.Returned? {
        actions[index].Configure();
      }
    }

    method OnCompleted(index: nat, cb: Option<nat>)
      requires Valid()
      modifies actions
      ensures CallsView() == Calls.Step(old(CallsView()), Calls.OnCompleted(index, cb))
    {
      if index < |actions| && actions[index].phase.Released? {
        actions[index].OnCompleted(cb);
      }
    }
  }
}
