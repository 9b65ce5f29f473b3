/** The call side of the RELAY client as a step machine: the registry of calls, pending dials,
    and the actions registered on each call. */
module RelayCalls {
  import opened Json
  import opened RelayAction

  /** A call object; calls are named by their position among all calls ever owned. */
  datatype Call = Call(
    id: string,
    node: string,
    direction: string,
    tag: string,
    state: string,
    actions: map<string, nat>)

  // A call of `dial`: its RPC is out, then it waits for the dial event, then it is done.
  datatype DialPhase = Dialing | Waiting | Done(result: Option<nat>)

  datatype Dial = Dial(phase: DialPhase, promise: Option<Option<nat>>)

  datatype State = State(
    pendingDials: set<string>,
    dials: map<string, Dial>,
    calls: map<string, nat>,
    owned: seq<Call>,
    actions: seq<Latch>)

  const INIT := State({}, map[], map[], [], [])

  datatype Event =
    | DialBegin(tag: string)
    | DialSent(tag: string)
    | DialError(tag: string)
    | DialTimeout(tag: string)
    | DialWake(tag: string)
    | DialNews(tag: string, dialState: string, callId: string, node: string)
    | Inbound(callId: string, node: string)
    | CallNews(callId: string, node: string, state: string, tag: string)
    | ComponentNews(callId: string, control: string, eventType: string, state: string, params: seq<Field>)
    | StartAction(call: nat, control: string, kind: Kind)
    | ActionReply(action: nat, code: string, result: Json)
    | ActionThrew(action: nat)
    | Configure(action: nat)
    | OnCompleted(action: nat, callback: Option<nat>)
    | Loss

  const EMPTY := JObject([])

  // ------------------------------------------------------------------ calls

  /** A new call enters the registry, replacing whatever had its id there. */
  function AddCall(s: State, c: Call): State {
    s.(owned := s.owned + [c], calls := s.calls[c.id := |s.owned|])
  }

  function InboundStep(s: State, callId: string, node: string): State {
    if callId == "" then s else AddCall(s, Call(callId, node, "inbound", "", "created", map[]))
  }

  /** The call registered under `callId`, or the one about to be created. */
  function LegFor(s: State, callId: string): nat {
    if callId in s.calls then s.calls[callId] else |s.owned|
  }

  /** Any event for a pending dial consumes it; only two states settle its promise. */
  function DialNewsStep(s: State, tag: string, dialState: string, callId: string, node: string): State {
    if tag !in s.pendingDials || tag !in s.dials then s
    else
      var s1 := s.(pendingDials := s.pendingDials - {tag});
      if dialState == "answered" then
        var s2 := if callId in s.calls then s1 else AddCall(s1, Call(callId, node, "outbound", tag, "answered", map[]));
        s2.(dials := s2.dials[tag := s2.dials[tag].(promise := Some(Some(LegFor(s, callId))))])
      else if dialState == "failed" then
        s1.(dials := s1.dials[tag := s1.dials[tag].(promise := Some(None))])
      else s1
  }

  /** The actions registered on a call are finished, except those already completed. */
  function ResolveAll(actions: seq<Latch>, open: set<nat>): (r: seq<Latch>)
    ensures |r| == |actions|
    ensures forall i :: 0 <= i < |r| ==>
              r[i] == if i in open && !actions[i].completed then actions[i].Resolved("finished", EMPTY) else actions[i]
  {
    seq(|actions|, i requires 0 <= i < |actions| =>
      if i in open && !actions[i].completed then actions[i].Resolved("finished", EMPTY) else actions[i])
  }

  function EndCall(s: State, c: nat): State
    requires c < |s.owned|
  {
    s.(owned := s.owned[c := s.owned[c].(state := "ended", actions := map[])],
       actions := ResolveAll(s.actions, s.owned[c].actions.Values))
  }

  function CallNewsStep(s: State, callId: string, node: string, state: string, tag: string): State {
    if callId == "" then s
    else
      var s1 := if tag != "" && tag in s.pendingDials && callId !in s.calls then
                  AddCall(s, Call(callId, node, "outbound", tag, "created", map[]))
                else s;
      if callId !in s1.calls || s1.calls[callId] >= |s1.owned| then s1
      else
        var c := s1.calls[callId];
        if state == "ended" then EndCall(s1, c).(calls := s1.calls - {callId})
        else s1.(owned := s1.owned[c := s1.owned[c].(state := state)])
  }

  // ------------------------------------------------------------------ actions

  function Unregister(s: State, c: nat, control: string): State
    requires c < |s.owned|
  {
    s.(owned := s.owned[c := s.owned[c].(actions := s.owned[c].actions - {control})])
  }

  function SetAction(s: State, a: nat, l: Latch): State
    requires a < |s.actions|
  {
    s.(actions := s.actions[a := l])
  }

  function StartStep(s: State, c: nat, control: string, kind: Kind): State {
    if c >= |s.owned| then s
    else
      s.(actions := s.actions + [NewLatch(c, control, kind)],
         owned := s.owned[c := s.owned[c].(actions := s.owned[c].actions[control := |s.actions|])])
  }

  /** The start call returned: a gone call finishes the action, any other failure errors it. */
  function FailStep(s: State, a: nat, finalState: string, result: Json): State
    requires a < |s.actions|
  {
    var l := s.actions[a];
    var s1 := if l.call < |s.owned| then Unregister(s, l.call, l.control) else s;
    SetAction(s1, a, l.Resolved(finalState, result).(phase := Returned))
  }

  function ActionReplyStep(s: State, a: nat, code: string, result: Json): State {
    if a >= |s.actions| || !s.actions[a].phase.Executing? then s
    else if code == "404" || code == "410" then FailStep(s, a, "finished", EMPTY)
    else if code != "" && code[0] != '2' then FailStep(s, a, "error", result)
    else SetAction(s, a, s.actions[a].(phase := Returned))
  }

  function ActionThrewStep(s: State, a: nat): State {
    if a >= |s.actions| || !s.actions[a].phase.Executing? then s else FailStep(s, a, "error", EMPTY)
  }

  /** The action a component event is routed to: registered on the call and filter passed. */
  function Target(s: State, callId: string, control: string, eventType: string): Option<nat> {
    if callId == "" || callId !in s.calls || s.calls[callId] >= |s.owned| then None
    else
      var m := s.owned[s.calls[callId]].actions;
      if control == "" || control !in m || m[control] >= |s.actions| then None
      else if s.actions[m[control]].Matches(eventType) then Some(m[control])
      else None
  }

  /** What the event does to the action, and whether it is unregistered. */
  function Delivered(l: Latch, state: string, params: seq<Field>): (Latch, bool) {
    if l.onDetect then
      if Contains(params, "detect") then (l.Resolved("finished", JObject(params)), true) else (l, false)
    else if l.onResult then
      if Contains(params, "result") then (l.Resolved("finished", JObject(params)), true)
      else if state != "" then (l.Updated(state, JObject(params)), false)
      else (l, false)
    else
      var l1 := l.Updated(state, JObject(params));
      (l1, l1.completed)
  }

  function ComponentStep(
    s: State, callId: string, control: string, eventType: string, state: string, params: seq<Field>): State
  {
    var t := Target(s, callId, control, eventType);
    if t.None? then s
    else
      var d := Delivered(s.actions[t.value], state, params);
      var s1 := SetAction(s, t.value, d.0);
      if d.1 then Unregister(s1, s.calls[callId], control) else s1
  }

  // ------------------------------------------------------------------ the machine

  function SettleDial(d: Dial): Dial {
    if d.promise.None? then d.(promise := Some(None)) else d
  }

  function FinishDial(s: State, tag: string, result: Option<nat>): State
    requires tag in s.dials
  {
    s.(pendingDials := s.pendingDials - {tag}, dials := s.dials[tag := s.dials[tag].(phase := Done(result))])
  }

  function Step(s: State, e: Event): State {
    match e
    case DialBegin(tag) => s.(pendingDials := s.pendingDials + {tag}, dials := s.dials[tag := Dial(Dialing, None)])
    case DialSent(tag) =>
      if tag in s.dials && s.dials[tag].phase.Dialing? then
        s.(dials := s.dials[tag := s.dials[tag].(phase := Waiting)])
      else s
    case DialError(tag) =>
      if tag in s.dials && s.dials[tag].phase.Dialing? then FinishDial(s, tag, None) else s
    case DialTimeout(tag) =>
      if tag in s.dials && s.dials[tag].phase.Waiting? && s.dials[tag].promise.None? then
        FinishDial(s, tag, None)
      else s
    case DialWake(tag) =>
      if tag in s.dials && s.dials[tag].phase.Waiting? && s.dials[tag].promise.Some? then
        FinishDial(s, tag, s.dials[tag].promise.value)
      else s
    case DialNews(tag, st, callId, node) => DialNewsStep(s, tag, st, callId, node)
    case Inbound(callId, node) => InboundStep(s, callId, node)
    case CallNews(callId, node, st, tag) => CallNewsStep(s, callId, node, st, tag)
    case ComponentNews(callId, control, eventType, st, params) =>
      ComponentStep(s, callId, control, eventType, st, params)
    case StartAction(c, control, kind) => StartStep(s, c, control, kind)
    case ActionReply(a, code, result) => ActionReplyStep(s, a, code, result)
    case ActionThrew(a) => ActionThrewStep(s, a)
    case Configure(a) =>
      if a < |s.actions| && s.actions[a].phase.Returned? then SetAction(s, a, s.actions[a].Configured()) else s
    case OnCompleted(a, cb) =>
      if a < |s.actions| && s.actions[a].phase.Released? then SetAction(s, a, s.actions[a].WithCallback(cb)) else s
    case Loss =>
      s.(pendingDials := {},
         dials := map tag | tag in s.dials :: if tag in s.pendingDials then SettleDial(s.dials[tag]) else s.dials[tag])
  }

  function Run(es: seq<Event>): State {
    if es == [] then INIT else Step(Run(es[..|es| - 1]), es[|es| - 1])
  }
}
