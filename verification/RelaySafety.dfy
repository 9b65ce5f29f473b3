/** Whole-run properties of the call side of the RELAY client: registry safety and exactly-once
    completion callbacks. */
module RelaySafety {
  import opened Json
  import opened RelayAction
  import opened RelayCalls
  import opened Lists

  // ------------------------------------------------------------------ registry safety

  /** Every registered call is owned, carries the id it is registered under, and has not ended. */
  predicate RegistrySafe(s: State) {
    forall id :: id in s.calls ==>
      s.calls[id] < |s.owned| && s.owned[s.calls[id]].id == id && s.owned[s.calls[id]].state != "ended"
  }

  /** The registry is untouched and no call changes its id or its state. */
  predicate SameCalls(s: State, s': State) {
    s'.calls == s.calls && |s'.owned| == |s.owned|
    && forall c :: 0 <= c < |s.owned| ==> s'.owned[c].id == s.owned[c].id && s'.owned[c].state == s.owned[c].state
  }

  lemma {:induction false} ActionEventsKeepCalls(s: State, e: Event)
    requires !e.CallNews? && !e.DialNews? && !e.Inbound?
    ensures SameCalls(s, Step(s, e))
  {
    hide Delivered;
  }

  lemma {:induction false} RegistryStep(s: State, e: Event)
    requires RegistrySafe(s)
    ensures RegistrySafe(Step(s, e))
  {
    hide CallNewsStep, DialNewsStep, ComponentStep, StartStep, ActionReplyStep, ActionThrewStep;
    match e {
      case CallNews(callId, node, st, tag) => CallNewsSafe(s, callId, node, st, tag);
      case DialNews(tag, st, callId, node) => DialNewsSafe(s, tag, st, callId, node);
      case Inbound(callId, node) => AddCallSafe(s, Call(callId, node, "inbound", "", "created", map[]));
      case _ => ActionEventsKeepCalls(s, e);
    }
  }

  lemma {:induction false} AddCallSafe(s: State, c: Call)
    requires RegistrySafe(s) && c.state != "ended"
    ensures RegistrySafe(AddCall(s, c))
  {
  }

  lemma {:induction false} DialNewsSafe(s: State, tag: string, st: string, callId: string, node: string)
    requires RegistrySafe(s)
    ensures RegistrySafe(DialNewsStep(s, tag, st, callId, node))
  {
    hide AddCall;
    var s1 := s.(pendingDials := s.pendingDials - {tag});
    AddCallSafe(s1, Call(callId, node, "outbound", tag, "answered", map[]));
  }

  lemma {:induction false} CallNewsSafe(s: State, callId: string, node: string, st: string, tag: string)
    requires RegistrySafe(s)
    ensures RegistrySafe(CallNewsStep(s, callId, node, st, tag))
  {
    hide AddCall, ResolveAll;
    var c := Call(callId, node, "outbound", tag, "created", map[]);
    AddCallSafe(s, c);
    var s1 := if tag != "" && tag in s.pendingDials && callId !in s.calls then AddCall(s, c) else s;
    assert RegistrySafe(s1);
    assert forall id :: id in s1.calls && callId in s1.calls && s1.calls[id] == s1.calls[callId] ==> id == callId;
    assert st == "ended" ==> s1.calls - {callId} == s.calls - {callId} by {
      AddedKey(s, c);
    }
  }

  lemma {:induction false} AddedKey(s: State, c: Call)
    ensures AddCall(s, c).calls - {c.id} == s.calls - {c.id}
  {
  }

  /** In every reachable state each registered call is owned and not ended. */
  lemma {:induction false} RegistryAlwaysSafe(es: seq<Event>)
    ensures RegistrySafe(Run(es))
  {
    hide Step;
    if es != [] {
      RegistryAlwaysSafe(es[..|es| - 1]);
      RegistryStep(Run(es[..|es| - 1]), es[|es| - 1]);
    }
  }

  // ------------------------------------------------------------------ exactly-once completion

  /** Every registered action is open, or is a collect action waiting for its result. */
  predicate RegisteredOpen(s: State) {
    forall c, control :: 0 <= c < |s.owned| && control in s.owned[c].actions ==>
      var a := s.owned[c].actions[control];
      a < |s.actions| && s.actions[a].call == c && s.actions[a].control == control
      && (s.actions[a].completed ==> s.actions[a].onResult)
  }

  /** What holds of every latch: no callback before the action is handed out, only collect
      actions resolve on results, callbacks run only after completion, and a completed action's
      callback has run. */
  predicate LatchOk(l: Latch) {
    (!l.phase.Released? ==> l.callback.None? && l.runs == [] && !l.onResult && !l.onDetect && l.filter == [])
    && (l.onResult ==> l.kind.Collect?) && (l.onDetect ==> l.kind.Detect?)
    && (l.runs != [] ==> l.completed)
    && (l.completed && l.callback.Some? ==> l.callback.value in l.runs)
  }

  predicate LatchesOk(s: State) {
    forall a :: 0 <= a < |s.actions| ==> LatchOk(s.actions[a])
  }

  lemma {:induction false} LatchOps(l: Latch, st: string, r: Json, cb: Option<nat>)
    requires LatchOk(l)
    ensures LatchOk(l.Updated(st, r)) && LatchOk(l.Resolved(st, r))
    ensures l.phase.Released? ==> LatchOk(l.WithCallback(cb))
    ensures l.phase.Returned? ==> LatchOk(l.Configured())
    ensures !l.phase.Released? ==> LatchOk(l.(phase := Returned)) && LatchOk(l.Resolved(st, r).(phase := Returned))
  {
  }

  lemma {:induction false} DeliveredOk(l: Latch, st: string, params: seq<Field>)
    requires LatchOk(l)
    ensures LatchOk(Delivered(l, st, params).0)
  {
    hide LatchOk, Contains;
    LatchOps(l, "finished", JObject(params), None);
    LatchOps(l, st, JObject(params), None);
  }

  lemma {:induction false} ResolveAllOk(s: State, open: set<nat>)
    requires LatchesOk(s)
    ensures forall l :: l in ResolveAll(s.actions, open) ==> LatchOk(l)
  {
    hide LatchOk;
    forall i | 0 <= i < |s.actions|
      ensures LatchOk(ResolveAll(s.actions, open)[i])
    {
      LatchOps(s.actions[i], "finished", EMPTY, None);
    }
  }

  lemma {:induction false} CallNewsLatchesOk(s: State, callId: string, node: string, st: string, tag: string)
    requires LatchesOk(s)
    ensures LatchesOk(CallNewsStep(s, callId, node, st, tag))
  {
    hide CallNewsStep, LatchOk, ResolveAll;
    CallNewsLatches(s, callId, node, st, tag);
    if callId in s.calls && s.calls[callId] < |s.owned| {
      ResolveAllOk(s, s.owned[s.calls[callId]].actions.Values);
    }
  }

  lemma {:induction false} ComponentLatchesOk(
    s: State, callId: string, control: string, eventType: string, st: string, params: seq<Field>)
    requires LatchesOk(s)
    ensures LatchesOk(ComponentStep(s, callId, control, eventType, st, params))
  {
    hide LatchOk, Delivered, Target;
    var t := Target(s, callId, control, eventType);
    if t.Some? {
      TargetExists(s, callId, control, eventType);
      DeliveredOk(s.actions[t.value], st, params);
    }
  }

  lemma {:induction false} ReplyLatchesOk(s: State, a: nat, code: string, result: Json)
    requires LatchesOk(s)
    ensures LatchesOk(ActionReplyStep(s, a, code, result)) && LatchesOk(ActionThrewStep(s, a))
  {
    hide LatchOk;
    if a < |s.actions| {
      LatchOps(s.actions[a], "finished", EMPTY, None);
      LatchOps(s.actions[a], "error", result, None);
      LatchOps(s.actions[a], "error", EMPTY, None);
    }
  }

  lemma {:induction false} LatchesStep(s: State, e: Event)
    requires LatchesOk(s)
    ensures LatchesOk(Step(s, e))
  {
    hide LatchOk, DialNewsStep, CallNewsStep, ComponentStep, ActionReplyStep, ActionThrewStep;
    match e {
      case DialNews(tag, st, callId, node) => DialKeepsActions(s, tag, st, callId, node);
      case CallNews(callId, node, st, tag) => CallNewsLatchesOk(s, callId, node, st, tag);
      case ComponentNews(callId, control, eventType, st, params) =>
        ComponentLatchesOk(s, callId, control, eventType, st, params);
      case StartAction(c, control, kind) => NewLatchOk(c, control, kind);
      case ActionReply(a, code, result) => ReplyLatchesOk(s, a, code, result);
      case ActionThrew(a) => ReplyLatchesOk(s, a, "", EMPTY);
      case Configure(a) => if a < |s.actions| { LatchOps(s.actions[a], "", EMPTY, None); }
      case OnCompleted(a, cb) => if a < |s.actions| { LatchOps(s.actions[a], "", EMPTY, cb); }
      case _ =>
    }
  }

  lemma {:induction false} NewLatchOk(c: nat, control: string, kind: Kind)
    ensures LatchOk(NewLatch(c, control, kind))
  {
  }

  lemma {:induction false} TargetExists(s: State, callId: string, control: string, eventType: string)
    ensures var t := Target(s, callId, control, eventType);
            t.Some? ==> t.value < |s.actions| && callId in s.calls && s.calls[callId] < |s.owned|
                        && control in s.owned[s.calls[callId]].actions
                        && s.owned[s.calls[callId]].actions[control] == t.value
                        && s.actions[t.value].Matches(eventType)
  {
  }

  /** The only way a call-state event touches actions is by ending a call. */
  lemma {:induction false} CallNewsLatches(s: State, callId: string, node: string, st: string, tag: string)
    ensures var s' := CallNewsStep(s, callId, node, st, tag);
            s'.actions == s.actions
            || (callId in s.calls && s.calls[callId] < |s.owned| && st == "ended"
                && s'.actions == ResolveAll(s.actions, s.owned[s.calls[callId]].actions.Values))
  {
    assert ResolveAll(s.actions, {}) == s.actions;
    assert Call(callId, node, "outbound", tag, "created", map[]).actions.Values == {};
  }

  lemma {:induction false} RegisteredStep(s: State, e: Event)
    requires LatchesOk(s) && RegisteredOpen(s)
    ensures RegisteredOpen(Step(s, e))
  {
    hide RegisteredOpen, LatchesOk, FailStep;
    match e {
      case CallNews(callId, node, st, tag) => CallNewsOpen(s, callId, node, st, tag);
      case ComponentNews(callId, control, eventType, st, params) =>
        ComponentOpen(s, callId, control, eventType, st, params);
      case ActionReply(a, code, result) => ActionReplyOpen(s, a, code, result);
      case ActionThrew(a) => if a < |s.actions| { FailOpen(s, a, "error", EMPTY); }
      case Configure(a) => ConfigureOpen(s, a);
      case _ => OtherOpen(s, e);
    }
  }

  lemma {:induction false} OtherOpen(s: State, e: Event)
    requires RegisteredOpen(s)
    requires !e.CallNews? && !e.ComponentNews? && !e.ActionReply? && !e.ActionThrew? && !e.Configure?
    ensures RegisteredOpen(Step(s, e))
  {
    hide CallNewsStep, ComponentStep, FailStep, ActionReplyStep, ActionThrewStep;
  }

  lemma {:induction false} ConfigureOpen(s: State, a: nat)
    requires LatchesOk(s) && RegisteredOpen(s)
    ensures RegisteredOpen(Step(s, Configure(a)))
  {
    if a < |s.actions| && s.actions[a].phase.Returned? {
      assert LatchOk(s.actions[a]);
    }
  }

  lemma {:induction false} ActionReplyOpen(s: State, a: nat, code: string, result: Json)
    requires RegisteredOpen(s)
    ensures RegisteredOpen(ActionReplyStep(s, a, code, result))
  {
    hide FailStep;
    if a < |s.actions| {
      FailOpen(s, a, "finished", EMPTY);
      FailOpen(s, a, "error", result);
    }
  }

  lemma {:induction false} FailOpen(s: State, a: nat, finalState: string, result: Json)
    requires RegisteredOpen(s) && a < |s.actions|
    ensures RegisteredOpen(FailStep(s, a, finalState, result))
  {
  }

  lemma {:induction false} DeliveredKeeps(l: Latch, st: string, params: seq<Field>)
    requires l.completed ==> l.onResult
    ensures var d := Delivered(l, st, params);
            d.0.call == l.call && d.0.control == l.control && d.0.kind == l.kind && d.0.onResult == l.onResult
            && d.0.phase == l.phase && d.0.callback == l.callback
            && (d.0.completed && !d.1 ==> d.0.onResult) && (l.completed ==> d.0.completed)
  {
  }

  lemma {:induction false} ComponentOpen(
    s: State, callId: string, control: string, eventType: string, st: string, params: seq<Field>)
    requires RegisteredOpen(s) && LatchesOk(s)
    ensures RegisteredOpen(ComponentStep(s, callId, control, eventType, st, params))
  {
    hide Delivered, Target, LatchesOk;
    var t := Target(s, callId, control, eventType);
    if t.Some? {
      TargetExists(s, callId, control, eventType);
      DeliveredKeeps(s.actions[t.value], st, params);
    }
  }

  lemma {:induction false} CallNewsOpen(s: State, callId: string, node: string, st: string, tag: string)
    requires RegisteredOpen(s)
    ensures RegisteredOpen(CallNewsStep(s, callId, node, st, tag))
  {
    hide ResolveAll;
    var c := Call(callId, node, "outbound", tag, "created", map[]);
    var s1 := if tag != "" && tag in s.pendingDials && callId !in s.calls then AddCall(s, c) else s;
    assert RegisteredOpen(s1);
    if callId != "" && callId in s1.calls && s1.calls[callId] < |s1.owned| && st == "ended" {
      EndCallOpen(s1, s1.calls[callId]);
    }
  }

  lemma {:induction false} EndCallOpen(s: State, c: nat)
    requires RegisteredOpen(s) && c < |s.owned|
    ensures RegisteredOpen(EndCall(s, c))
  {
    var s' := EndCall(s, c);
    forall c', control | 0 <= c' < |s'.owned| && control in s'.owned[c'].actions
      ensures var a := s'.owned[c'].actions[control];
              a < |s'.actions| && s'.actions[a].call == c' && s'.actions[a].control == control
              && (s'.actions[a].completed ==> s'.actions[a].onResult)
    {
      assert c' != c && control in s.owned[c'].actions;
      var a := s.owned[c'].actions[control];
      assert s.actions[a].call == c';
    }
  }

  /** The collect action `a` is already completed, still registered, and the event carries a
      result or a terminal state: its callback runs again. */
  ghost predicate FiresAgain(s: State, e: Event, a: nat) {
    e.ComponentNews? && Target(s, e.callId, e.control, e.eventType) == Some(a) && a < |s.actions|
    && var l := s.actions[a];
       l.completed && l.callback.Some? && (Contains(e.params, "result") || IsTerminal(e.state))
  }

  predicate IsFreshFor(e: Event, l: Latch) {
    e.OnCompleted? && e.callback.Some? ==> e.callback.value !in l.runs
  }

  /** One latch operation appends at most one run, and never a repeated one, unless the latch is
      completed already. */
  lemma {:induction false} LatchRuns(l: Latch, st: string, r: Json)
    requires LatchOk(l)
    ensures !l.completed ==> (Distinct(l.runs) <==> Distinct(l.Resolved(st, r).runs))
                             && (Distinct(l.runs) <==> Distinct(l.Updated(st, r).runs))
    ensures l.completed && l.callback.Some? ==> !Distinct(l.Resolved(st, r).runs)
                                                && (IsTerminal(st) ==> !Distinct(l.Updated(st, r).runs))
    ensures l.callback.None? ==> l.Resolved(st, r).runs == l.runs && l.Updated(st, r).runs == l.runs
    ensures !IsTerminal(st) ==> l.Updated(st, r).runs == l.runs
  {
    hide Distinct;
    if l.callback.Some? {
      DistinctSnoc(l.runs, l.callback.value);
    }
    EmptyDistinct();
  }

  lemma {:induction false} EmptyDistinct()
    ensures Distinct<nat>([])
  {
  }

  lemma {:induction false} DeliveredRuns(l: Latch, st: string, params: seq<Field>)
    requires LatchOk(l) && (l.completed ==> l.onResult)
    ensures var fires := l.completed && l.callback.Some? && (Contains(params, "result") || IsTerminal(st));
            Distinct(Delivered(l, st, params).0.runs) <==> Distinct(l.runs) && !fires
  {
    hide Distinct, Contains;
    LatchRuns(l, "finished", JObject(params));
    LatchRuns(l, st, JObject(params));
  }

  /** One step keeps the runs of action `a` free of repetitions exactly if it does not fire a
      completed action again. */
  lemma {:induction false} RunsStep(s: State, e: Event, a: nat)
    requires LatchesOk(s) && RegisteredOpen(s) && a < |s.actions| && IsFreshFor(e, s.actions[a])
    ensures a < |Step(s, e).actions|
    ensures Distinct(Step(s, e).actions[a].runs) <==> Distinct(s.actions[a].runs) && !FiresAgain(s, e, a)
  {
    hide Delivered, Target, ResolveAll, LatchOk, Distinct, RegisteredOpen, IsTerminal, Contains;
    var l := s.actions[a];
    assert LatchOk(l);
    match e {
      case CallNews(callId, node, st, tag) =>
        CallNewsLatches(s, callId, node, st, tag);
        LatchRuns(l, "finished", EMPTY);
      case ComponentNews(callId, control, eventType, st, params) =>
        TargetExists(s, callId, control, eventType);
        assert l.completed && Target(s, callId, control, eventType) == Some(a) ==> l.onResult by {
          TargetOpen(s, callId, control, eventType);
        }
        if Target(s, callId, control, eventType) == Some(a) {
          DeliveredRuns(l, st, params);
        }
      case ActionReply(b, code, result) => FailRuns(s, e, a);
      case ActionThrew(b) => FailRuns(s, e, a);
      case OnCompleted(b, cb) =>
        if cb.Some? { DistinctSnoc(l.runs, cb.value); }
      case _ =>
    }
  }

  lemma {:induction false} TargetOpen(s: State, callId: string, control: string, eventType: string)
    requires RegisteredOpen(s)
    ensures var t := Target(s, callId, control, eventType);
            t.Some? && t.value < |s.actions| && s.actions[t.value].completed ==> s.actions[t.value].onResult
  {
  }

  /** The start call's reply finds no callback. */
  lemma {:induction false} FailRuns(s: State, e: Event, a: nat)
    requires LatchesOk(s) && a < |s.actions| && (e.ActionReply? || e.ActionThrew?)
    ensures a < |Step(s, e).actions| && Step(s, e).actions[a].runs == s.actions[a].runs
  {
    assert e.action < |s.actions| ==> LatchOk(s.actions[e.action]);
  }

  // ------------------------------------------------------------------ over whole runs

  predicate SetsCallback(e: Event, c: nat) {
    e.OnCompleted? && e.callback == Some(c)
  }

  /** Every registered callback has its own name. */
  ghost predicate FreshCallbacks(es: seq<Event>) {
    forall i, j, c :: 0 <= i < j < |es| && SetsCallback(es[i], c) ==> !SetsCallback(es[j], c)
  }

  ghost predicate Used(es: seq<Event>, c: nat) {
    exists i :: 0 <= i < |es| && SetsCallback(es[i], c)
  }

  ghost predicate NamesUsed(l: Latch, es: seq<Event>) {
    (l.callback.Some? ==> Used(es, l.callback.value)) && forall c :: c in l.runs ==> Used(es, c)
  }

  lemma {:induction false} UsedGrows(es: seq<Event>, c: nat)
    requires es != []
    ensures Used(es, c) <==> Used(es[..|es| - 1], c) || SetsCallback(es[|es| - 1], c)
  {
    var before := es[..|es| - 1];
    if Used(before, c) {
      var i :| 0 <= i < |before| && SetsCallback(before[i], c);
      assert SetsCallback(es[i], c);
    }
  }

  /** A latch keeps its callback, and may have run it once more. */
  predicate RanOwn(l: Latch, l': Latch) {
    l'.callback == l.callback
    && (l'.runs == l.runs || (l'.callback.Some? && l'.runs == l.runs + [l'.callback.value]))
  }

  lemma {:induction false} CallNewsNames(s: State, callId: string, node: string, st: string, tag: string, a: nat)
    requires a < |s.actions|
    ensures var s' := CallNewsStep(s, callId, node, st, tag);
            |s'.actions| == |s.actions| && RanOwn(s.actions[a], s'.actions[a])
  {
    hide CallNewsStep;
    CallNewsLatches(s, callId, node, st, tag);
  }

  lemma {:induction false} ComponentNames(s: State, callId: string, control: string, eventType: string, st: string,
                                          params: seq<Field>, a: nat)
    requires a < |s.actions|
    ensures var s' := ComponentStep(s, callId, control, eventType, st, params);
            |s'.actions| == |s.actions| && RanOwn(s.actions[a], s'.actions[a])
  {
    hide Target, Contains;
    TargetExists(s, callId, control, eventType);
  }

  /** Latches only ever run the callback they hold. */
  lemma {:induction false} LatchNames(s: State, e: Event, a: nat)
    requires a < |Step(s, e).actions|
    ensures a >= |s.actions| ==> Step(s, e).actions[a].callback == None && Step(s, e).actions[a].runs == []
    ensures a < |s.actions| ==>
              var l, l' := s.actions[a], Step(s, e).actions[a];
              RanOwn(l, l') || (e.OnCompleted? && RanOwn(l.(callback := e.callback), l'))
  {
    hide CallNewsStep, ComponentStep, DialNewsStep, InboundStep, StartStep, ActionReplyStep, ActionThrewStep, RanOwn;
    match e {
      case CallNews(callId, node, st, tag) => CallNewsLatches(s, callId, node, st, tag);
        if a < |s.actions| { CallNewsNames(s, callId, node, st, tag, a); }
      case ComponentNews(callId, control, eventType, st, params) => ActionsKept(s, e);
        if a < |s.actions| { ComponentNames(s, callId, control, eventType, st, params, a); }
      case OnCompleted(b, cb) => if a < |s.actions| { CallbackNames(s.actions[a], cb); }
      case _ => OtherNames(s, e, a);
    }
  }

  lemma {:induction false} CallbackNames(l: Latch, cb: Option<nat>)
    ensures RanOwn(l, l) && RanOwn(l.(callback := cb), l.WithCallback(cb))
  {
  }

  lemma {:induction false} FailNames(s: State, b: nat, st: string, r: Json, a: nat)
    requires b < |s.actions| && a < |s.actions|
    ensures |FailStep(s, b, st, r).actions| == |s.actions| && RanOwn(s.actions[a], FailStep(s, b, st, r).actions[a])
  {
  }

  lemma {:induction false} OtherNames(s: State, e: Event, a: nat)
    requires a < |Step(s, e).actions| && !e.CallNews? && !e.ComponentNews? && !e.OnCompleted?
    ensures a >= |s.actions| ==> Step(s, e).actions[a].callback == None && Step(s, e).actions[a].runs == []
    ensures a < |s.actions| ==> RanOwn(s.actions[a], Step(s, e).actions[a])
  {
    hide DialNewsStep, CallNewsStep, ComponentStep, StartStep, ActionReplyStep, ActionThrewStep;
    match e {
      case StartAction(c, control, kind) => StartNames(s, c, control, kind, a);
      case ActionReply(b, code, r) =>
        ReplyCount(s, b, code, r);
        if a < |s.actions| { ReplyNames(s, b, code, r, a); }
      case ActionThrew(b) =>
        ReplyCount(s, b, "", EMPTY);
        if a < |s.actions| { ReplyNames(s, b, "", EMPTY, a); }
      case DialNews(tag, st, callId, node) => DialKeepsActions(s, tag, st, callId, node);
      case _ =>
    }
  }

  lemma {:induction false} StartNames(s: State, c: nat, control: string, kind: Kind, a: nat)
    requires a < |StartStep(s, c, control, kind).actions|
    ensures var s' := StartStep(s, c, control, kind);
            && (a >= |s.actions| ==> s'.actions[a].callback == None && s'.actions[a].runs == [])
            && (a < |s.actions| ==> s'.actions[a] == s.actions[a])
  {
  }

  lemma {:induction false} ReplyCount(s: State, b: nat, code: string, r: Json)
    ensures |ActionReplyStep(s, b, code, r).actions| == |s.actions| == |ActionThrewStep(s, b).actions|
  {
  }

  lemma {:induction false} ReplyNames(s: State, b: nat, code: string, r: Json, a: nat)
    requires a < |s.actions|
    ensures var s', t' := ActionReplyStep(s, b, code, r), ActionThrewStep(s, b);
            && |s'.actions| == |s.actions| && RanOwn(s.actions[a], s'.actions[a])
            && |t'.actions| == |s.actions| && RanOwn(s.actions[a], t'.actions[a])
  {
    hide FailStep;
    if b < |s.actions| {
      FailNames(s, b, "finished", EMPTY, a);
      FailNames(s, b, "error", r, a);
      FailNames(s, b, "error", EMPTY, a);
    }
  }

  lemma {:induction false} DialKeepsActions(s: State, tag: string, st: string, callId: string, node: string)
    ensures DialNewsStep(s, tag, st, callId, node).actions == s.actions
  {
  }

  lemma {:induction false} ActionsKept(s: State, e: Event)
    requires e.ComponentNews?
    ensures |Step(s, e).actions| == |s.actions|
  {
    hide Delivered;
  }

  ghost predicate Reachable(s: State, es: seq<Event>) {
    LatchesOk(s) && RegisteredOpen(s) && forall a :: 0 <= a < |s.actions| ==> NamesUsed(s.actions[a], es)
  }

  lemma {:induction false} NamesStep(s: State, es: seq<Event>, a: nat)
    requires es != [] && a < |Step(s, es[|es| - 1]).actions|
    requires a < |s.actions| ==> NamesUsed(s.actions[a], es[..|es| - 1])
    ensures NamesUsed(Step(s, es[|es| - 1]).actions[a], es)
  {
    hide Used, Step;
    var e := es[|es| - 1];
    LatchNames(s, e, a);
    forall c
      ensures Used(es[..|es| - 1], c) || SetsCallback(e, c) ==> Used(es, c)
    {
      UsedGrows(es, c);
    }
  }

  lemma {:induction false} RunReachable(es: seq<Event>)
    ensures Reachable(Run(es), es)
  {
    hide Step, LatchesOk, RegisteredOpen, NamesUsed;
    if es == [] {
      assert LatchesOk(INIT) && RegisteredOpen(INIT) by { InitOk(); }
    } else {
      var before := es[..|es| - 1];
      RunReachable(before);
      LatchesStep(Run(before), es[|es| - 1]);
      RegisteredStep(Run(before), es[|es| - 1]);
      forall a | 0 <= a < |Run(es).actions|
        ensures NamesUsed(Run(es).actions[a], es)
      {
        NamesStep(Run(before), es, a);
      }
    }
  }

  lemma {:induction false} InitOk()
    ensures LatchesOk(INIT) && RegisteredOpen(INIT)
  {
  }

  /** Does some event of the run fire action `a` again? */
  ghost predicate EverFiresAgain(es: seq<Event>, a: nat) {
    exists n :: 0 <= n < |es| && FiresAgain(Run(es[..n]), es[n], a)
  }

  lemma {:induction false} FiresSooner(es: seq<Event>, a: nat)
    requires es != []
    ensures EverFiresAgain(es, a)
       <==> EverFiresAgain(es[..|es| - 1], a) || FiresAgain(Run(es[..|es| - 1]), es[|es| - 1], a)
  {
    hide FiresAgain, Run;
    var m := |es| - 1;
    assert forall n :: 0 <= n <= m ==> es[..m][..n] == es[..n];
    if EverFiresAgain(es[..m], a) {
      var n :| 0 <= n < m && FiresAgain(Run(es[..m][..n]), es[..m][n], a);
      assert FiresAgain(Run(es[..n]), es[n], a);
    }
  }

  /** Exactly-once completion.  In every interleaving of starts, replies, component events, call
      ends and callback registrations, no callback of an action runs twice if and only if no
      event reaches the action as a completed collect action carrying a result or a terminal
      state. */
  lemma {:induction false} CallbackRunsOnce(es: seq<Event>, a: nat)
    requires FreshCallbacks(es) && a < |Run(es).actions|
    ensures Distinct(Run(es).actions[a].runs) <==> !EverFiresAgain(es, a)
  {
    hide Step, Distinct, FiresAgain, EverFiresAgain, LatchesOk, RegisteredOpen, NamesUsed;
    if es != [] {
      var before, e := es[..|es| - 1], es[|es| - 1];
      var s := Run(before);
      FiresSooner(es, a);
      RunReachable(before);
      if a < |s.actions| {
        CallbackRunsOnce(before, a);
        assert IsFreshFor(e, s.actions[a]) by { FreshNext(es, s.actions[a]); }
        RunsStep(s, e, a);
      } else {
        LatchNames(s, e, a);
        EmptyDistinct();
        NotBorn(before, a);
        assert !FiresAgain(s, e, a) by { NoTarget(s, e, a); }
      }
    }
  }

  lemma {:induction false} FreshNext(es: seq<Event>, l: Latch)
    requires FreshCallbacks(es) && es != [] && NamesUsed(l, es[..|es| - 1])
    ensures IsFreshFor(es[|es| - 1], l)
  {
    var e := es[|es| - 1];
    if e.OnCompleted? && e.callback.Some? && e.callback.value in l.runs {
      var i :| 0 <= i < |es| - 1 && SetsCallback(es[..|es| - 1][i], e.callback.value);
      assert SetsCallback(es[i], e.callback.value) && SetsCallback(es[|es| - 1], e.callback.value);
    }
  }

  lemma {:induction false} NoTarget(s: State, e: Event, a: nat)
    requires a >= |s.actions|
    ensures !FiresAgain(s, e, a)
  {
  }

  lemma {:induction false} ActionsGrow(s: State, e: Event)
    ensures |s.actions| <= |Step(s, e).actions|
  {
    hide Delivered, ResolveAll;
  }

  lemma {:induction false} NotBorn(es: seq<Event>, a: nat)
    requires a >= |Run(es).actions|
    ensures !EverFiresAgain(es, a)
  {
    hide Step, FiresAgain, EverFiresAgain;
    if es == [] {
      assert !EverFiresAgain([], a) by { NothingYet(a); }
    } else {
      var before := es[..|es| - 1];
      ActionsGrow(Run(before), es[|es| - 1]);
      NotBorn(before, a);
      NoTarget(Run(before), es[|es| - 1], a);
      FiresSooner(es, a);
    }
  }

  lemma {:induction false} NothingYet(a: nat)
    ensures !EverFiresAgain([], a)
  {
  }

  /** A play-type or detect action runs each callback at most once, whatever happens. */
  lemma {:induction false} PlayAndDetectRunOnce(es: seq<Event>, a: nat)
    requires FreshCallbacks(es) && a < |Run(es).actions| && !Run(es).actions[a].kind.Collect?
    ensures Distinct(Run(es).actions[a].runs)
  {
    hide Distinct;
    CallbackRunsOnce(es, a);
    NeverAgain(es, a);
  }

  lemma {:induction false} KindKept(s: State, e: Event, a: nat)
    requires a < |s.actions|
    ensures a < |Step(s, e).actions| && Step(s, e).actions[a].kind == s.actions[a].kind
    ensures s.actions[a].completed ==> Step(s, e).actions[a].completed
  {
    hide CallNewsStep, ComponentStep, DialNewsStep, FailStep, Contains;
    match e {
      case CallNews(callId, node, st, tag) => CallNewsLatches(s, callId, node, st, tag);
      case ComponentNews(callId, control, eventType, st, params) => ComponentKind(s, e, a);
      case DialNews(tag, st, callId, node) => DialKeepsActions(s, tag, st, callId, node);
      case ActionReply(b, code, r) =>
        if b < |s.actions| { FailKind(s, b, "finished", EMPTY, a); FailKind(s, b, "error", r, a); }
      case ActionThrew(b) => if b < |s.actions| { FailKind(s, b, "error", EMPTY, a); }
      case _ =>
    }
  }

  lemma {:induction false} FailKind(s: State, b: nat, st: string, r: Json, a: nat)
    requires b < |s.actions| && a < |s.actions|
    ensures |FailStep(s, b, st, r).actions| == |s.actions|
    ensures FailStep(s, b, st, r).actions[a].kind == s.actions[a].kind
    ensures s.actions[a].completed ==> FailStep(s, b, st, r).actions[a].completed
  {
  }

  lemma {:induction false} ComponentKind(s: State, e: Event, a: nat)
    requires e.ComponentNews? && a < |s.actions|
    ensures |Step(s, e).actions| == |s.actions| && Step(s, e).actions[a].kind == s.actions[a].kind
    ensures s.actions[a].completed ==> Step(s, e).actions[a].completed
  {
    hide Target, Contains;
    TargetExists(s, e.callId, e.control, e.eventType);
  }

  /** No action ever becomes incomplete again. */
  lemma {:induction false} CompletionIsFinal(es: seq<Event>, more: seq<Event>, a: nat)
    requires a < |Run(es).actions| && Run(es).actions[a].completed
    ensures a < |Run(es + more).actions| && Run(es + more).actions[a].completed
    decreases |more|
  {
    hide Step;
    if more == [] {
      assert es + more == es;
    } else {
      var m := more[..|more| - 1];
      CompletionIsFinal(es, m, a);
      assert (es + more)[..|es + more| - 1] == es + m;
      KindKept(Run(es + m), more[|more| - 1], a);
    }
  }

  lemma {:induction false} NeverAgain(es: seq<Event>, a: nat)
    requires a < |Run(es).actions| && !Run(es).actions[a].kind.Collect?
    ensures !EverFiresAgain(es, a)
    decreases |es|
  {
    hide Step, EverFiresAgain, FiresAgain, LatchesOk, RegisteredOpen, NamesUsed;
    if es == [] {
      NothingYet(a);
    } else {
      var before, e := es[..|es| - 1], es[|es| - 1];
      FiresSooner(es, a);
      RunReachable(before);
      if a < |Run(before).actions| {
        KindKept(Run(before), e, a);
        NeverAgain(before, a);
        OnlyCollectFiresAgain(Run(before), e, a);
      } else {
        NotBorn(before, a);
        NoTarget(Run(before), e, a);
      }
    }
  }

  lemma {:induction false} OnlyCollectFiresAgain(s: State, e: Event, a: nat)
    requires LatchesOk(s) && RegisteredOpen(s) && a < |s.actions| && !s.actions[a].kind.Collect?
    ensures !FiresAgain(s, e, a)
  {
    if e.ComponentNews? {
      TargetOpen(s, e.callId, e.control, e.eventType);
      assert LatchOk(s.actions[a]);
    }
  }

  /** The callback an action holds has run if and only if the action is completed. */
  lemma {:induction false} CompletedMeansRan(es: seq<Event>, a: nat)
    requires a < |Run(es).actions| && Run(es).actions[a].callback.Some?
    ensures Run(es).actions[a].callback.value in Run(es).actions[a].runs <==> Run(es).actions[a].completed
  {
    hide Run;
    RunReachable(es);
    assert LatchOk(Run(es).actions[a]);
  }

  // One call with one collect action on it, in a given state of the action.
  function OneCollect(l: Latch): State {
    State({}, map[], map["c" := 0], [Call("c", "n", "inbound", "", "created", map["k" := 0])], [l])
  }

  lemma {:induction false} CollectStarts()
    ensures var s := Step(Step(INIT, Inbound("c", "n")), StartAction(0, "k", Collect));
            s == OneCollect(NewLatch(0, "k", Collect))
  {
    var s1 := Step(INIT, Inbound("c", "n"));
    assert s1.owned == [Call("c", "n", "inbound", "", "created", map[])];
  }

  lemma {:induction false} CollectSees(l: Latch, params: seq<Field>)
    requires l.filter == ["calling.call.collect"] && l.onResult && !l.onDetect && !Contains(params, "result")
    ensures Step(OneCollect(l), ComponentNews("c", "k", "calling.call.collect", "finished", params))
         == OneCollect(l.Updated("finished", JObject(params)))
  {
    hide Contains;
  }

  lemma {:induction false} CollectSeesResult(l: Latch, params: seq<Field>)
    requires l.filter == ["calling.call.collect"] && l.onResult && !l.onDetect && Contains(params, "result")
    ensures Step(OneCollect(l), ComponentNews("c", "k", "calling.call.collect", "finished", params)).actions
         == [l.Resolved("finished", JObject(params))]
  {
    hide Contains;
  }

  lemma {:induction false} CollectIsHandedOut(l: Latch)
    requires l == NewLatch(0, "k", Collect)
    ensures Step(OneCollect(l), ActionReply(0, "200", EMPTY)) == OneCollect(l.(phase := Returned))
    ensures Step(OneCollect(l.(phase := Returned)), Configure(0)) == OneCollect(l.(phase := Returned).Configured())
    ensures Step(OneCollect(l.(phase := Returned).Configured()), OnCompleted(0, Some(7)))
         == OneCollect(l.(phase := Returned).Configured().WithCallback(Some(7)))
  {
  }

  /** A concrete double run: a collect action that sees a terminal state without a result and
      then its result runs its callback twice. */
  lemma {:induction false} CollectRunsTwice()
    ensures exists es :: FreshCallbacks(es) && |Run(es).actions| == 1 && Run(es).actions[0].runs == [7, 7]
  {
    hide Step, Run, FreshCallbacks, OneCollect, Contains;
    var e0, e1, e2 := Inbound("c", "n"), StartAction(0, "k", Collect), ActionReply(0, "200", EMPTY);
    var e3, e4 := Configure(0), OnCompleted(0, Some(7));
    var e5 := ComponentNews("c", "k", "calling.call.collect", "finished", []);
    var e6 := ComponentNews("c", "k", "calling.call.collect", "finished", [Field("result", JNull)]);
    var l := NewLatch(0, "k", Collect);
    var l2 := l.(phase := Returned).Configured().WithCallback(Some(7));
    CollectStarts();
    CollectIsHandedOut(l);
    ResultPresent();
    CollectSees(l2, []);
    CollectSeesResult(l2.Updated("finished", JObject([])), [Field("result", JNull)]);
    var es := [e0, e1, e2, e3, e4, e5, e6];
    RunSeven(e0, e1, e2, e3, e4, e5, e6);
    OneCallbackFresh(es, 4);
  }

  lemma {:induction false} ResultPresent()
    ensures Contains([Field("result", JNull)], "result") && !Contains([], "result")
  {
  }

  lemma {:induction false} OneCallbackFresh(es: seq<Event>, k: nat)
    requires forall i :: 0 <= i < |es| && i != k ==> !es[i].OnCompleted?
    ensures FreshCallbacks(es)
  {
  }

  lemma {:induction false} RunSnoc(es: seq<Event>, e: Event)
    ensures Run(es + [e]) == Step(Run(es), e)
  {
    assert (es + [e])[..|es|] == es;
  }

  lemma {:induction false} RunSeven(e0: Event, e1: Event, e2: Event, e3: Event, e4: Event, e5: Event, e6: Event)
    ensures Run([e0, e1, e2, e3, e4, e5, e6])
         == Step(Step(Step(Step(Step(Step(Step(INIT, e0), e1), e2), e3), e4), e5), e6)
  {
    hide Step, Run;
    RunSnoc([], e0);
    RunSnoc([e0], e1);
    RunSnoc([e0, e1], e2);
    RunSnoc([e0, e1, e2], e3);
    RunSnoc([e0, e1, e2, e3], e4);
    RunSnoc([e0, e1, e2, e3, e4], e5);
    RunSnoc([e0, e1, e2, e3, e4, e5], e6);
    assert [] + [e0] == [e0] && [e0] + [e1] == [e0, e1] && [e0, e1] + [e2] == [e0, e1, e2];
    assert [e0, e1, e2] + [e3] == [e0, e1, e2, e3] && [e0, e1, e2, e3] + [e4] == [e0, e1, e2, e3, e4];
    assert [e0, e1, e2, e3, e4] + [e5] == [e0, e1, e2, e3, e4, e5];
    assert [e0, e1, e2, e3, e4, e5] + [e6] == [e0, e1, e2, e3, e4, e5, e6];
    assert Run([]) == INIT by { RunEmpty(); }
  }

  lemma {:induction false} RunEmpty()
    ensures Run([]) == INIT
  {
  }
}
