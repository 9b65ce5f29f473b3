/** When actions of the RELAY client complete: at the latest when their call ends, unless another
    action took their control id, and once only if terminal states carry results. */
module RelayCompletion {
  import opened Json
  import opened RelayAction
  import opened RelayCalls
  import opened RelaySafety
  import opened Lists

  // ------------------------------------------------------------------ open actions are registered

  /** Control ids are fresh: no two actions are started on a call under the same one. */
  ghost predicate FreshControls(es: seq<Event>) {
    forall i, j :: 0 <= i < j < |es| && es[i].StartAction? && es[j].StartAction? ==>
      es[i].call != es[j].call || es[i].control != es[j].control
  }

  predicate StartedBy(e: Event, l: Latch) {
    e.StartAction? && e.call == l.call && e.control == l.control
  }

  /** Some event started the action. */
  ghost predicate Started(es: seq<Event>, l: Latch) {
    exists i :: 0 <= i < |es| && StartedBy(es[i], l)
  }

  predicate IsRegistered(s: State, a: nat)
    requires a < |s.actions|
  {
    var l := s.actions[a];
    l.call < |s.owned| && l.control in s.owned[l.call].actions && s.owned[l.call].actions[l.control] == a
  }

  /** An action that has not completed is registered on its call. */
  predicate OpenRegistered(s: State) {
    forall a :: 0 <= a < |s.actions| && !s.actions[a].completed ==> IsRegistered(s, a)
  }

  predicate SameName(l: Latch, l': Latch) {
    l.call == l'.call && l.control == l'.control
  }

  /** No two actions of a call have the same control id. */
  predicate NamesDiffer(s: State) {
    forall a, a' :: 0 <= a < a' < |s.actions| ==> !SameName(s.actions[a], s.actions[a'])
  }

  /** The event reports that a start call has failed. */
  predicate FailsStart(s: State, e: Event) {
    && (e.ActionThrew? || (e.ActionReply? && e.code != "" && e.code[0] != '2'))
    && e.action < |s.actions| && s.actions[e.action].phase.Executing?
  }

  /** The event takes the control id from the action `a`: it starts another action under it, or
      reports that another action of that name failed to start. */
  predicate TakesName(s: State, e: Event, a: nat) {
    a < |s.actions|
    && (StartedBy(e, s.actions[a])
        || (FailsStart(s, e) && e.action != a && SameName(s.actions[e.action], s.actions[a])))
  }

  /** Some event of the run took the control id from the action. */
  ghost predicate NameTaken(es: seq<Event>, a: nat) {
    exists n :: 0 <= n < |es| && TakesName(Run(es[..n]), es[n], a)
  }

  /** Unless the step completes the action, it is registered afterwards exactly if it was before
      and `kept` holds. */
  predicate RegisteredIf(s: State, s': State, a: nat, kept: bool)
    requires a < |s.actions|
  {
    a < |s'.actions| && (!s'.actions[a].completed ==> (IsRegistered(s', a) <==> IsRegistered(s, a) && kept))
  }

  /** The action `a` keeps its name and does not un-complete. */
  predicate KeptAction(s: State, s': State, a: nat)
    requires a < |s.actions|
  {
    a < |s'.actions| && SameName(s.actions[a], s'.actions[a]) && (s.actions[a].completed ==> s'.actions[a].completed)
  }

  /** No action is new, no call changes its registrations, and new calls have none. */
  predicate Undisturbed(s: State, s': State) {
    && |s'.actions| == |s.actions| && |s.owned| <= |s'.owned|
    && (forall a :: 0 <= a < |s.actions| ==> KeptAction(s, s', a))
    && (forall c :: 0 <= c < |s.owned| ==> s'.owned[c].actions == s.owned[c].actions)
    && forall c :: |s.owned| <= c < |s'.owned| ==> s'.owned[c].actions == map[]
  }

  lemma {:induction false} UndisturbedRegisters(s: State, s': State, a: nat)
    requires Undisturbed(s, s') && a < |s.actions|
    ensures RegisteredIf(s, s', a, true)
  {
    assert KeptAction(s, s', a);
  }

  lemma {:induction false} StartRegisters(s: State, e: Event, a: nat)
    requires e.StartAction? && a < |s.actions|
    ensures RegisteredIf(s, StartStep(s, e.call, e.control, e.kind), a, !StartedBy(e, s.actions[a]))
  {
  }

  /** A failing start unregisters its control id, whichever action is registered under it. */
  lemma {:induction false} FailRegisters(s: State, b: nat, finalState: string, result: Json, a: nat)
    requires b < |s.actions| && a < |s.actions|
    ensures RegisteredIf(s, FailStep(s, b, finalState, result), a, b == a || !SameName(s.actions[b], s.actions[a]))
  {
  }

  lemma {:induction false} ReplyRegisters(s: State, e: Event, a: nat)
    requires e.ActionReply? && a < |s.actions|
    ensures RegisteredIf(s, ActionReplyStep(s, e.action, e.code, e.result), a, !TakesName(s, e, a))
  {
    hide FailStep, IsRegistered, SameName;
    if e.action < |s.actions| {
      FailRegisters(s, e.action, "finished", EMPTY, a);
      FailRegisters(s, e.action, "error", e.result, a);
      ReturnUndisturbed(s, e.action);
      UndisturbedRegisters(s, SetAction(s, e.action, s.actions[e.action].(phase := Returned)), a);
    }
  }

  lemma {:induction false} ThrewRegisters(s: State, e: Event, a: nat)
    requires e.ActionThrew? && a < |s.actions|
    ensures RegisteredIf(s, ActionThrewStep(s, e.action), a, !TakesName(s, e, a))
  {
    hide FailStep, IsRegistered, SameName;
    if e.action < |s.actions| { FailRegisters(s, e.action, "error", EMPTY, a); }
  }

  lemma {:induction false} ReturnUndisturbed(s: State, a: nat)
    requires a < |s.actions|
    ensures Undisturbed(s, SetAction(s, a, s.actions[a].(phase := Returned)))
  {
  }

  lemma {:induction false} DeliveredCompletes(l: Latch, state: string, params: seq<Field>)
    ensures var d := Delivered(l, state, params);
            (d.1 ==> d.0.completed) && (l.completed ==> d.0.completed) && SameName(l, d.0)
  {
    hide Contains;
  }

  /** A component event unregisters the action it has just completed, and no other. */
  lemma {:induction false} ComponentRegisters(
    s: State, callId: string, control: string, eventType: string, state: string, params: seq<Field>, a: nat)
    requires a < |s.actions|
    ensures RegisteredIf(s, ComponentStep(s, callId, control, eventType, state, params), a, true)
  {
    hide Delivered, Target;
    var t := Target(s, callId, control, eventType);
    if t.Some? {
      TargetExists(s, callId, control, eventType);
      DeliveredCompletes(s.actions[t.value], state, params);
    }
  }

  /** Ending a call empties its registry, but completes what was registered there. */
  lemma {:induction false} EndRegisters(s: State, c: nat, calls: map<string, nat>, a: nat)
    requires c < |s.owned| && a < |s.actions|
    ensures RegisteredIf(s, EndCall(s, c).(calls := calls), a, true)
  {
    if s.actions[a].call == c && IsRegistered(s, a) {
      assert s.owned[c].actions[s.actions[a].control] in s.owned[c].actions.Values;
    }
  }

  lemma {:induction false} CallNewsRegisters(
    s: State, callId: string, node: string, state: string, tag: string, a: nat)
    requires a < |s.actions|
    ensures RegisteredIf(s, CallNewsStep(s, callId, node, state, tag), a, true)
  {
    hide EndCall, IsRegistered, Undisturbed, AddCall;
    var c := Call(callId, node, "outbound", tag, "created", map[]);
    AddUndisturbed(s, c);
    UndisturbedRegisters(s, AddCall(s, c), a);
    var s1 := if tag != "" && tag in s.pendingDials && callId !in s.calls then AddCall(s, c) else s;
    assert s1.actions == s.actions && RegisteredIf(s, s1, a, true);
    if callId != "" && callId in s1.calls && s1.calls[callId] < |s1.owned| {
      var k := s1.calls[callId];
      EndCompletes(s1, k, a);
      EndRegisters(s1, k, s1.calls - {callId}, a);
      SetStateUndisturbed(s1, k, state);
      UndisturbedRegisters(s1, s1.(owned := s1.owned[k := s1.owned[k].(state := state)]), a);
    }
  }

  lemma {:induction false} EndCompletes(s: State, c: nat, a: nat)
    requires c < |s.owned| && a < |s.actions|
    ensures |EndCall(s, c).actions| == |s.actions|
    ensures EndCall(s, c).actions[a].completed
       <==> s.actions[a].completed || a in s.owned[c].actions.Values
  {
  }

  lemma {:induction false} AddUndisturbed(s: State, c: Call)
    requires c.actions == map[]
    ensures Undisturbed(s, AddCall(s, c)) && Undisturbed(s, s) && AddCall(s, c).actions == s.actions
  {
  }

  lemma {:induction false} SetStateUndisturbed(s: State, k: nat, state: string)
    requires k < |s.owned|
    ensures Undisturbed(s, s.(owned := s.owned[k := s.owned[k].(state := state)]))
  {
  }

  lemma {:induction false} DialUndisturbed(s: State, tag: string, state: string, callId: string, node: string)
    ensures Undisturbed(s, DialNewsStep(s, tag, state, callId, node))
  {
  }

  /** Events about dials, inbound calls, configuration and callbacks leave registrations alone. */
  lemma {:induction false} OthersUndisturbed(s: State, e: Event)
    requires !e.CallNews? && !e.ComponentNews? && !e.StartAction? && !e.ActionReply? && !e.ActionThrew?
    ensures Undisturbed(s, Step(s, e))
  {
    hide DialNewsStep, CallNewsStep, ComponentStep, StartStep, ActionReplyStep, ActionThrewStep;
    if e.DialNews? { DialUndisturbed(s, e.tag, e.dialState, e.callId, e.node); }
  }

  /** An action loses its registration in a step exactly if the step completes it or takes its name. */
  lemma {:induction false} StepRegisters(s: State, e: Event, a: nat)
    requires a < |s.actions|
    ensures RegisteredIf(s, Step(s, e), a, !TakesName(s, e, a))
  {
    hide RegisteredIf, CallNewsStep, ComponentStep, StartStep, ActionReplyStep, ActionThrewStep, DialNewsStep;
    match e {
      case CallNews(callId, node, state, tag) => CallNewsRegisters(s, callId, node, state, tag, a);
      case ComponentNews(callId, control, eventType, state, params) =>
        ComponentRegisters(s, callId, control, eventType, state, params, a);
      case StartAction(_, _, _) => StartRegisters(s, e, a);
      case ActionReply(_, _, _) => ReplyRegisters(s, e, a);
      case ActionThrew(_) => ThrewRegisters(s, e, a);
      case _ =>
        OthersUndisturbed(s, e);
        UndisturbedRegisters(s, Step(s, e), a);
    }
  }

  /** A new action is registered. */
  lemma {:induction false} NewRegisters(s: State, e: Event, a: nat)
    requires |s.actions| <= a < |Step(s, e).actions|
    ensures IsRegistered(Step(s, e), a)
  {
    hide CallNewsStep, DialNewsStep, Delivered, ResolveAll;
    match e {
      case CallNews(callId, node, state, tag) => CallNewsLatches(s, callId, node, state, tag);
      case DialNews(tag, state, callId, node) => DialKeepsActions(s, tag, state, callId, node);
      case _ =>
    }
  }

  // ------------------------------------------------------------------ registered until its name is taken

  lemma {:induction false} TakenSooner(es: seq<Event>, a: nat)
    requires es != []
    ensures NameTaken(es, a) <==> NameTaken(es[..|es| - 1], a) || TakesName(Run(es[..|es| - 1]), es[|es| - 1], a)
  {
    hide TakesName, Run;
    var m := |es| - 1;
    assert forall n :: 0 <= n <= m ==> es[..m][..n] == es[..n];
    if NameTaken(es[..m], a) {
      var n :| 0 <= n < m && TakesName(Run(es[..m][..n]), es[..m][n], a);
      assert TakesName(Run(es[..n]), es[n], a);
    }
  }

  lemma {:induction false} NotTakenYet(es: seq<Event>, a: nat)
    requires a >= |Run(es).actions|
    ensures !NameTaken(es, a)
  {
    hide Step, NameTaken, StartedBy, FailsStart;
    if es == [] {
      assert !NameTaken([], a) by { NothingTaken(a); }
    } else {
      var before := es[..|es| - 1];
      ActionsGrow(Run(before), es[|es| - 1]);
      NotTakenYet(before, a);
      TakenSooner(es, a);
    }
  }

  lemma {:induction false} NothingTaken(a: nat)
    ensures !NameTaken([], a)
  {
  }

  /** In every run an action that has not completed is registered if and only if no event took
      its control id. */
  lemma {:induction false} RegisteredExactly(es: seq<Event>, a: nat)
    requires a < |Run(es).actions| && !Run(es).actions[a].completed
    ensures IsRegistered(Run(es), a) <==> !NameTaken(es, a)
    decreases |es|
  {
    hide Step, NameTaken, TakesName, IsRegistered;
    if es != [] {
      var before, e := es[..|es| - 1], es[|es| - 1];
      TakenSooner(es, a);
      if a < |Run(before).actions| {
        KindKept(Run(before), e, a);
        RegisteredExactly(before, a);
        StepRegisters(Run(before), e, a);
      } else {
        NewRegisters(Run(before), e, a);
        NotTakenYet(es[..|es| - 1], a);
        NoNameToTake(Run(before), e, a);
      }
    }
  }

  lemma {:induction false} NoNameToTake(s: State, e: Event, a: nat)
    requires a >= |s.actions|
    ensures !TakesName(s, e, a)
  {
  }

  // ------------------------------------------------------------------ names over runs

  lemma {:induction false} FailKeepsNames(s: State, b: nat, state: string, result: Json, a: nat)
    requires b < |s.actions| && a < |s.actions|
    ensures var s' := FailStep(s, b, state, result);
            |s'.actions| == |s.actions| && SameName(s.actions[a], s'.actions[a])
  {
  }

  lemma {:induction false} ReplyKeepsNames(s: State, b: nat, code: string, result: Json, a: nat)
    requires a < |s.actions|
    ensures var s', t' := ActionReplyStep(s, b, code, result), ActionThrewStep(s, b);
            && |s'.actions| == |s.actions| && SameName(s.actions[a], s'.actions[a])
            && |t'.actions| == |s.actions| && SameName(s.actions[a], t'.actions[a])
  {
    hide FailStep;
    if b < |s.actions| {
      FailKeepsNames(s, b, "finished", EMPTY, a);
      FailKeepsNames(s, b, "error", result, a);
      FailKeepsNames(s, b, "error", EMPTY, a);
    }
  }

  lemma {:induction false} NewsKeepsNames(s: State, e: Event, a: nat)
    requires a < |s.actions| && (e.CallNews? || e.ComponentNews?)
    ensures |Step(s, e).actions| == |s.actions| && SameName(s.actions[a], Step(s, e).actions[a])
  {
    hide CallNewsStep, Target, Delivered;
    match e {
      case CallNews(callId, node, state, tag) => CallNewsLatches(s, callId, node, state, tag);
      case ComponentNews(callId, control, eventType, state, params) =>
        var t := Target(s, callId, control, eventType);
        if t.Some? {
          TargetExists(s, callId, control, eventType);
          DeliveredCompletes(s.actions[t.value], state, params);
        }
    }
  }

  /** Actions keep their names, and only a start makes a new one. */
  lemma {:induction false} StepNames(s: State, e: Event)
    ensures var s' := Step(s, e);
            && |s.actions| <= |s'.actions| <= |s.actions| + 1
            && (forall a :: 0 <= a < |s.actions| ==> SameName(s.actions[a], s'.actions[a]))
            && (|s'.actions| > |s.actions| ==> StartedBy(e, s'.actions[|s.actions|]))
  {
    hide Step;
    StepCount(s, e);
    forall a | 0 <= a < |s.actions|
      ensures SameName(s.actions[a], Step(s, e).actions[a])
    {
      StepName(s, e, a);
    }
  }

  lemma {:induction false} StepName(s: State, e: Event, a: nat)
    requires a < |s.actions|
    ensures a < |Step(s, e).actions| && SameName(s.actions[a], Step(s, e).actions[a])
  {
    hide CallNewsStep, ComponentStep, DialNewsStep, ActionReplyStep, ActionThrewStep;
    match e {
      case CallNews(_, _, _, _) => NewsKeepsNames(s, e, a);
      case ComponentNews(_, _, _, _, _) => NewsKeepsNames(s, e, a);
      case StartAction(_, _, _) =>
      case ActionReply(b, code, result) => ReplyKeepsNames(s, b, code, result, a);
      case ActionThrew(b) => ReplyKeepsNames(s, b, "", EMPTY, a);
      case _ =>
        OthersUndisturbed(s, e);
        assert KeptAction(s, Step(s, e), a);
    }
  }

  lemma {:induction false} StepCount(s: State, e: Event)
    ensures var s' := Step(s, e);
            && |s.actions| <= |s'.actions| <= |s.actions| + 1
            && (|s'.actions| > |s.actions| ==> StartedBy(e, s'.actions[|s.actions|]))
  {
    hide CallNewsStep, DialNewsStep, Delivered, ResolveAll;
    match e {
      case CallNews(callId, node, state, tag) => CallNewsLatches(s, callId, node, state, tag);
      case DialNews(tag, state, callId, node) => DialKeepsActions(s, tag, state, callId, node);
      case _ =>
    }
  }

  ghost predicate AllStarted(s: State, es: seq<Event>) {
    forall a :: 0 <= a < |s.actions| ==> Started(es, s.actions[a])
  }

  lemma {:induction false} StartedLater(es: seq<Event>, l: Latch, l': Latch)
    requires es != [] && SameName(l, l') && (Started(es[..|es| - 1], l) || StartedBy(es[|es| - 1], l))
    ensures Started(es, l')
  {
    var before := es[..|es| - 1];
    if Started(before, l) {
      var i :| 0 <= i < |before| && StartedBy(before[i], l);
      assert StartedBy(es[i], l');
    } else {
      assert StartedBy(es[|es| - 1], l');
    }
  }

  /** With fresh control ids a start finds no action of its name. */
  lemma {:induction false} FreshStart(es: seq<Event>, l: Latch)
    requires FreshControls(es) && es != [] && Started(es[..|es| - 1], l)
    ensures !StartedBy(es[|es| - 1], l)
  {
    var before := es[..|es| - 1];
    var i :| 0 <= i < |before| && StartedBy(before[i], l);
    assert es[i] == before[i];
  }

  lemma {:induction false} NamesDifferNext(s: State, es: seq<Event>)
    requires FreshControls(es) && es != [] && NamesDiffer(s) && AllStarted(s, es[..|es| - 1])
    ensures var s' := Step(s, es[|es| - 1]); NamesDiffer(s') && AllStarted(s', es)
  {
    hide Step, Started;
    var e, s' := es[|es| - 1], Step(s, es[|es| - 1]);
    StepNames(s, e);
    forall a | 0 <= a < |s'.actions|
      ensures Started(es, s'.actions[a])
    {
      StartedLater(es, if a < |s.actions| then s.actions[a] else s'.actions[a], s'.actions[a]);
    }
    forall a, a' | 0 <= a < a' < |s'.actions|
      ensures !SameName(s'.actions[a], s'.actions[a'])
    {
      FreshStart(es, s.actions[a]);
      if a' < |s.actions| { assert !SameName(s.actions[a], s.actions[a']); }
    }
  }

  lemma {:induction false} FreshControlsBefore(es: seq<Event>)
    requires FreshControls(es) && es != []
    ensures FreshControls(es[..|es| - 1])
  {
  }

  lemma {:induction false} NothingStarted()
    ensures NamesDiffer(INIT) && AllStarted(INIT, [])
  {
  }

  lemma {:induction false} FreshNames(es: seq<Event>)
    requires FreshControls(es)
    ensures NamesDiffer(Run(es)) && AllStarted(Run(es), es)
  {
    hide Step, NamesDiffer, AllStarted, FreshControls;
    if es == [] {
      NothingStarted();
    } else {
      FreshControlsBefore(es);
      FreshNames(es[..|es| - 1]);
      NamesDifferNext(Run(es[..|es| - 1]), es);
    }
  }

  lemma {:induction false} OtherName(s: State, a: nat, b: nat)
    requires NamesDiffer(s) && a < |s.actions| && b < |s.actions| && a != b
    ensures !SameName(s.actions[a], s.actions[b])
  {
    if a < b { assert !SameName(s.actions[a], s.actions[b]); } else { assert !SameName(s.actions[b], s.actions[a]); }
  }

  lemma {:induction false} FreshTakesNone(es: seq<Event>, a: nat)
    requires FreshControls(es) && es != []
    ensures !TakesName(Run(es[..|es| - 1]), es[|es| - 1], a)
  {
    hide Run, FreshControls, SameName, Started, StartedBy, NamesDiffer;
    var s, e := Run(es[..|es| - 1]), es[|es| - 1];
    FreshControlsBefore(es);
    FreshNames(es[..|es| - 1]);
    if a < |s.actions| {
      FreshStart(es, s.actions[a]);
      if FailsStart(s, e) && e.action != a { OtherName(s, e.action, a); }
    }
  }

  /** With fresh control ids no event takes a name. */
  lemma {:induction false} FreshNoneTaken(es: seq<Event>, a: nat)
    requires FreshControls(es)
    ensures !NameTaken(es, a)
    decreases |es|
  {
    hide Run, FreshControls, NameTaken, TakesName;
    if es == [] {
      assert !NameTaken([], a) by { NothingTaken(a); }
    } else {
      FreshControlsBefore(es);
      FreshNoneTaken(es[..|es| - 1], a);
      FreshTakesNone(es, a);
      TakenSooner(es, a);
    }
  }

  /** In every run with fresh control ids each action that has not completed is registered. */
  lemma {:induction false} OpenIsRegistered(es: seq<Event>)
    requires FreshControls(es)
    ensures OpenRegistered(Run(es)) && NamesDiffer(Run(es)) && AllStarted(Run(es), es)
  {
    hide Run, NamesDiffer, FreshControls, NameTaken, IsRegistered, AllStarted;
    FreshNames(es);
    forall a | 0 <= a < |Run(es).actions| && !Run(es).actions[a].completed
      ensures IsRegistered(Run(es), a)
    {
      FreshNoneTaken(es, a);
      RegisteredExactly(es, a);
    }
  }

  // ------------------------------------------------------------------ the end of a call

  lemma {:induction false} RegisteredUnderOwnName(s: State, c: nat, a: nat)
    requires RegisteredOpen(s) && c < |s.owned| && a < |s.actions|
    ensures a in s.owned[c].actions.Values <==> s.actions[a].call == c && IsRegistered(s, a)
  {
    if a in s.owned[c].actions.Values {
      var control :| control in s.owned[c].actions && s.owned[c].actions[control] == a;
      assert s.actions[a].control == control;
    }
  }

  /** After an ended event an action of the call is completed if and only if it was before or its
      name had never been taken. */
  lemma {:induction false} EndCompletesExactly(es: seq<Event>, c: nat, a: nat)
    requires c < |Run(es).owned| && a < |Run(es).actions| && Run(es).actions[a].call == c
    ensures |EndCall(Run(es), c).actions| == |Run(es).actions|
    ensures EndCall(Run(es), c).actions[a].completed <==> Run(es).actions[a].completed || !NameTaken(es, a)
  {
    hide Run, NameTaken, EndCall, IsRegistered, RegisteredOpen, LatchesOk, NamesUsed;
    RunReachable(es);
    EndCompletes(Run(es), c, a);
    RegisteredUnderOwnName(Run(es), c, a);
    if !Run(es).actions[a].completed { RegisteredExactly(es, a); }
  }

  /** An ended event removes the call, empties its registry and completes what was registered
      there.  It completes the actions of the call whose control id no event has taken, and those
      only: all of them, when control ids are fresh. */
  lemma {:induction false} EndedClosesCall(es: seq<Event>, callId: string, node: string, tag: string)
    requires callId in Run(es).calls && callId != ""
    ensures var s, s' := Run(es), Step(Run(es), CallNews(callId, node, "ended", tag));
            var c := s.calls[callId];
            && c < |s.owned| == |s'.owned| && |s'.actions| == |s.actions|
            && callId !in s'.calls && s'.owned[c].state == "ended" && s'.owned[c].actions == map[]
            && (forall a :: 0 <= a < |s.actions| && a in s.owned[c].actions.Values ==> s'.actions[a].completed)
            && (FreshControls(es) ==>
                  forall a :: 0 <= a < |s.actions| && s.actions[a].call == c ==> s'.actions[a].completed)
            && (forall a :: 0 <= a < |s.actions| && s.actions[a].call == c ==>
                  (s'.actions[a].completed <==> s.actions[a].completed || !NameTaken(es, a)))
            && (forall a :: 0 <= a < |s.actions| && s.actions[a].call != c ==> s'.actions[a] == s.actions[a])
  {
    hide Run, NameTaken, FreshControls, RegisteredOpen, LatchesOk, NamesUsed, IsRegistered, ResolveAll;
    var s := Run(es);
    RegistryAlwaysSafe(es);
    RunReachable(es);
    var c := s.calls[callId];
    forall a | 0 <= a < |s.actions|
      ensures s.actions[a].call == c ==>
                (EndCall(s, c).actions[a].completed <==> s.actions[a].completed || !NameTaken(es, a))
      ensures s.actions[a].call != c ==> EndCall(s, c).actions[a] == s.actions[a]
      ensures FreshControls(es) ==> !NameTaken(es, a)
    {
      if s.actions[a].call == c { EndCompletesExactly(es, c, a); } else { RegisteredUnderOwnName(s, c, a); }
      if FreshControls(es) { FreshNoneTaken(es, a); }
    }
  }

  // One call, with two plays started on it under the same control id.
  function TwoPlays(actions: seq<Latch>, registered: nat): State {
    State({}, map[], map["c" := 0], [Call("c", "n", "inbound", "", "created", map["k" := registered])], actions)
  }

  lemma {:induction false} TwoPlaysStart(l: Latch)
    requires l == NewLatch(0, "k", Play)
    ensures Step(Step(INIT, Inbound("c", "n")), StartAction(0, "k", Play)) == TwoPlays([l], 0)
    ensures Step(TwoPlays([l], 0), StartAction(0, "k", Play)) == TwoPlays([l, l], 1)
  {
    var s1 := Step(INIT, Inbound("c", "n"));
    assert s1.owned == [Call("c", "n", "inbound", "", "created", map[])];
    var s3 := Step(TwoPlays([l], 0), StartAction(0, "k", Play));
    assert s3.owned[0].actions == map["k" := 1];
    assert s3.owned == TwoPlays([l, l], 1).owned && s3.actions == [l, l];
  }

  lemma {:induction false} TwoPlaysEnd(l: Latch)
    requires l == NewLatch(0, "k", Play)
    ensures var s := Step(TwoPlays([l, l], 1), CallNews("c", "n", "ended", ""));
            s.calls == map[] && s.actions == [l, l.Resolved("finished", EMPTY)]
  {
    var m := map["k" := 1];
    assert m["k"] in m.Values;
  }

  /** A concrete reuse that goes wrong: a second play started under the control id of the first,
      which is still open, leaves the first open after the call has ended. */
  lemma {:induction false} ReusedControlStaysOpen()
    ensures var es := [Inbound("c", "n"), StartAction(0, "k", Play), StartAction(0, "k", Play),
                       CallNews("c", "n", "ended", "")];
            Run(es).calls == map[] && |Run(es).actions| == 2 && !Run(es).actions[0].completed
  {
    hide Step, Run, TwoPlays;
    var e0, e1, e2 := Inbound("c", "n"), StartAction(0, "k", Play), CallNews("c", "n", "ended", "");
    var l := NewLatch(0, "k", Play);
    TwoPlaysStart(l);
    TwoPlaysEnd(l);
    RunFour(e0, e1, e1, e2);
  }

  lemma {:induction false} RunFour(e0: Event, e1: Event, e2: Event, e3: Event)
    ensures Run([e0, e1, e2, e3]) == Step(Step(Step(Step(INIT, e0), e1), e2), e3)
  {
    hide Step, Run;
    RunSnoc([], e0);
    RunSnoc([e0], e1);
    RunSnoc([e0, e1], e2);
    RunSnoc([e0, e1, e2], e3);
    assert [] + [e0] == [e0] && [e0] + [e1] == [e0, e1];
    assert [e0, e1] + [e2] == [e0, e1, e2] && [e0, e1, e2] + [e3] == [e0, e1, e2, e3];
    assert Run([]) == INIT by { RunEmpty(); }
  }

  // ------------------------------------------------------------------ once, whatever the kind

  predicate CarriesResult(e: Event) {
    e.ComponentNews? && IsTerminal(e.state) ==> Contains(e.params, "result")
  }

  /** Every component event with a terminal state carries a result. */
  predicate TerminalsCarryResults(es: seq<Event>) {
    forall i :: 0 <= i < |es| ==> CarriesResult(es[i])
  }

  /** Actions leave the registry as they complete. */
  predicate NoneCompleted(s: State) {
    forall c, control :: 0 <= c < |s.owned| && control in s.owned[c].actions ==> IsOpen(s, s.owned[c].actions[control])
  }

  predicate IsOpen(s: State, a: nat) {
    a < |s.actions| && !s.actions[a].completed
  }

  lemma {:induction false} FailNoneCompleted(s: State, a: nat, finalState: string, result: Json)
    requires NoneCompleted(s) && RegisteredOpen(s) && a < |s.actions|
    ensures NoneCompleted(FailStep(s, a, finalState, result))
  {
    var s' := FailStep(s, a, finalState, result);
    forall c, control | 0 <= c < |s'.owned| && control in s'.owned[c].actions
      ensures IsOpen(s', s'.owned[c].actions[control])
    {
      assert control in s.owned[c].actions && IsOpen(s, s.owned[c].actions[control]);
    }
  }

  lemma {:induction false} ReplyNoneCompleted(s: State, a: nat, code: string, result: Json)
    requires NoneCompleted(s) && RegisteredOpen(s)
    ensures NoneCompleted(ActionReplyStep(s, a, code, result)) && NoneCompleted(ActionThrewStep(s, a))
  {
    hide FailStep, NoneCompleted, RegisteredOpen;
    if a < |s.actions| {
      FailNoneCompleted(s, a, "finished", EMPTY);
      FailNoneCompleted(s, a, "error", result);
      FailNoneCompleted(s, a, "error", EMPTY);
      assert NoneCompleted(SetAction(s, a, s.actions[a].(phase := Returned))) by { ReturnNoneCompleted(s, a); }
    }
  }

  lemma {:induction false} ReturnNoneCompleted(s: State, a: nat)
    requires NoneCompleted(s) && a < |s.actions|
    ensures NoneCompleted(SetAction(s, a, s.actions[a].(phase := Returned)))
  {
  }

  /** An action that was open stays so unless it is unregistered. */
  lemma {:induction false} DeliveredOpen(l: Latch, state: string, params: seq<Field>)
    requires !l.completed && (IsTerminal(state) ==> Contains(params, "result"))
    ensures var d := Delivered(l, state, params); !d.1 ==> !d.0.completed
  {
    hide Contains, IsTerminal;
  }

  lemma {:induction false} ComponentNoneCompleted(
    s: State, callId: string, control: string, eventType: string, state: string, params: seq<Field>)
    requires NoneCompleted(s) && RegisteredOpen(s) && (IsTerminal(state) ==> Contains(params, "result"))
    ensures NoneCompleted(ComponentStep(s, callId, control, eventType, state, params))
  {
    hide Delivered, Target, Contains, IsTerminal;
    var t := Target(s, callId, control, eventType);
    if t.Some? {
      TargetExists(s, callId, control, eventType);
      assert IsOpen(s, t.value);
      DeliveredOpen(s.actions[t.value], state, params);
      var s' := ComponentStep(s, callId, control, eventType, state, params);
      forall c, k | 0 <= c < |s'.owned| && k in s'.owned[c].actions
        ensures IsOpen(s', s'.owned[c].actions[k])
      {
        assert k in s.owned[c].actions && IsOpen(s, s.owned[c].actions[k]);
      }
    }
  }

  lemma {:induction false} EndNoneCompleted(s: State, c: nat)
    requires NoneCompleted(s) && RegisteredOpen(s) && c < |s.owned|
    ensures NoneCompleted(EndCall(s, c))
  {
    var s' := EndCall(s, c);
    forall k, control | 0 <= k < |s'.owned| && control in s'.owned[k].actions
      ensures IsOpen(s', s'.owned[k].actions[control])
    {
      assert k != c && control in s.owned[k].actions && IsOpen(s, s.owned[k].actions[control]);
    }
  }

  lemma {:induction false} CallNewsNoneCompleted(s: State, callId: string, node: string, state: string, tag: string)
    requires NoneCompleted(s) && RegisteredOpen(s)
    ensures NoneCompleted(CallNewsStep(s, callId, node, state, tag))
  {
    hide ResolveAll;
    var c := Call(callId, node, "outbound", tag, "created", map[]);
    var s1 := if tag != "" && tag in s.pendingDials && callId !in s.calls then AddCall(s, c) else s;
    assert NoneCompleted(s1) && RegisteredOpen(s1);
    if callId != "" && callId in s1.calls && s1.calls[callId] < |s1.owned| && state == "ended" {
      EndNoneCompleted(s1, s1.calls[callId]);
    }
  }

  lemma {:induction false} OtherNoneCompleted(s: State, e: Event)
    requires NoneCompleted(s) && !e.CallNews? && !e.ComponentNews? && !e.ActionReply? && !e.ActionThrew?
    ensures NoneCompleted(Step(s, e))
  {
    hide CallNewsStep, ComponentStep, ActionReplyStep, ActionThrewStep;
  }

  lemma {:induction false} StepNoneCompleted(s: State, e: Event)
    requires NoneCompleted(s) && RegisteredOpen(s) && CarriesResult(e)
    ensures NoneCompleted(Step(s, e))
  {
    hide NoneCompleted, RegisteredOpen, CallNewsStep, ComponentStep, ActionReplyStep, ActionThrewStep;
    match e {
      case CallNews(callId, node, state, tag) => CallNewsNoneCompleted(s, callId, node, state, tag);
      case ComponentNews(callId, control, eventType, state, params) =>
        ComponentNoneCompleted(s, callId, control, eventType, state, params);
      case ActionReply(a, code, result) => ReplyNoneCompleted(s, a, code, result);
      case ActionThrew(a) => ReplyNoneCompleted(s, a, "", EMPTY);
      case _ => OtherNoneCompleted(s, e);
    }
  }

  lemma {:induction false} RegisteredIsOpen(es: seq<Event>)
    requires TerminalsCarryResults(es)
    ensures NoneCompleted(Run(es))
  {
    hide Step, RegisteredOpen, LatchesOk, NamesUsed, CarriesResult;
    if es != [] {
      var before := es[..|es| - 1];
      RegisteredIsOpen(before);
      RunReachable(before);
      hide NoneCompleted;
      StepNoneCompleted(Run(before), es[|es| - 1]);
    }
  }

  lemma {:induction false} OpenNeverFires(s: State, e: Event, a: nat)
    requires NoneCompleted(s)
    ensures !FiresAgain(s, e, a)
  {
    if e.ComponentNews? && Target(s, e.callId, e.control, e.eventType) == Some(a) {
      TargetExists(s, e.callId, e.control, e.eventType);
      assert IsOpen(s, a);
    }
  }

  /** When terminal states carry a result, no callback of any action runs twice, whatever its kind. */
  lemma {:induction false} ResultsRunOnce(es: seq<Event>, a: nat)
    requires FreshCallbacks(es) && TerminalsCarryResults(es) && a < |Run(es).actions|
    ensures Distinct(Run(es).actions[a].runs)
  {
    hide Distinct, Run, FiresAgain, NoneCompleted;
    CallbackRunsOnce(es, a);
    forall n | 0 <= n < |es|
      ensures !FiresAgain(Run(es[..n]), es[n], a)
    {
      RegisteredIsOpen(es[..n]);
      OpenNeverFires(Run(es[..n]), es[n], a);
    }
  }
}
