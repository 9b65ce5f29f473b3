/** What the actions of the RELAY client are told: the state and result after every event, what
    completes an action and with which result, and where calls come from. */
module RelayResults {
  import opened Json
  import opened RelayAction
  import opened RelayCalls
  import opened RelaySafety

  // ------------------------------------------------------------------ how actions are set up

  const COLLECT_EVENT := "calling.call.collect"

  /** What the filters of an action are, by its kind, once it was handed out; before there are none. */
  predicate IsSetUp(l: Latch) {
    match (if l.phase.Released? then l.kind else Play)
    case Play => l.filter == [] && !l.onDetect && !l.onResult
    case Collect => l.filter == [COLLECT_EVENT] && !l.onDetect && l.onResult
    case Detect => l.filter == [] && l.onDetect && !l.onResult
  }

  predicate AreSetUp(s: State) {
    forall a :: 0 <= a < |s.actions| ==> IsSetUp(s.actions[a])
  }

  /** The latch keeps its kind and filters, and its phase but for the return of the start call. */
  predicate SameSetUp(l: Latch, l': Latch) {
    && l'.kind == l.kind && l'.filter == l.filter && l'.onDetect == l.onDetect && l'.onResult == l.onResult
    && (l'.phase == l.phase || (!l.phase.Released? && !l'.phase.Released?))
  }

  lemma {:induction false} StillSetUp(l: Latch, l': Latch)
    requires SameSetUp(l, l') && IsSetUp(l)
    ensures IsSetUp(l')
  {
  }

  lemma {:induction false} DeliveredSetUp(l: Latch, state: string, params: seq<Field>)
    ensures SameSetUp(l, Delivered(l, state, params).0)
  {
    hide Contains, IsTerminal;
  }

  lemma {:induction false} CallNewsSetUp(s: State, callId: string, node: string, state: string, tag: string, a: nat)
    requires a < |s.actions|
    ensures var s' := CallNewsStep(s, callId, node, state, tag);
            |s'.actions| == |s.actions| && SameSetUp(s.actions[a], s'.actions[a])
  {
    hide CallNewsStep;
    CallNewsLatches(s, callId, node, state, tag);
  }

  lemma {:induction false} ComponentSetUp(
    s: State, callId: string, control: string, eventType: string, state: string, params: seq<Field>, a: nat)
    requires a < |s.actions|
    ensures var s' := ComponentStep(s, callId, control, eventType, state, params);
            |s'.actions| == |s.actions| && SameSetUp(s.actions[a], s'.actions[a])
  {
    hide Delivered, Target;
    var t := Target(s, callId, control, eventType);
    if t.Some? {
      TargetExists(s, callId, control, eventType);
      DeliveredSetUp(s.actions[t.value], state, params);
    }
  }

  lemma {:induction false} FailSetUp(s: State, b: nat, state: string, result: Json, a: nat)
    requires b < |s.actions| && a < |s.actions| && !s.actions[b].phase.Released?
    ensures var s' := FailStep(s, b, state, result);
            |s'.actions| == |s.actions| && SameSetUp(s.actions[a], s'.actions[a])
  {
  }

  lemma {:induction false} ReplySetUp(s: State, b: nat, code: string, result: Json, a: nat)
    requires a < |s.actions|
    ensures var s', t' := ActionReplyStep(s, b, code, result), ActionThrewStep(s, b);
            && |s'.actions| == |s.actions| && SameSetUp(s.actions[a], s'.actions[a])
            && |t'.actions| == |s.actions| && SameSetUp(s.actions[a], t'.actions[a])
  {
    hide FailStep;
    if b < |s.actions| && s.actions[b].phase.Executing? {
      FailSetUp(s, b, "finished", EMPTY, a);
      FailSetUp(s, b, "error", result, a);
      FailSetUp(s, b, "error", EMPTY, a);
    }
  }

  lemma {:induction false} ConfigureSetUp(s: State, b: nat)
    requires AreSetUp(s)
    ensures AreSetUp(Step(s, Configure(b)))
  {
  }

  lemma {:induction false} OthersSetUp(s: State, e: Event)
    requires AreSetUp(s)
    requires e.StartAction? || e.OnCompleted? || e.Inbound? || e.Loss? || e.DialBegin? || e.DialSent? || e.DialError?
             || e.DialTimeout? || e.DialWake?
    ensures AreSetUp(Step(s, e))
  {
    hide DialNewsStep, CallNewsStep, ComponentStep, ActionReplyStep, ActionThrewStep;
  }

  lemma {:induction false} StepSetUp(s: State, e: Event)
    requires AreSetUp(s)
    ensures AreSetUp(Step(s, e))
  {
    hide IsSetUp, SameSetUp, DialNewsStep, CallNewsStep, ComponentStep, StartStep, ActionReplyStep, ActionThrewStep;
    if e.Configure? {
      ConfigureSetUp(s, e.action);
    } else if e.DialNews? {
      DialKeepsActions(s, e.tag, e.dialState, e.callId, e.node);
    } else if e.CallNews? || e.ComponentNews? || e.ActionReply? || e.ActionThrew? {
      StepCounts(s, e);
      forall a | 0 <= a < |s.actions|
        ensures IsSetUp(Step(s, e).actions[a])
      {
        StepSame(s, e, a);
        StillSetUp(s.actions[a], Step(s, e).actions[a]);
      }
    } else {
      OthersSetUp(s, e);
    }
  }

  lemma {:induction false} StepSame(s: State, e: Event, a: nat)
    requires (e.CallNews? || e.ComponentNews? || e.ActionReply? || e.ActionThrew?) && a < |s.actions|
    ensures |Step(s, e).actions| == |s.actions| && SameSetUp(s.actions[a], Step(s, e).actions[a])
  {
    hide SameSetUp, CallNewsStep, ComponentStep, ActionReplyStep, ActionThrewStep;
    match e {
      case CallNews(callId, node, state, tag) => CallNewsSetUp(s, callId, node, state, tag, a);
      case ComponentNews(callId, control, eventType, state, params) =>
        ComponentSetUp(s, callId, control, eventType, state, params, a);
      case ActionReply(b, code, result) => ReplySetUp(s, b, code, result, a);
      case ActionThrew(b) => ReplySetUp(s, b, "", EMPTY, a);
      case _ =>
    }
  }

  lemma {:induction false} StepCounts(s: State, e: Event)
    requires e.CallNews? || e.ComponentNews? || e.ActionReply? || e.ActionThrew?
    ensures |Step(s, e).actions| == |s.actions|
  {
    hide CallNewsStep, ComponentStep, ActionReplyStep, ActionThrewStep;
    match e {
      case CallNews(callId, node, state, tag) => CallNewsLatches(s, callId, node, state, tag);
      case ComponentNews(_, _, _, _, _) => ActionsKept(s, e);
      case ActionReply(b, code, result) => ReplyCount(s, b, code, result);
      case ActionThrew(b) => ReplyCount(s, b, "", EMPTY);
      case _ =>
    }
  }

  lemma {:induction false} RunSetUp(es: seq<Event>)
    ensures AreSetUp(Run(es))
  {
    hide Step, AreSetUp;
    if es == [] {
      assert AreSetUp(INIT) by { NothingSetUp(); }
    } else {
      RunSetUp(es[..|es| - 1]);
      StepSetUp(Run(es[..|es| - 1]), es[|es| - 1]);
    }
  }

  lemma {:induction false} NothingSetUp()
    ensures AreSetUp(INIT)
  {
  }

  // ------------------------------------------------------------------ what an event tells an action

  /** One of the four states that complete an action. */
  predicate Completes(state: string) {
    state in ["finished", "error", "no_input", "no_match"]
  }

  predicate IsOut(l: Latch, kind: Kind) {
    l.phase.Released? && l.kind == kind
  }

  /** The event type is one the action listens to. */
  predicate Listens(l: Latch, eventType: string) {
    IsOut(l, Collect) ==> eventType == "calling.call.collect"
  }

  /** The action is told the state and the parameters, and completes on one of the four states. */
  predicate IsTold(l: Latch, l': Latch, state: string, params: seq<Field>) {
    l'.state == state && l'.result == JObject(params) && (l'.completed <==> l.completed || Completes(state))
  }

  /** The action is finished with the parameters for its result. */
  predicate IsFinished(l': Latch, params: seq<Field>) {
    l'.state == "finished" && l'.result == JObject(params) && l'.completed
  }

  /** What a component event does to the action it is meant for. */
  predicate HearsOf(l: Latch, l': Latch, e: Event)
    requires e.ComponentNews?
  {
    if !Listens(l, e.eventType) then l' == l
    else if IsOut(l, Detect) then
      if Contains(e.params, "detect") then IsFinished(l', e.params) else l' == l
    else if IsOut(l, Collect) then
      if Contains(e.params, "result") then IsFinished(l', e.params)
      else if e.state != "" then IsTold(l, l', e.state, e.params)
      else l' == l
    else IsTold(l, l', e.state, e.params)
  }

  /** The event ends the action's registration. */
  predicate Ends(l: Latch, e: Event)
    requires e.ComponentNews?
  {
    Listens(l, e.eventType)
    && if IsOut(l, Detect) then Contains(e.params, "detect")
       else if IsOut(l, Collect) then Contains(e.params, "result")
       else l.completed || Completes(e.state)
  }

  lemma {:induction false} TerminalCompletes(state: string)
    ensures IsTerminal(state) <==> Completes(state)
  {
  }

  lemma {:induction false} DeliveredTells(l: Latch, e: Event)
    requires e.ComponentNews? && IsSetUp(l) && Listens(l, e.eventType)
    ensures var d := Delivered(l, e.state, e.params);
            HearsOf(l, d.0, e) && (d.1 <==> Ends(l, e))
  {
    hide Contains, IsTerminal, Completes;
    TerminalCompletes(e.state);
  }

  lemma {:induction false} SetUpListens(l: Latch, eventType: string)
    requires IsSetUp(l)
    ensures l.Matches(eventType) <==> Listens(l, eventType)
  {
  }

  /** A component event reaches the action under its control id and no other: this is the state and
      the result it leaves there, and whether the control id stays registered. */
  lemma {:induction false} ReachedIsTold(es: seq<Event>, e: Event, a: nat)
    requires e.ComponentNews? && e.callId != "" && e.callId in Run(es).calls && e.control != ""
    requires Run(es).calls[e.callId] < |Run(es).owned|
    requires e.control in Run(es).owned[Run(es).calls[e.callId]].actions
    requires a == Run(es).owned[Run(es).calls[e.callId]].actions[e.control]
    ensures var s, s' := Run(es), Step(Run(es), e);
            && a < |s.actions| == |s'.actions|
            && HearsOf(s.actions[a], s'.actions[a], e)
            && (forall b :: 0 <= b < |s.actions| && b != a ==> s'.actions[b] == s.actions[b])
            && |s'.owned| == |s.owned|
            && (e.control in s'.owned[s.calls[e.callId]].actions <==> !Ends(s.actions[a], e))
  {
    hide Run, Delivered, HearsOf, Ends, IsSetUp, Listens, LatchesOk, NamesUsed;
    var s := Run(es);
    RunReachable(es);
    RunSetUp(es);
    assert a < |s.actions| by { assert RegisteredOpen(s); }
    SetUpListens(s.actions[a], e.eventType);
    if Listens(s.actions[a], e.eventType) {
      DeliveredTells(s.actions[a], e);
    } else {
      NotHeard(s.actions[a], e);
    }
  }

  lemma {:induction false} NotHeard(l: Latch, e: Event)
    requires e.ComponentNews? && !Listens(l, e.eventType)
    ensures HearsOf(l, l, e) && !Ends(l, e)
  {
  }

  /** A component event for no call, or under no control id of it, tells nobody. */
  lemma {:induction false} NobodyIsTold(s: State, e: Event)
    requires e.ComponentNews?
    requires e.callId == "" || e.callId !in s.calls || s.calls[e.callId] >= |s.owned| || e.control == ""
             || e.control !in s.owned[s.calls[e.callId]].actions
    ensures Step(s, e) == s
  {
    hide Delivered;
  }

  // ------------------------------------------------------------------ what completes an action

  const NO_PARAMS: Json := JObject([])

  /** Why an action has just completed, and with which state and result. */
  predicate IsCause(e: Event, a: nat, l': Latch) {
    match e
    case CallNews(_, _, state, _) => state == "ended" && l'.state == "finished" && l'.result == NO_PARAMS
    case ComponentNews(_, _, _, state, params) =>
      l'.result == JObject(params) && (l'.state == "finished" || (l'.state == state && Completes(state)))
    case ActionReply(b, code, result) =>
      b == a && (if code == "404" || code == "410" then l'.state == "finished" && l'.result == NO_PARAMS
                 else code != "" && code[0] != '2' && l'.state == "error" && l'.result == result)
    case ActionThrew(b) => b == a && l'.state == "error" && l'.result == NO_PARAMS
    case _ => false
  }

  /** What the reply to its start call does to an action: a call that is gone finishes it, any other
      failure is its error with the reply for its result, and a success leaves it open. */
  predicate IsAnswered(l: Latch, l': Latch, code: string, result: Json) {
    && l'.phase == Returned
    && if code == "404" || code == "410" then l'.completed && l'.state == "finished" && l'.result == NO_PARAMS
       else if code == "" || code[0] == '2' then
         l'.completed == l.completed && l'.state == l.state && l'.result == l.result && l'.runs == l.runs
       else l'.completed && l'.state == "error" && l'.result == result
  }

  predicate StartWorks(code: string) {
    code == "" || code[0] == '2'
  }

  lemma {:induction false} FailAnswers(s: State, a: nat, state: string, result: Json)
    requires a < |s.actions| && s.actions[a].call < |s.owned|
    ensures var l, s' := s.actions[a], FailStep(s, a, state, result);
            && |s'.actions| == |s.actions| && |s'.owned| == |s.owned|
            && s'.actions[a].phase == Returned && s'.actions[a].completed
            && s'.actions[a].state == state && s'.actions[a].result == result
            && l.control !in s'.owned[l.call].actions
  {
  }

  /** The reply to a start call reaches the action that waits for it, and a failure takes its control id off
      the call. */
  lemma {:induction false} StartIsAnswered(s: State, a: nat, code: string, result: Json)
    requires a < |s.actions| && s.actions[a].phase.Executing? && s.actions[a].call < |s.owned|
    ensures var l, s' := s.actions[a], Step(s, ActionReply(a, code, result));
            && |s'.actions| == |s.actions| && |s'.owned| == |s.owned|
            && IsAnswered(l, s'.actions[a], code, result)
            && (StartWorks(code) ==> s'.owned == s.owned)
            && (!StartWorks(code) ==> l.control !in s'.owned[l.call].actions)
  {
    hide FailStep;
    FailAnswers(s, a, "finished", NO_PARAMS);
    FailAnswers(s, a, "error", result);
  }

  /** An exception instead of the reply is an error without a result. */
  lemma {:induction false} StartThrows(s: State, a: nat)
    requires a < |s.actions| && s.actions[a].phase.Executing? && s.actions[a].call < |s.owned|
    ensures var l, s' := s.actions[a], Step(s, ActionThrew(a));
            && |s'.actions| == |s.actions| && |s'.owned| == |s.owned|
            && s'.actions[a].completed && s'.actions[a].state == "error" && s'.actions[a].result == NO_PARAMS
            && l.control !in s'.owned[l.call].actions
  {
    hide FailStep;
    FailAnswers(s, a, "error", NO_PARAMS);
  }

  predicate JustCompleted(s: State, s': State, a: nat) {
    a < |s.actions| && a < |s'.actions| && !s.actions[a].completed && s'.actions[a].completed
  }

  lemma {:induction false} CallEnds(s: State, e: Event, a: nat)
    requires e.CallNews? && JustCompleted(s, Step(s, e), a)
    ensures IsCause(e, a, Step(s, e).actions[a])
  {
    hide CallNewsStep;
    CallNewsLatches(s, e.callId, e.node, e.state, e.tag);
  }

  lemma {:induction false} StartFails(s: State, e: Event, a: nat)
    requires (e.ActionReply? || e.ActionThrew?) && JustCompleted(s, Step(s, e), a)
    ensures IsCause(e, a, Step(s, e).actions[a])
  {
    hide Unregister;
    assert e.action < |s.actions| && s.actions[e.action].phase.Executing?;
    UnregisterKeeps(s, s.actions[e.action].call, s.actions[e.action].control);
  }

  lemma {:induction false} UnregisterKeeps(s: State, c: nat, control: string)
    ensures c < |s.owned| ==> Unregister(s, c, control).actions == s.actions
  {
  }

  lemma {:induction false} DeliveredCause(l: Latch, e: Event, a: nat)
    requires e.ComponentNews? && !l.completed && Delivered(l, e.state, e.params).0.completed
    ensures IsCause(e, a, Delivered(l, e.state, e.params).0)
  {
    hide Contains, IsTerminal, Completes;
    TerminalCompletes(e.state);
  }

  lemma {:induction false} EventCompletes(s: State, e: Event, a: nat)
    requires e.ComponentNews? && JustCompleted(s, Step(s, e), a)
    ensures IsCause(e, a, Step(s, e).actions[a])
  {
    hide Delivered, Target, IsCause;
    var t := Target(s, e.callId, e.control, e.eventType);
    if t.Some? {
      TargetExists(s, e.callId, e.control, e.eventType);
      assert t.value == a;
      DeliveredCause(s.actions[a], e, a);
    }
  }

  /** An action completes at the end of its call, by a component event, or by its own start failing,
      and has the result of that; nothing else completes it. */
  lemma {:induction false} CompletionCause(s: State, e: Event, a: nat)
    requires JustCompleted(s, Step(s, e), a)
    ensures IsCause(e, a, Step(s, e).actions[a])
  {
    hide IsCause, CallNewsStep, ComponentStep, DialNewsStep, ActionReplyStep, ActionThrewStep;
    match e {
      case CallNews(_, _, _, _) => CallEnds(s, e, a);
      case ComponentNews(_, _, _, _, _) => EventCompletes(s, e, a);
      case ActionReply(_, _, _) => StartFails(s, e, a);
      case ActionThrew(_) => StartFails(s, e, a);
      case DialNews(tag, state, callId, node) =>
        DialKeepsActions(s, tag, state, callId, node);
        assert false;
      case _ => assert false;
    }
  }

  // ------------------------------------------------------------------ results stay

  predicate SameResult(l: Latch, l': Latch) {
    l'.state == l.state && l'.result == l.result && l'.completed == l.completed && l'.kind == l.kind
    && (l.phase.Executing? || !l'.phase.Executing?)
  }

  /** No event tells a completed action anything more, unless it is a collect action or its start
      call is still out. */
  lemma {:induction false} StepKeepsResult(s: State, e: Event, a: nat)
    requires LatchesOk(s) && RegisteredOpen(s) && a < |s.actions|
    requires s.actions[a].completed && !s.actions[a].kind.Collect? && !s.actions[a].phase.Executing?
    ensures a < |Step(s, e).actions| && SameResult(s.actions[a], Step(s, e).actions[a])
  {
    hide CallNewsStep, ComponentStep, DialNewsStep, FailStep, LatchesOk, RegisteredOpen;
    match e {
      case CallNews(callId, node, state, tag) => CallNewsLatches(s, callId, node, state, tag);
      case ComponentNews(callId, control, eventType, state, params) => UnreachedKeeps(s, e, a);
      case DialNews(tag, state, callId, node) => DialKeepsActions(s, tag, state, callId, node);
      case ActionReply(b, code, r) =>
        if b < |s.actions| && b != a {
          FailKeepsOthers(s, b, "finished", EMPTY, a);
          FailKeepsOthers(s, b, "error", r, a);
        }
      case ActionThrew(b) => if b < |s.actions| && b != a { FailKeepsOthers(s, b, "error", EMPTY, a); }
      case _ =>
    }
  }

  lemma {:induction false} FailKeepsOthers(s: State, b: nat, state: string, r: Json, a: nat)
    requires b < |s.actions| && a < |s.actions| && a != b
    ensures |FailStep(s, b, state, r).actions| == |s.actions| && FailStep(s, b, state, r).actions[a] == s.actions[a]
  {
  }

  lemma {:induction false} UnreachedKeeps(s: State, e: Event, a: nat)
    requires LatchesOk(s) && RegisteredOpen(s) && a < |s.actions| && e.ComponentNews?
    requires s.actions[a].completed && !s.actions[a].kind.Collect?
    ensures |Step(s, e).actions| == |s.actions| && Step(s, e).actions[a] == s.actions[a]
  {
    hide Delivered, Target;
    var t := Target(s, e.callId, e.control, e.eventType);
    if t.Some? {
      TargetExists(s, e.callId, e.control, e.eventType);
      assert LatchOk(s.actions[a]);
      assert t.value != a;
    }
  }

  lemma {:induction false} ResultStays(es: seq<Event>, more: seq<Event>, a: nat)
    requires a < |Run(es).actions| && Run(es).actions[a].completed
    requires !Run(es).actions[a].kind.Collect? && !Run(es).actions[a].phase.Executing?
    ensures a < |Run(es + more).actions| && SameResult(Run(es).actions[a], Run(es + more).actions[a])
    decreases |more|
  {
    hide Step, LatchesOk, RegisteredOpen, NamesUsed;
    if more == [] {
      assert es + more == es;
    } else {
      var m := more[..|more| - 1];
      ResultStays(es, m, a);
      assert (es + more)[..|es + more| - 1] == es + m;
      RunReachable(es + m);
      StepKeepsResult(Run(es + m), more[|more| - 1], a);
    }
  }

  /** The result of a play-type or detect action that an event completed is, at the end of the run,
      the parameters of the event that completed it. */
  lemma {:induction false} ResultIsOfItsEvent(es: seq<Event>, n: nat, a: nat)
    requires n < |es| && es[n].ComponentNews? && JustCompleted(Run(es[..n]), Run(es[..n + 1]), a)
    requires !Run(es[..n + 1]).actions[a].kind.Collect? && !Run(es[..n + 1]).actions[a].phase.Executing?
    ensures a < |Run(es).actions| && Run(es).actions[a].completed
    ensures Run(es).actions[a].result == JObject(es[n].params)
  {
    hide Step, IsCause;
    assert es[..n + 1][..n] == es[..n];
    assert Run(es[..n + 1]) == Step(Run(es[..n]), es[n]);
    CompletionCause(Run(es[..n]), es[n], a);
    CauseIsResult(es[n], a, Run(es[..n + 1]).actions[a]);
    ResultStays(es[..n + 1], es[n + 1..], a);
    assert es[..n + 1] + es[n + 1..] == es;
  }

  lemma {:induction false} CauseIsResult(e: Event, a: nat, l: Latch)
    requires e.ComponentNews? && IsCause(e, a, l)
    ensures l.result == JObject(e.params)
  {
  }

  // ------------------------------------------------------------------ where calls come from

  /** The call is the one the event makes: an inbound call, the early leg of a pending dial, or the leg
      of an answered one. */
  predicate IsOrigin(e: Event, c: Call) {
    match e
    case Inbound(callId, node) =>
      callId != "" && c.id == callId && c.node == node && c.direction == "inbound" && c.tag == ""
    case CallNews(callId, node, _, tag) =>
      callId != "" && tag != "" && c.id == callId && c.node == node && c.direction == "outbound" && c.tag == tag
    case DialNews(tag, dialState, callId, node) =>
      dialState == "answered" && c.id == callId && c.node == node && c.direction == "outbound" && c.tag == tag
    case _ => false
  }

  /** The state of a call when the event has made it. */
  predicate IsFirstState(e: Event, state: string) {
    match e
    case Inbound(_, _) => state == "created"
    case CallNews(_, _, news, _) => state == news
    case DialNews(_, _, _, _) => state == "answered"
    case _ => false
  }

  predicate SameCall(c: Call, c': Call) {
    c'.id == c.id && c'.node == c.node && c'.direction == c.direction && c'.tag == c.tag
  }

  /** The event is news of the call. */
  predicate IsNewsOf(s: State, e: Event, c: nat) {
    e.CallNews? && e.callId != "" && e.callId in s.calls && s.calls[e.callId] == c
  }

  /** Calls keep what they are; only news of a call changes its state, and to the one in the news; a
      new call is the one its event makes. */
  predicate CallsFollow(s: State, e: Event, s': State) {
    && |s.owned| <= |s'.owned|
    && (forall c :: 0 <= c < |s.owned| ==>
          && SameCall(s.owned[c], s'.owned[c])
          && s'.owned[c].state == if IsNewsOf(s, e, c) then e.state else s.owned[c].state)
    && forall c :: |s.owned| <= c < |s'.owned| ==> IsOrigin(e, s'.owned[c]) && IsFirstState(e, s'.owned[c].state)
  }

  lemma {:induction false} CallNewsFollow(s: State, e: Event)
    requires e.CallNews?
    ensures CallsFollow(s, e, Step(s, e))
  {
    hide ResolveAll;
    var c := Call(e.callId, e.node, "outbound", e.tag, "created", map[]);
    if e.callId != "" {
      if e.tag != "" && e.tag in s.pendingDials && e.callId !in s.calls {
        var s1 := AddCall(s, c);
        assert s1.calls[e.callId] == |s.owned| && s1.owned[|s.owned|] == c;
        assert Step(s, e).owned[|s.owned|].state == e.state;
      } else if e.callId in s.calls && s.calls[e.callId] < |s.owned| {
        assert Step(s, e).owned[s.calls[e.callId]].state == e.state;
      }
    }
  }

  lemma {:induction false} DialNewsFollow(s: State, e: Event)
    requires e.DialNews?
    ensures CallsFollow(s, e, Step(s, e))
  {
  }

  /** The calls are the same up to their registries. */
  predicate CallsKept(s: State, s': State) {
    && |s'.owned| == |s.owned|
    && forall c :: 0 <= c < |s.owned| ==> SameCall(s.owned[c], s'.owned[c]) && s'.owned[c].state == s.owned[c].state
  }

  lemma {:induction false} KeptFollow(s: State, e: Event, s': State)
    requires !e.CallNews? && CallsKept(s, s')
    ensures CallsFollow(s, e, s')
  {
    hide SameCall;
  }

  lemma {:induction false} UnregisterKeepsCalls(s: State, c: nat, control: string)
    ensures CallsKept(s, s) && (c < |s.owned| ==> CallsKept(s, Unregister(s, c, control)))
  {
  }

  lemma {:induction false} FailKeepsCalls(s: State, a: nat, state: string, result: Json)
    requires a < |s.actions|
    ensures CallsKept(s, FailStep(s, a, state, result))
  {
    hide SameCall, Unregister;
    UnregisterKeepsCalls(s, s.actions[a].call, s.actions[a].control);
  }

  lemma {:induction false} ComponentKeepsCalls(s: State, e: Event)
    requires e.ComponentNews?
    ensures CallsKept(s, Step(s, e))
  {
    hide Delivered, Target, SameCall, Unregister;
    var t := Target(s, e.callId, e.control, e.eventType);
    UnregisterKeepsCalls(s, 0, e.control);
    if t.Some? {
      assert t.value < |s.actions| && e.callId in s.calls && s.calls[e.callId] < |s.owned| by {
        TargetExists(s, e.callId, e.control, e.eventType);
      }
      var s1 := SetAction(s, t.value, Delivered(s.actions[t.value], e.state, e.params).0);
      UnregisterKeepsCalls(s1, s.calls[e.callId], e.control);
    }
  }

  lemma {:induction false} StartKeepsCalls(s: State, e: Event)
    requires e.StartAction?
    ensures CallsKept(s, Step(s, e))
  {
  }

  lemma {:induction false} ActionsFollow(s: State, e: Event)
    requires e.ComponentNews? || e.StartAction? || e.ActionReply? || e.ActionThrew?
    ensures CallsFollow(s, e, Step(s, e))
  {
    hide CallsKept, CallsFollow, FailStep, ComponentStep, StartStep;
    match e {
      case ComponentNews(_, _, _, _, _) => ComponentKeepsCalls(s, e);
      case StartAction(_, _, _) => StartKeepsCalls(s, e);
      case ActionReply(a, code, result) =>
        UnregisterKeepsCalls(s, |s.owned|, "");
        if a < |s.actions| {
          FailKeepsCalls(s, a, "finished", EMPTY);
          FailKeepsCalls(s, a, "error", result);
          RepliedKeepsCalls(s, a);
        }
      case ActionThrew(a) =>
        UnregisterKeepsCalls(s, |s.owned|, "");
        if a < |s.actions| { FailKeepsCalls(s, a, "error", EMPTY); }
      case _ =>
    }
    KeptFollow(s, e, Step(s, e));
  }

  lemma {:induction false} RepliedKeepsCalls(s: State, a: nat)
    requires a < |s.actions|
    ensures CallsKept(s, SetAction(s, a, s.actions[a].(phase := Returned)))
  {
  }

  lemma {:induction false} StepFollows(s: State, e: Event)
    ensures CallsFollow(s, e, Step(s, e))
  {
    hide DialNewsStep, CallNewsStep, ComponentStep, StartStep, ActionReplyStep, ActionThrewStep;
    match e {
      case CallNews(_, _, _, _) => CallNewsFollow(s, e);
      case DialNews(_, _, _, _) => DialNewsFollow(s, e);
      case ComponentNews(_, _, _, _, _) => ActionsFollow(s, e);
      case StartAction(_, _, _) => ActionsFollow(s, e);
      case ActionReply(_, _, _) => ActionsFollow(s, e);
      case ActionThrew(_) => ActionsFollow(s, e);
      case _ =>
    }
  }

  ghost predicate HasOrigin(es: seq<Event>, c: Call) {
    exists i :: 0 <= i < |es| && IsOrigin(es[i], c)
  }

  lemma {:induction false} OriginStays(es: seq<Event>, c: Call, c': Call)
    requires es != [] && SameCall(c, c') && (HasOrigin(es[..|es| - 1], c) || IsOrigin(es[|es| - 1], c))
    ensures HasOrigin(es, c')
  {
    var before := es[..|es| - 1];
    if HasOrigin(before, c) {
      var i :| 0 <= i < |before| && IsOrigin(before[i], c);
      assert IsOrigin(es[i], c');
    } else {
      assert IsOrigin(es[|es| - 1], c');
    }
  }

  /** In every run each call was made by an event that names it: inbound ones by their offer, outbound
      ones by news for a dial's tag. */
  lemma {:induction false} CallsHaveOrigins(es: seq<Event>, c: nat)
    requires c < |Run(es).owned|
    ensures HasOrigin(es, Run(es).owned[c])
    decreases |es|
  {
    hide Step, HasOrigin, IsOrigin, SameCall;
    if es != [] {
      var before, e := es[..|es| - 1], es[|es| - 1];
      StepFollows(Run(before), e);
      var call := Run(es).owned[c];
      if c < |Run(before).owned| {
        CallsHaveOrigins(before, c);
        OriginStays(es, Run(before).owned[c], call);
      } else {
        assert SameCall(call, call) by { SameAsItself(call); }
        OriginStays(es, call, call);
      }
    }
  }

  lemma {:induction false} SameAsItself(c: Call)
    ensures SameCall(c, c)
  {
  }
}
