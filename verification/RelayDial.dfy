/** Dial correlation over whole runs of the RELAY client. */
module RelayDial {
  import opened Json
  import opened RelayCalls
  import opened RelaySafety

  /** Dial tags are fresh: no tag is dialled twice. */
  ghost predicate FreshTags(es: seq<Event>) {
    forall i, j :: 0 <= i < j < |es| && es[i].DialBegin? && es[j].DialBegin? ==> es[i].tag != es[j].tag
  }

  predicate Dialled(es: seq<Event>, tag: string) {
    DialBegin(tag) in es
  }

  /** The position of the first dial event with the tag, or connection loss, after the dial was
      begun.  This reads the history of events alone. */
  function FirstNews(es: seq<Event>, tag: string): (n: Option<nat>)
    ensures n.Some? ==> n.value < |es| && (es[n.value].Loss? || (es[n.value].DialNews? && es[n.value].tag == tag))
  {
    if es == [] then None
    else
      var before, last := es[..|es| - 1], es[|es| - 1];
      if FirstNews(before, tag).Some? then FirstNews(before, tag)
      else if !Dialled(before, tag) then None
      else if last.Loss? || (last.DialNews? && last.tag == tag) then Some(|before|)
      else None
  }

  /** What the event at `n` settles a dial with: a call when it says answered, no call when it
      says failed or the connection is lost, nothing for any other state. */
  function Verdict(es: seq<Event>, n: nat): Option<Option<nat>>
    requires n < |es|
  {
    var e := es[n];
    if e.Loss? then Some(None)
    else if e.DialNews? && e.dialState == "answered" then Some(Some(LegFor(Run(es[..n]), e.callId)))
    else if e.DialNews? && e.dialState == "failed" then Some(None)
    else None
  }

  function Settled(es: seq<Event>, tag: string): Option<Option<nat>> {
    var n := FirstNews(es, tag);
    if n.None? then None else Verdict(es, n.value)
  }

  /** The RPC of the dial is out. */
  predicate IsDialling(es: seq<Event>, tag: string) {
    es != []
    && (var before, last := es[..|es| - 1], es[|es| - 1];
        last == DialBegin(tag) || (last != DialSent(tag) && last != DialError(tag) && IsDialling(before, tag)))
  }

  /** The RPC of the dial has returned. */
  predicate IsPlaced(es: seq<Event>, tag: string) {
    es != []
    && (var before, last := es[..|es| - 1], es[|es| - 1];
        IsPlaced(before, tag) || (last == DialSent(tag) && IsDialling(before, tag)))
  }

  /** The dial gives up at the event `n`: its RPC fails, or it times out before anything settled it. */
  predicate GivesUp(es: seq<Event>, n: nat, tag: string)
    requires n < |es|
  {
    (es[n] == DialError(tag) && IsDialling(es[..n], tag))
    || (es[n] == DialTimeout(tag) && IsPlaced(es[..n], tag) && Settled(es[..n], tag).None?)
  }

  ghost predicate GaveUp(es: seq<Event>, tag: string) {
    exists n :: 0 <= n < |es| && GivesUp(es, n, tag)
  }

  ghost predicate DialCorrelated(s: State, es: seq<Event>, tag: string) {
    (tag in s.dials <==> Dialled(es, tag)) && (IsDialling(es, tag) ==> Dialled(es, tag))
    && (tag in s.pendingDials ==> tag in s.dials && !s.dials[tag].phase.Done?)
    && (tag in s.dials ==>
          var d := s.dials[tag];
          (d.phase.Dialing? <==> IsDialling(es, tag)) && (d.phase.Waiting? ==> IsPlaced(es, tag))
          && (!d.phase.Done? ==> d.promise == Settled(es, tag) && (tag in s.pendingDials <==> FirstNews(es, tag).None?))
          && (d.promise.Some? ==> d.promise == Settled(es, tag))
          && (d.phase.Done? ==>
                (d.phase.result.Some? ==> d.promise == Some(d.phase.result))
                && (d.phase.result.None? ==> Settled(es, tag) == Some(None) || GaveUp(es, tag))))
  }

  lemma {:induction false} FirstNewsNeedsDial(es: seq<Event>, tag: string)
    ensures FirstNews(es, tag).Some? ==> Dialled(es, tag)
  {
    if es != [] { FirstNewsNeedsDial(es[..|es| - 1], tag); }
  }

  /** How the reference changes with one more event. */
  lemma {:induction false} SettledGrows(es: seq<Event>, tag: string)
    requires es != []
    ensures var before, last := es[..|es| - 1], es[|es| - 1];
            (FirstNews(before, tag).Some? ==> FirstNews(es, tag) == FirstNews(before, tag))
            && (FirstNews(before, tag).Some? ==> Settled(es, tag) == Settled(before, tag))
            && (FirstNews(before, tag).None? ==>
                  if Dialled(before, tag) && (last.Loss? || (last.DialNews? && last.tag == tag)) then
                    FirstNews(es, tag) == Some(|before|) && Settled(es, tag) ==
                      (if last.Loss? || last.dialState == "failed" then Some(None)
                       else if last.dialState == "answered" then Some(Some(LegFor(Run(before), last.callId)))
                       else None)
                  else FirstNews(es, tag).None? && Settled(es, tag).None?)
  {
    hide Run, LegFor;
    var before := es[..|es| - 1];
    if FirstNews(before, tag).Some? {
      var n := FirstNews(before, tag).value;
      assert es[n] == before[n] && es[..n] == before[..n];
    }
  }

  lemma {:induction false} GaveUpGrows(es: seq<Event>, tag: string)
    requires es != []
    ensures GaveUp(es, tag) <==> GaveUp(es[..|es| - 1], tag) || GivesUp(es, |es| - 1, tag)
  {
    hide GivesUp;
    var before := es[..|es| - 1];
    forall n | 0 <= n < |before|
      ensures GivesUp(before, n, tag) == GivesUp(es, n, tag)
    {
      SamePlace(es, n, tag);
    }
  }

  lemma {:induction false} SamePlace(es: seq<Event>, n: nat, tag: string)
    requires n < |es| - 1
    ensures GivesUp(es[..|es| - 1], n, tag) == GivesUp(es, n, tag)
  {
    hide Settled, IsDialling, IsPlaced;
    assert es[..|es| - 1][..n] == es[..n];
  }

  lemma {:induction false} DialledGrows(es: seq<Event>, tag: string)
    requires es != []
    ensures Dialled(es, tag) <==> Dialled(es[..|es| - 1], tag) || es[|es| - 1] == DialBegin(tag)
  {
    assert es == es[..|es| - 1] + [es[|es| - 1]];
  }

  lemma {:induction false} FreshTagNext(es: seq<Event>)
    requires FreshTags(es) && es != []
    ensures FreshTags(es[..|es| - 1])
    ensures es[|es| - 1].DialBegin? ==> !Dialled(es[..|es| - 1], es[|es| - 1].tag)
  {
  }

  /** Events that are not about dials leave them alone. */
  lemma {:induction false} DialsKept(s: State, e: Event)
    requires e.CallNews? || e.ComponentNews? || e.StartAction? || e.ActionReply? || e.ActionThrew? || e.Configure?
             || e.OnCompleted? || e.Inbound?
    ensures Step(s, e).dials == s.dials && Step(s, e).pendingDials == s.pendingDials
  {
    hide Delivered, ResolveAll, Target;
  }

  lemma {:induction false} NewsStep(s: State, tag: string, st: string, callId: string, node: string, other: string)
    ensures var s' := DialNewsStep(s, tag, st, callId, node);
            s'.pendingDials <= s.pendingDials
            && (other != tag ==>
                  (other in s'.dials <==> other in s.dials) && (other in s.dials ==> s'.dials[other] == s.dials[other])
                  && (other in s'.pendingDials <==> other in s.pendingDials))
            && (tag in s.dials <==> tag in s'.dials)
            && (tag in s.dials && tag !in s.pendingDials ==> s'.dials[tag] == s.dials[tag])
            && (tag in s.dials ==> tag !in s'.pendingDials)
            && (tag in s.dials && tag in s.pendingDials ==>
                  s'.dials[tag] == s.dials[tag].(promise :=
                    if st == "answered" then Some(Some(LegFor(s, callId)))
                    else if st == "failed" then Some(None)
                    else s.dials[tag].promise))
  {
  }

  lemma {:induction false} DialStepCorrelates(s: State, es: seq<Event>, tag: string)
    requires es != [] && FreshTags(es) && s == Run(es[..|es| - 1])
    requires DialCorrelated(s, es[..|es| - 1], tag)
    ensures DialCorrelated(Step(s, es[|es| - 1]), es, tag)
  {
    hide Settled, FirstNews, GaveUp, Dialled, FreshTags, Run, LegFor;
    hide DialNewsStep, CallNewsStep, ComponentStep, FailStep;
    var before, e := es[..|es| - 1], es[|es| - 1];
    SettledGrows(es, tag);
    GaveUpGrows(es, tag);
    DialledGrows(es, tag);
    FreshTagNext(es);
    FirstNewsNeedsDial(before, tag);
    SettledNeedsNews(before, tag);
    match e {
      case DialNews(t, st, callId, node) => NewsStep(s, t, st, callId, node, tag);
      case DialBegin(_) =>
      case DialSent(_) =>
      case DialError(_) =>
      case DialTimeout(_) =>
      case DialWake(_) =>
      case Loss =>
      case _ => DialsKept(s, e);
    }
  }

  lemma {:induction false} SettledNeedsNews(es: seq<Event>, tag: string)
    ensures Settled(es, tag).Some? ==> FirstNews(es, tag).Some?
  {
  }

  /** Dial correlation: for every history with fresh tags, a finished dial returned a call only
      if the first dial event with its tag (before any loss) said answered, and then it returned
      exactly the leg of that event; it returned no call only if that event said failed, the
      connection was lost, or the dial gave up before it was settled. */
  lemma {:induction false} DialCorrelates(es: seq<Event>, tag: string)
    requires FreshTags(es)
    ensures DialCorrelated(Run(es), es, tag)
  {
    hide Step, DialCorrelated;
    if es == [] {
      assert DialCorrelated(INIT, [], tag) by { NothingDialled(tag); }
    } else {
      FreshTagNext(es);
      DialCorrelates(es[..|es| - 1], tag);
      DialStepCorrelates(Run(es[..|es| - 1]), es, tag);
    }
  }

  lemma {:induction false} NothingDialled(tag: string)
    ensures DialCorrelated(INIT, [], tag)
  {
  }

  // ------------------------------------------------------------------ a dial that gave up

  /** A tag that was dialled once is placed once. */
  lemma {:induction false} PlacedOnce(es: seq<Event>, tag: string)
    requires FreshTags(es)
    ensures IsDialling(es, tag) || IsPlaced(es, tag) ==> Dialled(es, tag)
    ensures IsPlaced(es, tag) ==> !IsDialling(es, tag)
  {
    hide FreshTags, Dialled;
    if es != [] {
      FreshTagNext(es);
      DialledGrows(es, tag);
      PlacedOnce(es[..|es| - 1], tag);
    }
  }

  /** Only dialling a tag again would change a finished dial. */
  lemma {:induction false} DoneStays(s: State, e: Event, tag: string)
    requires tag in s.dials && s.dials[tag].phase.Done? && e != DialBegin(tag)
    ensures tag in Step(s, e).dials && Step(s, e).dials[tag].phase == s.dials[tag].phase
  {
    hide DialNewsStep, CallNewsStep, ComponentStep, FailStep, InboundStep, StartStep, ActionReplyStep, ActionThrewStep;
    match e {
      case DialNews(t, st, callId, node) => NewsStep(s, t, st, callId, node, tag);
      case DialBegin(_) =>
      case DialSent(_) =>
      case DialError(_) =>
      case DialTimeout(_) =>
      case DialWake(_) =>
      case Loss =>
      case _ => DialsKept(s, e);
    }
  }

  lemma {:induction false} GivingUpFinishes(s: State, es: seq<Event>, tag: string)
    requires es != [] && FreshTags(es) && DialCorrelated(s, es[..|es| - 1], tag) && GivesUp(es, |es| - 1, tag)
    ensures var s' := Step(s, es[|es| - 1]); tag in s'.dials && s'.dials[tag].phase == Done(None)
  {
    hide Settled, FirstNews, GaveUp, Dialled, FreshTags, IsPlaced, IsDialling;
    FreshTagNext(es);
    PlacedOnce(es[..|es| - 1], tag);
  }

  /** A dial that gave up returned no call, whatever arrives later. */
  lemma {:induction false} GaveUpReturnsNone(es: seq<Event>, tag: string)
    requires FreshTags(es)
    ensures GaveUp(es, tag) ==> tag in Run(es).dials && Run(es).dials[tag].phase == Done(None)
  {
    hide Step, DialCorrelated, GivesUp, GaveUp, Dialled, FreshTags;
    if es == [] {
      NoneGaveUp(tag);
    } else {
      var before, e := es[..|es| - 1], es[|es| - 1];
      FreshTagNext(es);
      GaveUpGrows(es, tag);
      DialCorrelates(before, tag);
      GaveUpReturnsNone(before, tag);
      if GaveUp(before, tag) {
        assert Dialled(before, tag) by { InDialsIsDialled(before, tag); }
        DoneStays(Run(before), e, tag);
      } else if GivesUp(es, |es| - 1, tag) {
        GivingUpFinishes(Run(before), es, tag);
      }
    }
  }

  lemma {:induction false} InDialsIsDialled(es: seq<Event>, tag: string)
    requires tag in Run(es).dials && DialCorrelated(Run(es), es, tag)
    ensures Dialled(es, tag)
  {
  }

  lemma {:induction false} NoneGaveUp(tag: string)
    ensures !GaveUp([], tag)
  {
  }

  /** A finished dial returned a call if and only if the first dial event with its tag settled it
      with that call and the dial had not given up. */
  lemma {:induction false} DialReturnsExactly(es: seq<Event>, tag: string, leg: nat)
    requires FreshTags(es) && tag in Run(es).dials && Run(es).dials[tag].phase.Done?
    ensures Run(es).dials[tag].phase.result == Some(leg) <==> Settled(es, tag) == Some(Some(leg)) && !GaveUp(es, tag)
  {
    hide Run, Settled, GaveUp, FirstNews, Dialled, FreshTags, IsDialling, IsPlaced;
    DialCorrelates(es, tag);
    GaveUpReturnsNone(es, tag);
  }

  // ------------------------------------------------------------------ the call a dial returns

  /** Calls are never dropped from the pool and never change their id. */
  lemma {:induction false} CallsGrow(s: State, e: Event)
    ensures |s.owned| <= |Step(s, e).owned|
    ensures forall c :: 0 <= c < |s.owned| ==> Step(s, e).owned[c].id == s.owned[c].id
  {
    hide Delivered, ResolveAll, CallNewsStep, DialNewsStep, ComponentStep;
    match e {
      case CallNews(callId, node, st, tag) => CallNewsGrows(s, callId, node, st, tag);
      case DialNews(tag, st, callId, node) => DialNewsGrows(s, tag, st, callId, node);
      case Inbound(callId, node) =>
      case _ => ActionEventsKeepCalls(s, e);
    }
  }

  lemma {:induction false} CallNewsGrows(s: State, callId: string, node: string, st: string, tag: string)
    ensures var s' := CallNewsStep(s, callId, node, st, tag);
            |s.owned| <= |s'.owned| && forall c :: 0 <= c < |s.owned| ==> s'.owned[c].id == s.owned[c].id
  {
    hide ResolveAll;
  }

  lemma {:induction false} DialNewsGrows(s: State, tag: string, st: string, callId: string, node: string)
    ensures var s' := DialNewsStep(s, tag, st, callId, node);
            |s.owned| <= |s'.owned| && forall c :: 0 <= c < |s.owned| ==> s'.owned[c].id == s.owned[c].id
  {
  }

  /** The leg of an answered dial is an owned call with the event's id: the one registered
      under that id before the event, or else the single one the event creates. */
  lemma {:induction false} AnsweredLeg(es: seq<Event>, tag: string)
    requires FreshTags(es)
    ensures var s := Run(es);
            tag in s.dials && s.dials[tag].promise.Some? && s.dials[tag].promise.value.Some? ==>
              FirstNews(es, tag).Some?
              && (var n := FirstNews(es, tag).value;
                  var leg := s.dials[tag].promise.value.value;
                  es[n].DialNews? && es[n].tag == tag && es[n].dialState == "answered"
                  && leg == LegFor(Run(es[..n]), es[n].callId)
                  && leg < |s.owned| && s.owned[leg].id == es[n].callId)
    decreases |es|
  {
    hide Step, LegFor, FreshTags, FirstNews;
    DialCorrelates(es, tag);
    if es != [] {
      var before, e := es[..|es| - 1], es[|es| - 1];
      FreshTagNext(es);
      SettledGrows(es, tag);
      SettledNeedsNews(before, tag);
      SettledNeedsNews(es, tag);
      CallsGrow(Run(before), e);
      AnsweredLeg(before, tag);
      DialCorrelates(before, tag);
      RegistryAlwaysSafe(before);
      PromiseStep(Run(before), e, before, tag);
      assert forall n :: 0 <= n < |before| ==> es[n] == before[n] && es[..n] == before[..n];
      assert es[..|before|] == before;
    }
  }

  /** Only an answered dial event gives a promise a call, and that call is then owned. */
  lemma {:induction false} PromiseStep(s: State, e: Event, before: seq<Event>, tag: string)
    requires RegistrySafe(s) && DialCorrelated(s, before, tag)
    ensures var s' := Step(s, e);
            tag in s'.dials && s'.dials[tag].promise.Some? && s'.dials[tag].promise.value.Some? ==>
              (tag in s.dials && s.dials[tag].promise == s'.dials[tag].promise)
              || (e.DialNews? && e.tag == tag && e.dialState == "answered" && tag in s.dials
                  && FirstNews(before, tag).None?
                  && s'.dials[tag].promise.value.value == LegFor(s, e.callId)
                  && LegFor(s, e.callId) < |s'.owned| && s'.owned[LegFor(s, e.callId)].id == e.callId)
  {
    hide FirstNews, Settled, GaveUp, Dialled, CallNewsStep, ComponentStep, FailStep;
    match e {
      case DialNews(t, st, callId, node) =>
        NewsStep(s, t, st, callId, node, tag);
      case DialBegin(_) =>
      case DialSent(_) =>
      case DialError(_) =>
      case DialTimeout(_) =>
      case DialWake(_) =>
      case Loss =>
      case _ => DialsKept(s, e);
    }
  }

  /** A dial that returned a call returned the leg of the first event with its tag, and that
      event said answered. */
  lemma {:induction false} DialReturnsItsLeg(es: seq<Event>, tag: string, leg: nat)
    requires FreshTags(es) && tag in Run(es).dials && Run(es).dials[tag].phase == Done(Some(leg))
    ensures FirstNews(es, tag).Some?
    ensures var n := FirstNews(es, tag).value;
            es[n].DialNews? && es[n].tag == tag && es[n].dialState == "answered"
            && leg == LegFor(Run(es[..n]), es[n].callId)
            && leg < |Run(es).owned| && Run(es).owned[leg].id == es[n].callId
  {
    hide Run, LegFor, FirstNews;
    DialCorrelates(es, tag);
    AnsweredLeg(es, tag);
  }

  /** Any dial event consumes the pending dial: after one that settles nothing, such as `ringing`,
      an `answered` with the same tag no longer reaches the caller, who is left to time out. */
  lemma {:induction false} ProgressEventConsumesDial(
    s: State, tag: string, progress: string, callId: string, node: string, callId2: string, node2: string)
    requires tag in s.pendingDials && tag in s.dials && s.dials[tag].promise == None
    requires progress != "answered" && progress != "failed"
    ensures var s1 := Step(s, DialNews(tag, progress, callId, node));
            var s2 := Step(s1, DialNews(tag, "answered", callId2, node2));
            s2 == s1 && tag !in s2.pendingDials && tag in s2.dials && s2.dials[tag] == s.dials[tag]
  {
    hide AddCall;
    var s1 := DialNewsStep(s, tag, progress, callId, node);
    assert tag !in s1.pendingDials;
  }

  lemma {:induction false} DialStarts(tag: string)
    ensures var s := Run([DialBegin(tag), DialSent(tag)]);
            tag in s.pendingDials && tag in s.dials && s.dials[tag] == Dial(Waiting, None)
  {
    RunSnoc([], DialBegin(tag));
    RunSnoc([DialBegin(tag)], DialSent(tag));
    assert [] + [DialBegin(tag)] == [DialBegin(tag)];
    assert [DialBegin(tag)] + [DialSent(tag)] == [DialBegin(tag), DialSent(tag)];
  }

  /** A concrete run in which an answered dial goes unanswered. */
  lemma {:induction false} AnswerIsLost(tag: string, callId: string, node: string)
    ensures var es := [DialBegin(tag), DialSent(tag)];
            var ringing, answered := DialNews(tag, "ringing", callId, node), DialNews(tag, "answered", callId, node);
            var s := Run(es + [ringing] + [answered]);
            tag in s.dials && s.dials[tag] == Dial(Waiting, None) && tag !in s.pendingDials
  {
    hide Run, Step;
    var es := [DialBegin(tag), DialSent(tag)];
    var ringing, answered := DialNews(tag, "ringing", callId, node), DialNews(tag, "answered", callId, node);
    DialStarts(tag);
    RunSnoc(es, ringing);
    RunSnoc(es + [ringing], answered);
    ProgressEventConsumesDial(Run(es), tag, "ringing", callId, node, callId, node);
  }
}
