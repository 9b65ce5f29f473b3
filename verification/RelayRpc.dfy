/** Request/reply correlation of the RELAY client as a step machine: the table of pending
    requests, the promise of each `send_request` call, and the events that touch them. */
module RelayRpc {
  import opened Json
  import opened Numerals

  /** The reply message of the server, before it is turned into the caller's value. */
  datatype Reply = ResultReply(value: Json) | ErrorReply(code: int, message: string)

  /** What a promise is fulfilled with. */
  datatype Answer = FromServer(reply: Reply) | ConnectionLost

  /** The JSON value `send_request` returns for an answer; errors come back as values too. */
  function AnswerJson(a: Answer): Json {
    match a
    case FromServer(ResultReply(v)) => v
    case FromServer(ErrorReply(c, m)) =>
      JObject([Field("code", JString(IntegerText(c))), Field("message", JString(m))])
    case ConnectionLost =>
      JObject([Field("code", JString("503")), Field("message", JString("Connection lost"))])
  }

  /** What a caller reads in the value: the result as the server sent it, or an object with a code in
      decimal and a message; a lost connection is code 503. */
  lemma {:induction false} AnswerSays(a: Answer)
    ensures a.FromServer? && a.reply.ResultReply? ==> AnswerJson(a) == a.reply.value
    ensures a.FromServer? && a.reply.ErrorReply? ==>
      && AnswerJson(a).JObject?
      && Lookup(AnswerJson(a).fields, "message") == Some(JString(a.reply.message))
      && exists text :: Lookup(AnswerJson(a).fields, "code") == Some(JString(text)) && IsCodeText(text, a.reply.code)
    ensures a.ConnectionLost? ==>
      && AnswerJson(a).JObject?
      && Lookup(AnswerJson(a).fields, "message") == Some(JString("Connection lost"))
      && Lookup(AnswerJson(a).fields, "code") == Some(JString("503"))
  {
    hide IntegerText, Lookup;
    if a.FromServer? && a.reply.ErrorReply? {
      CodeText(a.reply.code);
      TwoMembers(JString(IntegerText(a.reply.code)), JString(a.reply.message));
    }
    TwoMembers(JString("503"), JString("Connection lost"));
  }

  lemma {:induction false} TwoMembers(code: Json, message: Json)
    ensures var fields := [Field("code", code), Field("message", message)];
            Lookup(fields, "code") == Some(code) && Lookup(fields, "message") == Some(message)
  {
    var fields := [Field("code", code), Field("message", message)];
    var rest := [Field("message", message)];
    assert fields[1..] == rest && IndexOf(rest, "message") == 0;
    assert |"code"| != |"message"|;
  }

  /** A number in decimal, with a minus sign in front if it is negative. */
  predicate IsCodeText(text: string, code: int) {
    && text != ""
    && (text[0] == '-' <==> code < 0)
    && (if code < 0 then Decimal(text[1..]) == -code else Decimal(text) == code)
  }

  lemma {:induction false} CodeText(code: int)
    ensures IsCodeText(IntegerText(code), code)
  {
    hide IntegerText, Decimal;
    IntegerSays(code);
  }

  datatype Outcome = Returned(answer: Answer) | TimedOut | SendFailed

  // A call of `send_request`: registered, then waiting once the frame is written, then done.
  datatype Phase = Sending | Waiting | Done(outcome: Outcome)

  datatype Request = Request(phase: Phase, promise: Option<Answer>)

  /** `pending` holds the ids in the table; a request outlives its entry there.  `fault` says
      that a second reply found its promise already set, which throws on the read thread. */
  datatype State = State(pending: set<string>, requests: map<string, Request>, fault: bool)

  const INIT := State({}, map[], false)

  datatype Event =
    | Begin(id: string)
    | Sent(id: string)
    | SendError(id: string)
    | Timeout(id: string)
    | Wake(id: string)
    | Replied(id: string, reply: Reply)
    | Loss

  /** The waiting caller leaves: its entry is erased and its outcome recorded. */
  function Finish(s: State, id: string, o: Outcome): State
    requires id in s.requests
  {
    s.(pending := s.pending - {id}, requests := s.requests[id := s.requests[id].(phase := Done(o))])
  }

  function Fulfil(r: Request, a: Answer): Request {
    if r.promise.None? then r.(promise := Some(a)) else r
  }

  /** Every pending promise that is still open is answered; the table is emptied. */
  function RejectAll(s: State): State {
    s.(pending := {},
       requests := map id | id in s.requests ::
         if id in s.pending then Fulfil(s.requests[id], ConnectionLost) else s.requests[id])
  }

  function Step(s: State, e: Event): State {
    match e
    case Begin(id) => s.(pending := s.pending + {id}, requests := s.requests[id := Request(Sending, None)])
    case Sent(id) =>
      if id in s.requests && s.requests[id].phase.Sending? then
        s.(requests := s.requests[id := s.requests[id].(phase := Waiting)])
      else s
    case SendError(id) =>
      if id in s.requests && s.requests[id].phase.Sending? then Finish(s, id, SendFailed) else s
    case Timeout(id) =>
      if id in s.requests && s.requests[id].phase.Waiting? && s.requests[id].promise.None? then
        Finish(s, id, TimedOut)
      else s
    case Wake(id) =>
      if id in s.requests && s.requests[id].phase.Waiting? && s.requests[id].promise.Some? then
        Finish(s, id, Returned(s.requests[id].promise.value))
      else s
    case Replied(id, reply) =>
      if id in s.pending && id in s.requests then
        if s.requests[id].promise.Some? then s.(fault := true)
        else s.(requests := s.requests[id := Fulfil(s.requests[id], FromServer(reply))])
      else s
    case Loss => RejectAll(s)
  }

  function Run(es: seq<Event>): State {
    if es == [] then INIT else Step(Run(es[..|es| - 1]), es[|es| - 1])
  }

  // ------------------------------------------------------------------ the reference

  /** Request ids are fresh: no id is begun twice. */
  predicate FreshIds(es: seq<Event>) {
    forall i, j :: 0 <= i < j < |es| && es[i].Begin? && es[j].Begin? ==> es[i].id != es[j].id
  }

  predicate Begun(es: seq<Event>, id: string) {
    Begin(id) in es
  }

  /** The answer a request is entitled to: the first reply to its id or connection loss after it
      was begun.  This reads the history of events alone. */
  function FirstAnswer(es: seq<Event>, id: string): Option<Answer> {
    if es == [] then None
    else
      var before := es[..|es| - 1];
      var last := es[|es| - 1];
      if FirstAnswer(before, id).Some? then FirstAnswer(before, id)
      else if !Begun(before, id) then None
      else if last.Replied? && last.id == id then Some(FromServer(last.reply))
      else if last.Loss? then Some(ConnectionLost)
      else None
  }

  /** The frame of the request is still being written. */
  predicate IsSending(es: seq<Event>, id: string) {
    es != []
    && (var before, last := es[..|es| - 1], es[|es| - 1];
        last == Begin(id) || (last != Sent(id) && last != SendError(id) && IsSending(before, id)))
  }

  /** The frame of the request was written. */
  predicate IsSent(es: seq<Event>, id: string) {
    es != []
    && (var before, last := es[..|es| - 1], es[|es| - 1];
        IsSent(before, id) || (last == Sent(id) && IsSending(before, id)))
  }

  predicate TimesOut(es: seq<Event>, n: nat, id: string)
    requires n < |es|
  {
    es[n] == Timeout(id) && IsSent(es[..n], id) && FirstAnswer(es[..n], id).None?
  }

  /** A timeout of the waiting request happened before any answer for it. */
  predicate TimedOutFirst(es: seq<Event>, id: string) {
    exists n :: 0 <= n < |es| && TimesOut(es, n, id)
  }

  predicate FailsToSend(es: seq<Event>, n: nat, id: string)
    requires n < |es|
  {
    es[n] == SendError(id) && IsSending(es[..n], id)
  }

  /** The frame of the request could not be written. */
  predicate SendErrorSeen(es: seq<Event>, id: string) {
    exists n :: 0 <= n < |es| && FailsToSend(es, n, id)
  }

  /** What holds of request `id` after the events `es`. */
  predicate Correlated(s: State, es: seq<Event>, id: string) {
    (id in s.requests <==> Begun(es, id)) && (IsSending(es, id) ==> Begun(es, id))
    && (id in s.pending ==> id in s.requests && !s.requests[id].phase.Done?)
    && (id in s.requests ==>
          var r := s.requests[id];
          (r.promise.Some? ==> r.promise == FirstAnswer(es, id))
          && (!r.phase.Done? ==> r.promise == FirstAnswer(es, id))
          && (!r.phase.Done? && r.promise.None? ==> id in s.pending)
          && (r.phase.Sending? <==> IsSending(es, id)) && (r.phase.Waiting? ==> IsSent(es, id))
          && (r.phase.Done? ==>
                match r.phase.outcome
                case Returned(a) => FirstAnswer(es, id) == Some(a)
                case TimedOut => TimedOutFirst(es, id)
                case SendFailed => SendErrorSeen(es, id)))
  }

  lemma {:induction false} FirstAnswerNeedsBegin(es: seq<Event>, id: string)
    ensures FirstAnswer(es, id).Some? ==> Begun(es, id)
  {
    if es != [] {
      FirstAnswerNeedsBegin(es[..|es| - 1], id);
    }
  }

  lemma {:induction false} TimeoutSeen(es: seq<Event>, id: string)
    requires es != []
    ensures TimedOutFirst(es[..|es| - 1], id) ==> TimedOutFirst(es, id)
    ensures TimesOut(es, |es| - 1, id) ==> TimedOutFirst(es, id)
  {
    hide TimesOut;
    var before := es[..|es| - 1];
    if n :| 0 <= n < |before| && TimesOut(before, n, id) {
      SamePlace(es, n, id);
    }
  }

  lemma {:induction false} FailureSeen(es: seq<Event>, id: string)
    requires es != []
    ensures SendErrorSeen(es[..|es| - 1], id) ==> SendErrorSeen(es, id)
    ensures FailsToSend(es, |es| - 1, id) ==> SendErrorSeen(es, id)
  {
    hide FailsToSend;
    var before := es[..|es| - 1];
    if n :| 0 <= n < |before| && FailsToSend(before, n, id) {
      SamePlace(es, n, id);
    }
  }

  lemma {:induction false} SamePlace(es: seq<Event>, n: nat, id: string)
    requires n < |es| - 1
    ensures TimesOut(es[..|es| - 1], n, id) == TimesOut(es, n, id)
    ensures FailsToSend(es[..|es| - 1], n, id) == FailsToSend(es, n, id)
  {
    hide IsSending, IsSent, FirstAnswer;
    assert es[..|es| - 1][..n] == es[..n];
  }

  /** One event extends the history; what was seen stays seen. */
  lemma {:induction false} HistoryGrows(es: seq<Event>, id: string)
    requires es != []
    ensures HistoryGrown(es, id)
  {
    hide FirstAnswer, IsSending, IsSent, TimedOutFirst, SendErrorSeen;
    assert es == es[..|es| - 1] + [es[|es| - 1]];
    TimeoutSeen(es, id);
    FailureSeen(es, id);
  }

  predicate HistoryGrown(es: seq<Event>, id: string)
    requires es != []
  {
    var before, last := es[..|es| - 1], es[|es| - 1];
    (Begun(es, id) <==> Begun(before, id) || last == Begin(id))
    && (TimedOutFirst(before, id) ==> TimedOutFirst(es, id))
    && (SendErrorSeen(before, id) ==> SendErrorSeen(es, id))
    && (last == Timeout(id) && IsSent(before, id) && FirstAnswer(before, id).None? ==> TimedOutFirst(es, id))
    && (last == SendError(id) && IsSending(before, id) ==> SendErrorSeen(es, id))
  }

  lemma {:induction false} FreshPrefix(es: seq<Event>)
    requires FreshIds(es) && es != []
    ensures FreshIds(es[..|es| - 1])
    ensures es[|es| - 1].Begin? ==> !Begun(es[..|es| - 1], es[|es| - 1].id)
  {
  }

  /** Correlation over whole runs: for every history with fresh ids and every request, the table,
      the promise and the outcome agree with the history.  A request that returns, returns the
      first of its own reply and connection loss, never another request's value. */
  lemma {:induction false} RunCorrelates(es: seq<Event>, id: string)
    requires FreshIds(es)
    ensures Correlated(Run(es), es, id)
  {
    if es != [] {
      var before := es[..|es| - 1];
      FreshPrefix(es);
      RunCorrelates(before, id);
      HistoryGrows(es, id);
      FirstAnswerNeedsBegin(before, id);
      StepCorrelates(Run(before), es, id);
    }
  }

  lemma {:induction false} StepCorrelates(s: State, es: seq<Event>, id: string)
    requires es != [] && FreshIds(es) && Correlated(s, es[..|es| - 1], id) && HistoryGrown(es, id)
    requires FirstAnswer(es[..|es| - 1], id).Some? ==> Begun(es[..|es| - 1], id)
    ensures Correlated(Step(s, es[|es| - 1]), es, id)
  {
    hide TimedOutFirst, SendErrorSeen, Begun;
    FreshPrefix(es);
  }

  /** After a connection loss no request is pending, and every request that has not returned
      holds an answer, so its caller can only wake up with it. */
  lemma {:induction false} LossAnswersAll(es: seq<Event>)
    requires FreshIds(es) && es != [] && es[|es| - 1] == Loss
    ensures Run(es).pending == {}
    ensures forall id :: id in Run(es).requests && !Run(es).requests[id].phase.Done? ==>
              Run(es).requests[id].promise.Some?
  {
    forall id | id in Run(es).requests && !Run(es).requests[id].phase.Done?
      ensures Run(es).requests[id].promise.Some?
    {
      RunCorrelates(es, id);
    }
  }

  // ------------------------------------------------------------------ duplicate replies

  /** A reply delivered to a request that is still in the table and already answered. */
  predicate IsDuplicate(s: State, e: Event) {
    e.Replied? && e.id in s.pending && e.id in s.requests && s.requests[e.id].promise.Some?
  }

  /** The read thread is unharmed exactly as long as no duplicate reply is delivered. */
  lemma {:induction false} FaultExactly(es: seq<Event>)
    ensures Run(es).fault <==> exists n :: 0 <= n < |es| && IsDuplicate(Run(es[..n]), es[n])
  {
    hide IsDuplicate, Step;
    if es != [] {
      var m := |es| - 1;
      var before := es[..m];
      FaultExactly(before);
      FaultStep(Run(before), es[m]);
      DuplicateSooner(es);
    }
  }

  lemma {:induction false} DuplicateSooner(es: seq<Event>)
    requires es != []
    ensures var m := |es| - 1;
            (exists n :: 0 <= n < |es| && IsDuplicate(Run(es[..n]), es[n]))
            <==> (exists n :: 0 <= n < m && IsDuplicate(Run(es[..m][..n]), es[..m][n]))
                 || IsDuplicate(Run(es[..m]), es[m])
  {
    hide IsDuplicate, Run;
    var m := |es| - 1;
    assert forall n :: 0 <= n <= m ==> es[..m][..n] == es[..n];
    if n :| 0 <= n < m && IsDuplicate(Run(es[..m][..n]), es[..m][n]) {
      assert IsDuplicate(Run(es[..n]), es[n]);
    }
  }

  lemma {:induction false} FaultStep(s: State, e: Event)
    ensures Step(s, e).fault <==> s.fault || IsDuplicate(s, e)
  {
  }

  /** With at most one reply per id there is no fault. */
  lemma {:induction false} OneReplyNoFault(es: seq<Event>)
    requires FreshIds(es)
    requires forall i, j :: 0 <= i < j < |es| && es[i].Replied? && es[j].Replied? ==> es[i].id != es[j].id
    ensures !Run(es).fault
  {
    hide IsDuplicate;
    FaultExactly(es);
    forall n | 0 <= n < |es|
      ensures !IsDuplicate(Run(es[..n]), es[n])
    {
      NoDuplicate(es, n);
    }
  }

  lemma {:induction false} NoDuplicate(es: seq<Event>, n: nat)
    requires FreshIds(es) && n < |es|
    requires forall i, j :: 0 <= i < j < |es| && es[i].Replied? && es[j].Replied? ==> es[i].id != es[j].id
    ensures !IsDuplicate(Run(es[..n]), es[n])
  {
    hide Run;
    if es[n].Replied? {
      var before, id := es[..n], es[n].id;
      assert FreshIds(before);
      RunCorrelates(before, id);
      PendingNotLost(before, id);
      AnswerSource(before, id);
    }
  }

  /** A request still in the table was not answered by a loss. */
  lemma {:induction false} PendingNotLost(es: seq<Event>, id: string)
    requires FreshIds(es)
    ensures id in Run(es).pending ==> FirstAnswer(es, id) != Some(ConnectionLost)
  {
    if es != [] {
      FreshPrefix(es);
      PendingNotLost(es[..|es| - 1], id);
      FirstAnswerNeedsBegin(es[..|es| - 1], id);
      RunCorrelates(es[..|es| - 1], id);
    }
  }

  /** An answer from the server is a reply to this id in the history. */
  lemma {:induction false} AnswerSource(es: seq<Event>, id: string)
    ensures FirstAnswer(es, id).Some? && FirstAnswer(es, id).value.FromServer? ==>
              exists i :: 0 <= i < |es| && es[i] == Replied(id, FirstAnswer(es, id).value.reply)
  {
    if es != [] {
      var before := es[..|es| - 1];
      AnswerSource(before, id);
      if FirstAnswer(before, id).Some? && FirstAnswer(before, id).value.FromServer? {
        var i :| 0 <= i < |before| && before[i] == Replied(id, FirstAnswer(before, id).value.reply);
        assert es[i] == before[i];
      }
    }
  }
}
