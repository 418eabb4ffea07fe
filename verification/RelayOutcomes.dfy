/** What happens to a socket, event by event, and what the caller of a relay request gets for it. */
module RelayOutcomes {
  import opened Wrappers
  import opened Relay

  // ----- one attempt

  /** Nothing has failed and no answer has begun. */
  ghost predicate Waiting(events: seq<Event>) {
    forall e | e in events :: !e.Failed? && !e.DeadlinePassed? && !e.Responded?
  }

  /** The socket connected, or was connected when it was assigned. */
  ghost predicate Connecting(events: seq<Event>) {
    Connected in events || SocketAssigned(false) in events
  }

  /** An answer's body is coming in: its chunks, among events that mean nothing by now. */
  ghost predicate Receiving(events: seq<Event>) {
    forall e | e in events :: e.Chunk? || e.SocketAssigned? || e.Connected? || e.Responded?
  }

  function Chunks(events: seq<Event>): seq<Bytes> {
    if events == [] then []
    else Chunks(events[..|events| - 1]) + if events[|events| - 1].Chunk? then [events[|events| - 1].bytes] else []
  }

  function Body(events: seq<Event>): Bytes {
    Concat(Chunks(events))
  }

  lemma RunSnoc(s: State, events: seq<Event>, e: Event)
    ensures Run(s, events + [e]) == Step(Run(s, events), e)
  {
    assert (events + [e])[..|events|] == events;
  }

  lemma {:induction false} WaitingIs(verb: Verb, events: seq<Event>)
    requires Waiting(events)
    ensures Run(Fresh(verb), events) == Fresh(verb).(sent := Connecting(events))
    decreases |events|
  {
    if events != [] {
      var n := |events| - 1;
      assert events == events[..n] + [events[n]];
      WaitingIs(verb, events[..n]);
    }
  }

  lemma BodySnoc(events: seq<Event>)
    requires events != []
    ensures var before, e := events[..|events| - 1], events[|events| - 1];
            && Chunks(events) == (if e.Chunk? then Chunks(before) + [e.bytes] else Chunks(before))
            && Body(events) == (if e.Chunk? then Body(before) + e.bytes else Body(before))
  {
    var before, e := events[..|events| - 1], events[|events| - 1];
    if e.Chunk? {
      ConcatSnoc(Chunks(before), e.bytes);
    } else {
      assert Chunks(events) == Chunks(before);
    }
  }

  ghost function Begun(verb: Verb, status: int, body: seq<Event>): State {
    State(verb, true, false, Some(status), Chunks(body), |Body(body)|, None)
  }

  lemma {:induction false} ReceivingIs(verb: Verb, before: seq<Event>, status: int, body: seq<Event>)
    requires Waiting(before) && Receiving(body) && |Body(body)| <= MAX_RESPONSE_BYTES
    ensures Run(Fresh(verb), before + [Responded(status)] + body) == Begun(verb, status, body)
    decreases |body|
  {
    if body == [] {
      assert before + [Responded(status)] + body == before + [Responded(status)];
      RunSnoc(Fresh(verb), before, Responded(status));
      WaitingIs(verb, before);
    } else {
      var n := |body| - 1;
      ReceivesNext(verb, status, body);
      hide Receiving; hide Waiting; hide Body; hide Step; hide Begun;
      ReceivingIs(verb, before, status, body[..n]);
      assert before + [Responded(status)] + body == before + [Responded(status)] + body[..n] + [body[n]];
      RunSnoc(Fresh(verb), before + [Responded(status)] + body[..n], body[n]);
    }
  }

  lemma ReceivesNext(verb: Verb, status: int, body: seq<Event>)
    requires body != [] && Receiving(body) && |Body(body)| <= MAX_RESPONSE_BYTES
    ensures var before, e := body[..|body| - 1], body[|body| - 1];
            Receiving(before) && |Body(before)| <= MAX_RESPONSE_BYTES && Step(Begun(verb, status, before), e) == Begun(verb, status, body)
  {
    BodySnoc(body);
    ReceivingParts(body);
    ReceivesOne(verb, status, body[..|body| - 1], body[|body| - 1], body);
  }

  lemma ReceivingParts(body: seq<Event>)
    requires body != [] && Receiving(body)
    ensures Receiving(body[..|body| - 1]) && Receiving([body[|body| - 1]])
  {
  }

  lemma ReceivesOne(verb: Verb, status: int, before: seq<Event>, e: Event, after: seq<Event>)
    requires Receiving([e]) && |Body(after)| <= MAX_RESPONSE_BYTES
    requires Chunks(after) == if e.Chunk? then Chunks(before) + [e.bytes] else Chunks(before)
    requires Body(after) == if e.Chunk? then Body(before) + e.bytes else Body(before)
    ensures Step(Begun(verb, status, before), e) == Begun(verb, status, after)
  {
    hide Body;
    hide Chunks;
    assert e in [e];
  }

  /** What an event settles, it settles for the whole attempt. */
  lemma SettledBy(verb: Verb, before: seq<Event>, e: Event, after: seq<Event>)
    requires Step(Run(Fresh(verb), before), e).outcome.Some?
    ensures Attempted(verb, before + [e] + after).outcome == Step(Run(Fresh(verb), before), e).outcome
  {
    RunSnoc(Fresh(verb), before, e);
    SettlesOnce(Fresh(verb), before + [e], after);
    RunKeeps(Fresh(verb), before + [e] + after);
    StepKeeps(Run(Fresh(verb), before + [e] + after), DeadlinePassed);
  }

  /** How an attempt ends whose socket failed before the request went out. */
  lemma FailsUnsent(verb: Verb, before: seq<Event>, code: string, after: seq<Event>)
    requires Waiting(before) && !Connecting(before)
    ensures Attempted(verb, before + [Failed(code)] + after).outcome == Some(
              if code in {"EACCES", "EPERM"} then PermissionDenied
              else if code == "EBUSY" then SocketBusy
              else if code in {"ENOENT", "ENOTDIR", "ECONNREFUSED", "EINVAL", "EAGAIN", "ETIMEDOUT"} then Unavailable
              else SocketError)
  {
    WaitingIs(verb, before);
    SettledBy(verb, before, Failed(code), after);
  }

  /** How an attempt ends whose socket failed after the request went out: a mutation may have been done. */
  lemma FailsSent(verb: Verb, before: seq<Event>, code: string, after: seq<Event>)
    requires Waiting(before) && Connecting(before)
    ensures Attempted(verb, before + [Failed(code)] + after).outcome == Some(
              if !verb.Get? then Indeterminate
              else if code in {"EACCES", "EPERM"} then PermissionDenied
              else if code in {"ENOENT", "ENOTDIR", "ECONNREFUSED", "EINVAL"} then Unavailable
              else SocketError)
  {
    WaitingIs(verb, before);
    SettledBy(verb, before, Failed(code), after);
  }

  /** How an attempt ends that nobody answered in time. */
  lemma TimesOut(verb: Verb, events: seq<Event>)
    requires Waiting(events)
    ensures Attempted(verb, events).outcome == Some(if !Connecting(events) then Unavailable else if verb.Get? then TimedOut else Indeterminate)
  {
    WaitingIs(verb, events);
  }

  /** An answer that comes to its end within bounds is the attempt's, whole. */
  lemma AnswersWhole(verb: Verb, before: seq<Event>, status: int, body: seq<Event>, after: seq<Event>)
    requires Waiting(before) && Receiving(body) && |Body(body)| <= 1_048_576
    ensures Attempted(verb, before + [Responded(status)] + body + [Ended(true)] + after).outcome == Some(Answered(Answer(status, Body(body))))
  {
    ReceivingIs(verb, before, status, body);
    SettledBy(verb, before + [Responded(status)] + body, Ended(true), after);
  }

  /** An answer that breaks off is no answer, and a mutation may have been done. */
  lemma AnswerBreaksOff(verb: Verb, before: seq<Event>, status: int, body: seq<Event>, e: Event, after: seq<Event>)
    requires Waiting(before) && Receiving(body) && |Body(body)| <= MAX_RESPONSE_BYTES
    requires e == Aborted || e == ResponseError || e == Ended(false)
    ensures Attempted(verb, before + [Responded(status)] + body + [e] + after).outcome == Some(if verb.Get? then InvalidResponse else Indeterminate)
  {
    ReceivingIs(verb, before, status, body);
    SettledBy(verb, before + [Responded(status)] + body, e, after);
  }

  /** So does one that grows past the bound, at the chunk that takes it there. */
  lemma AnswerTooLarge(verb: Verb, before: seq<Event>, status: int, body: seq<Event>, bytes: Bytes, after: seq<Event>)
    requires Waiting(before) && Receiving(body) && |Body(body)| <= 1_048_576 < |Body(body)| + |bytes|
    ensures Attempted(verb, before + [Responded(status)] + body + [Chunk(bytes)] + after).outcome == Some(if verb.Get? then TooLarge else Indeterminate)
  {
    ReceivingIs(verb, before, status, body);
    SettledBy(verb, before + [Responded(status)] + body, Chunk(bytes), after);
  }

  /** While an answer is coming in a socket failure or the deadline leaves a mutation in doubt and a read without an answer. */
  lemma AnswerStalls(verb: Verb, before: seq<Event>, status: int, body: seq<Event>)
    requires Waiting(before) && Receiving(body) && |Body(body)| <= MAX_RESPONSE_BYTES
    ensures Attempted(verb, before + [Responded(status)] + body).outcome == Some(if verb.Get? then TimedOut else Indeterminate)
  {
    ReceivingIs(verb, before, status, body);
  }

  // ----- over the candidates

  /** The socket was denied before the request went out. */
  ghost predicate DeniedAt(run: seq<Event>, k: nat) {
    k < |run| && Waiting(run[..k]) && !Connecting(run[..k]) && (run[k] == Failed("EACCES") || run[k] == Failed("EPERM"))
  }

  ghost predicate BusyAt(run: seq<Event>, k: nat) {
    k < |run| && Waiting(run[..k]) && !Connecting(run[..k]) && run[k] == Failed("EBUSY")
  }

  /** Nobody was there: no such socket, nobody listening, or no room for now; or time ran out with the request not sent. */
  ghost predicate AbsentAt(run: seq<Event>, k: nat) {
    && k <= |run| && Waiting(run[..k]) && !Connecting(run[..k])
    && (k == |run| || run[k] == DeadlinePassed || (run[k].Failed? && run[k].code in {"ENOENT", "ENOTDIR", "ECONNREFUSED", "EINVAL", "EAGAIN", "ETIMEDOUT"}))
  }

  /** The candidate never took the request: it was denied, busy or absent. */
  ghost predicate NeverTookIt(run: seq<Event>) {
    exists k: nat :: DeniedAt(run, k) || BusyAt(run, k) || AbsentAt(run, k)
  }

  /** The socket answers: after `before` an answer begins, and its body comes in to its end. */
  ghost predicate AnswersWith(run: seq<Event>, a: Answer) {
    exists before, body, after ::
      && run == before + [Responded(a.status)] + body + [Ended(true)] + after
      && Waiting(before) && Receiving(body) && Body(body) == a.body && |a.body| <= 1_048_576
  }

  lemma SplitAt(run: seq<Event>, k: nat)
    requires k < |run|
    ensures run == run[..k] + [run[k]] + run[k + 1..]
  {
  }

  lemma DeniedIs(verb: Verb, run: seq<Event>, k: nat)
    requires DeniedAt(run, k)
    ensures Attempted(verb, run).outcome == Some(PermissionDenied)
  {
    SplitAt(run, k);
    FailsUnsent(verb, run[..k], run[k].code, run[k + 1..]);
  }

  lemma BusyIs(verb: Verb, run: seq<Event>, k: nat)
    requires BusyAt(run, k)
    ensures Attempted(verb, run).outcome == Some(SocketBusy)
  {
    SplitAt(run, k);
    FailsUnsent(verb, run[..k], run[k].code, run[k + 1..]);
  }

  lemma AbsentIs(verb: Verb, run: seq<Event>, k: nat)
    requires AbsentAt(run, k)
    ensures Attempted(verb, run).outcome == Some(Unavailable)
  {
    if k == |run| {
      assert run[..k] == run;
      TimesOut(verb, run);
    } else {
      SplitAt(run, k);
      if run[k].Failed? {
        FailsUnsent(verb, run[..k], run[k].code, run[k + 1..]);
      } else {
        WaitingIs(verb, run[..k]);
        SettledBy(verb, run[..k], DeadlinePassed, run[k + 1..]);
      }
    }
  }

  lemma AnswerIs(verb: Verb, run: seq<Event>, a: Answer)
    requires AnswersWith(run, a)
    ensures Attempted(verb, run).outcome == Some(Answered(a))
  {
    var before, body, after :|
      && run == before + [Responded(a.status)] + body + [Ended(true)] + after
      && Waiting(before) && Receiving(body) && Body(body) == a.body && |a.body| <= 1_048_576;
    AnswersWhole(verb, before, a.status, body, after);
  }

  /** A candidate that never took the request never keeps the next from being tried, whatever the request. */
  lemma NextIsTried(verb: Verb, run: seq<Event>)
    requires NeverTookIt(run)
    ensures Attempted(verb, run).outcome.Some? && TriesNext(Attempted(verb, run).outcome.value)
  {
    var k: nat :| DeniedAt(run, k) || BusyAt(run, k) || AbsentAt(run, k);
    if DeniedAt(run, k) {
      DeniedIs(verb, run, k);
    } else if BusyAt(run, k) {
      BusyIs(verb, run, k);
    } else {
      AbsentIs(verb, run, k);
    }
  }

  /** The caller gets the first answer behind candidates that never took the request. */
  lemma FirstAnswerIsGot(verb: Verb, runs: seq<seq<Event>>, r: Relay.Result, tried: nat, k: nat, a: Answer)
    requires Ends(verb, runs, r, tried) && k < |runs|
    requires (forall j | 0 <= j < k :: NeverTookIt(runs[j])) && AnswersWith(runs[k], a)
    ensures r == Reply(a) && tried == k + 1
  {
    AnswerIs(verb, runs[k], a);
    forall j | 0 <= j < k ensures Attempted(verb, runs[j]).outcome.Some? && TriesNext(Attempted(verb, runs[j]).outcome.value) {
      NextIsTried(verb, runs[j]);
    }
    hide Attempted;
    hide NeverTookIt;
    hide AnswersWith;
  }

  /** When no candidate took the request, the caller is told the worst that happened: denied, else busy, else not running. */
  lemma NobodyTookIt(verb: Verb, runs: seq<seq<Event>>, r: Relay.Result, tried: nat)
    requires Ends(verb, runs, r, tried) && forall j | 0 <= j < |runs| :: NeverTookIt(runs[j])
    ensures tried == |runs|
    ensures r == if exists j, k: nat :: 0 <= j < |runs| && DeniedAt(runs[j], k) then Error("socket_access_denied")
                 else if exists j, k: nat :: 0 <= j < |runs| && BusyAt(runs[j], k) then Error("socket_busy")
                 else NotRunning
  {
    forall j | 0 <= j < |runs|
      ensures Attempted(verb, runs[j]).outcome.Some? && TriesNext(Attempted(verb, runs[j]).outcome.value) && Attempted(verb, runs[j]).outcome != Some(TimedOut)
      ensures Attempted(verb, runs[j]).outcome == Some(PermissionDenied) <==> exists k: nat :: DeniedAt(runs[j], k)
      ensures Attempted(verb, runs[j]).outcome == Some(SocketBusy) <==> exists k: nat :: BusyAt(runs[j], k) {
      WhichFailure(verb, runs[j]);
    }
    hide Attempted; hide NeverTookIt; hide DeniedAt; hide BusyAt;
    assert !Met(verb, runs, |runs|, TimedOut);
    assert Met(verb, runs, |runs|, PermissionDenied) <==> exists j, k: nat :: 0 <= j < |runs| && DeniedAt(runs[j], k);
    assert Met(verb, runs, |runs|, SocketBusy) <==> exists j, k: nat :: 0 <= j < |runs| && BusyAt(runs[j], k);
  }

  lemma WhichFailure(verb: Verb, run: seq<Event>)
    requires NeverTookIt(run)
    ensures var o := Attempted(verb, run).outcome;
            && o.Some? && TriesNext(o.value) && o != Some(TimedOut)
            && (o == Some(PermissionDenied) <==> exists k: nat :: DeniedAt(run, k))
            && (o == Some(SocketBusy) <==> exists k: nat :: BusyAt(run, k))
  {
    hide Attempted; hide DeniedAt; hide BusyAt; hide AbsentAt;
    forall k: nat | DeniedAt(run, k) ensures Attempted(verb, run).outcome == Some(PermissionDenied) { DeniedIs(verb, run, k); }
    forall k: nat | BusyAt(run, k) ensures Attempted(verb, run).outcome == Some(SocketBusy) { BusyIs(verb, run, k); }
    var k: nat :| DeniedAt(run, k) || BusyAt(run, k) || AbsentAt(run, k);
    if AbsentAt(run, k) { AbsentIs(verb, run, k); }
  }

  /** An attempt that ends the request ends it in this. */
  lemma EndsWithItsCode(verb: Verb, runs: seq<seq<Event>>, r: Relay.Result, tried: nat, k: nat)
    requires Ends(verb, runs, r, tried) && k < |runs| && forall j | 0 <= j < k :: NeverTookIt(runs[j])
    requires Attempted(verb, runs[k]).outcome.Some?
    ensures Attempted(verb, runs[k]).outcome == Some(Indeterminate) ==> r == Error("indeterminate_result")
    ensures Attempted(verb, runs[k]).outcome == Some(InvalidResponse) ==> r == Error("invalid_response")
    ensures Attempted(verb, runs[k]).outcome == Some(TooLarge) ==> r == Error("response_too_large")
    ensures Attempted(verb, runs[k]).outcome == Some(SocketError) ==> r == Error("socket_error")
  {
    forall j | 0 <= j < k ensures Attempted(verb, runs[j]).outcome.Some? && TriesNext(Attempted(verb, runs[j]).outcome.value) {
      NextIsTried(verb, runs[j]);
    }
    hide Attempted;
    hide NeverTookIt;
  }

  /** A read that nobody finished in time is what the caller hears of, before any other failure that was passed over. */
  lemma TimeoutIsTold(runs: seq<seq<Event>>, r: Relay.Result, tried: nat, k: nat)
    requires Ends(Get, runs, r, tried) && k < |runs| && Waiting(runs[k]) && Connecting(runs[k])
    requires forall j | 0 <= j < |runs| && j != k :: NeverTookIt(runs[j])
    ensures tried == |runs| && r == Error("timeout")
  {
    TimesOut(Get, runs[k]);
    forall j | 0 <= j < |runs| ensures Attempted(Get, runs[j]).outcome.Some? && TriesNext(Attempted(Get, runs[j]).outcome.value) {
      if j != k { NextIsTried(Get, runs[j]); }
    }
    hide Attempted;
    hide NeverTookIt;
    assert Met(Get, runs, |runs|, TimedOut);
  }
}
