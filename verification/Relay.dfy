/** Requests to the desktop app over candidate local sockets: no join or leave is ever sent twice. */
module Relay {
  import opened Wrappers

  const MAX_RESPONSE_BYTES: nat := 1024 * 1024

  type Bytes = seq<bv8>

  datatype Verb = Get | Post | Delete

  /** What can happen to one attempt. `Connected` is the moment the request goes out; `Failed` has the system's error code. */
  datatype Event =
    | SocketAssigned(connecting: bool) | Connected | Responded(status: int) | Chunk(bytes: Bytes)
    | Aborted | ResponseError | Ended(complete: bool) | Failed(code: string) | DeadlinePassed

  datatype Answer = Answer(status: int, body: Bytes)

  /** How an attempt settles. The first three let the next candidate be tried, and so does a timed out read. */
  datatype Outcome =
    | Unavailable | SocketBusy | PermissionDenied
    | Answered(answer: Answer) | Indeterminate | TimedOut | InvalidResponse | TooLarge | SocketError

  /**
   One attempt. `sent` says that the request has gone out; `dead` that it was destroyed or has failed, after which its socket
   neither connects nor begins to answer.
   */
  datatype State = State(verb: Verb, sent: bool, dead: bool, status: Option<int>, chunks: seq<Bytes>, size: nat, outcome: Option<Outcome>)

  function Fresh(verb: Verb): State {
    State(verb, false, false, None, [], 0, None)
  }

  function Concat(chunks: seq<Bytes>): Bytes {
    if chunks == [] then [] else Concat(chunks[..|chunks| - 1]) + chunks[|chunks| - 1]
  }

  /** Only the first settlement counts. */
  function Settle(s: State, o: Outcome): State {
    if s.outcome.Some? then s else s.(outcome := Some(o))
  }

  function Lost(s: State): Outcome {
    if !s.verb.Get? && s.sent then Indeterminate else Unavailable
  }

  function ResponseLost(s: State): Outcome {
    if s.verb.Get? then InvalidResponse else Lost(s)
  }

  function FailureOutcome(s: State, code: string): Outcome {
    if !s.verb.Get? && s.sent then Lost(s)
    else if code == "EACCES" || code == "EPERM" then PermissionDenied
    else if !s.sent && code == "EBUSY" then SocketBusy
    else if code == "ENOENT" || code == "ENOTDIR" || code == "ECONNREFUSED" || code == "EINVAL" then Unavailable
    else if !s.sent && (code == "EAGAIN" || code == "ETIMEDOUT") then Unavailable
    else SocketError
  }

  function DeadlineOutcome(s: State): Outcome {
    if !s.sent then Unavailable else if !s.verb.Get? then Indeterminate else TimedOut
  }

  /** The request goes out, unless it is destroyed or has failed. */
  function Connects(s: State): State {
    if s.dead then s else s.(sent := true)
  }

  function Receives(s: State, bytes: Bytes): State {
    var size := s.size + |bytes|;
    if size > MAX_RESPONSE_BYTES then
      Settle(s.(size := size, dead := true), if s.verb.Get? then TooLarge else Indeterminate)
    else s.(size := size, chunks := s.chunks + [bytes])
  }

  /** A response proves that the request went out, and its events mean something only once it has begun. */
  function Step(s: State, e: Event): State {
    match e
    case SocketAssigned(connecting) => if connecting then s else Connects(s)
    case Connected => Connects(s)
    case Responded(status) => if s.dead || s.status.Some? then s else s.(status := Some(status), sent := true)
    case Chunk(bytes) => if s.status.Some? then Receives(s, bytes) else s
    case Aborted => if s.status.Some? then Settle(s, ResponseLost(s)) else s
    case ResponseError => if s.status.Some? then Settle(s, ResponseLost(s)) else s
    case Ended(complete) =>
      if s.status.None? then s
      else Settle(s, if complete then Answered(Answer(s.status.value, Concat(s.chunks))) else ResponseLost(s))
    case Failed(code) => Settle(s, FailureOutcome(s, code)).(dead := true)
    case DeadlinePassed => Settle(s, DeadlineOutcome(s)).(dead := true)
  }

  function Run(s: State, events: seq<Event>): State {
    if events == [] then s else Step(Run(s, events[..|events| - 1]), events[|events| - 1])
  }

  /** The attempt's events, ended by its deadline: an attempt always settles. */
  function Attempted(verb: Verb, events: seq<Event>): State {
    Step(Run(Fresh(verb), events), DeadlinePassed)
  }

  // ----- the attempt

  class Attempt {
    const verb: Verb
    var sent: bool
    var dead: bool
    var status: Option<int>
    var chunks: seq<Bytes>
    var size: nat
    var outcome: Option<Outcome>

    function Now(): State
      reads this
    {
      State(verb, sent, dead, status, chunks, size, outcome)
    }

    constructor (verb: Verb)
      ensures Now() == Fresh(verb)
    {
      this.verb := verb;
      sent, dead, status, chunks, size, outcome := false, false, None, [], 0, None;
    }

    method Finish(o: Outcome)
      modifies this`outcome
      ensures Now() == Settle(old(Now()), o)
    {
      if outcome.None? {
        outcome := Some(o);
      }
    }

    /** The failure of a request whose answer is lost: after it went out nobody can tell what it did. */
    method LostOutcome() returns (o: Outcome)
      ensures o == Lost(Now())
    {
      o := if !verb.Get? && sent then Indeterminate else Unavailable;
    }

    method ResponseFailure() returns (o: Outcome)
      ensures o == ResponseLost(Now())
    {
      if verb.Get? {
        return InvalidResponse;
      }
      o := LostOutcome();
    }

    method MarkSent()
      modifies this
      ensures Now() == Connects(old(Now()))
    {
      if !dead {
        sent := true;
      }
    }

    method OnData(bytes: Bytes)
      modifies this
      ensures Now() == Receives(old(Now()), bytes)
    {
      size := size + |bytes|;
      if size > MAX_RESPONSE_BYTES {
        dead := true;
        Finish(if verb.Get? then TooLarge else Indeterminate);
      } else {
        chunks := chunks + [bytes];
      }
    }

    method OnEnd(complete: bool)
      requires status.Some?
      modifies this`outcome
      ensures Now() == Step(old(Now()), Ended(complete))
    {
      if complete {
        Finish(Answered(Answer(status.value, Concat(chunks))));
      } else {
        var o := ResponseFailure();
        Finish(o);
      }
    }

    method OnError(code: string)
      modifies this
      ensures Now() == Step(old(Now()), Failed(code))
    {
      var o;
      if !verb.Get? && sent {
        o := LostOutcome();
      } else if code == "EACCES" || code == "EPERM" {
        o := PermissionDenied;
      } else if !sent && code == "EBUSY" {
        o := SocketBusy;
      } else if code == "ENOENT" || code == "ENOTDIR" || code == "ECONNREFUSED" || code == "EINVAL"
                || (!sent && (code == "EAGAIN" || code == "ETIMEDOUT")) {
        o := Unavailable;
      } else {
        o := SocketError;
      }
      Finish(o);
      dead := true;
    }

    method OnDeadline()
      modifies this
      ensures Now() == Step(old(Now()), DeadlinePassed)
    {
      Finish(if !sent then Unavailable else if !verb.Get? then Indeterminate else TimedOut);
      dead := true;
    }

    method OnResponse(s: int)
      modifies this
      ensures Now() == Step(old(Now()), Responded(s))
    {
      if !dead && status.None? {
        sent, status := true, Some(s);
      }
    }

    method Handle(e: Event)
      modifies this
      ensures Now() == Step(old(Now()), e)
    {
      match e {
        case SocketAssigned(connecting) => if !connecting { MarkSent(); }
        case Connected => MarkSent();
        case Responded(s) => OnResponse(s);
        case Chunk(bytes) => if status.Some? { OnData(bytes); }
        case Aborted => if status.Some? { var o := ResponseFailure(); Finish(o); }
        case ResponseError => if status.Some? { var o := ResponseFailure(); Finish(o); }
        case Ended(complete) => if status.Some? { OnEnd(complete); }
        case Failed(code) => OnError(code);
        case DeadlinePassed => OnDeadline();
      }
    }
  }

  /** One request over one socket: handle events until the deadline has passed, then read the settlement. */
  method RequestSocket(verb: Verb, events: seq<Event>) returns (o: Outcome)
    ensures Attempted(verb, events).outcome == Some(o)
  {
    var attempt := new Attempt(verb);
    for k := 0 to |events|
      invariant attempt.Now() == Run(Fresh(verb), events[..k])
    {
      assert events[..k + 1][..k] == events[..k];
      attempt.Handle(events[k]);
    }
    assert events[..|events|] == events;
    attempt.OnDeadline();
    AlwaysSettles(verb, events);
    o := attempt.outcome.value;
  }

  lemma AlwaysSettles(verb: Verb, events: seq<Event>)
    ensures Attempted(verb, events).outcome.Some?
  {
  }

  // ----- what one attempt guarantees

  /** Everything an attempt keeps: a settlement agrees with whether the request has gone out, and once made it is final. */
  ghost predicate Inv(s: State) {
    && (s.status.Some? ==> s.sent)
    && (s.outcome.Some? ==>
          && (s.dead || s.sent)
          && (s.outcome.value.Answered? ==> s.status.Some? && |s.outcome.value.answer.body| <= MAX_RESPONSE_BYTES)
          && (!s.verb.Get? && s.sent ==> s.outcome.value.Answered? || s.outcome.value.Indeterminate?)
          && (s.outcome.value.Indeterminate? ==> !s.verb.Get? && s.sent)
          && (s.outcome.value.TimedOut? ==> s.verb.Get? && s.sent))
    && |Concat(s.chunks)| <= s.size && (s.size <= MAX_RESPONSE_BYTES || s.outcome.Some?)
  }

  lemma ConcatSnoc(chunks: seq<Bytes>, c: Bytes)
    ensures Concat(chunks + [c]) == Concat(chunks) + c
  {
    assert (chunks + [c])[..|chunks|] == chunks;
  }

  lemma StepKeeps(s: State, e: Event)
    requires Inv(s)
    ensures Inv(Step(s, e)) && Step(s, e).verb == s.verb
    ensures s.outcome.Some? ==> Step(s, e).outcome == s.outcome
    ensures s.sent ==> Step(s, e).sent
    ensures s.dead ==> Step(s, e).dead && Step(s, e).sent == s.sent
  {
    if e.Chunk? {
      ConcatSnoc(s.chunks, e.bytes);
    }
  }

  lemma {:induction false} RunKeeps(s: State, events: seq<Event>)
    requires Inv(s)
    ensures Inv(Run(s, events)) && Run(s, events).verb == s.verb
    decreases |events|
  {
    if events != [] {
      RunKeeps(s, events[..|events| - 1]);
      StepKeeps(Run(s, events[..|events| - 1]), events[|events| - 1]);
    }
  }

  /** Once settled, an attempt's settlement never changes, whatever still happens to its socket. */
  lemma {:induction false} SettlesOnce(s: State, events: seq<Event>, more: seq<Event>)
    requires Inv(s) && Run(s, events).outcome.Some?
    ensures Run(s, events + more).outcome == Run(s, events).outcome
    decreases |more|
  {
    if more == [] {
      assert events + more == events;
    } else {
      var before := events + more[..|more| - 1];
      SettlesOnce(s, events, more[..|more| - 1]);
      RunKeeps(s, before);
      StepKeeps(Run(s, before), more[|more| - 1]);
      assert events + more == before + [more[|more| - 1]];
      assert (before + [more[|more| - 1]])[..|before|] == before;
    }
  }

  /** An attempt settled unsent has its request dead, so that request never goes out. */
  lemma UnsentStaysUnsent(verb: Verb, events: seq<Event>, more: seq<Event>)
    requires !Attempted(verb, events).sent
    ensures !Run(Attempted(verb, events), more).sent
  {
    RunKeeps(Fresh(verb), events);
    StepKeeps(Run(Fresh(verb), events), DeadlinePassed);
    DeadStays(Attempted(verb, events), more);
  }

  lemma {:induction false} DeadStays(s: State, events: seq<Event>)
    requires Inv(s) && s.dead
    ensures Run(s, events).dead && Run(s, events).sent == s.sent
    decreases |events|
  {
    if events != [] {
      DeadStays(s, events[..|events| - 1]);
      RunKeeps(s, events[..|events| - 1]);
      StepKeeps(Run(s, events[..|events| - 1]), events[|events| - 1]);
    }
  }

  /** A join or leave whose request went out ends in that socket's answer or in "nobody can tell". */
  lemma SentMutationIsDecided(verb: Verb, events: seq<Event>)
    requires !verb.Get?
    ensures var s := Attempted(verb, events);
            s.sent <==> s.outcome.value.Answered? || s.outcome.value.Indeterminate?
  {
    RunKeeps(Fresh(verb), events);
    StepKeeps(Run(Fresh(verb), events), DeadlinePassed);
  }

  // ----- the candidates

  datatype Result = Reply(answer: Answer) | NotRunning | Error(code: string)

  /** Whether the loop goes on to the next candidate. */
  predicate TriesNext(o: Outcome) {
    o.Unavailable? || o.SocketBusy? || o.PermissionDenied? || o.TimedOut?
  }

  function CodeOf(o: Outcome): string {
    match o
    case Indeterminate => "indeterminate_result"
    case InvalidResponse => "invalid_response"
    case TooLarge => "response_too_large"
    case _ => "socket_error"
  }

  /** What the request ends in when no candidate settled it. */
  function Exhausted(timedOut: bool, denied: bool, busy: bool): Result {
    if timedOut then Error("timeout") else if denied then Error("socket_access_denied") else if busy then Error("socket_busy") else NotRunning
  }

  /** How many of the first `n` attempts had their request go out. */
  ghost function Sends(verb: Verb, runs: seq<seq<Event>>, n: nat): nat
    requires n <= |runs|
  {
    if n == 0 then 0 else Sends(verb, runs, n - 1) + if Attempted(verb, runs[n - 1]).sent then 1 else 0
  }

  ghost predicate Settled(verb: Verb, runs: seq<seq<Event>>, k: nat, r: Result)
    requires k < |runs|
  {
    var o := Attempted(verb, runs[k]).outcome.value;
    !TriesNext(o) && r == if o.Answered? then Reply(o.answer) else Error(CodeOf(o))
  }

  ghost predicate Passed(verb: Verb, runs: seq<seq<Event>>, n: nat) {
    n <= |runs| && forall k | 0 <= k < n :: Attempted(verb, runs[k]).outcome.Some? && TriesNext(Attempted(verb, runs[k]).outcome.value)
  }

  ghost predicate Met(verb: Verb, runs: seq<seq<Event>>, n: nat, o: Outcome)
    requires n <= |runs|
  {
    exists k :: 0 <= k < n && Attempted(verb, runs[k]).outcome == Some(o)
  }

  /** Either the last attempt tried settles the request, or every candidate was passed and the worst failure met is reported. */
  ghost predicate Ends(verb: Verb, runs: seq<seq<Event>>, r: Result, tried: nat) {
    || (0 < tried <= |runs| && Passed(verb, runs, tried - 1) && Settled(verb, runs, tried - 1, r))
    || (tried == |runs| && Passed(verb, runs, tried)
          && r == Exhausted(Met(verb, runs, tried, TimedOut), Met(verb, runs, tried, PermissionDenied), Met(verb, runs, tried, SocketBusy)))
  }

  /**
   Try the candidates in order; `runs` holds what happens to each one's socket. The first attempt that settles the request ends
   the loop, `tried` attempts in. Otherwise the failures that were met are ranked: a timed out read, a refused access, a busy pipe.
   */
  method RelayRequest(verb: Verb, runs: seq<seq<Event>>) returns (r: Result, tried: nat)
    ensures Ends(verb, runs, r, tried)
  {
    hide Attempted;
    hide Exhausted;
    var timedOut, denied, busy := false, false, false;
    tried := 0;
    while tried < |runs|
      invariant tried <= |runs| && Passed(verb, runs, tried)
      invariant timedOut <==> Met(verb, runs, tried, TimedOut)
      invariant denied <==> Met(verb, runs, tried, PermissionDenied)
      invariant busy <==> Met(verb, runs, tried, SocketBusy)
    {
      var o := RequestSocket(verb, runs[tried]);
      tried := tried + 1;
      match o {
        case Unavailable =>
        case SocketBusy => busy := true;
        case PermissionDenied => denied := true;
        case TimedOut => timedOut := true;
        case Answered(answer) => r := Reply(answer); return;
        case _ => r := Error(CodeOf(o)); return;
      }
    }
    r := Exhausted(timedOut, denied, busy);
  }

  lemma {:induction false} PassedUnsent(verb: Verb, runs: seq<seq<Event>>, n: nat)
    requires !verb.Get? && n <= |runs| && Passed(verb, runs, n)
    ensures Sends(verb, runs, n) == 0
    decreases n
  {
    if n > 0 {
      PassedUnsent(verb, runs, n - 1);
      SentMutationIsDecided(verb, runs[n - 1]);
    }
  }

  /**
   Over any events on any candidates a join or leave goes out at most once; if it does, on the last candidate tried, whose answer
   or `indeterminate_result` is what the caller gets; and if it does not, the caller never gets either.
   */
  lemma MutationGoesOutAtMostOnce(verb: Verb, runs: seq<seq<Event>>, r: Result, tried: nat)
    requires !verb.Get? && Ends(verb, runs, r, tried)
    ensures Sends(verb, runs, tried) <= 1
    ensures Sends(verb, runs, tried) == 1 <==> r.Reply? || r == Error("indeterminate_result")
    ensures Sends(verb, runs, tried) == 1 ==> tried > 0 && Attempted(verb, runs[tried - 1]).sent
  {
    if tried > 0 && Passed(verb, runs, tried - 1) && Settled(verb, runs, tried - 1, r) {
      PassedUnsent(verb, runs, tried - 1);
      SentMutationIsDecided(verb, runs[tried - 1]);
    } else {
      PassedUnsent(verb, runs, tried);
    }
  }

  /** A read may be sent again: one that timed out after it went out lets the next candidate be tried. */
  lemma ReadsMayRepeat()
    ensures var run := [SocketAssigned(false)];
            Attempted(Get, run).sent && TriesNext(Attempted(Get, run).outcome.value)
  {
    var run := [SocketAssigned(false)];
    assert run[..0] == [];
    assert Run(Fresh(Get), run) == Connects(Fresh(Get));
  }

  // ----- which sockets are candidates

  /** Add a path that is given and not there yet; the values are trimmed already. */
  function Add(paths: seq<string>, value: Option<string>): seq<string> {
    if value.None? || value.value == "" || value.value in paths then paths else paths + [value.value]
  }

  function Candidates(values: seq<Option<string>>): seq<string> {
    if values == [] then [] else Add(Candidates(values[..|values| - 1]), values[|values| - 1])
  }

  /** No socket is a candidate twice, so no second attempt reaches the one that may already have acted. */
  lemma {:induction false} CandidatesOnce(values: seq<Option<string>>)
    ensures forall i, j | 0 <= i < j < |Candidates(values)| :: Candidates(values)[i] != Candidates(values)[j]
    ensures forall p :: p in Candidates(values) <==> p != "" && Some(p) in values
    decreases |values|
  {
    if values != [] {
      var n := |values| - 1;
      CandidatesOnce(values[..n]);
      assert values == values[..n] + [values[n]];
    }
  }

  /** Sockets are tried in the order they are named first. */
  lemma {:induction false} CandidatesInOrder(a: seq<Option<string>>, b: seq<Option<string>>)
    ensures |Candidates(a)| <= |Candidates(a + b)| && Candidates(a + b)[..|Candidates(a)|] == Candidates(a)
    decreases |b|
  {
    if b == [] {
      assert a + b == a;
    } else {
      assert (a + b)[..|a + b| - 1] == a + b[..|b| - 1];
      CandidatesInOrder(a, b[..|b| - 1]);
    }
  }

  // ----- reading a mutation's answer

  /** An answer's body: no JSON, JSON that is no record, a record that is not ok, or one whose data does or does not parse. */
  datatype Envelope = Unreadable | NoRecord | NotOk(code: Option<string>) | Data(parses: bool)

  predicate Success(status: nat) {
    200 <= status < 300
  }

  function Decimal(n: nat): string {
    (if n < 10 then "" else Decimal(n / 10)) + [('0' as int + n % 10) as char]
  }

  /** A response without a status line has status zero. */
  function HttpCode(status: nat): string {
    "http_" + if status == 0 then "error" else Decimal(status)
  }

  function Digits(s: string): int {
    if s == "" then 0 else Digits(s[..|s| - 1]) * 10 + s[|s| - 1] as int - '0' as int
  }

  lemma {:induction false} DecimalReadsBack(n: nat)
    ensures Decimal(n) != "" && '0' <= Decimal(n)[0] <= '9' && Digits(Decimal(n)) == n
  {
    var front, last := if n < 10 then "" else Decimal(n / 10), [('0' as int + n % 10) as char];
    if n >= 10 {
      DecimalReadsBack(n / 10);
    }
    assert (front + last)[..|front|] == front;
  }

  /** The code names its status: no two statuses share one. */
  lemma HttpCodeTells(a: nat, b: nat)
    requires HttpCode(a) == HttpCode(b)
    ensures a == b
  {
    DecimalReadsBack(a);
    DecimalReadsBack(b);
    assert HttpCode(a)[5..] == HttpCode(b)[5..];
    assert HttpCode(a)[5..] == if a == 0 then "error" else Decimal(a);
    assert HttpCode(b)[5..] == if b == 0 then "error" else Decimal(b);
    assert "error"[0] == 'e';
  }

  /** The code an answer is refused with, if it is. */
  function EnvelopeError(status: nat, body: Envelope): Option<string> {
    if !Success(status) then
      Some(if body.NotOk? && body.code.Some? then body.code.value else HttpCode(status))
    else
      match body
      case Unreadable => Some("invalid_response")
      case NoRecord => Some("invalid_response")
      case NotOk(code) => Some(if code.Some? then code.value else "invalid_response")
      case Data(parses) => if parses then None else Some("invalid_response")
  }

  /** The code a join or leave fails with once it was answered. */
  function MutationError(status: nat, body: Envelope): (error: Option<string>)
    ensures error.None? <==> Success(status) && body == Data(true)
    ensures !Success(status) ==> error == Some(if body.NotOk? && body.code.Some? then body.code.value else HttpCode(status))
    ensures Success(status) && error.Some? ==>
              error.value == "indeterminate_result" || (body.NotOk? && body.code == error && error.value != "invalid_response")
    ensures Success(status) && body.NotOk? && body.code.Some? && body.code.value != "invalid_response" ==> error == body.code
  {
    var error := EnvelopeError(status, body);
    if Success(status) && error == Some("invalid_response") then Some("indeterminate_result") else error
  }
}
