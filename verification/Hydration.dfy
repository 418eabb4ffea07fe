/** Folding the hydration results of several presences into one that keeps the contract each of them keeps. */
module Hydration {
  import opened Wrappers

  datatype Kind = History | SessionEvent | ToolCall | FileEdit | Relationship | CommitLink | SessionMarker

  const EVIDENCE_KINDS: seq<Kind> := [History, SessionEvent, ToolCall, FileEdit, Relationship, CommitLink, SessionMarker]
  const FULL_SESSION_KINDS: seq<Kind> := [History, SessionEvent, ToolCall, FileEdit, Relationship]

  datatype Capability = FullCapability | Partial | ShallowOnly

  datatype Status = Hydrated | Updated | Unchanged | CapabilityLimited

  datatype Presence = Local | Remote

  datatype Indexed = Indexed(sourceStamp: Option<string>, lastEventAtMs: Option<int>)

  datatype Counts = Counts(prompts: int, events: int, toolCalls: int, fileEdits: int, relatedSessions: int)

  /** A partial-coverage note is a part's own text, or names what a merge covers and what it does not. */
  datatype Note = OfPart(text: string) | OfMerge(covers: seq<Kind>, misses: seq<Kind>)

  datatype Diagnostic = PartialCoverage(note: Note) | Other(code: string, message: string)

  datatype SessionResult = SessionResult(
    sessionId: string, status: Status, capability: Capability, presence: Presence, indexedThrough: Indexed, evidence: Counts,
    bytesRead: int, coverage: seq<Kind>, relatedSessionIds: seq<string>, diagnostics: seq<Diagnostic>)

  // ----- coverage and capability

  /** The kinds of a list that pass, in its order. */
  function Select(kinds: seq<Kind>, keep: Kind -> bool): seq<Kind> {
    if kinds == [] then [] else (if keep(kinds[0]) then [kinds[0]] else []) + Select(kinds[1..], keep)
  }

  function MissingHydrationCoverage(coverage: seq<Kind>): seq<Kind> {
    Select(FULL_SESSION_KINDS, k => k !in coverage)
  }

  function ExpectedHydrationCapability(coverage: seq<Kind>): Capability {
    if MissingHydrationCoverage(coverage) == [] then FullCapability else if coverage == [] then ShallowOnly else Partial
  }

  function MergedHydrationCapability(coverage: seq<Kind>, parts: seq<SessionResult>): Capability {
    if MissingHydrationCoverage(coverage) == [] then FullCapability
    else if coverage == [] && (forall p | p in parts :: p.capability.ShallowOnly?) then ShallowOnly
    else Partial
  }

  lemma {:induction false} SelectElements(kinds: seq<Kind>, keep: Kind -> bool)
    ensures forall k :: k in Select(kinds, keep) <==> k in kinds && keep(k)
  {
    if kinds != [] {
      SelectElements(kinds[1..], keep);
      assert kinds == [kinds[0]] + kinds[1..];
    }
  }

  /** What is missing are the five session kinds a coverage does not have. */
  lemma MissingIs(coverage: seq<Kind>)
    ensures forall k :: k in MissingHydrationCoverage(coverage) <==> k in {History, SessionEvent, ToolCall, FileEdit, Relationship} && k !in coverage
  {
    SelectElements(FULL_SESSION_KINDS, k => k !in coverage);
    var all := FULL_SESSION_KINDS;
    assert all[0] == History && all[1] == SessionEvent && all[2] == ToolCall && all[3] == FileEdit && all[4] == Relationship;
  }

  /** A coverage is full exactly when it has all five session kinds. */
  lemma FullIffAllKinds(coverage: seq<Kind>)
    ensures MissingHydrationCoverage(coverage) == [] <==> forall k | k in FULL_SESSION_KINDS :: k in coverage
    ensures MissingHydrationCoverage(coverage) == [] <==>
              History in coverage && SessionEvent in coverage && ToolCall in coverage && FileEdit in coverage && Relationship in coverage
  {
    MissingIs(coverage);
    SelectElements(FULL_SESSION_KINDS, k => k !in coverage);
    var missing := MissingHydrationCoverage(coverage);
    if missing != [] {
      assert missing[0] in missing;
    }
  }

  lemma AllKinds(k: Kind)
    ensures k in EVIDENCE_KINDS
  {
    var i := if k.History? then 0 else if k.SessionEvent? then 1 else if k.ToolCall? then 2 else if k.FileEdit? then 3
      else if k.Relationship? then 4 else if k.CommitLink? then 5 else 6;
    assert EVIDENCE_KINDS[i] == k;
  }

  // ----- one merge

  function Rank(c: Capability): nat {
    match c case FullCapability => 2 case Partial => 1 case ShallowOnly => 0
  }

  function StatusRank(s: Status): nat {
    match s case Hydrated => 3 case Updated => 2 case Unchanged => 1 case CapabilityLimited => 0
  }

  function Greatest(a: int, b: int): int {
    if a < b then b else a
  }

  function Others(diagnostics: seq<Diagnostic>): seq<Diagnostic> {
    if diagnostics == [] then []
    else
      var earlier, last := Others(diagnostics[..|diagnostics| - 1]), diagnostics[|diagnostics| - 1];
      if last.PartialCoverage? then earlier else earlier + [last]
  }

  /** Ids in order of first appearance. */
  function Distinct(ids: seq<string>): seq<string> {
    if ids == [] then []
    else
      var earlier, last := Distinct(ids[..|ids| - 1]), ids[|ids| - 1];
      if last in earlier then earlier else earlier + [last]
  }

  function Selected(previous: SessionResult, next: SessionResult): SessionResult {
    if StatusRank(next.status) > StatusRank(previous.status) then next
    else if StatusRank(next.status) < StatusRank(previous.status) then previous
    else if Rank(next.capability) > Rank(previous.capability) then next else previous
  }

  function Union(a: seq<Kind>, b: seq<Kind>): seq<Kind> {
    Select(EVIDENCE_KINDS, k => k in a || k in b)
  }

  function Maxima(a: Counts, b: Counts): Counts {
    Counts(Greatest(a.prompts, b.prompts), Greatest(a.events, b.events), Greatest(a.toolCalls, b.toolCalls),
           Greatest(a.fileEdits, b.fileEdits), Greatest(a.relatedSessions, b.relatedSessions))
  }

  /** The one note a merge carries of what it does not cover. */
  function MergeNote(coverage: seq<Kind>): seq<Diagnostic> {
    var missing := MissingHydrationCoverage(coverage);
    if missing != [] then [PartialCoverage(OfMerge(coverage, missing))] else []
  }

  function CombineHydration(previous: Option<SessionResult>, next: SessionResult): SessionResult {
    if previous.None? then next
    else
      var p := previous.value;
      var coverage := Union(p.coverage, next.coverage);
      Selected(p, next).(
        capability := MergedHydrationCapability(coverage, [p, next]),
        evidence := Maxima(p.evidence, next.evidence),
        coverage := coverage,
        bytesRead := p.bytesRead + next.bytesRead,
        relatedSessionIds := Distinct(p.relatedSessionIds + next.relatedSessionIds),
        diagnostics := Others(p.diagnostics + next.diagnostics) + MergeNote(coverage))
  }

  function Fold(parts: seq<SessionResult>): SessionResult
    requires parts != []
  {
    CombineHydration(if |parts| == 1 then None else Some(Fold(parts[..|parts| - 1])), parts[|parts| - 1])
  }

  // ----- the fold over a session's presences

  /** Why the built-in parser gave no result. */
  datatype LocalError = NotFound | SourceUnavailable | NotConfigured | Unsupported | OtherError

  datatype LocalAnswer = NotAsked | Answered(result: SessionResult) | Refused(error: LocalError)

  /** What a connector threw: an error with a code, or something foreign. */
  datatype Thrown = Coded(code: string) | Foreign

  /** One connector: `aborted` is whether the caller had cancelled when it threw. */
  datatype Attempt = Observed(result: SessionResult) | Unobserved | Threw(connector: string, thrown: Thrown, aborted: bool)

  datatype End = Cancelled | OfSource(code: string) | OfLocal(error: LocalError) | NothingObserved

  /** Failures of the store or the native side, which are no connector's to have. */
  const STORAGE_CODES: set<string> := {
    "SOURCE_REVISION_CONFLICT", "SOURCE_INTAKE_FAILED", "DATABASE_OPEN_FAILED",
    "NATIVE_CALL_FAILED", "NATIVE_LOAD_FAILED", "NATIVE_CONTRACT_MISMATCH"
  }

  /** The built-in parser's error leaves the connectors something to answer. */
  predicate Forgiven(error: LocalError, connectors: nat) {
    error.NotFound? || error.SourceUnavailable? || ((error.NotConfigured? || error.Unsupported?) && connectors > 0)
  }

  /** The local error ends the call: one nothing can answer, or one only a connector could and there is none. */
  ghost predicate LocalEnds(local: LocalAnswer, attempts: seq<Attempt>) {
    || local == Refused(OtherError)
    || (attempts == [] && (local == Refused(NotConfigured) || local == Refused(Unsupported)))
  }

  /** What a connector's error ends the whole call with, if it does. */
  function EndedBy(a: Attempt): Option<End> {
    if !a.Threw? then None
    else if a.aborted then Some(Cancelled)
    else if a.thrown.Coded? && a.thrown.code in STORAGE_CODES then Some(OfSource(a.thrown.code))
    else None
  }

  /** The first end among the connectors, in their order. */
  function FirstEnd(attempts: seq<Attempt>): Option<End> {
    if attempts == [] then None
    else
      var earlier := FirstEnd(attempts[..|attempts| - 1]);
      if earlier.Some? then earlier else EndedBy(attempts[|attempts| - 1])
  }

  /** The first coded error among the connectors. */
  function FirstCode(attempts: seq<Attempt>): Option<string> {
    if attempts == [] then None
    else
      var earlier, last := FirstCode(attempts[..|attempts| - 1]), attempts[|attempts| - 1];
      if earlier.Some? then earlier else if last.Threw? && last.thrown.Coded? then Some(last.thrown.code) else None
  }

  function Parts(local: LocalAnswer, attempts: seq<Attempt>): seq<SessionResult> {
    if attempts == [] then if local.Answered? then [local.result] else []
    else
      var earlier, last := Parts(local, attempts[..|attempts| - 1]), attempts[|attempts| - 1];
      if last.Observed? then earlier + [last.result] else earlier
  }

  function FailureOf(connector: string, thrown: Thrown): Diagnostic {
    Other(if thrown.Coded? then thrown.code else "SOURCE_PLUGIN_UNAVAILABLE", connector + ": source acquisition failed")
  }

  function Failures(attempts: seq<Attempt>): seq<Diagnostic> {
    if attempts == [] then []
    else
      var earlier, last := Failures(attempts[..|attempts| - 1]), attempts[|attempts| - 1];
      if last.Threw? then earlier + [FailureOf(last.connector, last.thrown)] else earlier
  }

  /** What the call ends with when no part was found. */
  function NoPart(local: LocalAnswer, attempts: seq<Attempt>): End {
    if FirstCode(attempts).Some? then OfSource(FirstCode(attempts).value)
    else if local.Refused? then OfLocal(local.error) else NothingObserved
  }

  ghost function FoldedSoFar(parts: seq<SessionResult>): Option<SessionResult> {
    if parts == [] then None else Some(Fold(parts))
  }

  lemma FoldOne(part: Option<SessionResult>)
    ensures part.Some? ==> FoldedSoFar([part.value]) == part
  {
  }

  lemma FoldedNext(parts: seq<SessionResult>, next: SessionResult)
    ensures FoldedSoFar(parts + [next]) == Some(CombineHydration(FoldedSoFar(parts), next))
  {
    hide CombineHydration;
    assert (parts + [next])[..|parts|] == parts;
  }

  lemma {:induction false} FirstEndStays(attempts: seq<Attempt>, i: nat)
    requires i <= |attempts| && FirstEnd(attempts[..i]).Some?
    ensures FirstEnd(attempts) == FirstEnd(attempts[..i])
    decreases |attempts|
  {
    if i < |attempts| {
      assert attempts[..|attempts| - 1][..i] == attempts[..i];
      FirstEndStays(attempts[..|attempts| - 1], i);
    } else {
      assert attempts[..i] == attempts;
    }
  }

  /**
   Fold the local result and every connector's, noting the connectors that failed. An error the local parser is not forgiven,
   the first cancellation or storage failure, or finding no part at all ends the call instead.
   */
  method HydrateSession(local: LocalAnswer, attempts: seq<Attempt>) returns (r: Result<SessionResult, End>)
    ensures LocalEnds(local, attempts) ==> r == Err(OfLocal(local.error))
    ensures !LocalEnds(local, attempts) ==>
      var parts := Parts(local, attempts);
      && (FirstEnd(attempts).Some? ==> r == Err(FirstEnd(attempts).value))
      && (FirstEnd(attempts).None? && parts == [] ==> r == Err(NoPart(local, attempts)))
      && (FirstEnd(attempts).None? && parts != [] ==> r == Ok(Fold(parts).(diagnostics := Fold(parts).diagnostics + Failures(attempts))))
  {
    hide CombineHydration;
    hide Fold;
    if local.Refused? && !Forgiven(local.error, |attempts|) {
      return Err(OfLocal(local.error));
    }
    var result := if local.Answered? then Some(local.result) else None;
    var failures: seq<Diagnostic>, code: Option<string> := [], None;
    FoldOne(result);
    if attempts == [] && result.Some? {
      assert Failures(attempts) == [] && result.value.diagnostics + [] == result.value.diagnostics;
      return Ok(result.value);
    }
    for i := 0 to |attempts|
      invariant result == FoldedSoFar(Parts(local, attempts[..i]))
      invariant failures == Failures(attempts[..i]) && code == FirstCode(attempts[..i]) && FirstEnd(attempts[..i]) == None
    {
      assert attempts[..i + 1][..i] == attempts[..i];
      match attempts[i] {
        case Observed(next) =>
          FoldedNext(Parts(local, attempts[..i]), next);
          result := Some(CombineHydration(result, next));
        case Unobserved =>
        case Threw(connector, thrown, aborted) =>
          if EndedBy(attempts[i]).Some? {
            FirstEndStays(attempts, i + 1);
            return Err(EndedBy(attempts[i]).value);
          }
          if thrown.Coded? && code.None? {
            code := Some(thrown.code);
          }
          failures := failures + [FailureOf(connector, thrown)];
      }
    }
    assert attempts[..|attempts|] == attempts;
    if result.None? {
      return Err(if code.Some? then OfSource(code.value) else if local.Refused? then OfLocal(local.error) else NothingObserved);
    }
    r := Ok(result.value.(diagnostics := result.value.diagnostics + failures));
  }

  // ----- which attempts count, told by their places

  /** The attempt ends the call: it threw with the caller gone, or threw a failure of the store or the native side. */
  ghost predicate EndsCall(a: Attempt, e: End) {
    && a.Threw?
    && if a.aborted then e == Cancelled
       else a.thrown.Coded? && e == OfSource(a.thrown.code) && a.thrown.code in
              {"SOURCE_REVISION_CONFLICT", "SOURCE_INTAKE_FAILED", "DATABASE_OPEN_FAILED", "NATIVE_CALL_FAILED", "NATIVE_LOAD_FAILED", "NATIVE_CONTRACT_MISMATCH"}
  }

  ghost predicate Goes(a: Attempt) {
    forall e :: !EndsCall(a, e)
  }

  lemma EndedByIs(a: Attempt)
    ensures forall e :: EndsCall(a, e) <==> EndedBy(a) == Some(e)
  {
  }

  /** The call ends with what its first ending attempt ends it with. */
  lemma {:induction false} FirstEndIs(attempts: seq<Attempt>)
    ensures FirstEnd(attempts).None? <==> forall i | 0 <= i < |attempts| :: Goes(attempts[i])
    ensures forall e :: FirstEnd(attempts) == Some(e) <==>
              exists i :: 0 <= i < |attempts| && EndsCall(attempts[i], e) && forall j | 0 <= j < i :: Goes(attempts[j])
    decreases |attempts|
  {
    if attempts != [] {
      var n := |attempts| - 1;
      FirstEndIs(attempts[..n]);
      EndedByIs(attempts[n]);
      hide EndsCall; hide EndedBy;
      FirstEndSnoc(attempts, n);
    }
  }

  lemma FirstEndSnoc(attempts: seq<Attempt>, n: nat)
    requires n + 1 == |attempts| && forall e :: EndsCall(attempts[n], e) <==> EndedBy(attempts[n]) == Some(e)
    requires FirstEnd(attempts[..n]).None? <==> forall i | 0 <= i < n :: Goes(attempts[..n][i])
    requires forall e :: FirstEnd(attempts[..n]) == Some(e) <==>
               exists i :: 0 <= i < n && EndsCall(attempts[..n][i], e) && forall j | 0 <= j < i :: Goes(attempts[..n][j])
    ensures FirstEnd(attempts).None? <==> forall i | 0 <= i < |attempts| :: Goes(attempts[i])
    ensures forall e :: FirstEnd(attempts) == Some(e) <==>
              exists i :: 0 <= i < |attempts| && EndsCall(attempts[i], e) && forall j | 0 <= j < i :: Goes(attempts[j])
  {
    hide EndsCall; hide EndedBy;
    forall i | 0 <= i < n ensures attempts[..n][i] == attempts[i] { }
    forall e ensures FirstEnd(attempts) == Some(e) <==>
        exists i :: 0 <= i < |attempts| && EndsCall(attempts[i], e) && forall j | 0 <= j < i :: Goes(attempts[j]) {
      if FirstEnd(attempts[..n]) == Some(e) {
        var i :| 0 <= i < n && EndsCall(attempts[..n][i], e) && forall j | 0 <= j < i :: Goes(attempts[..n][j]);
        assert EndsCall(attempts[i], e);
      }
      if i :| 0 <= i < |attempts| && EndsCall(attempts[i], e) && forall j | 0 <= j < i :: Goes(attempts[j]) {
        if i < n { assert EndsCall(attempts[..n][i], e); }
      }
    }
  }

  /** Without an end, the parts are the local answer and every connector's, in order; the failures are every connector's that threw. */
  lemma {:induction false} PartsAndFailures(local: LocalAnswer, attempts: seq<Attempt>, i: nat)
    requires i < |attempts|
    ensures attempts[i].Observed? ==>
              |Parts(local, attempts[..i])| < |Parts(local, attempts)| && Parts(local, attempts)[|Parts(local, attempts[..i])|] == attempts[i].result
    ensures attempts[i].Threw? ==>
              && |Failures(attempts[..i])| < |Failures(attempts)|
              && Failures(attempts)[|Failures(attempts[..i])|] ==
                   Other(if attempts[i].thrown.Coded? then attempts[i].thrown.code else "SOURCE_PLUGIN_UNAVAILABLE",
                         attempts[i].connector + ": source acquisition failed")
    decreases |attempts|
  {
    var n := |attempts| - 1;
    if i < n {
      assert attempts[..n][..i] == attempts[..i];
      PartsAndFailures(local, attempts[..n], i);
    }
  }

  ghost function ObservedAt(attempts: seq<Attempt>): set<int> {
    set i | 0 <= i < |attempts| && Observes(attempts, i)
  }

  ghost function ThrownAt(attempts: seq<Attempt>): set<int> {
    set i | 0 <= i < |attempts| && Throws(attempts, i)
  }

  lemma {:induction false} PartsCount(local: LocalAnswer, attempts: seq<Attempt>)
    ensures |Parts(local, attempts)| == (if local.Answered? then 1 else 0) + |ObservedAt(attempts)|
    ensures local.Answered? ==> Parts(local, attempts)[0] == local.result
    decreases |attempts|
  {
    if attempts == [] {
      assert ObservedAt(attempts) == {};
    } else {
      var n := |attempts| - 1;
      PartsCount(local, attempts[..n]);
      assert ObservedAt(attempts) == ObservedAt(attempts[..n]) + if attempts[n].Observed? then {n} else {};
    }
  }

  lemma {:induction false} FailuresCount(attempts: seq<Attempt>)
    ensures |Failures(attempts)| == |ThrownAt(attempts)|
    decreases |attempts|
  {
    if attempts == [] {
      assert ThrownAt(attempts) == {};
    } else {
      var n := |attempts| - 1;
      FailuresCount(attempts[..n]);
      assert ThrownAt(attempts) == ThrownAt(attempts[..n]) + if attempts[n].Threw? then {n} else {};
    }
  }

  predicate Observes(attempts: seq<Attempt>, i: int) {
    0 <= i < |attempts| && attempts[i].Observed?
  }

  predicate Throws(attempts: seq<Attempt>, i: int) {
    0 <= i < |attempts| && attempts[i].Threw?
  }

  /** With no part at all, the caller hears of the first connector error that has a code, else of the local one. */
  lemma {:induction false} FirstCodeIs(attempts: seq<Attempt>, i: nat)
    requires i < |attempts| && attempts[i].Threw? && attempts[i].thrown.Coded?
    requires forall j | 0 <= j < i :: attempts[j].Threw? ==> attempts[j].thrown.Foreign?
    ensures FirstCode(attempts) == Some(attempts[i].thrown.code)
    decreases |attempts|
  {
    var n := |attempts| - 1;
    if i < n {
      assert forall j | 0 <= j < n :: attempts[..n][j] == attempts[j];
      FirstCodeIs(attempts[..n], i);
    } else {
      NoCode(attempts[..n]);
    }
  }

  lemma {:induction false} NoCode(attempts: seq<Attempt>)
    requires forall j | 0 <= j < |attempts| :: attempts[j].Threw? ==> attempts[j].thrown.Foreign?
    ensures FirstCode(attempts) == None
    decreases |attempts|
  {
    if attempts != [] {
      assert forall j | 0 <= j < |attempts| - 1 :: attempts[..|attempts| - 1][j] == attempts[j];
      NoCode(attempts[..|attempts| - 1]);
    }
  }

  // ----- the contract

  /** `capability` is the one `coverage` entitles a result to. */
  ghost predicate Conforms(r: SessionResult) {
    r.capability == ExpectedHydrationCapability(r.coverage)
  }

  ghost predicate AllConform(parts: seq<SessionResult>) {
    forall p | p in parts :: Conforms(p)
  }

  function SumBytes(parts: seq<SessionResult>): int {
    if parts == [] then 0 else SumBytes(parts[..|parts| - 1]) + parts[|parts| - 1].bytesRead
  }

  function OtherNotes(parts: seq<SessionResult>): seq<Diagnostic> {
    if parts == [] then [] else OtherNotes(parts[..|parts| - 1]) + Others(parts[|parts| - 1].diagnostics)
  }

  lemma UnionElements(a: seq<Kind>, b: seq<Kind>)
    ensures forall k :: k in Union(a, b) <==> k in a || k in b
  {
    SelectElements(EVIDENCE_KINDS, k => k in a || k in b);
    forall k ensures k in Union(a, b) <==> k in a || k in b {
      AllKinds(k);
    }
  }

  /** Merged capability, whatever the parts claim: full with every session kind, shallow only when both are and nothing is covered. */
  lemma MergeCapability(p: SessionResult, next: SessionResult)
    ensures var kinds := p.coverage + next.coverage;
            CombineHydration(Some(p), next).capability ==
              if forall k | k in {History, SessionEvent, ToolCall, FileEdit, Relationship} :: k in kinds then FullCapability
              else if kinds == [] && p.capability.ShallowOnly? && next.capability.ShallowOnly? then ShallowOnly
              else Partial
  {
    var coverage := Union(p.coverage, next.coverage);
    UnionElements(p.coverage, next.coverage);
    EmptyCoverage(coverage);
    EmptyCoverage(p.coverage + next.coverage);
    CapabilityOf(coverage, p, next);
    CombineCapability(p, next);
    hide Union; hide CombineHydration; hide MergedHydrationCapability;
    assert forall k :: k in coverage <==> k in p.coverage + next.coverage;
  }

  lemma CombineCapability(p: SessionResult, next: SessionResult)
    ensures CombineHydration(Some(p), next).capability == MergedHydrationCapability(Union(p.coverage, next.coverage), [p, next])
  {
    hide Union; hide MergedHydrationCapability; hide Others; hide Distinct; hide MergeNote; hide Maxima; hide Selected;
  }

  lemma CapabilityOf(coverage: seq<Kind>, p: SessionResult, next: SessionResult)
    ensures MergedHydrationCapability(coverage, [p, next]) ==
              if forall k | k in {History, SessionEvent, ToolCall, FileEdit, Relationship} :: k in coverage then FullCapability
              else if coverage == [] && p.capability.ShallowOnly? && next.capability.ShallowOnly? then ShallowOnly
              else Partial
  {
    FullIffAllKinds(coverage);
    hide MissingHydrationCoverage;
    assert [p, next][0] == p && [p, next][1] == next;
    assert forall q | q in [p, next] :: q == p || q == next;
    assert p in [p, next] && next in [p, next];
  }

  lemma MergeConforms(p: SessionResult, next: SessionResult)
    requires Conforms(p) && Conforms(next)
    ensures Conforms(CombineHydration(Some(p), next))
  {
    var coverage := Union(p.coverage, next.coverage);
    UnionElements(p.coverage, next.coverage);
    EmptyCoverage(p.coverage);
    EmptyCoverage(next.coverage);
    EmptyCoverage(coverage);
    hide Union;
    hide MissingHydrationCoverage;
  }

  lemma EmptyCoverage(coverage: seq<Kind>)
    ensures coverage == [] <==> forall k :: k !in coverage
    ensures coverage == [] ==> ExpectedHydrationCapability(coverage) == ShallowOnly
  {
    if coverage != [] {
      assert coverage[0] in coverage;
    }
    FullIffAllKinds(coverage);
    assert FULL_SESSION_KINDS[0] in FULL_SESSION_KINDS;
  }

  /** The fold keeps the contract, and covers exactly what some part covers. */
  lemma {:induction false} FoldConforms(parts: seq<SessionResult>)
    requires parts != [] && AllConform(parts)
    ensures Conforms(Fold(parts))
    ensures forall k :: k in Fold(parts).coverage <==> exists p :: p in parts && k in p.coverage
    decreases |parts|
  {
    hide Conforms;
    var n := |parts| - 1;
    if n == 0 {
      assert parts[0] in parts && forall p | p in parts :: p == parts[0];
    } else {
      var earlier := parts[..n];
      assert parts == earlier + [parts[n]];
      FoldConforms(earlier);
      MergeConforms(Fold(earlier), parts[n]);
      UnionElements(Fold(earlier).coverage, parts[n].coverage);
      hide Union;
      hide CombineHydration;
      CoverageStep(parts, Fold(earlier), parts[n]);
    }
  }

  lemma CoverageStep(parts: seq<SessionResult>, p: SessionResult, next: SessionResult)
    requires |parts| > 1 && next == parts[|parts| - 1]
    requires forall k :: k in p.coverage <==> exists q :: q in parts[..|parts| - 1] && k in q.coverage
    ensures forall k :: k in CombineHydration(Some(p), next).coverage <==> exists q :: q in parts && k in q.coverage
  {
    UnionElements(p.coverage, next.coverage);
    hide Union;
    var earlier := parts[..|parts| - 1];
    assert parts == earlier + [next];
    forall k ensures k in CombineHydration(Some(p), next).coverage <==> exists q :: q in parts && k in q.coverage {
      if k in p.coverage {
        var q :| q in earlier && k in q.coverage;
        assert q in parts;
      }
      if exists q :: q in parts && k in q.coverage {
        var q :| q in parts && k in q.coverage;
        assert q in earlier || q == next;
      }
    }
  }

  /** The status, presence, index position and session are one part's own, and no part has a higher status. */
  lemma {:induction false} FoldSelects(parts: seq<SessionResult>) returns (k: nat)
    requires parts != []
    ensures k < |parts| && Fold(parts).status == parts[k].status && Fold(parts).presence == parts[k].presence
    ensures Fold(parts).indexedThrough == parts[k].indexedThrough && Fold(parts).sessionId == parts[k].sessionId
    ensures forall i | 0 <= i < |parts| :: StatusRank(parts[i].status) <= StatusRank(Fold(parts).status)
    decreases |parts|
  {
    hide MissingHydrationCoverage;
    hide Union;
    hide Maxima;
    hide Distinct;
    hide Others;
    var n := |parts| - 1;
    if n == 0 {
      k := 0;
    } else {
      k := FoldSelects(parts[..n]);
      if Selected(Fold(parts[..n]), parts[n]) == parts[n] {
        k := n;
      }
    }
  }

  /** Of two presences the one that did more work speaks for the merge, and of equal ones the richer. */
  lemma RicherSpeaks(p: SessionResult, next: SessionResult) returns (who: SessionResult)
    ensures who == p || who == next
    ensures var m := CombineHydration(Some(p), next);
            m.status == who.status && m.presence == who.presence && m.indexedThrough == who.indexedThrough && m.sessionId == who.sessionId
    ensures forall r | r == p || r == next ::
              StatusRank(r.status) <= StatusRank(who.status) && (r.status == who.status ==> Rank(r.capability) <= Rank(who.capability))
  {
    hide Union;
    hide Maxima;
    hide Others;
    hide Distinct;
    hide MergeNote;
    who := Selected(p, next);
  }

  /** Bytes are summed. */
  lemma {:induction false} FoldSums(parts: seq<SessionResult>)
    requires parts != []
    ensures Fold(parts).bytesRead == SumBytes(parts)
    decreases |parts|
  {
    if |parts| > 1 {
      FoldSums(parts[..|parts| - 1]);
    }
  }

  lemma CombineNotes(p: SessionResult, next: SessionResult)
    ensures CombineHydration(Some(p), next).diagnostics ==
              Others(p.diagnostics + next.diagnostics) + MergeNote(CombineHydration(Some(p), next).coverage)
  {
    hide Union;
    hide Maxima;
    hide Distinct;
    hide Others;
    hide MergeNote;
  }

  lemma OneMoreNotes(kept: seq<Diagnostic>, p: seq<Diagnostic>, next: seq<Diagnostic>, coverage: seq<Kind>)
    requires Others(p) == kept
    ensures Others(p + next) == kept + Others(next)
    ensures Others(Others(p + next) + MergeNote(coverage)) == kept + Others(next)
  {
    OthersAppend(p, next);
    OthersTwice(p + next);
    OthersAppend(Others(p + next), MergeNote(coverage));
    MergeNoteIsNoOther(coverage);
    hide Others;
    hide MergeNote;
    assert kept + Others(next) + [] == kept + Others(next);
  }

  lemma FirstNotes(parts: seq<SessionResult>)
    requires |parts| == 1
    ensures Others(Fold(parts).diagnostics) == OtherNotes(parts)
  {
    assert Fold(parts) == parts[0] && parts[..0] == [];
    hide Others;
    assert [] + Others(parts[0].diagnostics) == Others(parts[0].diagnostics);
  }

  /** Diagnostics that are no coverage notes are all kept, in order, and a merge carries one note of its own at most. */
  lemma {:induction false} FoldKeepsNotes(parts: seq<SessionResult>)
    requires parts != []
    ensures Others(Fold(parts).diagnostics) == OtherNotes(parts)
    ensures |parts| > 1 ==> Fold(parts).diagnostics == OtherNotes(parts) + MergeNote(Fold(parts).coverage)
    decreases |parts|
  {
    hide CombineHydration;
    hide Others;
    hide MergeNote;
    var n := |parts| - 1;
    if n == 0 {
      FirstNotes(parts);
    } else {
      var p := Fold(parts[..n]);
      FoldKeepsNotes(parts[..n]);
      CombineNotes(p, parts[n]);
      OneMoreNotes(OtherNotes(parts[..n]), p.diagnostics, parts[n].diagnostics, Fold(parts).coverage);
    }
  }

  /**
   Of a merge only the last diagnostic can be a coverage note. There is one exactly when a session kind is not covered, and it
   says what the merge covers and which of the five kinds it misses.
   */
  lemma NoteTells(parts: seq<SessionResult>)
    requires |parts| > 1
    ensures var r := Fold(parts);
            && (MissedBy([], r.coverage) ==> r.diagnostics == OtherNotes(parts))
            && (!MissedBy([], r.coverage) ==>
                  exists missing :: MissedBy(missing, r.coverage) && r.diagnostics == OtherNotes(parts) + [PartialCoverage(OfMerge(r.coverage, missing))])
    ensures forall d | d in OtherNotes(parts) :: d.Other?
  {
    FoldKeepsNotes(parts);
    OtherNotesAreOther(parts);
    hide Fold; hide OtherNotes; hide MissedBy; hide MergeNote;
    NoteOf(Fold(parts).coverage, OtherNotes(parts));
  }

  lemma NoteOf(coverage: seq<Kind>, notes: seq<Diagnostic>)
    ensures MissedBy([], coverage) ==> notes + MergeNote(coverage) == notes
    ensures !MissedBy([], coverage) ==>
              exists missing :: MissedBy(missing, coverage) && notes + MergeNote(coverage) == notes + [PartialCoverage(OfMerge(coverage, missing))]
  {
    var missing := MissingHydrationCoverage(coverage);
    MissingIsMissed(coverage);
    hide MissingHydrationCoverage; hide MissedBy;
    if missing == [] {
      assert notes + [] == notes;
    } else {
      assert MergeNote(coverage) == [PartialCoverage(OfMerge(coverage, missing))];
    }
  }

  lemma MissingIsMissed(coverage: seq<Kind>)
    ensures MissedBy(MissingHydrationCoverage(coverage), coverage)
    ensures MissedBy([], coverage) ==> MissingHydrationCoverage(coverage) == []
  {
    MissingIs(coverage);
    var missing := MissingHydrationCoverage(coverage);
    hide MissingHydrationCoverage;
    if missing != [] {
      assert missing[0] in missing && missing[0] !in [];
    }
  }

  /** `missing` are the session kinds that `coverage` does not have. */
  ghost predicate MissedBy(missing: seq<Kind>, coverage: seq<Kind>) {
    forall k: Kind :: k in missing <==> k in {History, SessionEvent, ToolCall, FileEdit, Relationship} && k !in coverage
  }

  lemma {:induction false} OthersAreOther(diagnostics: seq<Diagnostic>)
    ensures forall d | d in Others(diagnostics) :: d.Other?
    decreases |diagnostics|
  {
    if diagnostics != [] {
      OthersAreOther(diagnostics[..|diagnostics| - 1]);
    }
  }

  lemma {:induction false} OtherNotesAreOther(parts: seq<SessionResult>)
    ensures forall d | d in OtherNotes(parts) :: d.Other?
    decreases |parts|
  {
    if parts != [] {
      OtherNotesAreOther(parts[..|parts| - 1]);
      OthersAreOther(parts[|parts| - 1].diagnostics);
    }
  }

  lemma MergeNoteIsNoOther(coverage: seq<Kind>)
    ensures Others(MergeNote(coverage)) == []
  {
    hide MissingHydrationCoverage;
  }

  lemma {:induction false} OthersAppend(a: seq<Diagnostic>, b: seq<Diagnostic>)
    ensures Others(a + b) == Others(a) + Others(b)
    decreases |b|
  {
    if b == [] {
      assert a + b == a;
    } else {
      assert (a + b)[..|a + b| - 1] == a + b[..|b| - 1];
      OthersAppend(a, b[..|b| - 1]);
    }
  }

  lemma {:induction false} OthersTwice(a: seq<Diagnostic>)
    ensures Others(Others(a)) == Others(a)
    decreases |a|
  {
    if a != [] {
      OthersTwice(a[..|a| - 1]);
      OthersAppend(Others(a[..|a| - 1]), [a[|a| - 1]]);
    }
  }

  /** `m` holds, count by count, the greatest the parts report. */
  ghost predicate IsMaxima(parts: seq<SessionResult>, m: Counts) {
    && (forall p | p in parts :: Below(p.evidence, m))
    && (exists p :: p in parts && p.evidence.prompts == m.prompts) && (exists p :: p in parts && p.evidence.events == m.events)
    && (exists p :: p in parts && p.evidence.toolCalls == m.toolCalls) && (exists p :: p in parts && p.evidence.fileEdits == m.fileEdits)
    && (exists p :: p in parts && p.evidence.relatedSessions == m.relatedSessions)
  }

  ghost predicate Below(a: Counts, b: Counts) {
    && a.prompts <= b.prompts && a.events <= b.events && a.toolCalls <= b.toolCalls && a.fileEdits <= b.fileEdits
    && a.relatedSessions <= b.relatedSessions
  }

  lemma {:induction false} FoldMaxima(parts: seq<SessionResult>)
    requires parts != []
    ensures IsMaxima(parts, Fold(parts).evidence)
    decreases |parts|
  {
    hide CombineHydration;
    hide IsMaxima;
    var n := |parts| - 1;
    if n == 0 {
      OneMaxima(parts);
    } else {
      FoldMaxima(parts[..n]);
      CombineMaxima(Fold(parts[..n]), parts[n]);
      MaximaSnoc(parts[..n], Fold(parts[..n]).evidence, parts[n]);
      assert parts == parts[..n] + [parts[n]];
    }
  }

  lemma OneMaxima(parts: seq<SessionResult>)
    requires |parts| == 1
    ensures IsMaxima(parts, Fold(parts).evidence)
  {
    assert Fold(parts) == parts[0];
    hide Fold;
    assert parts[0] in parts && forall p | p in parts :: p == parts[0];
  }

  lemma CombineMaxima(p: SessionResult, next: SessionResult)
    ensures CombineHydration(Some(p), next).evidence == Maxima(p.evidence, next.evidence)
  {
    hide Maxima;
    hide Union;
    hide Others;
    hide Distinct;
    hide MergeNote;
  }

  lemma MaximaSnoc(parts: seq<SessionResult>, m: Counts, next: SessionResult)
    requires IsMaxima(parts, m)
    ensures IsMaxima(parts + [next], Maxima(m, next.evidence))
  {
    var all := parts + [next];
    assert next in all && forall p | p in parts :: p in all;
    assert forall p | p in all :: p in parts || p == next;
  }

  lemma MaximaUnique(xs: seq<SessionResult>, ys: seq<SessionResult>, m: Counts, n: Counts)
    requires IsMaxima(xs, m) && IsMaxima(ys, n) && forall p :: p in xs <==> p in ys
    ensures m == n
  {
  }

  // ----- order does not matter

  lemma SameElements(xs: seq<SessionResult>, ys: seq<SessionResult>)
    requires multiset(xs) == multiset(ys)
    ensures forall p :: p in xs <==> p in ys
    ensures |xs| == |ys|
  {
    forall p ensures p in xs <==> p in ys {
      assert p in multiset(xs) <==> p in multiset(ys);
    }
    assert |multiset(xs)| == |xs| && |multiset(ys)| == |ys|;
  }

  lemma {:induction false} SumAppend(a: seq<SessionResult>, b: seq<SessionResult>)
    ensures SumBytes(a + b) == SumBytes(a) + SumBytes(b)
    decreases |b|
  {
    if b == [] {
      assert a + b == a;
    } else {
      var n := |b| - 1;
      SumAppend(a, b[..n]);
      LastOfSum(a, b);
    }
  }

  lemma LastOfSum(a: seq<SessionResult>, b: seq<SessionResult>)
    requires b != []
    ensures SumBytes(a + b) == SumBytes(a + b[..|b| - 1]) + b[|b| - 1].bytesRead
  {
    assert (a + b)[..|a + b| - 1] == a + b[..|b| - 1];
  }

  lemma SumRemoved(parts: seq<SessionResult>, i: nat)
    requires i < |parts|
    ensures SumBytes(parts) == SumBytes(parts[..i] + parts[i + 1..]) + parts[i].bytesRead
  {
    hide SumBytes;
    assert parts == (parts[..i] + [parts[i]]) + parts[i + 1..];
    SumAppend(parts[..i] + [parts[i]], parts[i + 1..]);
    SumAppend(parts[..i], [parts[i]]);
    SumAppend(parts[..i], parts[i + 1..]);
    SumOne(parts[i]);
  }

  lemma SumOne(part: SessionResult)
    ensures SumBytes([part]) == part.bytesRead
  {
    assert [part][..0] == [];
  }

  lemma Removed(parts: seq<SessionResult>, i: nat)
    requires i < |parts|
    ensures multiset(parts) == multiset(parts[..i] + parts[i + 1..]) + multiset{parts[i]}
  {
    assert parts == parts[..i] + [parts[i]] + parts[i + 1..];
  }

  lemma {:induction false} SumPermuted(xs: seq<SessionResult>, ys: seq<SessionResult>)
    requires multiset(xs) == multiset(ys)
    ensures SumBytes(xs) == SumBytes(ys)
    decreases |xs|
  {
    hide SumBytes;
    SameElements(xs, ys);
    if xs == [] {
      assert ys == [];
    } else {
      var n := |xs| - 1;
      assert xs[n] in xs;
      var i :| 0 <= i < |ys| && ys[i] == xs[n];
      SumRemoved(xs, n);
      SumRemoved(ys, i);
      Removed(ys, i);
      Removed(xs, n);
      assert xs[..n] + xs[n + 1..] == xs[..n];
      assert multiset(xs[..n]) == multiset(xs) - multiset{xs[n]};
      assert multiset(ys[..i] + ys[i + 1..]) == multiset(ys) - multiset{ys[i]};
      SumPermuted(xs[..n], ys[..i] + ys[i + 1..]);
    }
  }

  lemma {:induction false} SelectSame(kinds: seq<Kind>, f: Kind -> bool, g: Kind -> bool)
    requires forall k :: f(k) == g(k)
    ensures Select(kinds, f) == Select(kinds, g)
  {
    if kinds != [] {
      SelectSame(kinds[1..], f, g);
    }
  }

  /** A merge of two or more lists its coverage in canonical order. */
  lemma CanonicalCoverage(parts: seq<SessionResult>)
    requires |parts| > 1
    ensures Fold(parts).coverage == Select(EVIDENCE_KINDS, k => k in Fold(parts).coverage)
  {
    var n := |parts| - 1;
    var p, next := Fold(parts[..n]), parts[n];
    UnionElements(p.coverage, next.coverage);
    SelectSame(EVIDENCE_KINDS, k => k in p.coverage || k in next.coverage, k => k in Fold(parts).coverage);
  }

  lemma SameCapability(a: seq<Kind>, b: seq<Kind>)
    requires forall k :: k in a <==> k in b
    ensures ExpectedHydrationCapability(a) == ExpectedHydrationCapability(b)
  {
    FullIffAllKinds(a);
    FullIffAllKinds(b);
    EmptyCoverage(a);
    EmptyCoverage(b);
  }

  lemma StatusByRank(a: Status, b: Status)
    ensures StatusRank(a) == StatusRank(b) <==> a == b
  {
  }

  lemma SameStatus(xs: seq<SessionResult>, ys: seq<SessionResult>)
    requires xs != [] && ys != [] && forall p :: p in xs <==> p in ys
    ensures Fold(xs).status == Fold(ys).status
  {
    hide Fold;
    var i := FoldSelects(xs);
    var j := FoldSelects(ys);
    assert xs[i] in ys && ys[j] in xs;
    StatusByRank(Fold(xs).status, Fold(ys).status);
  }

  lemma SameCounts(xs: seq<SessionResult>, ys: seq<SessionResult>)
    requires xs != [] && ys != [] && forall p :: p in xs <==> p in ys
    ensures Fold(xs).evidence == Fold(ys).evidence
  {
    hide Fold;
    FoldMaxima(xs);
    FoldMaxima(ys);
    MaximaUnique(xs, ys, Fold(xs).evidence, Fold(ys).evidence);
  }

  lemma SameKinds(xs: seq<SessionResult>, ys: seq<SessionResult>)
    requires xs != [] && ys != [] && AllConform(xs) && forall p :: p in xs <==> p in ys
    ensures forall k :: k in Fold(xs).coverage <==> k in Fold(ys).coverage
    ensures Fold(xs).capability == Fold(ys).capability
  {
    hide Fold;
    FoldConforms(xs);
    FoldConforms(ys);
    forall k ensures k in Fold(xs).coverage <==> k in Fold(ys).coverage {
    }
    SameCapability(Fold(xs).coverage, Fold(ys).coverage);
  }

  /** In whatever order conforming results are folded, coverage, capability, counts, bytes and status come out the same. */
  lemma OrderDoesNotMatter(xs: seq<SessionResult>, ys: seq<SessionResult>)
    requires xs != [] && multiset(xs) == multiset(ys) && AllConform(xs)
    ensures ys != [] && Fold(xs).coverage == Fold(ys).coverage && Fold(xs).capability == Fold(ys).capability
    ensures Fold(xs).evidence == Fold(ys).evidence && Fold(xs).bytesRead == Fold(ys).bytesRead && Fold(xs).status == Fold(ys).status
  {
    hide Fold;
    hide SumBytes;
    SameElements(xs, ys);
    FoldSums(xs);
    FoldSums(ys);
    SumPermuted(xs, ys);
    SameCounts(xs, ys);
    SameStatus(xs, ys);
    SameKinds(xs, ys);
    SameCoverage(xs, ys);
  }

  lemma SameCoverage(xs: seq<SessionResult>, ys: seq<SessionResult>)
    requires xs != [] && |xs| == |ys| && (forall p :: p in xs <==> p in ys)
    requires forall k :: k in Fold(xs).coverage <==> k in Fold(ys).coverage
    ensures Fold(xs).coverage == Fold(ys).coverage
  {
    if |xs| == 1 {
      assert xs[0] in ys;
    } else {
      CanonicalCoverage(xs);
      CanonicalCoverage(ys);
      SelectSame(EVIDENCE_KINDS, k => k in Fold(xs).coverage, k => k in Fold(ys).coverage);
    }
  }

  // ----- related sessions

  ghost predicate NoneTwice(ids: seq<string>) {
    forall i, j | 0 <= i < j < |ids| :: ids[i] != ids[j]
  }

  lemma {:induction false} DistinctElements(ids: seq<string>)
    ensures NoneTwice(Distinct(ids)) && forall id :: id in Distinct(ids) <==> id in ids
    decreases |ids|
  {
    if ids != [] {
      var init, last := ids[..|ids| - 1], ids[|ids| - 1];
      DistinctElements(init);
      assert ids == init + [last];
    }
  }

  /** Related sessions keep the order in which they first appear. */
  lemma {:induction false} FirstAppearance(a: seq<string>, b: seq<string>)
    ensures |Distinct(a)| <= |Distinct(a + b)| && Distinct(a + b)[..|Distinct(a)|] == Distinct(a)
    decreases |b|
  {
    if b == [] {
      assert a + b == a;
    } else {
      assert (a + b)[..|a + b| - 1] == a + b[..|b| - 1];
      FirstAppearance(a, b[..|b| - 1]);
    }
  }

  /** So a merge lists the related sessions of an earlier part before those only a later one names. */
  lemma RelatedInOrder(p: SessionResult, next: SessionResult)
    requires NoneTwice(p.relatedSessionIds)
    ensures var ids := CombineHydration(Some(p), next).relatedSessionIds;
            |p.relatedSessionIds| <= |ids| && ids[..|p.relatedSessionIds|] == p.relatedSessionIds
  {
    CombineRelated(p, next);
    FirstAppearance(p.relatedSessionIds, next.relatedSessionIds);
    AlreadyDistinct(p.relatedSessionIds);
  }

  lemma {:induction false} AlreadyDistinct(ids: seq<string>)
    requires NoneTwice(ids)
    ensures Distinct(ids) == ids
    decreases |ids|
  {
    if ids != [] {
      var init, last := ids[..|ids| - 1], ids[|ids| - 1];
      AlreadyDistinct(init);
      assert ids == init + [last];
    }
  }

  lemma CombineRelated(p: SessionResult, next: SessionResult)
    ensures CombineHydration(Some(p), next).relatedSessionIds == Distinct(p.relatedSessionIds + next.relatedSessionIds)
  {
    hide Distinct;
    hide Union;
    hide Others;
    hide Maxima;
    hide MergeNote;
  }

  /** A merge names every related session some part names, each once. */
  lemma {:induction false} FoldRelates(parts: seq<SessionResult>)
    requires parts != []
    ensures forall id :: id in Fold(parts).relatedSessionIds <==> exists p :: p in parts && id in p.relatedSessionIds
    ensures |parts| > 1 ==> NoneTwice(Fold(parts).relatedSessionIds)
    decreases |parts|
  {
    hide CombineHydration;
    hide NoneTwice;
    var n := |parts| - 1;
    if n == 0 {
      OnePart(parts);
    } else {
      var earlier := parts[..n];
      FoldRelates(earlier);
      CombineRelated(Fold(earlier), parts[n]);
      DistinctElements(Fold(earlier).relatedSessionIds + parts[n].relatedSessionIds);
      assert parts == earlier + [parts[n]];
      forall id ensures id in Fold(parts).relatedSessionIds <==> exists p :: p in parts && id in p.relatedSessionIds {
        if exists p :: p in earlier && id in p.relatedSessionIds {
          var p :| p in earlier && id in p.relatedSessionIds;
          assert p in parts;
        }
        if exists p :: p in parts && id in p.relatedSessionIds {
          var p :| p in parts && id in p.relatedSessionIds;
          assert p in earlier || p == parts[n];
        }
      }
    }
  }

  lemma OnePart(parts: seq<SessionResult>)
    requires |parts| == 1
    ensures Fold(parts) == parts[0] && forall p :: p in parts <==> p == parts[0]
  {
  }
}
