/**
 Consumers sharing named cursors: any number of `changesSince` runs with `commit`, each taking one native
 call or one change at a time, crashing anywhere, while other connections write.
 */
module FeedRuns {
  import opened Wrappers
  import opened Ordering
  import opened FeedStore
  import opened FeedDrain
  import opened ChangeFeed
  import opened FeedMirror

  /** Where a run stands: between pages, inside a page's native reads, handing it out, or acknowledging it. */
  datatype Phase =
    | Waiting(from: Watermark)
    | Opening(o: Opened)
    | Reading(o: Opened, changes: seq<Change>)
    | Yielding(page: Page, left: seq<Change>)
    | Committing(page: Page, o: Opened)
    | Committed(page: Page)
    | Over

  datatype Run = Run(name: string, query: Query, limit: nat, phase: Phase)

  /** `consumed` is, for each named consumer, every change a run under that name has fully consumed. */
  datatype Sys = Sys(store: Store, runs: map<nat, Run>, consumed: map<string, set<Change>>)

  function ConsumedBy(s: Sys, name: string): set<Change> {
    if name in s.consumed then s.consumed[name] else {}
  }

  /** No consumer has consumed less. */
  ghost predicate ConsumesMore(s: Sys, t: Sys) {
    forall name :: ConsumedBy(s, name) <= ConsumedBy(t, name)
  }

  datatype Event =
    | Writes(w: Write)
    | Start(id: nat, name: string, kinds: Option<seq<Kind>>, session: Option<SessionId>, limit: nat, from: Watermark)
    | OpenPage(id: nat)
    | FillPage(id: nat)
    | SettlePage(id: nat)
    | Consume(id: nat)
    | OpenCommit(id: nat)
    | StoreCommit(id: nat)
    | NextPage(id: nat)
    | Crash(id: nat)

  function Goto(s: Sys, id: nat, phase: Phase): Sys
    requires id in s.runs
  {
    s.(runs := s.runs[id := s.runs[id].(phase := phase)])
  }

  /** One step. A step its run is not ready for changes nothing; a refusal stops the run. */
  function Step(s: Sys, e: Event): Sys {
    match e
    case Writes(w) => s.(store := s.store.(db := Apply(s.store.db, w)))
    case Start(id, name, kinds, session, limit, from) =>
      if id in s.runs || limit == 0 then s
      else s.(runs := s.runs[id := Run(name, Query(kinds, Some(name), limit + 1, session), limit, Waiting(from))])
    case OpenPage(id) =>
      if id !in s.runs || !s.runs[id].phase.Waiting? then s else
        var answer := Open(s.store, s.runs[id].phase.from, s.runs[id].query);
        Goto(s, id, if answer.Ok? then Opening(answer.value) else Over)
    case FillPage(id) =>
      if id !in s.runs || !s.runs[id].phase.Opening? then s else
        var o := s.runs[id].phase.o;
        Goto(s, id, Reading(o, FirstOwed(s.store.db, o, s.runs[id].limit)))
    case SettlePage(id) =>
      if id !in s.runs || !s.runs[id].phase.Reading? then s else
        var page := PageOf(s.store.db, s.runs[id].phase.o, s.runs[id].phase.changes);
        Goto(s, id, Yielding(page, page.changes))
    case Consume(id) =>
      if id !in s.runs || !s.runs[id].phase.Yielding? || s.runs[id].phase.left == [] then s else
        var Yielding(page, left) := s.runs[id].phase;
        var name := s.runs[id].name;
        Goto(s, id, Yielding(page, left[1..])).(consumed := s.consumed[name := ConsumedBy(s, name) + {left[0]}])
    case OpenCommit(id) =>
      if id !in s.runs || !s.runs[id].phase.Yielding? || s.runs[id].phase.left != [] || s.runs[id].phase.page.changes == [] then s else
        var page := s.runs[id].phase.page;
        var answer := CommitOpen(s.store, s.runs[id].name, s.runs[id].query.kinds, page.position);
        Goto(s, id, if answer.Ok? then Committing(page, answer.value) else Over)
    case StoreCommit(id) =>
      if id !in s.runs || !s.runs[id].phase.Committing? then s else
        var Committing(page, o) := s.runs[id].phase;
        var answer := CommitCursor(s.store, s.runs[id].name, page.position, o.kinds, o.stale);
        if answer.Ok? then Goto(s, id, Committed(page)).(store := answer.value) else Goto(s, id, Over)
    case NextPage(id) =>
      if id !in s.runs then s else
        var phase := s.runs[id].phase;
        if phase.Committed? || (phase.Yielding? && phase.left == [] && phase.page.changes == [])
        then Goto(s, id, After(phase.page)) else s
    case Crash(id) => if id in s.runs then Goto(s, id, Over) else s
  }

  function After(page: Page): Phase {
    if page.done then Over else Waiting(page.position)
  }

  function Replay(s: Sys, es: seq<Event>): Sys
    decreases |es|
  {
    if es == [] then s else Replay(Step(s, es[0]), es[1..])
  }

  // ----- what every step keeps

  ghost predicate Covered(db: Db, consumed: set<Change>, kinds: seq<Kind>, upTo: nat) {
    forall r | r in db.log && r <= upTo && db.log[r].key.kind in kinds :: db.log[r] in consumed
  }

  ghost predicate CoveredBut(db: Db, consumed: set<Change>, kinds: seq<Kind>, upTo: nat, left: seq<Change>) {
    forall r | r in db.log && r <= upTo && db.log[r].key.kind in kinds :: db.log[r] in consumed || db.log[r] in left
  }

  ghost predicate InStore(db: Db, w: Watermark) {
    w.epoch == db.epoch && w.revision <= db.clock
  }

  ghost predicate DrainInv(db: Db, kinds: seq<Kind>, o: Opened) {
    && o.session == None && o.kinds == kinds
    && InStore(db, o.start) && InStore(db, o.head) && o.start.revision <= o.head.revision
  }

  ghost predicate PhaseInv(db: Db, consumed: set<Change>, kinds: seq<Kind>, phase: Phase) {
    match phase
    case Waiting(from) => from == CONSUMER || (from.revision <= db.clock && Covered(db, consumed, kinds, from.revision))
    case Opening(o) => DrainInv(db, kinds, o) && Covered(db, consumed, kinds, o.start.revision)
    case Reading(o, changes) =>
      var last := LastOf(o.start, changes).revision;
      DrainInv(db, kinds, o) && last <= o.head.revision && CoveredBut(db, consumed, kinds, last, changes)
    case Yielding(page, left) => InStore(db, page.position) && CoveredBut(db, consumed, kinds, page.position.revision, left)
    case Committing(page, o) =>
      InStore(db, page.position) && Covered(db, consumed, kinds, page.position.revision) && o.kinds == kinds && o.stale == None
    case Committed(page) => InStore(db, page.position) && Covered(db, consumed, kinds, page.position.revision)
    case Over => true
  }

  ghost predicate RunInv(s: Sys, run: Run) {
    && run.query.consumer == Some(run.name) && 1 <= run.limit
    && PhaseInv(s.store.db, ConsumedBy(s, run.name), Normalize(run.query.kinds), run.phase)
  }

  ghost predicate CursorInv(s: Sys, name: string, c: Cursor) {
    c.revision <= s.store.db.clock && Covered(s.store.db, ConsumedBy(s, name), c.kinds, c.revision)
  }

  ghost predicate Inv(s: Sys) {
    && Wf(s.store.db)
    && (forall name | name in s.store.cursors :: CursorInv(s, name, s.store.cursors[name]))
    && (forall id | id in s.runs :: RunInv(s, s.runs[id]))
  }

  /** A run starts where nothing it will pass over is unconsumed by its own consumer. */
  ghost predicate StartsCovered(s: Sys, e: Event) {
    e.Start? ==>
      || e.from == CONSUMER
      || (e.from.revision <= s.store.db.clock && Covered(s.store.db, ConsumedBy(s, e.name), Normalize(e.kinds), e.from.revision))
  }

  ghost predicate AllCovered(s: Sys, es: seq<Event>)
    decreases |es|
  {
    es == [] || (StartsCovered(s, es[0]) && AllCovered(Step(s, es[0]), es[1..]))
  }

  /** A start at the beginning of the feed, at the named cursor, or at a watermark at or below that cursor. */
  predicate StartsAtCursor(s: Sys, e: Event) {
    e.Start? ==>
      || e.from == START || e.from == CONSUMER
      || (e.name in s.store.cursors && s.store.cursors[e.name].kinds == Normalize(e.kinds)
          && e.from.revision <= s.store.cursors[e.name].revision)
  }

  /** What a caller can see is enough: a start at or below its cursor passes over nothing. */
  lemma CursorStartsAreCovered(s: Sys, e: Event)
    requires Inv(s) && StartsAtCursor(s, e)
    ensures StartsCovered(s, e)
  {
    if e.Start? && e.from != START && e.from != CONSUMER {
      assert CursorInv(s, e.name, s.store.cursors[e.name]);
    }
  }

  lemma CoveredLater(a: Db, b: Db, consumed: set<Change>, consumed': set<Change>, kinds: seq<Kind>, phase: Phase)
    requires Evolves(a, b) && consumed <= consumed' && PhaseInv(a, consumed, kinds, phase)
    ensures PhaseInv(b, consumed', kinds, phase)
  {
    match phase
    case Waiting(from) =>
    case Opening(o) =>
    case Reading(o, changes) =>
    case Yielding(page, left) =>
    case Committing(page, o) =>
    case Committed(page) =>
    case Over =>
  }

  /** Everything a step leaves alone stays covered when the store moves on or more is consumed. */
  lemma OthersKept(s: Sys, t: Sys, id: nat)
    requires Inv(s) && Wf(t.store.db) && Evolves(s.store.db, t.store.db) && ConsumesMore(s, t)
    requires forall i | i in t.runs && i != id :: i in s.runs && t.runs[i] == s.runs[i]
    ensures forall i | i in t.runs && i != id :: RunInv(t, t.runs[i])
    ensures forall name, c: Cursor :: CursorInv(s, name, c) ==> CursorInv(t, name, c)
  {
    forall i | i in t.runs && i != id ensures RunInv(t, t.runs[i]) {
      var name := s.runs[i].name;
      CoveredLater(s.store.db, t.store.db, ConsumedBy(s, name), ConsumedBy(t, name), Normalize(s.runs[i].query.kinds), s.runs[i].phase);
    }
  }

  lemma OpenKeeps(s: Sys, run: Run)
    requires Inv(s) && RunInv(s, run) && run.phase.Waiting? && Open(s.store, run.phase.from, run.query).Ok?
    ensures PhaseInv(s.store.db, ConsumedBy(s, run.name), Normalize(run.query.kinds), Opening(Open(s.store, run.phase.from, run.query).value))
  {
    var o := Open(s.store, run.phase.from, run.query).value;
    if run.phase.from == CONSUMER && run.name in s.store.cursors {
      assert CursorInv(s, run.name, s.store.cursors[run.name]);
    }
  }

  lemma FillKeeps(db: Db, consumed: set<Change>, kinds: seq<Kind>, o: Opened, limit: nat)
    requires Wf(db) && 1 <= limit && PhaseInv(db, consumed, kinds, Opening(o))
    ensures PhaseInv(db, consumed, kinds, Reading(o, FirstOwed(db, o, limit)))
  {
    var owed := Pending(db, Whole(o.kinds, o.session), o.start.revision, o.head.revision);
    PageRange(db, o, limit, owed);
    PendingMeaning(db, Whole(o.kinds, o.session), o.start.revision, o.head.revision);
    FirstAreOldest(owed, limit);
    FirstToConsume(db, consumed, kinds, o, owed, Take(owed, limit), LastOf(o.start, Take(owed, limit)).revision);
  }

  lemma FirstToConsume(db: Db, consumed: set<Change>, kinds: seq<Kind>, o: Opened, owed: seq<Change>, changes: seq<Change>, last: nat)
    requires Wf(db) && DrainInv(db, kinds, o) && Covered(db, consumed, kinds, o.start.revision) && last <= o.head.revision
    requires Owes(db, Whole(o.kinds, o.session), o.start.revision, o.head.revision, owed)
    requires forall c | c in owed && c.revision <= last :: c in changes
    ensures CoveredBut(db, consumed, kinds, last, changes)
  {
    forall r | r in db.log && r <= last && db.log[r].key.kind in kinds ensures db.log[r] in consumed || db.log[r] in changes {
      if r > o.start.revision {
        assert db.log[r] in owed;
      }
    }
  }

  lemma SettleKeeps(db: Db, consumed: set<Change>, kinds: seq<Kind>, o: Opened, changes: seq<Change>)
    requires Wf(db) && PhaseInv(db, consumed, kinds, Reading(o, changes))
    ensures var page := PageOf(db, o, changes); PhaseInv(db, consumed, kinds, Yielding(page, page.changes))
  {
    var last := LastOf(o.start, changes).revision;
    var left := Pending(db, Whole(o.kinds, o.session), last, o.head.revision);
    PendingMeaning(db, Whole(o.kinds, o.session), last, o.head.revision);
    forall r | r in db.log && last < r <= o.head.revision && db.log[r].key.kind in kinds ensures left != [] {
      assert db.log[r] in left;
    }
  }

  lemma CommitKeeps(s: Sys, run: Run)
    requires Inv(s) && RunInv(s, run) && run.phase.Committing?
    ensures var answer := CommitCursor(s.store, run.name, run.phase.page.position, run.phase.o.kinds, run.phase.o.stale);
            answer.Ok? ==>
              && answer.value.db == s.store.db
              && (forall n | n in answer.value.cursors :: CursorInv(s, n, answer.value.cursors[n]))
              && CursorsAdvance(s.store, answer.value)
  {
  }

  /** A cursor never moves back and never changes what it counts. */
  ghost predicate CursorsAdvance(a: Store, b: Store) {
    forall n | n in a.cursors ::
      n in b.cursors && b.cursors[n].kinds == a.cursors[n].kinds && a.cursors[n].revision <= b.cursors[n].revision
  }

  lemma ConsumeKeeps(db: Db, consumed: set<Change>, kinds: seq<Kind>, page: Page, left: seq<Change>)
    requires left != [] && PhaseInv(db, consumed, kinds, Yielding(page, left))
    ensures PhaseInv(db, consumed + {left[0]}, kinds, Yielding(page, left[1..]))
  {
    assert left == [left[0]] + left[1..];
  }

  lemma CommitOpenKeeps(s: Sys, run: Run)
    requires Inv(s) && RunInv(s, run) && run.phase.Yielding? && run.phase.left == []
    ensures var answer := CommitOpen(s.store, run.name, run.query.kinds, run.phase.page.position);
            answer.Ok? ==> PhaseInv(s.store.db, ConsumedBy(s, run.name), Normalize(run.query.kinds), Committing(run.phase.page, answer.value))
  {
    if run.name in s.store.cursors {
      assert CursorInv(s, run.name, s.store.cursors[run.name]);
    }
  }

  lemma StartKeeps(s: Sys, e: Event)
    requires Inv(s) && e.Start? && StartsCovered(s, e)
    ensures PhaseInv(s.store.db, ConsumedBy(s, e.name), Normalize(e.kinds), Waiting(e.from))
  {
  }

  /** The phase a run's own native read takes it to keeps what its phase promises. */
  lemma OwnReadKeeps(s: Sys, e: Event, id: nat)
    requires Inv(s) && StartsCovered(s, e) && id in s.runs
    requires e == OpenPage(id) || e == FillPage(id) || e == SettlePage(id)
    ensures RunInv(Step(s, e), Step(s, e).runs[id])
  {
    hide Open; hide FirstOwed; hide PageOf; hide CommitOpen; hide CommitCursor; hide Apply; hide Normalize; hide Pending;
    var run := s.runs[id];
    assert RunInv(s, run);
    match e {
      case OpenPage(_) => if run.phase.Waiting? && Open(s.store, run.phase.from, run.query).Ok? { OpenKeeps(s, run); }
      case FillPage(_) =>
        if run.phase.Opening? { FillKeeps(s.store.db, ConsumedBy(s, run.name), Normalize(run.query.kinds), run.phase.o, run.limit); }
      case SettlePage(_) =>
        if run.phase.Reading? { SettleKeeps(s.store.db, ConsumedBy(s, run.name), Normalize(run.query.kinds), run.phase.o, run.phase.changes); }
    }
  }

  /** The phase a run's own step takes it to keeps what its phase promises. */
  lemma OwnStepKeeps(s: Sys, e: Event, id: nat)
    requires Inv(s) && StartsCovered(s, e) && !e.Writes? && id == e.id
    ensures var t := Step(s, e); id in t.runs ==> RunInv(t, t.runs[id])
  {
    hide Open; hide FirstOwed; hide PageOf; hide CommitOpen; hide Apply; hide Normalize; hide Pending;
    if id in s.runs {
      var run := s.runs[id];
      assert RunInv(s, run);
      match e
      case Start(_, _, _, _, _, _) =>
      case OpenPage(_) => OwnReadKeeps(s, e, id);
      case FillPage(_) => OwnReadKeeps(s, e, id);
      case SettlePage(_) => OwnReadKeeps(s, e, id);
      case Consume(_) =>
        if run.phase.Yielding? && run.phase.left != [] {
          ConsumeKeeps(s.store.db, ConsumedBy(s, run.name), Normalize(run.query.kinds), run.phase.page, run.phase.left);
        }
      case OpenCommit(_) => if run.phase.Yielding? && run.phase.left == [] { CommitOpenKeeps(s, run); }
      case StoreCommit(_) =>
      case NextPage(_) =>
      case Crash(_) =>
    } else if e.Start? {
      StartKeeps(s, e);
    }
  }

  lemma StepMovesOn(s: Sys, e: Event)
    requires Inv(s)
    ensures var t := Step(s, e); Wf(t.store.db) && Evolves(s.store.db, t.store.db) && ConsumesMore(s, t)
    ensures e.Writes? ==> Step(s, e).store.cursors == s.store.cursors
  {
    hide Open; hide FirstOwed; hide PageOf; hide CommitOpen; hide Apply; hide Normalize; hide Pending;
    if e.Writes? {
      WriteEvolves(s.store.db, e.w);
    }
  }

  lemma OnlyOwnRunMoves(s: Sys, e: Event)
    ensures var t := Step(s, e); forall i | i in t.runs && (e.Writes? || i != e.id) :: i in s.runs && t.runs[i] == s.runs[i]
  {
    hide Open; hide FirstOwed; hide PageOf; hide CommitOpen; hide CommitCursor; hide Apply; hide Normalize; hide Pending;
  }

  lemma StepKeeps(s: Sys, e: Event)
    requires Inv(s) && StartsCovered(s, e)
    ensures Inv(Step(s, e)) && CursorsAdvance(s.store, Step(s, e).store)
  {
    var t := Step(s, e);
    StepMovesOn(s, e);
    OnlyOwnRunMoves(s, e);
    if e.Writes? {
      OthersKept(s, t, 0);
      if 0 in t.runs {
        var name := s.runs[0].name;
        CoveredLater(s.store.db, t.store.db, ConsumedBy(s, name), ConsumedBy(t, name), Normalize(s.runs[0].query.kinds), s.runs[0].phase);
      }
    } else {
      OthersKept(s, t, e.id);
      OwnStepKeeps(s, e, e.id);
      CommitStepKeeps(s, e);
    }
  }

  lemma CommitStepKeeps(s: Sys, e: Event)
    requires Inv(s) && !e.Writes?
    ensures forall n | n in Step(s, e).store.cursors ::
              (n in s.store.cursors && Step(s, e).store.cursors[n] == s.store.cursors[n]) || CursorInv(s, n, Step(s, e).store.cursors[n])
    ensures CursorsAdvance(s.store, Step(s, e).store)
  {
    hide Open; hide FirstOwed; hide PageOf; hide CommitOpen; hide Apply; hide Normalize; hide Pending;
    if e.StoreCommit? {
      if e.id in s.runs && s.runs[e.id].phase.Committing? {
        CommitKeeps(s, s.runs[e.id]);
      }
    }
  }

  /** Every record a cursor has passed was consumed under that cursor's own name. */
  ghost predicate Delivered(s: Sys) {
    forall name | name in s.store.cursors ::
      Covered(s.store.db, ConsumedBy(s, name), s.store.cursors[name].kinds, s.store.cursors[name].revision)
  }

  /**
   At least once: whatever crashes, races or writes happen, every selected record whose last write is at or
   below a named cursor has been fully consumed by a run of that very consumer, and no cursor ever moves back.
   */
  lemma {:induction false} AtLeastOnce(s: Sys, es: seq<Event>)
    requires Inv(s) && AllCovered(s, es)
    ensures Inv(Replay(s, es)) && CursorsAdvance(s.store, Replay(s, es).store)
    ensures Delivered(Replay(s, es))
    decreases |es|
  {
    if es != [] {
      StepKeeps(s, es[0]);
      AtLeastOnce(Step(s, es[0]), es[1..]);
    }
    var t := Replay(s, es);
    assert forall name | name in t.store.cursors :: CursorInv(t, name, t.store.cursors[name]);
  }

  /** A fresh database with no run keeps the promise. */
  lemma FreshKeepsPromise(epoch: nat)
    requires epoch != 0
    ensures Inv(Sys(Store(Db(epoch, 0, map[]), map[]), map[], map[]))
  {
  }

  // ----- a start past unconsumed records

  lemma {:induction false} ReplayAppend(s: Sys, a: seq<Event>, b: seq<Event>)
    ensures Replay(s, a + b) == Replay(Replay(s, a), b)
    decreases |a|
  {
    if a == [] {
      assert a + b == b;
    } else {
      assert (a + b)[1..] == a[1..] + b;
      ReplayAppend(Step(s, a[0]), a[1..], b);
    }
  }

  lemma {:induction false} NoStartIsCovered(s: Sys, es: seq<Event>)
    requires forall e | e in es :: !e.Start?
    ensures AllCovered(s, es)
    decreases |es|
  {
    if es != [] {
      assert es[0] in es && es == [es[0]] + es[1..];
      NoStartIsCovered(Step(s, es[0]), es[1..]);
    }
  }

  /** A run of `name` over `kinds`, at `phase`. */
  ghost predicate Runs(s: Sys, id: nat, name: string, kinds: Option<seq<Kind>>, limit: nat, phase: Phase) {
    id in s.runs && s.runs[id] == Run(name, Query(kinds, Some(name), limit + 1, None), limit, phase)
  }

  /** The head's own change is selected and above the start, so the page read there is not empty. */
  lemma PageAhead(db: Db, o: Opened, limit: nat, page: Page)
    requires Wf(db) && 1 <= limit && o.head == Head(db) && o.start.epoch == db.epoch && o.session == None
    requires o.start.revision < db.clock && db.clock in db.log && db.log[db.clock].key.kind in o.kinds
    requires page == PageOf(db, o, FirstOwed(db, o, limit))
    ensures page.changes != [] && (forall c | c in page.changes :: c.revision > o.start.revision)
    ensures o.start.revision < page.position.revision && InStore(db, page.position)
  {
    var owed := HeadIsOwed(db, o);
    hide Pending;
    PageRange(db, o, limit, owed);
    hide PageOf; hide FirstOwed;
    assert page.changes[|page.changes| - 1] in page.changes;
  }

  lemma HeadIsOwed(db: Db, o: Opened) returns (owed: seq<Change>)
    requires Wf(db) && o.head == Head(db) && o.start.epoch == db.epoch && o.session == None
    requires o.start.revision < db.clock && db.clock in db.log && db.log[db.clock].key.kind in o.kinds
    ensures owed == Pending(db, Whole(o.kinds, o.session), o.start.revision, o.head.revision) && owed != []
    ensures Owes(db, Whole(o.kinds, o.session), o.start.revision, o.head.revision, owed)
  {
    owed := Pending(db, Whole(o.kinds, o.session), o.start.revision, o.head.revision);
    PendingMeaning(db, Whole(o.kinds, o.session), o.start.revision, o.head.revision);
    assert Reports(db, db.log[db.clock]);
    assert db.log[db.clock] in owed;
  }

  lemma ReadsAPage(s: Sys, id: nat, name: string, kinds: Option<seq<Kind>>, limit: nat, from: Watermark) returns (t: Sys, page: Page)
    requires Wf(s.store.db) && Runs(s, id, name, kinds, limit, Waiting(from)) && 1 <= limit
    requires from.epoch == s.store.db.epoch && from.revision < s.store.db.clock && s.store.db.clock in s.store.db.log
    requires s.store.db.log[s.store.db.clock].key.kind in Normalize(kinds)
    ensures t == Replay(s, [OpenPage(id), FillPage(id), SettlePage(id)])
    ensures t.store == s.store && t.consumed == s.consumed && Runs(t, id, name, kinds, limit, Yielding(page, page.changes))
    ensures page.changes != [] && (forall c | c in page.changes :: c.revision > from.revision)
    ensures from.revision < page.position.revision && InStore(s.store.db, page.position)
  {
    hide PageOf;
    hide FirstOwed;
    hide Normalize;
    var o := Opens(s, id, name, kinds, limit, from);
    hide Open;
    page := PageOf(s.store.db, o, FirstOwed(s.store.db, o, limit));
    PageAhead(s.store.db, o, limit, page);
    ThreeSteps(s, OpenPage(id), FillPage(id), SettlePage(id));
    var s1 := Step(s, OpenPage(id));
    assert s1.runs[id].phase == Opening(o);
    var s2 := Step(s1, FillPage(id));
    assert s2.runs[id].phase == Reading(o, FirstOwed(s.store.db, o, limit));
    t := Step(s2, SettlePage(id));
    assert PageOf(s.store.db, o, FirstOwed(s.store.db, o, limit)).changes == page.changes;
  }

  lemma Opens(s: Sys, id: nat, name: string, kinds: Option<seq<Kind>>, limit: nat, from: Watermark) returns (o: Opened)
    requires Wf(s.store.db) && Runs(s, id, name, kinds, limit, Waiting(from))
    requires from.epoch == s.store.db.epoch && from.revision < s.store.db.clock
    ensures Open(s.store, from, s.runs[id].query) == Ok(o)
    ensures o.head == Head(s.store.db) && o.start == from && o.session == None && o.kinds == Normalize(kinds)
  {
    o := Open(s.store, from, s.runs[id].query).value;
  }

  lemma ThreeSteps(s: Sys, a: Event, b: Event, c: Event)
    ensures Replay(s, [a, b, c]) == Step(Step(Step(s, a), b), c)
    ensures Replay(s, [a, b]) == Step(Step(s, a), b)
  {
    hide Step;
    assert [a, b, c][1..] == [b, c] && [b, c][1..] == [c] && [c][1..] == [] && [a, b][1..] == [b] && [b][1..] == [];
    assert Replay(Step(Step(s, a), b), [c]) == Step(Step(Step(s, a), b), c);
    assert Replay(Step(s, a), [b]) == Step(Step(s, a), b);
  }

  lemma {:induction false} ConsumesAPage(s: Sys, id: nat, name: string, kinds: Option<seq<Kind>>, limit: nat, page: Page, left: seq<Change>)
    returns (es: seq<Event>, t: Sys)
    requires Runs(s, id, name, kinds, limit, Yielding(page, left))
    ensures t == Replay(s, es) && (forall e | e in es :: !e.Start?)
    ensures t.store == s.store && Runs(t, id, name, kinds, limit, Yielding(page, []))
    ensures forall c :: c in ConsumedBy(t, name) <==> c in ConsumedBy(s, name) || c in left
    ensures forall e | e in es :: e == Consume(id)
    decreases |left|
  {
    if left == [] {
      es, t := [], s;
    } else {
      var next := Step(s, Consume(id));
      var rest;
      rest, t := ConsumesAPage(next, id, name, kinds, limit, page, left[1..]);
      es := [Consume(id)] + rest;
      assert es[1..] == rest;
    }
  }

  lemma CommitsAPage(s: Sys, id: nat, name: string, kinds: Option<seq<Kind>>, limit: nat, page: Page) returns (t: Sys)
    requires Runs(s, id, name, kinds, limit, Yielding(page, [])) && page.changes != []
    requires InStore(s.store.db, page.position) && page.position.epoch != 0
    requires name in s.store.cursors ==> s.store.cursors[name].kinds == Normalize(kinds) && s.store.cursors[name].revision <= s.store.db.clock
    ensures t == Replay(s, [OpenCommit(id), StoreCommit(id)])
    ensures t.store.db == s.store.db && t.consumed == s.consumed && Runs(t, id, name, kinds, limit, Committed(page))
    ensures name in t.store.cursors && t.store.cursors[name].revision <= s.store.db.clock
    ensures t.store.cursors[name].kinds == Normalize(kinds) && t.store.cursors[name].revision >= page.position.revision
  {
    ThreeSteps(s, OpenCommit(id), StoreCommit(id), Crash(id));
    var s1 := Step(s, OpenCommit(id));
    assert s1.runs[id].phase.Committing? && s1.runs[id].phase.o.kinds == Normalize(kinds);
    t := Step(s1, StoreCommit(id));
  }

  /** A write that stamps some other record of `c`'s kind. */
  function Beside(db: Db, c: Change): Write {
    var k := c.key.(record := c.key.record + "*");
    Put(k, c.session, if Holds(db, k, RowSession(k, c.session), Upsert([])) then ["x"] else [])
  }

  lemma BesideStamps(db: Db, r: nat)
    requires Wf(db) && r in db.log
    ensures var next := Apply(db, Beside(db, db.log[r]));
            && Wf(next) && Evolves(db, next) && next.clock == db.clock + 1 && r in next.log && next.log[r] == db.log[r]
            && next.clock in next.log && next.log[next.clock].key.kind == db.log[r].key.kind
  {
    var c := db.log[r];
    WriteEvolves(db, Beside(db, c));
    assert NamesOwner(c);
    var k := c.key.(record := c.key.record + "*");
    assert |k.record| == |c.key.record| + 1;
    if Holds(db, k, RowSession(k, c.session), Upsert([])) {
      var s :| s in db.log && db.log[s] == Change(k, s, RowSession(k, c.session), Upsert([]));
      assert !Holds(db, k, RowSession(k, c.session), Upsert(["x"]));
    }
  }

  /** A run that waits past a record its consumer never took commits its cursor over it. */
  lemma PassesForGood(s: Sys, id: nat, name: string, kinds: Option<seq<Kind>>, limit: nat, from: Watermark, r: nat) returns (es: seq<Event>)
    requires Wf(s.store.db) && Runs(s, id, name, kinds, limit, Waiting(from)) && 1 <= limit && from.epoch == s.store.db.epoch
    requires name in s.store.cursors ==> s.store.cursors[name].kinds == Normalize(kinds) && s.store.cursors[name].revision <= s.store.db.clock
    requires r in s.store.db.log && r <= from.revision <= s.store.db.clock
    requires s.store.db.log[r].key.kind in Normalize(kinds) && s.store.db.log[r] !in ConsumedBy(s, name)
    ensures AllCovered(s, es) && !Delivered(Replay(s, es))
  {
    hide Normalize; hide AllCovered;
    var w := Beside(s.store.db, s.store.db.log[r]);
    BesideStamps(s.store.db, r);
    var s1 := Step(s, Writes(w));
    var past, t := MovesPast(s1, id, name, kinds, limit, from);
    es := [Writes(w)] + past;
    assert es[1..] == past;
    NoStartIsCovered(s, es);
    Uncovered(t, name, r);
  }

  /** Reading one page, consuming it and committing it. */
  lemma MovesPast(s: Sys, id: nat, name: string, kinds: Option<seq<Kind>>, limit: nat, from: Watermark)
    returns (es: seq<Event>, t: Sys)
    requires Wf(s.store.db) && Runs(s, id, name, kinds, limit, Waiting(from)) && 1 <= limit
    requires from.epoch == s.store.db.epoch && from.revision < s.store.db.clock && s.store.db.clock in s.store.db.log
    requires s.store.db.log[s.store.db.clock].key.kind in Normalize(kinds)
    requires name in s.store.cursors ==> s.store.cursors[name].kinds == Normalize(kinds) && s.store.cursors[name].revision <= s.store.db.clock
    ensures t == Replay(s, es) && (forall e | e in es :: !e.Start?) && t.store.db == s.store.db
    ensures name in t.store.cursors && t.store.cursors[name].kinds == Normalize(kinds) && t.store.cursors[name].revision >= from.revision
    ensures forall c | c in ConsumedBy(t, name) :: c in ConsumedBy(s, name) || c.revision > from.revision
  {
    hide Normalize; hide Step; hide Replay;
    var s2, page := ReadsAPage(s, id, name, kinds, limit, from);
    var taking, s3 := ConsumesAPage(s2, id, name, kinds, limit, page, page.changes);
    t := CommitsAPage(s3, id, name, kinds, limit, page);
    var reading, committing := [OpenPage(id), FillPage(id), SettlePage(id)], [OpenCommit(id), StoreCommit(id)];
    es := reading + (taking + committing);
    ReplayAppend(s, reading, taking + committing);
    ReplayAppend(s2, taking, committing);
  }

  lemma Uncovered(t: Sys, name: string, r: nat)
    requires name in t.store.cursors && r in t.store.db.log && r <= t.store.cursors[name].revision
    requires t.store.db.log[r].key.kind in t.store.cursors[name].kinds && t.store.db.log[r] !in ConsumedBy(t, name)
    ensures !Delivered(t)
  {
  }

  /**
   Starting a committing run at a watermark of this store is safe, whatever happens later, exactly when its consumer has
   consumed everything it selects at or below that watermark. The name's cursor, if there is one, counts the same kinds:
   otherwise no commit of the run is ever taken.
   */
  lemma SafeStartIff(s: Sys, e: Event)
    requires Inv(s) && e.Start? && e.id !in s.runs && 1 <= e.limit && e.session == None
    requires e.from.epoch == s.store.db.epoch && e.from.revision <= s.store.db.clock
    requires e.name in s.store.cursors ==> s.store.cursors[e.name].kinds == Normalize(e.kinds)
    ensures Covered(s.store.db, ConsumedBy(s, e.name), Normalize(e.kinds), e.from.revision) <==>
              forall es | AllCovered(Step(s, e), es) :: Delivered(Replay(Step(s, e), es))
  {
    var started := Step(s, e);
    if Covered(s.store.db, ConsumedBy(s, e.name), Normalize(e.kinds), e.from.revision) {
      StepKeeps(s, e);
      forall es | AllCovered(started, es) ensures Delivered(Replay(started, es)) {
        AtLeastOnce(started, es);
      }
    } else {
      var r :| r in s.store.db.log && r <= e.from.revision && s.store.db.log[r].key.kind in Normalize(e.kinds)
        && s.store.db.log[r] !in ConsumedBy(s, e.name);
      var es := PassesStarted(s, e, r);
    }
  }

  lemma Begins(s: Sys, e: Event)
    requires e.Start? && e.id !in s.runs && 1 <= e.limit && e.session == None
    ensures var t := Step(s, e); t.store == s.store && t.consumed == s.consumed && Runs(t, e.id, e.name, e.kinds, e.limit, Waiting(e.from))
  {
  }

  lemma PassesStarted(s: Sys, e: Event, r: nat) returns (es: seq<Event>)
    requires Inv(s) && e.Start? && e.id !in s.runs && 1 <= e.limit && e.session == None
    requires e.from.epoch == s.store.db.epoch && e.from.revision <= s.store.db.clock
    requires e.name in s.store.cursors ==> s.store.cursors[e.name].kinds == Normalize(e.kinds)
    requires r in s.store.db.log && r <= e.from.revision && s.store.db.log[r].key.kind in Normalize(e.kinds)
    requires s.store.db.log[r] !in ConsumedBy(s, e.name)
    ensures AllCovered(Step(s, e), es) && !Delivered(Replay(Step(s, e), es))
  {
    assert e.name in s.store.cursors ==> CursorInv(s, e.name, s.store.cursors[e.name]);
    Begins(s, e);
    hide Step; hide Normalize; hide AllCovered; hide Delivered;
    es := PassesForGood(Step(s, e), e.id, e.name, e.kinds, e.limit, e.from, r);
  }
}
