/** Runs of one consumer: what the next one is handed, and that a run left alone gets through. */
module FeedProgress {
  import opened Wrappers
  import opened Ordering
  import opened FeedStore
  import opened FeedDrain
  import opened ChangeFeed
  import opened FeedMirror
  import opened FeedRuns

  // ----- nothing at or below a committed cursor is handed out again

  /** Everything the run was handed since it began, and everything it will start from, is past `c`. */
  ghost predicate Past(phase: Phase, c: nat) {
    match phase
    case Waiting(from) => from == CONSUMER || from.revision >= c
    case Opening(o) => o.start.revision >= c
    case Reading(o, changes) => LastOf(o.start, changes).revision >= c && forall x | x in changes :: x.revision > c
    case Yielding(page, left) => page.position.revision >= c && (forall x | x in page.changes :: x.revision > c) && forall x | x in left :: x in page.changes
    case Committing(page, _) => page.position.revision >= c
    case Committed(page) => page.position.revision >= c
    case Over => true
  }

  /** The run belongs to `name`, whose cursor has reached `c`, and is past `c` itself. */
  ghost predicate RunIsPast(s: Sys, id: nat, name: string, c: nat) {
    && id in s.runs && s.runs[id].name == name && Past(s.runs[id].phase, c)
    && name in s.store.cursors && s.store.cursors[name].revision >= c
  }

  lemma OpenStaysPast(s: Store, from: Watermark, q: Query, name: string, c: nat)
    requires q.consumer == Some(name) && name in s.cursors && s.cursors[name].revision >= c && Open(s, from, q).Ok?
    requires from == CONSUMER || from.revision >= c
    ensures Open(s, from, q).value.start.revision >= c
  {
  }

  lemma FillStaysPast(db: Db, o: Opened, limit: nat, c: nat)
    requires Wf(db) && 1 <= limit && o.start.revision <= o.head.revision && o.start.revision >= c
    ensures Past(Reading(o, FirstOwed(db, o, limit)), c)
  {
    var owed := Pending(db, Whole(o.kinds, o.session), o.start.revision, o.head.revision);
    PageRange(db, o, limit, owed);
    hide Pending;
  }

  lemma SettleStaysPast(db: Db, o: Opened, changes: seq<Change>, c: nat)
    requires Past(Reading(o, changes), c) && LastOf(o.start, changes).revision <= o.head.revision
    ensures Past(Yielding(PageOf(db, o, changes), PageOf(db, o, changes).changes), c)
  {
    hide Pending;
  }

  lemma OwnStepStaysPast(s: Sys, e: Event, id: nat, name: string, c: nat)
    requires Inv(s) && RunIsPast(s, id, name, c) && !e.Writes? && e.id == id
    ensures id in Step(s, e).runs && Step(s, e).runs[id].name == name && Past(Step(s, e).runs[id].phase, c)
  {
    hide Open; hide FirstOwed; hide PageOf; hide CommitOpen; hide CommitCursor; hide Apply; hide Normalize; hide Pending; hide Inv;
    match e {
      case OpenPage(_) => ReadStaysPast(s, e, id, name, c);
      case FillPage(_) => ReadStaysPast(s, e, id, name, c);
      case SettlePage(_) => ReadStaysPast(s, e, id, name, c);
      case StoreCommit(_) => CommitStaysPast(s, id, name, c);
      case OpenCommit(_) => CommitOpens(s, id, name, c);
      case _ =>
    }
  }

  lemma CommitOpens(s: Sys, id: nat, name: string, c: nat)
    requires RunIsPast(s, id, name, c)
    ensures var t := Step(s, OpenCommit(id)); id in t.runs && t.runs[id].name == name && Past(t.runs[id].phase, c)
  {
    hide CommitOpen;
  }

  lemma CommitStaysPast(s: Sys, id: nat, name: string, c: nat)
    requires RunIsPast(s, id, name, c)
    ensures var t := Step(s, StoreCommit(id)); id in t.runs && t.runs[id].name == name && Past(t.runs[id].phase, c)
  {
    hide CommitCursor;
  }

  lemma ReadStaysPast(s: Sys, e: Event, id: nat, name: string, c: nat)
    requires Inv(s) && RunIsPast(s, id, name, c) && (e == OpenPage(id) || e == FillPage(id) || e == SettlePage(id))
    ensures id in Step(s, e).runs && Step(s, e).runs[id].name == name && Past(Step(s, e).runs[id].phase, c)
  {
    hide Open; hide FirstOwed; hide PageOf; hide CommitOpen; hide CommitCursor; hide Apply; hide Normalize; hide Pending;
    var run := s.runs[id];
    assert RunInv(s, run);
    hide Inv;
    if e.OpenPage? && run.phase.Waiting? && Open(s.store, run.phase.from, run.query).Ok? {
      OpenStaysPast(s.store, run.phase.from, run.query, name, c);
    } else if e.FillPage? && run.phase.Opening? {
      FillStaysPast(s.store.db, run.phase.o, run.limit, c);
    } else if e.SettlePage? && run.phase.Reading? {
      SettleStaysPast(s.store.db, run.phase.o, run.phase.changes, c);
    }
  }

  lemma StepStaysPast(s: Sys, e: Event, id: nat, name: string, c: nat)
    requires Inv(s) && StartsCovered(s, e) && RunIsPast(s, id, name, c)
    ensures Inv(Step(s, e)) && RunIsPast(Step(s, e), id, name, c)
  {
    StepKeeps(s, e);
    if !e.Writes? && e.id == id {
      OwnStepStaysPast(s, e, id, name, c);
    } else {
      RunStays(s, e, id);
    }
    hide Step; hide Inv; hide Past;
  }

  lemma RunStays(s: Sys, e: Event, id: nat)
    requires id in s.runs && (e.Writes? || e.id != id)
    ensures id in Step(s, e).runs && Step(s, e).runs[id] == s.runs[id]
  {
    hide Open; hide FirstOwed; hide PageOf; hide CommitOpen; hide CommitCursor; hide Apply; hide Normalize; hide Pending;
  }

  /**
   A run that resumes at its consumer's cursor is never handed a change that cursor had passed, whatever else happens: other runs,
   writes, crashes and commits in between.
   */
  lemma {:induction false} NeverHandedAgain(s: Sys, es: seq<Event>, id: nat, name: string, c: nat)
    requires Inv(s) && AllCovered(s, es) && RunIsPast(s, id, name, c)
    ensures RunIsPast(Replay(s, es), id, name, c)
    decreases |es|
  {
    hide Inv; hide RunIsPast; hide Step; hide StartsCovered;
    if es != [] {
      StepStaysPast(s, es[0], id, name, c);
      NeverHandedAgain(Step(s, es[0]), es[1..], id, name, c);
    }
  }

  /** So a consumer's next run, resumed at the cursor its last one committed, goes on behind it. */
  lemma NextRunGoesOn(s: Sys, e: Event, es: seq<Event>)
    requires Inv(s) && e.Start? && e.from == CONSUMER && e.id !in s.runs && 1 <= e.limit && e.name in s.store.cursors
    requires AllCovered(Step(s, e), es)
    ensures var t := Replay(Step(s, e), es);
            e.id in t.runs && (t.runs[e.id].phase.Yielding? ==>
              forall x | x in t.runs[e.id].phase.page.changes :: x.revision > s.store.cursors[e.name].revision)
  {
    StepKeeps(s, e);
    assert RunIsPast(Step(s, e), e.id, e.name, s.store.cursors[e.name].revision);
    NeverHandedAgain(Step(s, e), es, e.id, e.name, s.store.cursors[e.name].revision);
    hide Replay; hide Step; hide Inv; hide AllCovered;
  }

  // ----- a run left alone gets through

  /** The run's own steps, none of them a crash. */
  predicate Own(es: seq<Event>, id: nat) {
    forall e | e in es :: !e.Writes? && !e.Start? && !e.Crash? && e.id == id
  }

  lemma ReadsPage(s: Sys, id: nat, name: string, kinds: Option<seq<Kind>>, limit: nat, from: Watermark, o: Opened) returns (t: Sys, page: Page)
    requires Runs(s, id, name, kinds, limit, Waiting(from)) && Open(s.store, from, s.runs[id].query) == Ok(o)
    ensures t == Replay(s, [OpenPage(id), FillPage(id), SettlePage(id)])
    ensures t.store == s.store && t.consumed == s.consumed && Runs(t, id, name, kinds, limit, Yielding(page, page.changes))
    ensures page == PageOf(s.store.db, o, FirstOwed(s.store.db, o, limit))
  {
    hide PageOf; hide FirstOwed; hide Normalize; hide Open;
    page := PageOf(s.store.db, o, FirstOwed(s.store.db, o, limit));
    ThreeSteps(s, OpenPage(id), FillPage(id), SettlePage(id));
    var s1 := Step(s, OpenPage(id));
    assert s1.runs[id].phase == Opening(o);
    var s2 := Step(s1, FillPage(id));
    assert s2.runs[id].phase == Reading(o, FirstOwed(s.store.db, o, limit));
    t := Step(s2, SettlePage(id));
  }

  lemma GoesOn(s: Sys, id: nat, name: string, kinds: Option<seq<Kind>>, limit: nat, page: Page) returns (t: Sys)
    requires Runs(s, id, name, kinds, limit, Committed(page)) || (Runs(s, id, name, kinds, limit, Yielding(page, [])) && page.changes == [])
    ensures t == Replay(s, [NextPage(id)]) && t.store == s.store && t.consumed == s.consumed
    ensures Runs(t, id, name, kinds, limit, if page.done then Over else Waiting(page.position))
  {
    t := Step(s, NextPage(id));
    assert Replay(t, []) == t && [NextPage(id)][1..] == [];
  }

  /** One page read, consumed and committed, and the run waiting for the next or over. */
  lemma TakesAPage(s: Sys, id: nat, name: string, kinds: Option<seq<Kind>>, limit: nat, from: Watermark, o: Opened)
    returns (es: seq<Event>, page: Page, t: Sys)
    requires Runs(s, id, name, kinds, limit, Waiting(from)) && Open(s.store, from, s.runs[id].query) == Ok(o)
    requires s.store.db.epoch != 0 && Counts(s.store, name, kinds)
    requires name in s.store.cursors ==> s.store.cursors[name].revision <= s.store.db.clock
    requires var p := PageOf(s.store.db, o, FirstOwed(s.store.db, o, limit)); InStore(s.store.db, p.position) && (p.changes == [] ==> p.done)
    ensures page == PageOf(s.store.db, o, FirstOwed(s.store.db, o, limit))
    ensures t == Replay(s, es) && Own(es, id) && t.store.db == s.store.db && Counts(t.store, name, kinds)
    ensures Runs(t, id, name, kinds, limit, if page.done then Over else Waiting(page.position))
    ensures forall c :: c in ConsumedBy(t, name) <==> c in ConsumedBy(s, name) || c in page.changes
    ensures name in t.store.cursors ==> t.store.cursors[name].revision <= s.store.db.clock
    ensures page.changes != [] ==> name in t.store.cursors && t.store.cursors[name].revision >= page.position.revision
    ensures page.changes == [] ==> t.store == s.store
  {
    hide PageOf; hide FirstOwed; hide Open; hide Normalize; hide Step; hide Replay; hide Own;
    var s1, s2, s3, taking;
    s1, page := ReadsPage(s, id, name, kinds, limit, from, o);
    taking, s2 := ConsumesAPage(s1, id, name, kinds, limit, page, page.changes);
    var committing: seq<Event> := [];
    s3 := s2;
    assert Replay(s2, []) == s2 by { ReplayNothing(s2); }
    if page.changes != [] {
      s3 := CommitsAPage(s2, id, name, kinds, limit, page);
      committing := [OpenCommit(id), StoreCommit(id)];
    }
    t := GoesOn(s3, id, name, kinds, limit, page);
    assert ConsumedBy(t, name) == ConsumedBy(s2, name) && ConsumedBy(s1, name) == ConsumedBy(s, name);
    var reading := [OpenPage(id), FillPage(id), SettlePage(id)];
    es := reading + (taking + (committing + [NextPage(id)]));
    ReplayParts(s, reading, taking, committing, [NextPage(id)]);
    OwnParts(reading, taking, committing, id);
  }

  lemma ReplayParts(s: Sys, a: seq<Event>, b: seq<Event>, c: seq<Event>, d: seq<Event>)
    ensures Replay(s, a + (b + (c + d))) == Replay(Replay(Replay(Replay(s, a), b), c), d)
  {
    hide Step;
    ReplayAppend(s, a, b + (c + d));
    ReplayAppend(Replay(s, a), b, c + d);
    ReplayAppend(Replay(Replay(s, a), b), c, d);
  }

  lemma OwnParts(a: seq<Event>, b: seq<Event>, c: seq<Event>, id: nat)
    requires a == [OpenPage(id), FillPage(id), SettlePage(id)] && (forall e | e in b :: e == Consume(id))
    requires c == [] || c == [OpenCommit(id), StoreCommit(id)]
    ensures Own(a + (b + (c + [NextPage(id)])), id)
  {
  }

  lemma ReplayNothing(s: Sys)
    ensures Replay(s, []) == s
  {
  }

  /** `name` has consumed `owed` besides what it had, and its cursor has reached the head if that was anything. */
  ghost predicate Through(s: Sys, t: Sys, name: string, owed: seq<Change>) {
    && t.store.db == s.store.db
    && (forall c :: c in ConsumedBy(t, name) <==> c in ConsumedBy(s, name) || c in owed)
    && (owed != [] ==> name in t.store.cursors && t.store.cursors[name].revision == s.store.db.clock)
    && (owed == [] ==> t.store == s.store)
  }

  lemma ThroughTheRest(s: Sys, next: Sys, t: Sys, name: string, changes: seq<Change>, left: seq<Change>)
    requires Through(next, t, name, left) && left != [] && next.store.db == s.store.db
    requires forall c :: c in ConsumedBy(next, name) <==> c in ConsumedBy(s, name) || c in changes
    ensures Through(s, t, name, changes + left)
  {
  }

  lemma ThroughAtOnce(s: Sys, t: Sys, name: string, changes: seq<Change>)
    requires t.store.db == s.store.db && (forall c :: c in ConsumedBy(t, name) <==> c in ConsumedBy(s, name) || c in changes)
    requires changes != [] ==> name in t.store.cursors && s.store.db.clock <= t.store.cursors[name].revision <= s.store.db.clock
    requires changes == [] ==> t.store == s.store
    ensures Through(s, t, name, changes)
  {
  }

  /**
   A run that nothing disturbs ends: it has consumed everything its kinds select after its start, and its cursor is at the head.
   */
  lemma {:induction false} RunGetsThrough(s: Sys, id: nat, name: string, kinds: Option<seq<Kind>>, limit: nat, from: Watermark, o: Opened)
    returns (es: seq<Event>, t: Sys)
    requires Wf(s.store.db) && Runs(s, id, name, kinds, limit, Waiting(from)) && 1 <= limit && Open(s.store, from, s.runs[id].query) == Ok(o)
    requires s.store.db.epoch != 0 && Counts(s.store, name, kinds)
    requires name in s.store.cursors ==> s.store.cursors[name].revision <= s.store.db.clock
    ensures t == Replay(s, es) && Own(es, id) && Runs(t, id, name, kinds, limit, Over)
    ensures Through(s, t, name, Pending(s.store.db, Whole(Normalize(kinds), None), o.start.revision, s.store.db.clock))
    decreases s.store.db.clock - o.start.revision
  {
    var owed, left := QuietSplit(s.store.db, o, limit);
    assert o.kinds == Normalize(kinds) && o.session == None;
    hide Pending; hide PageOf; hide FirstOwed; hide Replay; hide Step; hide Normalize; hide Open; hide Own;
    var taken, page, next := TakesAPage(s, id, name, kinds, limit, from, o);
    hide Through;
    if page.done {
      es, t := taken, next;
      ThroughAtOnce(s, t, name, page.changes);
      assert page.changes + left == page.changes;
    } else {
      assert Runs(next, id, name, kinds, limit, Waiting(page.position)) && next.store.db == s.store.db;
      var o' := OpensNext(next, id, name, kinds, limit, page.position);
      assert left == Pending(next.store.db, Whole(Normalize(kinds), None), o'.start.revision, next.store.db.clock);
      var rest;
      rest, t := RunGetsThrough(next, id, name, kinds, limit, page.position, o');
      es := taken + rest;
      hide Runs; hide Counts; hide Wf;
      ReplayAppend(s, taken, rest);
      OwnBoth(taken, rest, id);
      ThroughTheRest(s, next, t, name, page.changes, left);
    }
  }

  lemma OwnBoth(a: seq<Event>, b: seq<Event>, id: nat)
    requires Own(a, id) && Own(b, id)
    ensures Own(a + b, id)
  {
  }

  lemma QuietSplit(db: Db, o: Opened, limit: nat) returns (owed: seq<Change>, left: seq<Change>)
    requires Wf(db) && 1 <= limit && o.head == Head(db) && o.start.revision <= db.clock && o.start.epoch == db.epoch
    ensures var page := PageOf(db, o, FirstOwed(db, o, limit));
            && owed == Pending(db, Whole(o.kinds, o.session), o.start.revision, db.clock) && owed == page.changes + left
            && InStore(db, page.position) && (page.changes == [] ==> page.done && left == [])
            && (page.done ==> left == [] && page.position == Head(db))
            && (!page.done ==> left != [] && left == Pending(db, Whole(o.kinds, o.session), page.position.revision, db.clock)
                               && o.start.revision < page.position.revision)
  {
    QuietPage(db, o, limit);
    PageAdvances(db, o, limit);
    hide Pending; hide FirstOwed; hide PageOf; hide Wf;
    owed := Pending(db, Whole(o.kinds, o.session), o.start.revision, db.clock);
    left := if |owed| <= limit then [] else owed[limit..];
    if |owed| > limit { SplitSequence(owed, limit); }
  }

  lemma SplitSequence(s: seq<Change>, n: nat)
    requires n <= |s|
    ensures s == s[..n] + s[n..]
  {
  }

  lemma PageAdvances(db: Db, o: Opened, limit: nat)
    requires Wf(db) && 1 <= limit && o.head == Head(db) && o.start.revision <= db.clock && o.start.epoch == db.epoch
    ensures var page := PageOf(db, o, FirstOwed(db, o, limit));
            !page.done && page.changes != [] ==> o.start.revision < page.position.revision
  {
    var owed := Pending(db, Whole(o.kinds, o.session), o.start.revision, db.clock);
    PageRange(db, o, limit, owed);
    hide Pending;
    var changes := Take(owed, limit);
    if changes != [] {
      assert changes[|changes| - 1] in changes;
    }
  }

  lemma OpensNext(s: Sys, id: nat, name: string, kinds: Option<seq<Kind>>, limit: nat, from: Watermark) returns (o: Opened)
    requires Runs(s, id, name, kinds, limit, Waiting(from)) && InStore(s.store.db, from) && s.store.db.epoch != 0
    ensures Open(s.store, from, s.runs[id].query) == Ok(o) && o.start == from
    ensures o.kinds == Normalize(kinds) && o.session == None && o.head == Head(s.store.db)
  {
    o := Open(s.store, from, s.runs[id].query).value;
  }
}
