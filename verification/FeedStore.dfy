/**
 The change feed's store, as its revision indexes hold it: one stamped change per record identity, its
 row or its tombstone. Writes follow the stamping triggers; reads follow the two SQL shapes the drain
 issues, a revision-only page and a row page.
 */
module FeedStore {
  import opened Wrappers
  import opened Ordering

  datatype Kind =
    | Session | SessionEvent | ToolCall | FileEdit | SessionMarker | Relationship
    | History | Presence | CommitLink | SourceObservation | ObservationEvidence

  const ALL_KINDS: seq<Kind> :=
    [Session, SessionEvent, ToolCall, FileEdit, SessionMarker, Relationship,
     History, Presence, CommitLink, SourceObservation, ObservationEvidence]

  datatype SessionId = SessionId(source: string, session: string)

  /** A record's identity, whatever is done to it. `owner` is empty for a prompt: its session is no part of it. */
  datatype RecordKey = RecordKey(kind: Kind, source: string, owner: string, record: string)

  datatype Op = Upsert(columns: seq<string>) | Delete

  /** `session` is the session the change names. */
  datatype Change = Change(key: RecordKey, revision: nat, session: string, op: Op)

  datatype Db = Db(epoch: nat, clock: nat, log: map<nat, Change>)

  datatype Watermark = Watermark(revision: nat, epoch: nat)

  /** Only a prompt's identity leaves its session out. */
  predicate Identifies(k: RecordKey) {
    k.kind.History? ==> k.owner == ""
  }

  /** A change names the session its identity holds; a prompt's row names whatever session it has, its tombstone none. */
  predicate NamesOwner(c: Change) {
    Identifies(c.key) && ((c.key.kind.History? && c.op.Upsert?) || c.session == c.key.owner)
  }

  /** Revisions are unique per write and at most the head; a record has one change, and it names its owner. */
  ghost predicate Wf(db: Db) {
    && db.epoch != 0
    && (forall r | r in db.log :: NamesOwner(db.log[r]))
    && (forall r | r in db.log :: 0 < r <= db.clock && db.log[r].revision == r)
    && (forall r, s | r in db.log && s in db.log && db.log[r].key == db.log[s].key :: r == s)
  }

  function Head(db: Db): Watermark {
    Watermark(db.clock, db.epoch)
  }

  // ----- writes

  /** A row is written or removed, or a session row is stamped again because of its presence rows. */
  datatype Write =
    | Put(key: RecordKey, session: string, columns: seq<string>)
    | Remove(key: RecordKey)
    | Restamp(key: RecordKey)

  /** The change `db` holds for `k`. */
  predicate Holds(db: Db, k: RecordKey, session: string, op: Op) {
    exists r | r in db.log :: db.log[r] == Change(k, r, session, op)
  }

  function Stamp(db: Db, k: RecordKey, session: string, op: Op): Db {
    var kept := map r | r in db.log && db.log[r].key != k :: db.log[r];
    db.(clock := db.clock + 1, log := kept[db.clock + 1 := Change(k, db.clock + 1, session, op)])
  }

  function Live(db: Db, k: RecordKey): set<nat> {
    set r | r in db.log && db.log[r].key == k && db.log[r].op.Upsert?
  }

  /** The session a row of that identity names: its own column is the identity's, but for a prompt. */
  function RowSession(k: RecordKey, session: string): string {
    if k.kind.History? then session else k.owner
  }

  /** A rewrite with the values already held takes no revision; a tombstone names its identity's owner. */
  function Apply(db: Db, w: Write): Db {
    match w
    case Put(k, session, columns) =>
      var named := RowSession(k, session);
      if !Identifies(k) || Holds(db, k, named, Upsert(columns)) then db else Stamp(db, k, named, Upsert(columns))
    case Remove(k) =>
      if Live(db, k) == {} then db else Stamp(db, k, k.owner, Delete)
    case Restamp(k) =>
      if Live(db, k) == {} then db.(clock := db.clock + 1) else
        var c := db.log[Least(Live(db, k))];
        Stamp(db, k, c.session, c.op)
  }

  function ApplyAll(db: Db, ws: seq<Write>): Db
    decreases |ws|
  {
    if ws == [] then db else ApplyAll(Apply(db, ws[0]), ws[1..])
  }

  ghost predicate HoldsKey(db: Db, k: RecordKey) {
    exists r | r in db.log :: db.log[r].key == k
  }

  /** `b` is a later state of `a`: what `b` holds is `a`'s own or stamped above `a`'s head, and no record vanishes. */
  ghost predicate Evolves(a: Db, b: Db) {
    && a.epoch == b.epoch
    && a.clock <= b.clock
    && (forall r | r in b.log && r <= a.clock :: r in a.log && a.log[r] == b.log[r])
    && (forall k | HoldsKey(a, k) :: HoldsKey(b, k))
  }

  lemma EvolvesTransitive(a: Db, b: Db, c: Db)
    requires Evolves(a, b) && Evolves(b, c)
    ensures Evolves(a, c)
  {
  }

  lemma StampEvolves(db: Db, k: RecordKey, session: string, op: Op)
    requires Wf(db) && forall r :: NamesOwner(Change(k, r, session, op))
    ensures Wf(Stamp(db, k, session, op)) && Evolves(db, Stamp(db, k, session, op))
  {
    var next := Stamp(db, k, session, op);
    forall l | HoldsKey(db, l) ensures HoldsKey(next, l) {
      var r :| r in db.log && db.log[r].key == l;
      var s := if l == k then db.clock + 1 else r;
      assert s in next.log && next.log[s].key == l;
    }
  }

  lemma WriteEvolves(db: Db, w: Write)
    requires Wf(db)
    ensures Wf(Apply(db, w)) && Evolves(db, Apply(db, w))
  {
    match w
    case Put(k, session, columns) =>
      if Identifies(k) { StampEvolves(db, k, RowSession(k, session), Upsert(columns)); }
    case Remove(k) =>
      if Live(db, k) != {} {
        var c := db.log[Least(Live(db, k))];
        assert NamesOwner(c);
        StampEvolves(db, k, k.owner, Delete);
      }
    case Restamp(k) =>
      if Live(db, k) != {} {
        var c := db.log[Least(Live(db, k))];
        assert NamesOwner(c);
        StampEvolves(db, k, c.session, c.op);
      }
  }

  /** Everything stored for other records is as it was. */
  ghost predicate OthersStay(a: Db, b: Db, k: RecordKey) {
    && (forall r | r in a.log && a.log[r].key != k :: r in b.log && b.log[r] == a.log[r])
    && (forall r | r in b.log && b.log[r].key != k :: r in a.log && a.log[r] == b.log[r])
  }

  /** What `k` was last is now stamped with the revision after the old head. */
  ghost predicate StampedAs(a: Db, b: Db, k: RecordKey, session: string, op: Op) {
    b.clock == a.clock + 1 && b.clock in b.log && b.log[b.clock] == Change(k, b.clock, session, op)
  }

  /**
   A write shows under the next revision, and only if it changes something: a row as written, a removed row as a tombstone that
   names a prompt by no session, a re-stamped row as it stands. Other records are left alone.
   */
  lemma WriteShows(db: Db, w: Write)
    requires Wf(db)
    ensures var next := Apply(db, w);
            && OthersStay(db, next, w.key)
            && (w.Put? && Identifies(w.key) ==>
                  var session := if w.key.kind.History? then w.session else w.key.owner;
                  if Holds(db, w.key, session, Upsert(w.columns)) then next == db
                  else StampedAs(db, next, w.key, session, Upsert(w.columns)))
            && (w.Remove? ==> if Live(db, w.key) == {} then next == db else StampedAs(db, next, w.key, w.key.owner, Delete) && Live(next, w.key) == {})
            && (w.Restamp? && Live(db, w.key) != {} ==>
                  exists r :: r in Live(db, w.key) && StampedAs(db, next, w.key, db.log[r].session, db.log[r].op))
  {
    hide Stamp; hide StampedAs; hide OthersStay; hide Live; hide Holds; hide Wf;
    match w
    case Put(k, session, columns) => StampShows(db, k, RowSession(k, session), Upsert(columns));
    case Remove(k) => StampShows(db, k, k.owner, Delete);
    case Restamp(k) =>
      NothingMoved(db, k);
      if Live(db, k) != {} {
        var r := Least(Live(db, k));
        LiveIsStored(db, k, r);
        StampShows(db, k, db.log[r].session, db.log[r].op);
      }
  }

  lemma StampShows(db: Db, k: RecordKey, session: string, op: Op)
    requires Wf(db)
    ensures StampedAs(db, Stamp(db, k, session, op), k, session, op) && OthersStay(db, Stamp(db, k, session, op), k) && OthersStay(db, db, k)
    ensures op.Delete? ==> Live(Stamp(db, k, session, op), k) == {}
  {
  }

  lemma NothingMoved(db: Db, k: RecordKey)
    ensures OthersStay(db, db.(clock := db.clock + 1), k)
  {
  }

  lemma LiveIsStored(db: Db, k: RecordKey, r: nat)
    requires r in Live(db, k)
    ensures r in db.log
  {
  }

  /** Any run of writes leaves revisions unique, below the head, and only moves what it writes. */
  lemma {:induction false} WritesEvolve(db: Db, ws: seq<Write>)
    requires Wf(db)
    ensures Wf(ApplyAll(db, ws)) && Evolves(db, ApplyAll(db, ws))
    decreases |ws|
  {
    if ws != [] {
      WriteEvolves(db, ws[0]);
      var mid := Apply(db, ws[0]);
      WritesEvolve(mid, ws[1..]);
      EvolvesTransitive(db, mid, ApplyAll(mid, ws[1..]));
    }
  }

  // ----- reads

  datatype Form = AnyForm | Upserts | Tombstones

  /** The changes a read reports: a kind set, one session or all of them, rows or tombstones or both. */
  datatype Filter = Filter(kinds: set<Kind>, session: Option<SessionId>, form: Form)

  predicate Selects(f: Filter, c: Change) {
    && c.key.kind in f.kinds
    && (f.session.Some? ==> f.session.value == SessionId(c.key.source, c.session))
    && (f.form.Upserts? ==> c.op.Upsert?)
    && (f.form.Tombstones? ==> c.op.Delete?)
  }

  predicate Due(db: Db, f: Filter, lo: nat, hi: nat, r: nat) {
    r in db.log && Selects(f, db.log[r]) && lo < r <= hi
  }

  /** The revisions of the changes `f` selects in `(lo, hi]`. */
  function DueSet(db: Db, f: Filter, lo: nat, hi: nat): (s: set<nat>)
    ensures forall r :: r in s <==> Due(db, f, lo, hi, r)
  {
    set r | r in db.log && Due(db, f, lo, hi, r)
  }

  function DueOrder(db: Db, f: Filter, lo: nat, hi: nat): (rs: seq<nat>)
    ensures Ascending(rs) && ToSet(rs) == DueSet(db, f, lo, hi) && |rs| == |DueSet(db, f, lo, hi)|
    ensures forall i | 0 <= i < |rs| :: Due(db, f, lo, hi, rs[i])
  {
    var rs := SortSet(DueSet(db, f, lo, hi));
    assert forall i | 0 <= i < |rs| :: rs[i] in ToSet(rs);
    rs
  }

  /** Every change `f` selects in `(lo, hi]`, oldest first: what a drain owes its reader. */
  function Pending(db: Db, f: Filter, lo: nat, hi: nat): (p: seq<Change>)
    ensures |p| == |DueOrder(db, f, lo, hi)| == |DueSet(db, f, lo, hi)|
    ensures forall i | 0 <= i < |p| :: p[i] == db.log[DueOrder(db, f, lo, hi)[i]]
  {
    var rs := DueOrder(db, f, lo, hi);
    seq(|rs|, i requires 0 <= i < |rs| => db.log[rs[i]])
  }

  /** Oldest first, one change a revision. */
  ghost predicate Ordered(s: seq<Change>) {
    forall i, j :: 0 <= i < j < |s| ==> s[i].revision < s[j].revision
  }

  ghost predicate Reports(db: Db, c: Change) {
    c.revision in db.log && db.log[c.revision] == c
  }

  /** `p` is what `db` owes a reader of `f` over `(lo, hi]`, oldest first. */
  ghost predicate Owes(db: Db, f: Filter, lo: nat, hi: nat, p: seq<Change>) {
    && Ordered(p)
    && forall c: Change :: c in p <==> Reports(db, c) && Due(db, f, lo, hi, c.revision)
  }

  lemma PendingMeaning(db: Db, f: Filter, lo: nat, hi: nat)
    requires Wf(db)
    ensures Owes(db, f, lo, hi, Pending(db, f, lo, hi))
  {
    var p := Pending(db, f, lo, hi);
    var rs := DueOrder(db, f, lo, hi);
    forall c: Change | Reports(db, c) && Due(db, f, lo, hi, c.revision) ensures c in p {
      assert c.revision in ToSet(rs);
      var i :| 0 <= i < |rs| && rs[i] == c.revision;
      assert p[i] == c;
    }
  }
}
