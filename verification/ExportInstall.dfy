/** Installing a SQLite export over a database that may have sidecars, with a failure possible at every step. */
module ExportInstall {
  type Path = string

  /** What a file holds; the staged export is the only fresh content. */
  datatype Content = Old(bytes: seq<bv8>) | Fresh(bytes: seq<bv8>)

  type Files = map<Path, Content>

  datatype Io = Done | NotFound | Failed

  const SIDECARS: nat := 3

  function Suffix(i: nat): string {
    if i == 0 then "-wal" else if i == 1 then "-shm" else "-journal"
  }

  function Sidecar(db: Path, suffix: string): Path {
    db + suffix
  }

  function Side(db: Path, i: nat): Path {
    Sidecar(db, Suffix(i))
  }

  /** The private name a sidecar is parked under. */
  function Aside(db: Path, pid: string, i: nat): Path {
    Sidecar(db, Suffix(i) + ".ai-hist-" + pid + ".replaced")
  }

  lemma SidesApart(db: Path, pid: string, i: nat, j: nat)
    requires i < SIDECARS && j < SIDECARS
    ensures i != j ==> Side(db, i) != Side(db, j) && Aside(db, pid, i) != Aside(db, pid, j)
    ensures Side(db, i) != Aside(db, pid, j) && Side(db, i) != db && Aside(db, pid, i) != db
  {
    var s, t := Side(db, i), Side(db, j);
    var a, b := Aside(db, pid, i), Aside(db, pid, j);
    assert |s| == |db| + |Suffix(i)| && |t| == |db| + |Suffix(j)|;
    assert |a| == |db| + |Suffix(i)| + 9 + |pid| + 9 && |b| == |db| + |Suffix(j)| + 9 + |pid| + 9;
    assert s[|db| + 1] == Suffix(i)[1] && t[|db| + 1] == Suffix(j)[1] && a[|db| + 1] == Suffix(i)[1] && b[|db| + 1] == Suffix(j)[1];
  }

  // ----- what a state of the disk is worth

  ghost predicate Installed(db: Path, s: Files) {
    db in s && s[db].Fresh?
  }

  ghost predicate At(files: Files, p: Path, was: Files, q: Path)
    requires q in was
  {
    p in files && files[p] == was[q]
  }

  /** The new database has no sidecar beside it, and until it is there every old sidecar is somewhere. */
  ghost predicate Safe(db: Path, pid: string, before: Files, s: Files) {
    && (Installed(db, s) ==> forall i | 0 <= i < SIDECARS :: Side(db, i) !in s)
    && (!Installed(db, s) ==>
          && (db in before ==> At(s, db, before, db))
          && forall i | 0 <= i < SIDECARS && Side(db, i) in before :: At(s, Side(db, i), before, Side(db, i)) || At(s, Aside(db, pid, i), before, Side(db, i)))
  }

  /** The same, told by the names of SQLite's three sidecars. */
  ghost predicate Intact(db: Path, pid: string, before: Files, s: Files) {
    && (Installed(db, s) ==> db + "-wal" !in s && db + "-shm" !in s && db + "-journal" !in s)
    && (!Installed(db, s) ==>
          && (db in before ==> At(s, db, before, db))
          && (db + "-wal" in before ==> Somewhere(db, pid, before, s, "-wal"))
          && (db + "-shm" in before ==> Somewhere(db, pid, before, s, "-shm"))
          && (db + "-journal" in before ==> Somewhere(db, pid, before, s, "-journal")))
  }

  /** The sidecar is under its own name or its private one, as it was. */
  ghost predicate Somewhere(db: Path, pid: string, before: Files, s: Files, suffix: string)
    requires db + suffix in before
  {
    At(s, db + suffix, before, db + suffix) || At(s, db + suffix + ".ai-hist-" + pid + ".replaced", before, db + suffix)
  }

  /** The parked names are free, and the database is not the export. */
  ghost predicate Untouched(db: Path, pid: string, files: Files) {
    (forall i | 0 <= i < SIDECARS :: Aside(db, pid, i) !in files) && (db in files ==> files[db].Old?)
  }

  lemma SafeIsIntact(db: Path, pid: string, before: Files, s: Files)
    requires Safe(db, pid, before, s)
    ensures Intact(db, pid, before, s)
  {
    NamesOf(db, pid);
    hide Side;
    hide Aside;
  }

  lemma NamesOf(db: Path, pid: string)
    ensures SIDECARS == 3 && Side(db, 0) == db + "-wal" && Side(db, 1) == db + "-shm" && Side(db, 2) == db + "-journal"
    ensures Aside(db, pid, 0) == db + "-wal" + ".ai-hist-" + pid + ".replaced" && Aside(db, pid, 1) == db + "-shm" + ".ai-hist-" + pid + ".replaced"
    ensures Aside(db, pid, 2) == db + "-journal" + ".ai-hist-" + pid + ".replaced"
  {
    Associates(db, "-wal", pid);
    Associates(db, "-shm", pid);
    Associates(db, "-journal", pid);
  }

  lemma Associates(db: Path, suffix: string, pid: string)
    ensures db + (suffix + ".ai-hist-" + pid + ".replaced") == db + suffix + ".ai-hist-" + pid + ".replaced"
  {
  }

  /** The install may start: the export is staged apart. */
  ghost predicate Ready(db: Path, pid: string, staged: Path, files: Files) {
    && Untouched(db, pid, files)
    && staged in files && files[staged].Fresh? && staged != db
    && (forall i | 0 <= i < SIDECARS :: staged != Side(db, i) && staged != Aside(db, pid, i))
  }

  /** One sidecar and its parked name: moved aside, or both as before. */
  ghost predicate Place(db: Path, pid: string, before: Files, s: Files, i: nat, parked: bool) {
    if parked then
      Side(db, i) in before && Side(db, i) !in s && At(s, Aside(db, pid, i), before, Side(db, i))
    else
      && Aside(db, pid, i) !in s && (Side(db, i) in s <==> Side(db, i) in before)
      && (Side(db, i) in before ==> At(s, Side(db, i), before, Side(db, i)))
  }

  ghost predicate OthersSame(db: Path, pid: string, before: Files, s: Files) {
    forall p | !IsSidecar(db, pid, p) :: (p in s <==> p in before) && (p in before ==> At(s, p, before, p))
  }

  /** As before, but for the sidecars in `out`, which are parked. */
  ghost predicate Parked(db: Path, pid: string, before: Files, s: Files, out: set<nat>) {
    (forall i | 0 <= i < SIDECARS :: Place(db, pid, before, s, i, i in out)) && OthersSame(db, pid, before, s)
  }

  ghost predicate IsSidecar(db: Path, pid: string, p: Path) {
    exists i: nat :: i < SIDECARS && (p == Side(db, i) || p == Aside(db, pid, i))
  }

  lemma NotSidecar(db: Path, pid: string, p: Path)
    requires forall i: nat | i < SIDECARS :: p != Side(db, i) && p != Aside(db, pid, i)
    ensures !IsSidecar(db, pid, p)
  {
  }

  lemma DatabaseIsNoSidecar(db: Path, pid: string)
    ensures !IsSidecar(db, pid, db)
  {
    forall i: nat | i < SIDECARS ensures db != Side(db, i) && db != Aside(db, pid, i) {
      SidesApart(db, pid, i, i);
    }
  }

  lemma ParkedIsSafe(db: Path, pid: string, before: Files, s: Files, out: set<nat>)
    requires Untouched(db, pid, before) && Parked(db, pid, before, s, out)
    ensures Safe(db, pid, before, s) && !Installed(db, s)
  {
    DatabaseIsNoSidecar(db, pid);
    forall i | 0 <= i < SIDECARS && Side(db, i) in before
      ensures At(s, Side(db, i), before, Side(db, i)) || At(s, Aside(db, pid, i), before, Side(db, i)) {
      assert Place(db, pid, before, s, i, i in out);
    }
  }

  lemma NothingParked(db: Path, pid: string, before: Files, s: Files, out: set<nat>)
    requires Untouched(db, pid, before) && Parked(db, pid, before, s, out) && forall i | i in out :: i >= SIDECARS
    ensures s == before
  {
    forall p ensures (p in s <==> p in before) && (p in before ==> p in s && s[p] == before[p]) {
      if IsSidecar(db, pid, p) {
        var i: nat :| i < SIDECARS && (p == Side(db, i) || p == Aside(db, pid, i));
        assert Place(db, pid, before, s, i, i in out);
      }
    }
  }

  function Moved(s: Files, from: Path, to: Path): Files
    requires from in s
  {
    (s - {from})[to := s[from]]
  }

  lemma MoveElsewhere(db: Path, pid: string, before: Files, s: Files, i: nat, j: nat, parked: bool, from: Path, to: Path)
    requires i < SIDECARS && j < SIDECARS && i != j && from in s && Place(db, pid, before, s, j, parked)
    requires (from == Side(db, i) && to == Aside(db, pid, i)) || (from == Aside(db, pid, i) && to == Side(db, i))
    ensures Place(db, pid, before, Moved(s, from, to), j, parked)
  {
    SidesApart(db, pid, i, j);
    SidesApart(db, pid, j, i);
    hide Side;
    hide Aside;
  }

  lemma MoveOthers(db: Path, pid: string, before: Files, s: Files, from: Path, to: Path)
    requires from in s && IsSidecar(db, pid, from) && IsSidecar(db, pid, to) && OthersSame(db, pid, before, s)
    ensures OthersSame(db, pid, before, Moved(s, from, to))
  {
    hide IsSidecar;
  }

  lemma ParkOne(db: Path, pid: string, before: Files, s: Files, out: set<nat>, i: nat)
    requires Untouched(db, pid, before) && Parked(db, pid, before, s, out) && i < SIDECARS && i !in out && Side(db, i) in s
    ensures Parked(db, pid, before, Moved(s, Side(db, i), Aside(db, pid, i)), out + {i})
  {
    SidesApart(db, pid, i, i);
    hide Side;
    hide Aside;
    var from, to := Side(db, i), Aside(db, pid, i);
    forall j | 0 <= j < SIDECARS ensures Place(db, pid, before, Moved(s, from, to), j, j in out + {i}) {
      assert Place(db, pid, before, s, j, j in out);
      if j != i {
        MoveElsewhere(db, pid, before, s, i, j, j in out, from, to);
      }
    }
    MoveOthers(db, pid, before, s, from, to);
  }

  lemma RestoreOne(db: Path, pid: string, before: Files, s: Files, out: set<nat>, i: nat)
    requires Untouched(db, pid, before) && Parked(db, pid, before, s, out) && i < SIDECARS && i in out
    ensures Aside(db, pid, i) in s && Parked(db, pid, before, Moved(s, Aside(db, pid, i), Side(db, i)), out - {i})
  {
    SidesApart(db, pid, i, i);
    hide Side;
    hide Aside;
    var from, to := Aside(db, pid, i), Side(db, i);
    assert Place(db, pid, before, s, i, true);
    forall j | 0 <= j < SIDECARS ensures Place(db, pid, before, Moved(s, from, to), j, j in out - {i}) {
      assert Place(db, pid, before, s, j, j in out);
      if j != i {
        MoveElsewhere(db, pid, before, s, i, j, j in out, from, to);
      }
    }
    MoveOthers(db, pid, before, s, from, to);
  }

  // ----- the file system

  /** Files, and which of the operations to come will fail. Every state a disk passes through is remembered. */
  class Disk {
    var files: Files
    var step: nat
    const fails: nat -> bool
    ghost var states: seq<Files>

    constructor (files: Files, fails: nat -> bool)
      ensures this.files == files && this.fails == fails && step == 0 && states == []
    {
      this.files, this.fails, step, states := files, fails, 0, [];
    }

    method Rename(from: Path, to: Path) returns (r: Io)
      modifies this
      ensures step == old(step) + 1 && states == old(states) + [files]
      ensures r.Failed? <==> fails(old(step))
      ensures r.NotFound? <==> !fails(old(step)) && from !in old(files)
      ensures files == if r.Done? then Moved(old(files), from, to) else old(files)
    {
      if fails(step) {
        r := Failed;
      } else if from !in files {
        r := NotFound;
      } else {
        r, files := Done, (files - {from})[to := files[from]];
      }
      step, states := step + 1, states + [files];
    }

    method Remove(path: Path) returns (r: Io)
      modifies this
      ensures step == old(step) + 1 && states == old(states) + [files]
      ensures r.Failed? <==> fails(old(step))
      ensures files == if fails(old(step)) then old(files) else old(files) - {path}
    {
      r := if fails(step) then Failed else if path in files then Done else NotFound;
      if !fails(step) {
        files := files - {path};
      }
      step, states := step + 1, states + [files];
    }
  }

  /** From the disk's `from`-th remembered state on, every state is safe. */
  ghost predicate AllSafe(db: Path, pid: string, before: Files, states: seq<Files>, from: nat) {
    forall k | from <= k < |states| :: Safe(db, pid, before, states[k])
  }

  lemma AllIntact(db: Path, pid: string, before: Files, states: seq<Files>, from: nat)
    requires AllSafe(db, pid, before, states, from)
    ensures forall k | from <= k < |states| :: Intact(db, pid, before, states[k])
  {
    hide Safe;
    hide Intact;
    forall k | from <= k < |states| ensures Intact(db, pid, before, states[k]) {
      SafeIsIntact(db, pid, before, states[k]);
    }
  }

  /** The sidecars numbered by `order`, rising, each beside its parked name. */
  ghost predicate Lists(db: Path, pid: string, parked: seq<(Path, Path)>, order: seq<nat>) {
    && |parked| == |order|
    && (forall k | 0 <= k < |order| :: order[k] < SIDECARS && parked[k] == (Side(db, order[k]), Aside(db, pid, order[k])))
    && forall j, k | 0 <= j < k < |order| :: order[j] < order[k]
  }

  ghost function Elements(order: seq<nat>): set<nat> {
    set i | i in order
  }

  /** Park one sidecar, if it is there. */
  method Park(disk: Disk, db: Path, pid: string, i: nat, ghost before: Files, ghost out: set<nat>) returns (r: Io)
    requires Untouched(db, pid, before) && Parked(db, pid, before, disk.files, out) && i < SIDECARS && i !in out
    modifies disk
    ensures Parked(db, pid, before, disk.files, if r.Done? then out + {i} else out)
    ensures disk.step == old(disk.step) + 1 && disk.states == old(disk.states) + [disk.files] && Safe(db, pid, before, disk.files)
    ensures (r.Failed? <==> disk.fails(old(disk.step))) && (r.NotFound? ==> Side(db, i) !in before)
  {
    if Side(db, i) in disk.files {
      ParkOne(db, pid, before, disk.files, out, i);
    }
    assert Place(db, pid, before, disk.files, i, i in out);
    r := disk.Rename(Side(db, i), Aside(db, pid, i));
    ParkedIsSafe(db, pid, before, disk.files, if r.Done? then out + {i} else out);
  }

  /** Move one parked sidecar back. */
  method MoveBack(disk: Disk, ghost db: Path, ghost pid: string, pair: (Path, Path), ghost i: nat, ghost before: Files, ghost out: set<nat>)
    requires Untouched(db, pid, before) && Parked(db, pid, before, disk.files, out) && i < SIDECARS && i in out
    requires pair == (Side(db, i), Aside(db, pid, i))
    modifies disk
    ensures Parked(db, pid, before, disk.files, if disk.fails(old(disk.step)) then out else out - {i})
    ensures disk.step == old(disk.step) + 1 && disk.states == old(disk.states) + [disk.files] && Safe(db, pid, before, disk.files)
  {
    RestoreOne(db, pid, before, disk.files, out, i);
    var r := disk.Rename(pair.1, pair.0);
    ParkedIsSafe(db, pid, before, disk.files, if disk.fails(old(disk.step)) then out else out - {i});
  }

  ghost predicate NoneFail(disk: Disk, from: nat, to: nat)
  {
    forall k | from <= k < to :: !disk.fails(k)
  }

  /** Move parked sidecars back; a failure is only reported. When none fails, the disk is as it was. */
  method RestoreParkedSidecars(disk: Disk, ghost db: Path, ghost pid: string, parked: seq<(Path, Path)>,
                               ghost order: seq<nat>, ghost before: Files)
    requires Untouched(db, pid, before) && Lists(db, pid, parked, order) && Parked(db, pid, before, disk.files, Elements(order))
    modifies disk
    ensures exists left: set<nat> :: Parked(db, pid, before, disk.files, left)
    ensures |old(disk.states)| <= |disk.states| && disk.states[..|old(disk.states)|] == old(disk.states)
    ensures AllSafe(db, pid, before, disk.states, |old(disk.states)|)
    ensures disk.step == old(disk.step) + |parked|
    ensures NoneFail(disk, old(disk.step), disk.step) ==> disk.files == before
  {
    hide Parked;
    hide Safe;
    hide Side;
    hide Aside;
    ghost var left := Elements(order);
    for k := 0 to |parked|
      invariant Parked(db, pid, before, disk.files, left) && disk.step == old(disk.step) + k
      invariant forall m | k <= m < |order| :: order[m] in left
      invariant NoneFail(disk, old(disk.step), disk.step) ==> forall i | i in left :: exists m :: k <= m < |order| && order[m] == i
      invariant |old(disk.states)| <= |disk.states| && disk.states[..|old(disk.states)|] == old(disk.states)
      invariant AllSafe(db, pid, before, disk.states, |old(disk.states)|)
    {
      ghost var failing := disk.fails(disk.step);
      MoveBack(disk, db, pid, parked[k], order[k], before, left);
      left := if failing then left else left - {order[k]};
    }
    if NoneFail(disk, old(disk.step), disk.step) {
      NothingParked(db, pid, before, disk.files, left);
    }
  }

  // ----- the install

  /** Every old sidecar is out of the way. */
  ghost predicate AllOut(db: Path, before: Files, out: set<nat>, n: nat) {
    forall i | 0 <= i < n :: i in out || Side(db, i) !in before
  }

  /** The export is the database, nothing is beside it, and everything else is as before but the parked names. */
  ghost predicate Replaced(db: Path, pid: string, staged: Path, before: Files, s: Files) {
    && staged in before && At(s, db, before, staged) && staged !in s
    && (forall i | 0 <= i < SIDECARS :: Side(db, i) !in s)
    && forall p | p != db && p != staged && !IsSidecar(db, pid, p) :: (p in s <==> p in before) && (p in before ==> At(s, p, before, p))
  }

  lemma StagedIsNoSidecar(db: Path, pid: string, staged: Path, before: Files)
    requires Ready(db, pid, staged, before)
    ensures !IsSidecar(db, pid, staged)
  {
    NotSidecar(db, pid, staged);
  }

  lemma ReplacedNow(db: Path, pid: string, staged: Path, before: Files, s: Files, out: set<nat>)
    requires Ready(db, pid, staged, before) && Parked(db, pid, before, s, out) && AllOut(db, before, out, SIDECARS)
    ensures staged in s && Replaced(db, pid, staged, before, Moved(s, staged, db))
  {
    StagedIsNoSidecar(db, pid, staged, before);
    DatabaseIsNoSidecar(db, pid);
    forall i | 0 <= i < SIDECARS ensures Side(db, i) !in Moved(s, staged, db) {
      assert Place(db, pid, before, s, i, i in out);
      SidesApart(db, pid, i, i);
    }
  }

  lemma ReplacedIsSafe(db: Path, pid: string, staged: Path, before: Files, s: Files)
    requires Ready(db, pid, staged, before) && Replaced(db, pid, staged, before, s)
    ensures Safe(db, pid, before, s) && Installed(db, s)
  {
  }

  lemma DiscardKeeps(db: Path, pid: string, staged: Path, before: Files, s: Files, i: nat)
    requires Ready(db, pid, staged, before) && Replaced(db, pid, staged, before, s) && i < SIDECARS
    ensures Replaced(db, pid, staged, before, s - {Aside(db, pid, i)})
  {
    SidesApart(db, pid, i, i);
    assert IsSidecar(db, pid, Aside(db, pid, i));
    hide IsSidecar;
  }

  /** Throw the parked sidecars away; no database can pair with one that stays. */
  method Discard(disk: Disk, ghost db: Path, ghost pid: string, ghost staged: Path, parked: seq<(Path, Path)>, ghost order: seq<nat>, ghost before: Files)
    requires Ready(db, pid, staged, before) && Lists(db, pid, parked, order) && Replaced(db, pid, staged, before, disk.files)
    modifies disk
    ensures Replaced(db, pid, staged, before, disk.files)
    ensures |old(disk.states)| <= |disk.states| && disk.states[..|old(disk.states)|] == old(disk.states)
    ensures AllSafe(db, pid, before, disk.states, |old(disk.states)|)
    ensures NoneFail(disk, old(disk.step), disk.step) ==> forall k | 0 <= k < |order| :: parked[k].1 !in disk.files
    ensures forall p | p !in old(disk.files) :: p !in disk.files
    ensures disk.step >= old(disk.step)
  {
    hide Replaced;
    hide Safe;
    hide Side;
    hide Aside;
    for k := 0 to |parked|
      invariant Replaced(db, pid, staged, before, disk.files) && disk.step >= old(disk.step)
      invariant |old(disk.states)| <= |disk.states| && disk.states[..|old(disk.states)|] == old(disk.states)
      invariant AllSafe(db, pid, before, disk.states, |old(disk.states)|)
      invariant NoneFail(disk, old(disk.step), disk.step) ==> forall m | 0 <= m < k :: parked[m].1 !in disk.files
      invariant forall p | p !in old(disk.files) :: p !in disk.files
    {
      DiscardKeeps(db, pid, staged, before, disk.files, order[k]);
      var r := disk.Remove(parked[k].1);
      ReplacedIsSafe(db, pid, staged, before, disk.files);
    }
  }

  lemma SafeOnceDropped(db: Path, pid: string, staged: Path, before: Files, s: Files)
    requires Ready(db, pid, staged, before) && Safe(db, pid, before, s) && !Installed(db, s)
    ensures Safe(db, pid, before, s - {staged})
  {
    hide Side;
    hide Aside;
  }

  /** Dropping the staged file on the way out of a failed install. */
  method DropStaged(disk: Disk, ghost db: Path, ghost pid: string, staged: Path, ghost before: Files)
    requires Ready(db, pid, staged, before) && exists out: set<nat> :: Parked(db, pid, before, disk.files, out)
    modifies disk
    ensures disk.step == old(disk.step) + 1 && disk.states == old(disk.states) + [disk.files] && Safe(db, pid, before, disk.files)
    ensures disk.files == if disk.fails(old(disk.step)) then old(disk.files) else old(disk.files) - {staged}
  {
    hide Safe;
    hide Parked;
    ghost var out: set<nat> :| Parked(db, pid, before, disk.files, out);
    ParkedIsSafe(db, pid, before, disk.files, out);
    SafeOnceDropped(db, pid, staged, before, disk.files);
    var r := disk.Remove(staged);
  }

  lemma WithoutStaged(db: Path, pid: string, staged: Path, before: Files, s: Files, out: set<nat>)
    requires Ready(db, pid, staged, before)
    ensures Untouched(db, pid, before - {staged})
    ensures Parked(db, pid, before, s, out) ==> Parked(db, pid, before - {staged}, s - {staged}, out)
  {
    StagedIsNoSidecar(db, pid, staged, before);
    hide IsSidecar;
    hide Side;
    hide Aside;
    if Parked(db, pid, before, s, out) {
      forall i | 0 <= i < SIDECARS ensures Place(db, pid, before - {staged}, s - {staged}, i, i in out) {
        assert Place(db, pid, before, s, i, i in out);
      }
    }
  }

  lemma SafeWithoutStaged(db: Path, pid: string, staged: Path, before: Files, t: Files)
    requires Ready(db, pid, staged, before) && Safe(db, pid, before - {staged}, t)
    ensures Safe(db, pid, before, t)
  {
    hide Side;
    hide Aside;
  }

  /** Undo an install that could not park every sidecar: those parked go back, and the staged file is dropped last. */
  method UndoParking(disk: Disk, ghost db: Path, ghost pid: string, staged: Path, parked: seq<(Path, Path)>, ghost order: seq<nat>, ghost before: Files)
    requires Ready(db, pid, staged, before) && Lists(db, pid, parked, order) && Parked(db, pid, before, disk.files, Elements(order))
    modifies disk
    ensures |old(disk.states)| <= |disk.states| && disk.states[..|old(disk.states)|] == old(disk.states)
    ensures AllSafe(db, pid, before, disk.states, |old(disk.states)|)
    ensures disk.step >= old(disk.step)
    ensures NoneFail(disk, old(disk.step), disk.step) ==> disk.files == before - {staged}
  {
    hide Safe;
    hide Parked;
    RestoreParkedSidecars(disk, db, pid, parked, order, before);
    DropStaged(disk, db, pid, staged, before);
  }

  /** Undo an install whose last rename failed: persisting has consumed the staged file, so it is dropped first. */
  method UndoReplacing(disk: Disk, ghost db: Path, ghost pid: string, staged: Path, parked: seq<(Path, Path)>, ghost order: seq<nat>, ghost before: Files)
    requires Ready(db, pid, staged, before) && Lists(db, pid, parked, order) && Parked(db, pid, before, disk.files, Elements(order))
    modifies disk
    ensures |old(disk.states)| <= |disk.states| && disk.states[..|old(disk.states)|] == old(disk.states)
    ensures AllSafe(db, pid, before, disk.states, |old(disk.states)|)
    ensures disk.step >= old(disk.step)
    ensures NoneFail(disk, old(disk.step), disk.step) ==> disk.files == before - {staged}
  {
    hide Safe;
    hide Parked;
    ghost var kept := disk.fails(disk.step);
    WithoutStaged(db, pid, staged, before, disk.files, Elements(order));
    DropStaged(disk, db, pid, staged, before);
    ghost var now := if kept then before else before - {staged};
    RestoreParkedSidecars(disk, db, pid, parked, order, now);
    forall k | |old(disk.states)| < k < |disk.states| ensures Safe(db, pid, before, disk.states[k]) {
      if !kept {
        SafeWithoutStaged(db, pid, staged, before, disk.states[k]);
      }
    }
  }

  /** The first `n` sidecars are parked, those that were there. */
  ghost predicate ParkedTo(db: Path, pid: string, before: Files, s: Files, parked: seq<(Path, Path)>, order: seq<nat>, n: nat) {
    && Parked(db, pid, before, s, Elements(order)) && Lists(db, pid, parked, order) && (forall k | 0 <= k < |order| :: order[k] < n)
    && AllOut(db, before, Elements(order), n)
  }

  lemma ParkedNext(db: Path, pid: string, before: Files, s: Files, t: Files, parked: seq<(Path, Path)>, order: seq<nat>, n: nat)
    requires ParkedTo(db, pid, before, s, parked, order, n) && n < SIDECARS
    ensures n !in Elements(order)
    ensures Parked(db, pid, before, t, Elements(order) + {n}) ==>
              ParkedTo(db, pid, before, t, parked + [(Side(db, n), Aside(db, pid, n))], order + [n], n + 1)
    ensures Parked(db, pid, before, t, Elements(order)) && Side(db, n) !in before ==> ParkedTo(db, pid, before, t, parked, order, n + 1)
  {
    hide Side;
    hide Aside;
    hide Parked;
    ElementsSnoc(order, n);
  }

  /** Move every sidecar aside, or stop at the first failure. */
  method ParkAll(disk: Disk, db: Path, pid: string, ghost staged: Path) returns (ok: bool, parked: seq<(Path, Path)>, ghost order: seq<nat>)
    requires Ready(db, pid, staged, disk.files)
    modifies disk
    ensures |old(disk.states)| < |disk.states| && disk.states[..|old(disk.states)|] == old(disk.states)
    ensures AllSafe(db, pid, old(disk.files), disk.states, |old(disk.states)|)
    ensures Lists(db, pid, parked, order) && Parked(db, pid, old(disk.files), disk.files, Elements(order))
    ensures ok ==> AllOut(db, old(disk.files), Elements(order), SIDECARS) && disk.step == old(disk.step) + SIDECARS && NoneFail(disk, old(disk.step), disk.step)
    ensures !ok ==> old(disk.step) < disk.step <= old(disk.step) + SIDECARS && disk.fails(disk.step - 1)
  {
    hide Safe;
    hide Side;
    hide Aside;
    hide Parked;
    ghost var before := disk.files;
    parked, order := [], [];
    StartsUnparked(db, pid, staged, before);
    for i := 0 to SIDECARS
      invariant ParkedTo(db, pid, before, disk.files, parked, order, i)
      invariant disk.step == old(disk.step) + i && NoneFail(disk, old(disk.step), disk.step)
      invariant |disk.states| == |old(disk.states)| + i && disk.states[..|old(disk.states)|] == old(disk.states)
      invariant AllSafe(db, pid, before, disk.states, |old(disk.states)|)
    {
      ghost var s := disk.files;
      ParkedNext(db, pid, before, s, s, parked, order, i);
      var r := Park(disk, db, pid, i, before, Elements(order));
      ParkedNext(db, pid, before, s, disk.files, parked, order, i);
      if r.Failed? {
        return false, parked, order;
      }
      if r.Done? {
        parked, order := parked + [(Side(db, i), Aside(db, pid, i))], order + [i];
      }
    }
    return true, parked, order;
  }

  /**
   Rename the staged export over the database. In every state on the way the new database has no old sidecar beside it and, until
   it is there, every old sidecar is kept. The install succeeds exactly when parking and replacing meet no failure; if it does
   not, and nothing fails after `broke`, the disk is as it was.
   */
  method InstallSqliteExport(disk: Disk, db: Path, pid: string, staged: Path) returns (ok: bool, ghost broke: nat)
    requires Ready(db, pid, staged, disk.files)
    modifies disk
    ensures |old(disk.states)| < |disk.states| && disk.states[..|old(disk.states)|] == old(disk.states)
    ensures forall k | |old(disk.states)| <= k < |disk.states| :: Intact(db, pid, old(disk.files), disk.states[k])
    ensures ok <==> NoneFail(disk, old(disk.step), old(disk.step) + SIDECARS + 1)
    ensures ok ==> Replaced(db, pid, staged, old(disk.files), disk.files)
    ensures !ok ==> old(disk.step) <= broke < disk.step && disk.fails(broke)
    ensures !ok && NoneFail(disk, broke + 1, disk.step) ==> disk.files == old(disk.files) - {staged}
  {
    hide Safe;
    hide Intact;
    hide Parked;
    hide Lists;
    hide Replaced;
    ghost var before := disk.files;
    var parked;
    ghost var order;
    ok, parked, order := ParkAll(disk, db, pid, staged);
    if !ok {
      broke := disk.step - 1;
      UndoParking(disk, db, pid, staged, parked, order, before);
      AllIntact(db, pid, before, disk.states, |old(disk.states)|);
      return;
    }
    ReplacedNow(db, pid, staged, before, disk.files, Elements(order));
    ParkedIsSafe(db, pid, before, disk.files, Elements(order));
    broke := disk.step;
    var r := disk.Rename(staged, db);
    if r.Done? {
      ReplacedIsSafe(db, pid, staged, before, disk.files);
      Discard(disk, db, pid, staged, parked, order, before);
    } else {
      ok := false;
      UndoReplacing(disk, db, pid, staged, parked, order, before);
    }
    AllIntact(db, pid, before, disk.states, |old(disk.states)|);
  }

  lemma StartsUnparked(db: Path, pid: string, staged: Path, before: Files)
    requires Ready(db, pid, staged, before)
    ensures Parked(db, pid, before, before, {}) && Elements([]) == {}
  {
  }

  lemma ElementsSnoc(order: seq<nat>, i: nat)
    ensures Elements(order + [i]) == Elements(order) + {i}
  {
  }
}
