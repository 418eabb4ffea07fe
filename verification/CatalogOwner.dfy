/** Several transcripts can claim one session id: which of them the catalog row belongs to. */
module CatalogOwner {
  import opened Wrappers

  datatype Location = Local | Remote

  datatype Key = Key(source: string, id: string)

  /** What a transcript says about itself: the columns a sibling's read must leave alone, and two that always move. */
  datatype Meta = Meta(
    rawPath: Option<string>, firstPrompt: Option<string>, title: Option<string>, models: seq<string>,
    agentVersion: Option<string>, stamp: Option<string>, assistantText: Option<string>,
    cwd: Option<string>, lastActivity: Option<int>)

  datatype Window = Expand | Replace

  /** A bounded read of a transcript, or a full ingest of one, which is always local. */
  datatype Read =
    | Shallow(key: Key, meta: Meta, location: Location)
    | Full(key: Key, rawPath: Option<string>, assistantText: Option<string>, cwd: Option<string>, lastActivity: int, window: Window)

  /** A catalog row. `full` also stands for a state older databases leave null; `models` is null when none is known. */
  datatype Row = Row(
    rawPath: Option<string>, firstPrompt: Option<string>, title: Option<string>, models: Option<seq<string>>,
    agentVersion: Option<string>, stamp: Option<string>, assistantText: Option<string>,
    cwd: Option<string>, lastActivity: Option<int>, full: bool, local: bool, remote: bool)

  type Rows = map<Key, Row>

  /** The paths one sweep started from. */
  datatype Cache = Cache(conn: int, source: string, paths: map<string, Option<string>>, rollouts: map<string, Option<string>>)

  /** What the file system and Codex's databases say at one moment. */
  datatype World = World(present: string -> bool, sqliteHeader: string -> bool, ownsRollout: (string, string) -> bool)

  // ----- who owns a row

  function NonEmpty(path: Option<string>): Option<string> {
    if path == Some("") then None else path
  }

  /** The innermost cache of that connection and source. */
  function Innermost(caches: seq<Cache>, conn: int, source: string): Option<Cache> {
    if caches == [] then None
    else if caches[|caches| - 1].conn == conn && caches[|caches| - 1].source == source then Some(caches[|caches| - 1])
    else Innermost(caches[..|caches| - 1], conn, source)
  }

  function Stored(rows: Rows, key: Key): Option<string> {
    if key in rows then NonEmpty(rows[key].rawPath) else None
  }

  function RawPath(rows: Rows, caches: seq<Cache>, conn: int, key: Key): Option<string> {
    var cache := Innermost(caches, conn, key.source);
    if cache.Some? && key.id in cache.value.paths then cache.value.paths[key.id] else Stored(rows, key)
  }

  predicate Projection(path: string) {
    |path| >= 7 && path[..7] == "sqlite:"
  }

  predicate SharedStore(w: World, source: string, path: string) {
    (source == "opencode" || source == "devin") && w.sqliteHeader(path)
  }

  /** A read of `incoming` has to leave the row alone: some other transcript owns it and can still be read. */
  predicate MustNotReplace(w: World, rows: Rows, caches: seq<Cache>, conn: int, key: Key, incoming: Option<string>) {
    var owner := RawPath(rows, caches, conn, key);
    var cache := Innermost(caches, conn, key.source);
    if NonEmpty(incoming).None? || owner.None? then false
    else if owner == incoming || SharedStore(w, key.source, owner.value) then false
    else if key.source == "codex" && Projection(incoming.value) && cache.Some? && key.id in cache.value.rollouts then
      w.present(owner.value) && cache.value.rollouts[key.id] != owner
    else if key.source == "codex" && Projection(incoming.value) && w.ownsRollout(incoming.value, owner.value) then false
    else w.present(owner.value)
  }

  // ----- what a read writes

  function Or<T>(first: Option<T>, second: Option<T>): Option<T> {
    if first.Some? then first else second
  }

  function Later(stored: Option<int>, incoming: Option<int>): Option<int> {
    if incoming.None? then stored else if stored.None? then incoming
    else if stored.value < incoming.value then incoming else stored
  }

  /** What is left of a shallow read once it may not say who the session is. */
  function WithoutForeignIdentity(m: Meta): Meta {
    m.(rawPath := None, firstPrompt := None, title := None, models := [], agentVersion := None, stamp := None, assistantText := None)
  }

  function ModelsOrNone(models: seq<string>): Option<seq<string>> {
    if models == [] then None else Some(models)
  }

  function MergedTitle(source: string, location: Location, row: Row, title: Option<string>): Option<string> {
    if source == "grok-bot" && location.Local? && title.Some? then NonEmpty(title)
    else if row.full then Or(row.title, title) else Or(title, row.title)
  }

  function InsertShallow(source: string, m: Meta, location: Location): Row {
    Row(m.rawPath, m.firstPrompt, if source == "grok-bot" then NonEmpty(m.title) else m.title, ModelsOrNone(m.models),
        m.agentVersion, m.stamp, m.assistantText, m.cwd, m.lastActivity, false, location.Local?, location.Remote?)
  }

  function MergeShallow(source: string, row: Row, m: Meta, location: Location): Row {
    // A row no presence was ever recorded for is a local one from before presences.
    var local := row.local || location.Local? || !row.remote;
    Row(if location.Remote? && local then Or(row.rawPath, m.rawPath) else Or(m.rawPath, row.rawPath),
        Or(m.firstPrompt, row.firstPrompt), MergedTitle(source, location, row, m.title), Or(ModelsOrNone(m.models), row.models),
        Or(m.agentVersion, row.agentVersion), Or(m.stamp, row.stamp), Or(m.assistantText, row.assistantText),
        Or(m.cwd, row.cwd), if source == "grok" then Or(m.lastActivity, row.lastActivity) else Later(row.lastActivity, m.lastActivity),
        row.full, local, row.remote || location.Remote?)
  }

  function InsertFull(r: Read): Row
    requires r.Full?
  {
    Row(r.rawPath, None, None, None, None, None, r.assistantText, r.cwd, Some(r.lastActivity), true, true, false)
  }

  /** A full ingest over a stored row; `keep` when the recorded transcript is another one and still there. */
  function MergeFull(row: Row, r: Read, keep: bool): Row
    requires r.Full?
  {
    row.(rawPath := if keep then row.rawPath else Or(r.rawPath, row.rawPath),
         assistantText := if keep then row.assistantText else if r.window.Expand? then Or(r.assistantText, row.assistantText) else r.assistantText,
         cwd := Or(r.cwd, row.cwd), lastActivity := if r.window.Expand? then Later(row.lastActivity, Some(r.lastActivity)) else Some(r.lastActivity),
         full := true, local := true)
  }

  function Incoming(r: Read): Option<string> {
    if r.Shallow? then r.meta.rawPath else r.rawPath
  }

  predicate IsLocal(r: Read) {
    r.Full? || r.location.Local?
  }

  /** The row a read leaves behind, once it is decided whether the stored identity is kept. */
  function Written(row: Option<Row>, r: Read, keep: bool): Row {
    match r
    case Shallow(key, meta, location) =>
      var m := if keep then WithoutForeignIdentity(meta) else meta;
      if row.None? then InsertShallow(key.source, m, location) else MergeShallow(key.source, row.value, m, location)
    case Full(_, _, _, _, _, _) =>
      if row.None? then InsertFull(r) else MergeFull(row.value, r, keep)
  }

  function Keeps(w: World, rows: Rows, caches: seq<Cache>, conn: int, r: Read): bool {
    IsLocal(r) && MustNotReplace(w, rows, caches, conn, r.key, Incoming(r))
  }

  function Applied(w: World, rows: Rows, caches: seq<Cache>, conn: int, r: Read): Rows {
    rows[r.key := Written(if r.key in rows then Some(rows[r.key]) else None, r, Keeps(w, rows, caches, conn, r))]
  }

  /** A read and the moment it was made. */
  datatype Event = Event(world: World, read: Read)

  function Replay(rows: Rows, caches: seq<Cache>, conn: int, events: seq<Event>): Rows {
    if events == [] then rows
    else
      var last := events[|events| - 1];
      Applied(last.world, Replay(rows, caches, conn, events[..|events| - 1]), caches, conn, last.read)
  }

  /** The snapshot a sweep takes: each session's owner and Codex rollout as the sweep starts. */
  function Snapshot(rows: Rows, conn: int, source: string, sessions: seq<(string, Option<string>)>): Cache {
    Cache(conn, source, Owners(rows, source, sessions), Rollouts(sessions))
  }

  function Owners(rows: Rows, source: string, sessions: seq<(string, Option<string>)>): map<string, Option<string>> {
    map s | s in sessions :: s.0 := Stored(rows, Key(source, s.0))
  }

  function Rollouts(sessions: seq<(string, Option<string>)>): map<string, Option<string>> {
    if sessions == [] then map[]
    else Rollouts(sessions[..|sessions| - 1])[sessions[|sessions| - 1].0 := sessions[|sessions| - 1].1]
  }

  // ----- the catalog

  class Catalog {
    const conn: int
    var rows: Rows
    var caches: seq<Cache>

    constructor (conn: int)
      ensures this.conn == conn && rows == map[] && caches == []
    {
      this.conn := conn;
      rows, caches := map[], [];
    }

    /** Search the cache stack from the top. */
    method FindCache(source: string) returns (cache: Option<Cache>)
      ensures cache == Innermost(caches, conn, source)
    {
      var k := |caches|;
      assert caches[..k] == caches;
      while k > 0
        invariant 0 <= k <= |caches| && Innermost(caches, conn, source) == Innermost(caches[..k], conn, source)
      {
        if caches[k - 1].conn == conn && caches[k - 1].source == source {
          return Some(caches[k - 1]);
        }
        assert caches[..k][..k - 1] == caches[..k - 1];
        k := k - 1;
      }
      return None;
    }

    method CatalogRawPath(key: Key) returns (path: Option<string>)
      ensures path == RawPath(rows, caches, conn, key)
    {
      var cache := FindCache(key.source);
      if cache.Some? && key.id in cache.value.paths {
        return cache.value.paths[key.id];
      }
      return Stored(rows, key);
    }

    method IncomingMustNotReplace(w: World, key: Key, incoming: Option<string>) returns (keep: bool)
      ensures keep == MustNotReplace(w, rows, caches, conn, key, incoming)
    {
      if NonEmpty(incoming).None? {
        return false;
      }
      var owner := CatalogRawPath(key);
      if owner.None? || owner == incoming || SharedStore(w, key.source, owner.value) {
        return false;
      }
      if key.source == "codex" && Projection(incoming.value) {
        var cache := FindCache(key.source);
        if cache.Some? && key.id in cache.value.rollouts {
          return w.present(owner.value) && cache.value.rollouts[key.id] != owner;
        }
        if w.ownsRollout(incoming.value, owner.value) {
          return false;
        }
      }
      return w.present(owner.value);
    }

    /** Write one read into the catalog. */
    method Upsert(w: World, r: Read)
      modifies this`rows
      ensures rows == Applied(w, old(rows), caches, conn, r)
    {
      var keep := false;
      if IsLocal(r) {
        keep := IncomingMustNotReplace(w, r.key, Incoming(r));
      }
      rows := rows[r.key := Written(if r.key in rows then Some(rows[r.key]) else None, r, keep)];
    }

    /**
     Run a sweep under a snapshot of the owners it starts from. `reach` is how many events it gets through before it ends or
     fails; the stack is as before either way.
     */
    method Sweep(source: string, sessions: seq<(string, Option<string>)>, events: seq<Event>, reach: nat)
      requires reach <= |events|
      modifies this
      ensures caches == old(caches)
      ensures rows == Replay(old(rows), old(caches) + [Snapshot(old(rows), conn, source, sessions)], conn, events[..reach])
    {
      ghost var within := caches + [Snapshot(rows, conn, source, sessions)];
      caches := caches + [Snapshot(rows, conn, source, sessions)];
      for k := 0 to reach
        invariant caches == within && rows == Replay(old(rows), within, conn, events[..k])
      {
        assert events[..k + 1][..k] == events[..k];
        Upsert(events[k].world, events[k].read);
      }
      caches := caches[..|caches| - 1];
    }
  }

  // ----- runs of reads, of any sessions

  lemma {:induction false} ReplayAppend(rows: Rows, caches: seq<Cache>, conn: int, a: seq<Event>, b: seq<Event>)
    ensures Replay(rows, caches, conn, a + b) == Replay(Replay(rows, caches, conn, a), caches, conn, b)
    decreases |b|
  {
    if b == [] {
      assert a + b == a;
    } else {
      assert (a + b)[..|a + b| - 1] == a + b[..|b| - 1];
      ReplayAppend(rows, caches, conn, a, b[..|b| - 1]);
    }
  }

  lemma ReplayOne(rows: Rows, caches: seq<Cache>, conn: int, e: Event)
    ensures Replay(rows, caches, conn, [e]) == Applied(e.world, rows, caches, conn, e.read)
  {
    assert Replay(rows, caches, conn, [e][..0]) == rows;
  }

  /** The reads of one session. */
  function On(events: seq<Event>, key: Key): seq<Event> {
    if events == [] then []
    else
      var earlier, last := On(events[..|events| - 1], key), events[|events| - 1];
      if last.read.key == key then earlier + [last] else earlier
  }

  /** Sessions do not interfere: a row is what the reads of its own session make of it. */
  lemma {:induction false} KeyAlone(rows: Rows, caches: seq<Cache>, conn: int, events: seq<Event>, key: Key)
    ensures var all, alone := Replay(rows, caches, conn, events), Replay(rows, caches, conn, On(events, key));
            (key in all <==> key in alone) && (key in all ==> all[key] == alone[key])
    decreases |events|
  {
    if events != [] {
      var before, e := events[..|events| - 1], events[|events| - 1];
      KeyAlone(rows, caches, conn, before, key);
      if e.read.key == key {
        assert On(events, key)[..|On(before, key)|] == On(before, key);
        SameRowSameStep(Replay(rows, caches, conn, before), Replay(rows, caches, conn, On(before, key)), caches, conn, e);
      }
    }
  }

  lemma SameRowSameStep(a: Rows, b: Rows, caches: seq<Cache>, conn: int, e: Event)
    requires (e.read.key in a <==> e.read.key in b) && (e.read.key in a ==> a[e.read.key] == b[e.read.key])
    ensures Applied(e.world, a, caches, conn, e.read)[e.read.key] == Applied(e.world, b, caches, conn, e.read)[e.read.key]
  {
    hide Written;
  }

  // ----- sibling reads are erased

  /** The read names a transcript other than `owner`. */
  predicate Sibling(r: Read, owner: string) {
    IsLocal(r) && NonEmpty(Incoming(r)).Some? && Incoming(r) != Some(owner)
  }

  predicate SiblingOn(r: Read, key: Key, owner: string) {
    r.key == key && Sibling(r, owner)
  }

  /** The run without the reads of the session's other transcripts. */
  function Own(events: seq<Event>, key: Key, owner: string): seq<Event> {
    if events == [] then []
    else
      var earlier, last := Own(events[..|events| - 1], key, owner), events[|events| - 1];
      if SiblingOn(last.read, key, owner) then earlier else earlier + [last]
  }

  /** The columns a sibling read must leave alone, but for the title. */
  ghost predicate SameIdentity(a: Row, b: Row) {
    && a.rawPath == b.rawPath && a.firstPrompt == b.firstPrompt && a.models == b.models && a.agentVersion == b.agentVersion
    && a.stamp == b.stamp && a.assistantText == b.assistantText
  }

  ghost predicate SameTitle(a: Row, b: Row) {
    a.title == b.title && a.full == b.full
  }

  /** `owner` is present, and nothing excuses an incoming transcript from giving way to it. */
  ghost predicate Guarded(e: Event, caches: seq<Cache>, conn: int, owner: string) {
    && e.world.present(owner) && !SharedStore(e.world, e.read.key.source, owner)
    && (e.read.key.source == "codex" && Incoming(e.read).Some? && Projection(Incoming(e.read).value) ==>
          var cache := Innermost(caches, conn, "codex");
          if cache.Some? && e.read.key.id in cache.value.rollouts then cache.value.rollouts[e.read.key.id] != Some(owner)
          else !e.world.ownsRollout(Incoming(e.read).value, owner))
  }

  ghost predicate WatchedRead(e: Event, caches: seq<Cache>, conn: int, owner: string) {
    Incoming(e.read) != Some("") && Guarded(e, caches, conn, owner)
  }

  /** A run in which `key` is read only under its owner's eyes and never with an empty path. Other sessions are read at will. */
  ghost predicate Watched(events: seq<Event>, caches: seq<Cache>, conn: int, key: Key, owner: string) {
    owner != "" && forall e | e in events :: e.read.key == key ==> WatchedRead(e, caches, conn, owner)
  }

  /** The cache stack, if it knows the session at all, knows `owner` as its owner. */
  ghost predicate Agrees(caches: seq<Cache>, conn: int, key: Key, owner: string) {
    var cache := Innermost(caches, conn, key.source);
    cache.Some? && key.id in cache.value.paths ==> cache.value.paths[key.id] == Some(owner)
  }

  /** The session has a local row that names `owner`. */
  ghost predicate Owned(rows: Rows, key: Key, owner: string) {
    key in rows && rows[key].rawPath == Some(owner) && rows[key].local
  }

  lemma SiblingIsKeptOut(e: Event, rows: Rows, caches: seq<Cache>, conn: int, owner: string)
    requires owner != "" && Owned(rows, e.read.key, owner) && Agrees(caches, conn, e.read.key, owner)
    requires WatchedRead(e, caches, conn, owner)
    ensures Keeps(e.world, rows, caches, conn, e.read) <==> Sibling(e.read, owner)
  {
  }

  lemma StepKeepsOwner(row: Row, r: Read, owner: string)
    requires row.rawPath == Some(owner) && row.local
    ensures var after := Written(Some(row), r, Sibling(r, owner));
            Incoming(r) != Some("") ==> after.rawPath == Some(owner) && after.local
  {
  }

  lemma SiblingChangesNothing(row: Row, r: Read, owner: string)
    requires Sibling(r, owner)
    ensures SameIdentity(Written(Some(row), r, true), row) && Written(Some(row), r, true).title == row.title
    ensures Written(Some(row), r, true).full == (row.full || r.Full?)
  {
  }

  /** Two rows that agree still agree after one read that both take, or both keep out. */
  lemma ReadsAgree(a: Row, b: Row, r: Read, keep: bool)
    requires SameIdentity(a, b) && a.local && b.local
    ensures SameIdentity(Written(Some(a), r, keep), Written(Some(b), r, keep))
    ensures SameTitle(a, b) ==> SameTitle(Written(Some(a), r, keep), Written(Some(b), r, keep))
  {
  }

  /** No other transcript was fully ingested. */
  ghost predicate NoForeignIngest(events: seq<Event>, key: Key, owner: string) {
    forall e | e in events :: !(e.read.Full? && SiblingOn(e.read, key, owner))
  }

  /** What watching a whole run says of its parts. */
  lemma WatchedLast(events: seq<Event>, caches: seq<Cache>, conn: int, key: Key, owner: string)
    requires Watched(events, caches, conn, key, owner) && events != []
    ensures Watched(events[..|events| - 1], caches, conn, key, owner)
    ensures var e := events[|events| - 1]; e.read.key == key ==> WatchedRead(e, caches, conn, owner)
  {
    hide WatchedRead;
    assert events[|events| - 1] in events;
  }

  /**
   While the recorded file stays present, reading other transcripts of the session leaves its recorded identity as it would
   have been without them, in any interleaving with any other reads; and its title too, unless one of them was a full ingest
   over a shallow row.
   */
  lemma {:induction false} SiblingsErased(rows: Rows, caches: seq<Cache>, conn: int, events: seq<Event>, key: Key, owner: string)
    requires Owned(rows, key, owner) && Agrees(caches, conn, key, owner) && Watched(events, caches, conn, key, owner)
    ensures var all, own := Replay(rows, caches, conn, events), Replay(rows, caches, conn, Own(events, key, owner));
            && Owned(all, key, owner) && Owned(own, key, owner) && SameIdentity(all[key], own[key])
            && (rows[key].full ==> all[key].full)
            && (rows[key].full || NoForeignIngest(events, key, owner) ==> SameTitle(all[key], own[key]))
    decreases |events|
  {
    if events != [] {
      var before, e := events[..|events| - 1], events[|events| - 1];
      WatchedLast(events, caches, conn, key, owner);
      SiblingsErased(rows, caches, conn, before, key, owner);
      ErasedStep(Replay(rows, caches, conn, before), Replay(rows, caches, conn, Own(before, key, owner)), caches, conn, e, key, owner);
      assert e in events && forall x | x in before :: x in events;
      if !SiblingOn(e.read, key, owner) {
        assert Own(events, key, owner)[..|Own(before, key, owner)|] == Own(before, key, owner);
      }
    }
  }

  /** One more read, after two runs that agree on the row's identity, when the second leaves sibling reads out. */
  lemma ErasedStep(a: Rows, b: Rows, caches: seq<Cache>, conn: int, e: Event, key: Key, owner: string)
    requires owner != "" && Owned(a, key, owner) && Owned(b, key, owner) && Agrees(caches, conn, key, owner)
    requires (e.read.key == key ==> WatchedRead(e, caches, conn, owner)) && SameIdentity(a[key], b[key])
    ensures var a' := Applied(e.world, a, caches, conn, e.read);
            var b' := if SiblingOn(e.read, key, owner) then b else Applied(e.world, b, caches, conn, e.read);
            && Owned(a', key, owner) && Owned(b', key, owner) && SameIdentity(a'[key], b'[key])
            && (a[key].full ==> a'[key].full)
            && (SameTitle(a[key], b[key]) && (a[key].full || !(e.read.Full? && SiblingOn(e.read, key, owner))) ==> SameTitle(a'[key], b'[key]))
  {
    hide MustNotReplace;
    hide Guarded;
    hide Agrees;
    hide Written;
    if e.read.key == key {
      SiblingIsKeptOut(e, a, caches, conn, owner);
      SiblingIsKeptOut(e, b, caches, conn, owner);
      StepKeepsOwner(a[key], e.read, owner);
      StepKeepsOwner(b[key], e.read, owner);
      FullStays(a[key], e.read, Keeps(e.world, a, caches, conn, e.read));
      if Sibling(e.read, owner) {
        SiblingChangesNothing(a[key], e.read, owner);
      } else {
        ReadsAgree(a[key], b[key], e.read, false);
      }
    }
  }

  lemma FullStays(row: Row, r: Read, keep: bool)
    ensures row.full ==> Written(Some(row), r, keep).full
  {
  }

  // ----- the title, the one column that is not always erased

  /** Two catalogs that agree on the row go on agreeing on it under any watched run. */
  lemma {:induction false} RunsAgree(a: Rows, b: Rows, caches: seq<Cache>, conn: int, events: seq<Event>, key: Key, owner: string)
    requires Owned(a, key, owner) && Owned(b, key, owner) && Agrees(caches, conn, key, owner) && Watched(events, caches, conn, key, owner)
    requires SameIdentity(a[key], b[key]) && SameTitle(a[key], b[key])
    ensures var a', b' := Replay(a, caches, conn, events), Replay(b, caches, conn, events);
            Owned(a', key, owner) && Owned(b', key, owner) && SameIdentity(a'[key], b'[key]) && SameTitle(a'[key], b'[key])
    decreases |events|
  {
    if events != [] {
      var before, e := events[..|events| - 1], events[|events| - 1];
      WatchedLast(events, caches, conn, key, owner);
      RunsAgree(a, b, caches, conn, before, key, owner);
      AgreeStep(Replay(a, caches, conn, before), Replay(b, caches, conn, before), caches, conn, e, key, owner);
    }
  }

  lemma AgreeStep(a: Rows, b: Rows, caches: seq<Cache>, conn: int, e: Event, key: Key, owner: string)
    requires owner != "" && Owned(a, key, owner) && Owned(b, key, owner) && Agrees(caches, conn, key, owner)
    requires (e.read.key == key ==> WatchedRead(e, caches, conn, owner)) && SameIdentity(a[key], b[key]) && SameTitle(a[key], b[key])
    ensures var a', b' := Applied(e.world, a, caches, conn, e.read), Applied(e.world, b, caches, conn, e.read);
            Owned(a', key, owner) && Owned(b', key, owner) && SameIdentity(a'[key], b'[key]) && SameTitle(a'[key], b'[key])
  {
    hide MustNotReplace;
    hide Guarded;
    hide Agrees;
    hide Written;
    if e.read.key == key {
      SiblingIsKeptOut(e, a, caches, conn, owner);
      SiblingIsKeptOut(e, b, caches, conn, owner);
      StepKeepsOwner(a[key], e.read, owner);
      StepKeepsOwner(b[key], e.read, owner);
      ReadsAgree(a[key], b[key], e.read, Sibling(e.read, owner));
    }
  }

  /** The catalog after a sibling read and a run, against the catalog after the run alone, as far as the title goes. */
  ghost predicate TitleErased(rows: Rows, caches: seq<Cache>, conn: int, e: Event, later: seq<Event>) {
    var with, without := Replay(rows, caches, conn, [e] + later), Replay(rows, caches, conn, later);
    e.read.key in with && e.read.key in without && with[e.read.key].title == without[e.read.key].title
  }

  /**
   A full ingest of a sibling marks a shallow row full, and the next shallow title is then no longer taken. So a sibling read
   leaves no trace in the title under any later run exactly when the row is full already or the read is no full ingest.
   */
  lemma TitleErasedIff(rows: Rows, caches: seq<Cache>, conn: int, e: Event, owner: string)
    requires owner != "" && Owned(rows, e.read.key, owner) && Agrees(caches, conn, e.read.key, owner)
    requires Sibling(e.read, owner) && WatchedRead(e, caches, conn, owner)
    ensures rows[e.read.key].full || !e.read.Full? <==>
              forall later | Watched(later, caches, conn, e.read.key, owner) :: TitleErased(rows, caches, conn, e, later)
  {
    if rows[e.read.key].full || !e.read.Full? {
      forall later | Watched(later, caches, conn, e.read.key, owner) ensures TitleErased(rows, caches, conn, e, later) {
        var once := AfterSibling(rows, caches, conn, e, owner);
        RunsAgree(once, rows, caches, conn, later, e.read.key, owner);
        ReplayAppend(rows, caches, conn, [e], later);
      }
    } else {
      var later := TitleIsLost(rows, caches, conn, e, owner);
    }
  }

  lemma AfterSibling(rows: Rows, caches: seq<Cache>, conn: int, e: Event, owner: string) returns (once: Rows)
    requires owner != "" && Owned(rows, e.read.key, owner) && Agrees(caches, conn, e.read.key, owner)
    requires Sibling(e.read, owner) && WatchedRead(e, caches, conn, owner)
    ensures once == Replay(rows, caches, conn, [e]) && Owned(once, e.read.key, owner)
    ensures SameIdentity(once[e.read.key], rows[e.read.key]) && once[e.read.key].title == rows[e.read.key].title
    ensures once[e.read.key].full == (rows[e.read.key].full || e.read.Full?)
  {
    hide MustNotReplace; hide Guarded; hide Agrees; hide Written;
    ReplayOne(rows, caches, conn, e);
    once := Replay(rows, caches, conn, [e]);
    SiblingIsKeptOut(e, rows, caches, conn, owner);
    StepKeepsOwner(rows[e.read.key], e.read, owner);
    SiblingChangesNothing(rows[e.read.key], e.read, owner);
  }

  /** A bounded read from another machine that has a title and nothing else. */
  function Titled(w: World, key: Key, title: string): Event {
    Event(w, Shallow(key, Meta(None, None, Some(title), [], None, None, None, None, None), Remote))
  }

  lemma TitledRead(rows: Rows, caches: seq<Cache>, conn: int, w: World, key: Key, title: string)
    requires key in rows
    ensures var e := Titled(w, key, title); var row := Applied(w, rows, caches, conn, e.read)[key];
            row.title == (if rows[key].full then Or(rows[key].title, Some(title)) else Some(title)) && row.full == rows[key].full
  {
  }

  /** Two titles, read after the ingest and without it. */
  lemma TitleIsLost(rows: Rows, caches: seq<Cache>, conn: int, e: Event, owner: string) returns (later: seq<Event>)
    requires owner != "" && Owned(rows, e.read.key, owner) && Agrees(caches, conn, e.read.key, owner)
    requires Sibling(e.read, owner) && WatchedRead(e, caches, conn, owner) && !rows[e.read.key].full && e.read.Full?
    ensures Watched(later, caches, conn, e.read.key, owner) && !TitleErased(rows, caches, conn, e, later)
  {
    hide Written; hide Agrees; hide MustNotReplace;
    var key, title := e.read.key, rows[e.read.key].title;
    var x, y := Titled(e.world, key, "x"), Titled(e.world, key, if title.Some? then title.value + "*" else "y");
    later := [x, y];
    var once := AfterSibling(rows, caches, conn, e, owner);
    ReplayAppend(rows, caches, conn, [e], later);
    TwoTitles(once, caches, conn, x, y);
    TwoTitles(rows, caches, conn, x, y);
    TitledRead(once, caches, conn, e.world, key, "x");
    TitledRead(rows, caches, conn, e.world, key, "x");
    TitledRead(Replay(once, caches, conn, [x]), caches, conn, e.world, key, y.read.meta.title.value);
    TitledRead(Replay(rows, caches, conn, [x]), caches, conn, e.world, key, y.read.meta.title.value);
    assert once[key].title == title;
  }

  lemma TwoTitles(rows: Rows, caches: seq<Cache>, conn: int, x: Event, y: Event)
    ensures Replay(rows, caches, conn, [x]) == Applied(x.world, rows, caches, conn, x.read)
    ensures Replay(rows, caches, conn, [x, y]) == Applied(y.world, Replay(rows, caches, conn, [x]), caches, conn, y.read)
  {
    ReplayOne(rows, caches, conn, x);
    assert [x, y][..1] == [x];
  }

  // ----- who owns a row no transcript has claimed

  /** No sweep on the stack knows the session. */
  ghost predicate Unknown(caches: seq<Cache>, conn: int, key: Key) {
    var cache := Innermost(caches, conn, key.source);
    cache.None? || key.id !in cache.value.paths
  }

  /** The read is of a local transcript of `key` and gives a path, even an empty one. */
  predicate Claims(r: Read, key: Key) {
    r.key == key && IsLocal(r) && Incoming(r).Some?
  }

  lemma FreeRowIsTaken(e: Event, rows: Rows, caches: seq<Cache>, conn: int, q: string)
    requires Claims(e.read, e.read.key) && Incoming(e.read) == Some(q) && RawPath(rows, caches, conn, e.read.key).None?
    ensures Owned(Applied(e.world, rows, caches, conn, e.read), e.read.key, q)
  {
  }

  /** Outside a sweep the first transcript to claim a row keeps it, whatever is read afterwards. */
  lemma FirstClaimStays(rows: Rows, caches: seq<Cache>, conn: int, first: Event, rest: seq<Event>, p: string)
    requires Stored(rows, first.read.key).None? && Unknown(caches, conn, first.read.key)
    requires Claims(first.read, first.read.key) && Incoming(first.read) == Some(p)
    requires Watched(rest, caches, conn, first.read.key, p)
    ensures Stored(Replay(rows, caches, conn, [first] + rest), first.read.key) == Some(p)
  {
    FreeRowIsTaken(first, rows, caches, conn, p);
    ReplayOne(rows, caches, conn, first);
    ReplayAppend(rows, caches, conn, [first], rest);
    SiblingsErased(Replay(rows, caches, conn, [first]), caches, conn, rest, first.read.key, p);
  }

  /** A row keeps its path while only other sessions, other machines and reads without a path are read. */
  lemma {:induction false} PathStays(rows: Rows, caches: seq<Cache>, conn: int, events: seq<Event>, key: Key, path: string)
    requires Owned(rows, key, path) && forall e | e in events :: !Claims(e.read, key) || (Incoming(e.read) == Some("") && path == "")
    ensures Owned(Replay(rows, caches, conn, events), key, path)
    decreases |events|
  {
    if events != [] {
      var before, e := events[..|events| - 1], events[|events| - 1];
      assert e in events && forall x | x in before :: x in events;
      PathStays(rows, caches, conn, before, key, path);
    }
  }

  /** Inside a sweep that started with nobody owning the row, nobody is kept out: the last transcript to name a path has it. */
  lemma LastClaimWinsInSweep(rows: Rows, caches: seq<Cache>, conn: int, sessions: seq<(string, Option<string>)>,
                             before: seq<Event>, last: Event, after: seq<Event>, q: string)
    requires Stored(rows, last.read.key).None? && exists s :: s in sessions && s.0 == last.read.key.id
    requires Claims(last.read, last.read.key) && Incoming(last.read) == Some(q)
    requires forall e | e in after :: !Claims(e.read, last.read.key)
    ensures var within := caches + [Snapshot(rows, conn, last.read.key.source, sessions)];
            Owned(Replay(rows, within, conn, before + [last] + after), last.read.key, q)
  {
    var key := last.read.key;
    var within := caches + [Snapshot(rows, conn, key.source, sessions)];
    SnapshotOwner(rows, caches, conn, key, sessions);
    var was := Replay(rows, within, conn, before);
    FreeRowIsTaken(last, was, within, conn, q);
    ReplayOne(was, within, conn, last);
    ReplayAppend(rows, within, conn, before, [last]);
    ReplayAppend(rows, within, conn, before + [last], after);
    PathStays(Replay(was, within, conn, [last]), within, conn, after, key, q);
  }

  /** A sweep judges every read by the owner the session had as the sweep started. */
  lemma SnapshotOwner(rows: Rows, caches: seq<Cache>, conn: int, key: Key, sessions: seq<(string, Option<string>)>)
    requires exists s :: s in sessions && s.0 == key.id
    ensures var within := caches + [Snapshot(rows, conn, key.source, sessions)];
            forall later: Rows :: RawPath(later, within, conn, key) == Stored(rows, key)
  {
    var s :| s in sessions && s.0 == key.id;
    assert s.0 in Owners(rows, key.source, sessions);
  }

  /** So a sweep over an owned session erases sibling reads just as reads outside a sweep do, whatever else it reads. */
  lemma SweepErasesSiblings(rows: Rows, caches: seq<Cache>, conn: int, source: string, sessions: seq<(string, Option<string>)>,
                            events: seq<Event>, key: Key, owner: string)
    requires owner != "" && Owned(rows, key, owner) && key.source == source && exists s :: s in sessions && s.0 == key.id
    requires Watched(events, caches + [Snapshot(rows, conn, source, sessions)], conn, key, owner)
    ensures var within := caches + [Snapshot(rows, conn, source, sessions)];
            var all, own := Replay(rows, within, conn, events), Replay(rows, within, conn, Own(events, key, owner));
            && Owned(all, key, owner) && Owned(own, key, owner) && SameIdentity(all[key], own[key])
            && (rows[key].full || NoForeignIngest(events, key, owner) ==> SameTitle(all[key], own[key]))
  {
    hide Watched;
    SnapshotOwner(rows, caches, conn, key, sessions);
    SiblingsErased(rows, caches + [Snapshot(rows, conn, source, sessions)], conn, events, key, owner);
  }

  /**
   A read with an empty path takes the row's owner away. Whatever is read after it that names no local path, the next
   transcript to name one has the row, the old owner's file being there or not.
   */
  lemma EmptyPathDisowns(rows: Rows, caches: seq<Cache>, conn: int, blank: Event, between: seq<Event>, claim: Event, owner: string, q: string)
    requires Owned(rows, blank.read.key, owner) && claim.read.key == blank.read.key && Unknown(caches, conn, blank.read.key)
    requires Claims(blank.read, blank.read.key) && Incoming(blank.read) == Some("")
    requires forall e | e in between :: !Claims(e.read, blank.read.key) || Incoming(e.read) == Some("")
    requires Claims(claim.read, claim.read.key) && Incoming(claim.read) == Some(q)
    ensures Stored(Replay(rows, caches, conn, [blank] + between), claim.read.key) == None
    ensures Owned(Replay(rows, caches, conn, [blank] + between + [claim]), claim.read.key, q)
  {
    var key := claim.read.key;
    ReplayOne(rows, caches, conn, blank);
    var once := Replay(rows, caches, conn, [blank]);
    assert Owned(once, key, "");
    ReplayAppend(rows, caches, conn, [blank], between);
    PathStays(once, caches, conn, between, key, "");
    var was := Replay(rows, caches, conn, [blank] + between);
    FreeRowIsTaken(claim, was, caches, conn, q);
    ReplayOne(was, caches, conn, claim);
    ReplayAppend(rows, caches, conn, [blank] + between, [claim]);
  }

  // ----- what the owner's own reads leave behind, and who is let through

  /** Nothing in the run is the owner's own or another machine's read of the session. */
  ghost predicate OthersOnly(events: seq<Event>, key: Key, owner: string) {
    forall e | e in events :: e.read.key == key ==> Sibling(e.read, owner)
  }

  /** A run of siblings and other sessions leaves the row's identity as it was. */
  lemma {:induction false} OthersLeaveIdentity(rows: Rows, caches: seq<Cache>, conn: int, events: seq<Event>, key: Key, owner: string)
    requires Owned(rows, key, owner) && Agrees(caches, conn, key, owner) && Watched(events, caches, conn, key, owner)
    requires OthersOnly(events, key, owner)
    ensures var after := Replay(rows, caches, conn, events); Owned(after, key, owner) && SameIdentity(after[key], rows[key])
    decreases |events|
  {
    if events != [] {
      var before, e := events[..|events| - 1], events[|events| - 1];
      assert e in events && forall x | x in before :: x in events;
      WatchedLast(events, caches, conn, key, owner);
      OthersLeaveIdentity(rows, caches, conn, before, key, owner);
      ErasedStep(Replay(rows, caches, conn, before), Replay(rows, caches, conn, before), caches, conn, e, key, owner);
    }
  }

  /**
   Whatever the owner's latest shallow read said is what the row says, however many other transcripts of the session, and
   other sessions, are read after it; and a full ingest that replaced the excerpt, even by none, stands too.
   */
  lemma LatestOwnReadShows(rows: Rows, caches: seq<Cache>, conn: int, before: seq<Event>, own: Event, after: seq<Event>, owner: string)
    requires Owned(rows, own.read.key, owner) && Agrees(caches, conn, own.read.key, owner)
    requires Watched(before + [own] + after, caches, conn, own.read.key, owner)
    requires !Sibling(own.read, owner) && OthersOnly(after, own.read.key, owner)
    ensures own.read.key in Replay(rows, caches, conn, before + [own] + after)
    ensures var row := Replay(rows, caches, conn, before + [own] + after)[own.read.key];
            && (own.read.Shallow? && own.read.meta.firstPrompt.Some? ==> row.firstPrompt == own.read.meta.firstPrompt)
            && (own.read.Shallow? && own.read.meta.models != [] ==> row.models == Some(own.read.meta.models))
            && (own.read.Shallow? && own.read.meta.agentVersion.Some? ==> row.agentVersion == own.read.meta.agentVersion)
            && (own.read.Shallow? && own.read.meta.stamp.Some? ==> row.stamp == own.read.meta.stamp)
            && (own.read.Shallow? && own.read.meta.assistantText.Some? ==> row.assistantText == own.read.meta.assistantText)
            && (own.read.Full? && own.read.window.Replace? ==> row.assistantText == own.read.assistantText)
  {
    var key := own.read.key;
    WatchedParts(before, own, after, caches, conn, key, owner);
    ReplayAppend(rows, caches, conn, before + [own], after);
    ReplayAppend(rows, caches, conn, before, [own]);
    SiblingsErased(rows, caches, conn, before, key, owner);
    var was := Replay(rows, caches, conn, before);
    ReplayOne(was, caches, conn, own);
    SiblingIsKeptOut(own, was, caches, conn, owner);
    StepKeepsOwner(was[key], own.read, owner);
    OthersLeaveIdentity(Replay(was, caches, conn, [own]), caches, conn, after, key, owner);
  }

  lemma WatchedParts(before: seq<Event>, e: Event, after: seq<Event>, caches: seq<Cache>, conn: int, key: Key, owner: string)
    requires Watched(before + [e] + after, caches, conn, key, owner)
    ensures Watched(before, caches, conn, key, owner) && Watched(after, caches, conn, key, owner)
    ensures e.read.key == key ==> WatchedRead(e, caches, conn, owner)
  {
    hide WatchedRead;
    assert e in before + [e] + after;
  }

  /** An owner whose file is gone lets any transcript that names a path claim the row, in a sweep or outside one. */
  lemma MissingOwnerIsReplaced(w: World, rows: Rows, caches: seq<Cache>, conn: int, r: Read, q: string)
    requires Claims(r, r.key) && Incoming(r) == Some(q)
    requires RawPath(rows, caches, conn, r.key).Some? && !w.present(RawPath(rows, caches, conn, r.key).value)
    ensures Owned(Applied(w, rows, caches, conn, r), r.key, q)
  {
    assert !Keeps(w, rows, caches, conn, r);
  }

  /** The incomplete rollout whose projection takes its place: the one the sweep recorded, or else the one Codex names. */
  predicate ProjectsOwner(w: World, caches: seq<Cache>, conn: int, key: Key, projection: string, owner: string) {
    var cache := Innermost(caches, conn, key.source);
    if cache.Some? && key.id in cache.value.rollouts then cache.value.rollouts[key.id] == Some(owner)
    else w.ownsRollout(projection, owner)
  }

  /**
   Who is kept out, told by the facts alone: a transcript other than the owner, whose file is still there, that comes neither
   from a shared store nor as the projection of its own incomplete rollout.
   */
  lemma KeptOutExactlyWhen(w: World, rows: Rows, caches: seq<Cache>, conn: int, key: Key, incoming: Option<string>)
    ensures MustNotReplace(w, rows, caches, conn, key, incoming) <==>
              exists o, q :: incoming == Some(q) && q != "" && RawPath(rows, caches, conn, key) == Some(o) && o != q && w.present(o)
                && !(key.source in {"opencode", "devin"} && w.sqliteHeader(o))
                && !(key.source == "codex" && |q| >= 7 && q[..7] == "sqlite:" && ProjectsOwner(w, caches, conn, key, q, o))
  {
    if incoming.Some? && RawPath(rows, caches, conn, key).Some? {
      var o, q := RawPath(rows, caches, conn, key).value, incoming.value;
      assert incoming == Some(q) && RawPath(rows, caches, conn, key) == Some(o);
    }
  }

  // ----- what a session's first read leaves behind

  lemma {:induction false} OthersLeaveTitle(rows: Rows, caches: seq<Cache>, conn: int, events: seq<Event>, key: Key, owner: string)
    requires Owned(rows, key, owner) && Agrees(caches, conn, key, owner) && Watched(events, caches, conn, key, owner)
    requires OthersOnly(events, key, owner)
    ensures var after := Replay(rows, caches, conn, events); Owned(after, key, owner) && after[key].title == rows[key].title
    decreases |events|
  {
    if events != [] {
      var before, e := events[..|events| - 1], events[|events| - 1];
      assert e in events && forall x | x in before :: x in events;
      WatchedLast(events, caches, conn, key, owner);
      OthersLeaveTitle(rows, caches, conn, before, key, owner);
      var was := Replay(rows, caches, conn, before);
      if e.read.key == key {
        SiblingIsKeptOut(e, was, caches, conn, owner);
        StepKeepsOwner(was[key], e.read, owner);
        SiblingChangesNothing(was[key], e.read, owner);
      }
    }
  }

  /** The columns a first bounded read gives a row; an empty title of a bot session counts as none. */
  ghost predicate ShowsAll(row: Row, source: string, m: Meta) {
    && row.rawPath == m.rawPath && row.firstPrompt == m.firstPrompt && row.agentVersion == m.agentVersion && row.stamp == m.stamp
    && row.assistantText == m.assistantText && row.models == (if m.models == [] then None else Some(m.models))
    && row.title == (if source == "grok-bot" && m.title == Some("") then None else m.title)
  }

  /** What the first transcript of an unknown session says is what its row says, however many siblings are read after it. */
  lemma FirstReadShows(rows: Rows, caches: seq<Cache>, conn: int, first: Event, after: seq<Event>, owner: string)
    requires first.read.key !in rows && Unknown(caches, conn, first.read.key)
    requires Claims(first.read, first.read.key) && Incoming(first.read) == Some(owner)
    requires Watched(after, caches, conn, first.read.key, owner) && OthersOnly(after, first.read.key, owner)
    ensures first.read.key in Replay(rows, caches, conn, [first] + after)
    ensures var row := Replay(rows, caches, conn, [first] + after)[first.read.key];
            && (first.read.Shallow? ==> ShowsAll(row, first.read.key.source, first.read.meta))
            && (first.read.Full? ==> row.rawPath == Some(owner) && row.assistantText == first.read.assistantText
                                     && row.firstPrompt == None && row.title == None && row.models == None && row.stamp == None)
  {
    var key := first.read.key;
    ReplayOne(rows, caches, conn, first);
    ReplayAppend(rows, caches, conn, [first], after);
    FreeRowIsTaken(first, rows, caches, conn, owner);
    var once := Replay(rows, caches, conn, [first]);
    OthersLeaveIdentity(once, caches, conn, after, key, owner);
    OthersLeaveTitle(once, caches, conn, after, key, owner);
  }

  /**
   Which title a row shows after its owner's read, however many siblings follow: a bot session's own word, even to clear it; a
   full row's first title; a shallow row's latest; and a read without a title changes none.
   */
  lemma LatestTitleShows(rows: Rows, caches: seq<Cache>, conn: int, before: seq<Event>, own: Event, after: seq<Event>, owner: string)
    requires Owned(rows, own.read.key, owner) && Agrees(caches, conn, own.read.key, owner) && own.read.Shallow?
    requires Watched(before + [own] + after, caches, conn, own.read.key, owner)
    requires !Sibling(own.read, owner) && OthersOnly(after, own.read.key, owner)
    ensures own.read.key in Replay(rows, caches, conn, before) && own.read.key in Replay(rows, caches, conn, before + [own] + after)
    ensures var was, title := Replay(rows, caches, conn, before)[own.read.key], own.read.meta.title;
            Replay(rows, caches, conn, before + [own] + after)[own.read.key].title ==
              if title.None? then was.title
              else if own.read.key.source == "grok-bot" && own.read.location.Local? then (if title.value == "" then None else title)
              else if was.full && was.title.Some? then was.title else title
  {
    var key := own.read.key;
    WatchedParts(before, own, after, caches, conn, key, owner);
    ReplayAppend(rows, caches, conn, before + [own], after);
    ReplayAppend(rows, caches, conn, before, [own]);
    SiblingsErased(rows, caches, conn, before, key, owner);
    var was := Replay(rows, caches, conn, before);
    ReplayOne(was, caches, conn, own);
    SiblingIsKeptOut(own, was, caches, conn, owner);
    StepKeepsOwner(was[key], own.read, owner);
    OthersLeaveTitle(Replay(was, caches, conn, [own]), caches, conn, after, key, owner);
  }

  // ----- the columns any transcript moves

  function CwdOf(r: Read): Option<string> {
    if r.Shallow? then r.meta.cwd else r.cwd
  }

  function ActivityOf(r: Read): Option<int> {
    if r.Shallow? then r.meta.lastActivity else Some(r.lastActivity)
  }

  /** No read of the session from the `n`-th on names a directory. */
  ghost predicate SilentFrom(events: seq<Event>, key: Key, n: nat) {
    forall j | n <= j < |events| && events[j].read.key == key :: CwdOf(events[j].read).None?
  }

  /** The directory of a row is the one the session's reads named last, the owner's or a sibling's. */
  lemma {:induction false} DirectoryIsLastNamed(rows: Rows, caches: seq<Cache>, conn: int, events: seq<Event>, key: Key, k: nat)
    requires k < |events| && events[k].read.key == key && CwdOf(events[k].read).Some? && SilentFrom(events, key, k + 1)
    ensures var after := Replay(rows, caches, conn, events); key in after && after[key].cwd == CwdOf(events[k].read)
    decreases |events|
  {
    var n := |events| - 1;
    if k < n {
      assert forall j | 0 <= j < n :: events[..n][j] == events[j];
      DirectoryIsLastNamed(rows, caches, conn, events[..n], key, k);
    }
  }

  lemma {:induction false} DirectoryStays(rows: Rows, caches: seq<Cache>, conn: int, events: seq<Event>, key: Key)
    requires key in rows && SilentFrom(events, key, 0)
    ensures var after := Replay(rows, caches, conn, events); key in after && after[key].cwd == rows[key].cwd
    decreases |events|
  {
    if events != [] {
      assert forall j | 0 <= j < |events| - 1 :: events[..|events| - 1][j] == events[j];
      DirectoryStays(rows, caches, conn, events[..|events| - 1], key);
    }
  }

  /** Nothing replaces the activity window: every full ingest of the session extends it. */
  ghost predicate Extends(events: seq<Event>, key: Key) {
    forall e | e in events && e.read.key == key :: e.read.Full? ==> e.read.window.Expand?
  }

  /** `last` is the latest activity the row had or any read of the session reported. */
  ghost predicate LatestOf(stored: Option<int>, events: seq<Event>, key: Key, last: Option<int>) {
    && (stored.Some? ==> last.Some? && stored.value <= last.value)
    && (forall e | e in events && e.read.key == key && ActivityOf(e.read).Some? :: last.Some? && ActivityOf(e.read).value <= last.value)
    && (last.Some? ==> last == stored || exists e :: e in events && e.read.key == key && ActivityOf(e.read) == last)
  }

  function StoredActivity(rows: Rows, key: Key): Option<int> {
    if key in rows then rows[key].lastActivity else None
  }

  /** But for Grok, whose directory is a snapshot, activity only moves forward, to the latest any transcript reports. */
  lemma {:induction false} ActivityIsLatest(rows: Rows, caches: seq<Cache>, conn: int, events: seq<Event>, key: Key)
    requires key.source != "grok" && Extends(events, key)
    ensures LatestOf(StoredActivity(rows, key), events, key, StoredActivity(Replay(rows, caches, conn, events), key))
    decreases |events|
  {
    if events != [] {
      var before, e := events[..|events| - 1], events[|events| - 1];
      assert events == before + [e];
      ActivityIsLatest(rows, caches, conn, before, key);
      var was, now := StoredActivity(Replay(rows, caches, conn, before), key), StoredActivity(Replay(rows, caches, conn, events), key);
      assert now == if e.read.key == key then Later(was, ActivityOf(e.read)) else was;
      hide Replay;
      LatestSnoc(StoredActivity(rows, key), before, e, key, was);
    }
  }

  /** A full ingest that replaces the window starts the activity over: it counts from there, backwards too. */
  lemma ActivityStartsOver(rows: Rows, caches: seq<Cache>, conn: int, before: seq<Event>, e: Event, after: seq<Event>)
    requires e.read.Full? && e.read.window.Replace? && e.read.key.source != "grok" && Extends(after, e.read.key)
    ensures LatestOf(Some(e.read.lastActivity), after, e.read.key, StoredActivity(Replay(rows, caches, conn, before + [e] + after), e.read.key))
  {
    ReplayAppend(rows, caches, conn, before + [e], after);
    ReplayAppend(rows, caches, conn, before, [e]);
    ReplayOne(Replay(rows, caches, conn, before), caches, conn, e);
    ActivityIsLatest(Replay(rows, caches, conn, before + [e]), caches, conn, after, e.read.key);
  }

  /** Of a Grok session the bounded read that reports activity last is believed, backwards too. */
  lemma {:induction false} GrokActivityIsLastReported(rows: Rows, caches: seq<Cache>, conn: int, events: seq<Event>, key: Key, k: nat)
    requires key.source == "grok" && k < |events| && events[k].read.key == key && events[k].read.Shallow? && ActivityOf(events[k].read).Some?
    requires forall j | k < j < |events| && events[j].read.key == key :: events[j].read.Shallow? && ActivityOf(events[j].read).None?
    ensures StoredActivity(Replay(rows, caches, conn, events), key) == ActivityOf(events[k].read)
    decreases |events|
  {
    var n := |events| - 1;
    if k < n {
      assert forall j | 0 <= j < n :: events[..n][j] == events[j];
      GrokActivityIsLastReported(rows, caches, conn, events[..n], key, k);
      assert key in Replay(rows, caches, conn, events[..n]);
    }
  }

  lemma LatestSnoc(stored: Option<int>, events: seq<Event>, e: Event, key: Key, last: Option<int>)
    requires LatestOf(stored, events, key, last)
    ensures LatestOf(stored, events + [e], key, if e.read.key == key then Later(last, ActivityOf(e.read)) else last)
  {
    assert e in events + [e] && forall x | x in events :: x in events + [e];
  }

  // ----- where a session is, and whether it was ingested

  /** A session first met in this run is full exactly when it was ingested, and is wherever it was read. */
  lemma {:induction false} FlagsTell(rows: Rows, caches: seq<Cache>, conn: int, events: seq<Event>, key: Key)
    requires key !in rows
    ensures var after := Replay(rows, caches, conn, events);
            && (key in after <==> exists e :: e in events && e.read.key == key)
            && (key in after ==>
                  && (after[key].full <==> exists e :: e in events && e.read.key == key && e.read.Full?)
                  && (after[key].local <==> exists e :: e in events && e.read.key == key && IsLocal(e.read))
                  && (after[key].remote <==> exists e :: e in events && e.read.key == key && !IsLocal(e.read)))
    decreases |events|
  {
    if events != [] {
      var before, e := events[..|events| - 1], events[|events| - 1];
      FlagsTell(rows, caches, conn, before, key);
      assert events == before + [e];
      assert e in events && forall x | x in before :: x in events;
      assert forall x | x in events :: x == e || x in before;
      var was, now := Replay(rows, caches, conn, before), Replay(rows, caches, conn, events);
      assert now == Applied(e.world, was, caches, conn, e.read);
      if e.read.key == key {
        FlagsMove(was, caches, conn, e);
      }
      hide Replay; hide Applied; hide IsLocal;
    }
  }

  lemma FlagsMove(was: Rows, caches: seq<Cache>, conn: int, e: Event)
    ensures var key, now := e.read.key, Applied(e.world, was, caches, conn, e.read);
            && key in now
            && (now[key].full <==> (key in was && was[key].full) || e.read.Full?)
            && (now[key].remote <==> (key in was && was[key].remote) || !IsLocal(e.read))
            && (key !in was || was[key].local || was[key].remote ==> (now[key].local <==> (key in was && was[key].local) || IsLocal(e.read)))
  {
    hide Keeps;
  }

  /** A row from before presences were recorded is a local one, and stays it when another machine's read comes first. */
  lemma {:induction false} LegacyRowIsLocal(rows: Rows, caches: seq<Cache>, conn: int, events: seq<Event>, key: Key)
    requires key in rows && !rows[key].local && !rows[key].remote && exists e :: e in events && e.read.key == key
    ensures var after := Replay(rows, caches, conn, events); key in after && after[key].local
    decreases |events|
  {
    var before, last := events[..|events| - 1], events[|events| - 1];
    assert events == before + [last];
    if exists e :: e in before && e.read.key == key {
      LegacyRowIsLocal(rows, caches, conn, before, key);
    } else {
      Untouched(rows, caches, conn, before, key);
    }
  }

  lemma {:induction false} Untouched(rows: Rows, caches: seq<Cache>, conn: int, events: seq<Event>, key: Key)
    requires key in rows && forall e | e in events :: e.read.key != key
    ensures var after := Replay(rows, caches, conn, events); key in after && after[key] == rows[key]
    decreases |events|
  {
    if events != [] {
      assert events[|events| - 1] in events && forall e | e in events[..|events| - 1] :: e in events;
      Untouched(rows, caches, conn, events[..|events| - 1], key);
    }
  }

  /** A session read on other machines only has the path that was named last. */
  lemma {:induction false} RemotePathIsLastNamed(rows: Rows, caches: seq<Cache>, conn: int, events: seq<Event>, key: Key, k: nat)
    requires key !in rows && forall j | 0 <= j < |events| && events[j].read.key == key :: !IsLocal(events[j].read)
    requires k < |events| && events[k].read.key == key && Incoming(events[k].read).Some?
    requires forall j | k < j < |events| && events[j].read.key == key :: Incoming(events[j].read).None?
    ensures var after := Replay(rows, caches, conn, events); key in after && after[key].rawPath == Incoming(events[k].read) && after[key].remote && !after[key].local
    decreases |events|
  {
    var n := |events| - 1;
    assert forall j | 0 <= j < n :: events[..n][j] == events[j];
    if k < n {
      RemotePathIsLastNamed(rows, caches, conn, events[..n], key, k);
    } else {
      FlagsTell(rows, caches, conn, events[..n], key);
      var was := Replay(rows, caches, conn, events[..n]);
      assert key in was ==> !was[key].local && was[key].remote by {
        if key in was {
          var e :| e in events[..n] && e.read.key == key;
          assert !IsLocal(e.read);
        }
      }
    }
  }

  /** A local session without a path has the first one another machine names, until a local transcript names one. */
  lemma {:induction false} PathlessTakesFirstRemote(rows: Rows, caches: seq<Cache>, conn: int, events: seq<Event>, key: Key, k: nat)
    requires key in rows && rows[key].local && rows[key].rawPath.None?
    requires forall j | 0 <= j < |events| && events[j].read.key == key :: !IsLocal(events[j].read)
    requires k < |events| && events[k].read.key == key && Incoming(events[k].read).Some?
    requires forall j | 0 <= j < k && events[j].read.key == key :: Incoming(events[j].read).None?
    ensures Owned(Replay(rows, caches, conn, events), key, Incoming(events[k].read).value)
    decreases |events|
  {
    var n := |events| - 1;
    assert forall j | 0 <= j < n :: events[..n][j] == events[j];
    if k < n {
      PathlessTakesFirstRemote(rows, caches, conn, events[..n], key, k);
    } else {
      StaysPathless(rows, caches, conn, events[..n], key);
    }
  }

  lemma {:induction false} StaysPathless(rows: Rows, caches: seq<Cache>, conn: int, events: seq<Event>, key: Key)
    requires key in rows && rows[key].local && rows[key].rawPath.None?
    requires forall j | 0 <= j < |events| && events[j].read.key == key :: Incoming(events[j].read).None?
    ensures var after := Replay(rows, caches, conn, events); key in after && after[key].local && after[key].rawPath.None?
    decreases |events|
  {
    if events != [] {
      assert forall j | 0 <= j < |events| - 1 :: events[..|events| - 1][j] == events[j];
      StaysPathless(rows, caches, conn, events[..|events| - 1], key);
    }
  }

  // ----- Codex projections during a sweep

  lemma {:induction false} RolloutRecorded(sessions: seq<(string, Option<string>)>, k: nat)
    requires k < |sessions| && forall j | k < j < |sessions| :: sessions[j].0 != sessions[k].0
    ensures sessions[k].0 in Rollouts(sessions) && Rollouts(sessions)[sessions[k].0] == sessions[k].1
    decreases |sessions|
  {
    if k < |sessions| - 1 {
      RolloutRecorded(sessions[..|sessions| - 1], k);
    }
  }

  /**
   During a sweep a projection may take the place of the owner exactly when the owner is the rollout the sweep recorded for that
   session, or its file is gone; what Codex's databases say meanwhile plays no part.
   */
  lemma ProjectionDuringSweep(w: World, rows: Rows, now: Rows, caches: seq<Cache>, conn: int, sessions: seq<(string, Option<string>)>, k: nat, q: string, o: string)
    requires k < |sessions| && forall j | k < j < |sessions| :: sessions[j].0 != sessions[k].0
    requires |q| >= 7 && q[..7] == "sqlite:" && q != o && Stored(rows, Key("codex", sessions[k].0)) == Some(o)
    ensures var within := caches + [Snapshot(rows, conn, "codex", sessions)];
            MustNotReplace(w, now, within, conn, Key("codex", sessions[k].0), Some(q)) <==> sessions[k].1 != Some(o) && w.present(o)
  {
    RolloutRecorded(sessions, k);
    var key := Key("codex", sessions[k].0);
    assert sessions[k] in sessions && sessions[k].0 == key.id;
    SnapshotOwner(rows, caches, conn, key, sessions);
  }
}
