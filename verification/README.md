# Relay history: a verified model

Relay history keeps one store of what coding agents did, and hands it on: as a change feed, as exports, to delivery
destinations, and to other agents. This project models the parts of it where a mistake would lose or repeat something, as
state machines, methods and functions in Dafny, and proves what they promise.

- `FeedStore`, `FeedDrain`, `ChangeFeed`, `FeedMirror`, `FeedRuns`, `FeedProgress`, `FeedWire`: the change feed. Writes stamp records with
  fresh revisions; a drain reads them in two passes per page; a page decides in one of three ways whether it is the last; a
  replica follows the pages; committing runs crash and race. Every native read sees a later state of the store.
- `Walker`: the breadth-first walk over a session's descendants, with a depth bound and a node budget.
- `Json`, `JsonFaithful`, `JsonText`: canonical delivery JSON, its printer, a reader of RFC 8259 text, what the text tells apart
  and what it looks like.
- `Delivery`, `Recovery`, `RecoveryChains`, `BatchContent`: parsing a receiver's conflict answer and recovering a batch from it. SHA-256 is a
  function given as a parameter; where it matters it is assumed injective, and for chains also that no text holds a digest
  made from itself or from a later text (`RecoveryChains.OneWay`, which `RecoveryChains.OneWayExists` shows can be met).
- `CatalogOwner`: which of several transcripts sharing a session id owns the catalog row, and the owner snapshot of a sweep.
- `Handoff`: four evidence streams paged under one composite cursor, down to the page queries.
- `Relay`, `RelayOutcomes`: one request over candidate local sockets, event by event.
- `ExportInstall`: replacing a SQLite export file by file, with a failure possible at every step.
- `ExportPages`, `ExportRegistry`, `HistoryExport`: export snapshots, their registry and reaper, and the client that pages one.
- `Shell`: the pasted resume command and a reader of shell quoting.
- `Hydration`: the fold of several hydration results into one.
- `Ordering`, `Wrappers`: finite sets in order, and the optional value and failing answer everything shares.

Some promises turn out to hold only under a condition, and each condition is proved exact:

- A one-session replica can keep a prompt that was deleted or given to another session, because a prompt's tombstone names no
  session and its key holds none. A drained replica mirrors the store exactly when the query names no session or asks for no
  prompts (`FeedMirror.MirrorsIff`).
- A committing run that starts past unconsumed records commits its cursor over them. A start is safe exactly when its consumer
  has consumed everything selected at or below it (`FeedRuns.SafeStartIff`), as it has at or below its cursor
  (`FeedRuns.CursorStartsAreCovered`).
- The walker's root is never yielded, so its `truncated` flag is never seen (`Walker.ShortOnlyAtRoot`).
- A sibling transcript's full ingest marks a shallow row full, after which the next shallow title is not taken
  (`CatalogOwner.TitleErasedIff`). The comment above `withhold_shallow` speaks of every identity column; the code does not
  erase this one.
- Recovery removes records by revision alone, so one proof can remove two (`Recovery.RemovesOnlyProvenIff`).

`dafny verify dfyconfig.toml` checks the whole project.

## Model

| member | source | states |
|---|---|---|
| `FeedStore.WritesEvolve` | crates/ai-hist/src/change_feed/schema.rs:447-530 | Any sequence of row writes, removals and presence re-stamps leaves revisions unique and at most the head, gives whatever it writes a revision above the old head, loses no record, and keeps the session of every record but a prompt the one in its identity. |
| `FeedStore.WriteShows` | crates/ai-hist/src/change_feed/schema.rs:447-530 | A write that changes something shows under the next revision, a row as written, a removed row as a tombstone, a re-stamped row as it stands; one that changes nothing shows nothing; other records are left alone. |
| `FeedStore.PendingMeaning` | crates/ai-hist/src/change_feed.rs:1378-1422 | What a reader is owed over (lo, hi] is exactly the selected current changes in that range, each once, oldest first. |
| `FeedDrain.StreamsSplit` | crates/ai-hist/src/change_feed.rs:1400-1412 | Every change a page owes is in exactly one of the per-kind row and tombstone streams the key pass reads. |
| `FeedDrain.CutIsExact` | crates/ai-hist/src/change_feed.rs:1366-1422 | The n-th smallest revision among the first n of every stream is the n-th smallest revision owed, and when fewer are read all owed are read. |
| `FeedDrain.PageCut` | crates/ai-hist/src/change_feed.rs:1378-1422 | The key pass over all streams returns the page cut of what is owed: the batch-th revision, the head bound, or nothing exactly when nothing is owed. |
| `FeedDrain.ReadRows` | crates/ai-hist/src/change_feed.rs:1066-1084 | The row pass, sorted, is exactly what is owed up to the cut. |
| `FeedDrain.PendingPrefix` | crates/ai-hist/src/change_feed.rs:1052-1066 | The first n changes owed are everything owed up to the n-th revision. |
| `FeedDrain.OrderedUnique` | crates/ai-hist/src/change_feed.rs:1079-1081 | A list ordered by revision is determined by its changes, so the later sort keys never decide. |
| `ChangeFeed.Normalize` | crates/ai-hist/src/change_feed.rs:121-142 | The kind set is the kinds asked for, each once, all of them when none is named. |
| `ChangeFeed.Open` | crates/ai-hist/src/change_feed.rs:1184-1292 | An accepted drain starts at or below its head, in this store's epoch, with distinct kinds and a clamped batch, and never joins a session filter with a consumer; where it starts is `ChangeFeed.AnsweredFromItsStart`. |
| `ChangeFeed.Changes.constructor` | crates/ai-hist/src/change_feed.rs:1215-1235 | A drain starts at its opened position with nothing buffered. |
| `ChangeFeed.Changes.Fill` | crates/ai-hist/src/change_feed.rs:1037-1102 | A fill buffers the first batch of what the store owes now, and declares the head reached exactly when it owes nothing. |
| `ChangeFeed.Changes.Next` | crates/ai-hist/src/change_feed.rs:1104-1125 | A pull hands out the oldest buffered change, else the first owed now, and the position is the revision handed out or the head at exhaustion. |
| `ChangeFeed.TakeUpTo` | crates/ai-hist-napi/src/change_feed.rs:287-295 | Pulling until the page is full yields the first min(limit, owed) changes owed at the first pull, whatever is written between pulls. |
| `ChangeFeed.LookAhead` | crates/ai-hist-napi/src/change_feed.rs:298-306 | Below the maximum page, one more pull tells whether more was owed at the first pull, and moves to the head when none was. |
| `ChangeFeed.Probe` | crates/ai-hist-napi/src/change_feed.rs:307-319 | The one-row drain from the page's position is empty up to the page's head exactly when nothing selected is left there. |
| `ChangeFeed.ProbeSees` | crates/ai-hist-napi/src/change_feed.rs:312-319 | A drain bounded to a later head finds a first change at or below the page's head exactly when one is left in the page's range. |
| `ChangeFeed.ReadPage` | crates/ai-hist-napi/src/change_feed.rs:271-328 | In all three branches, with any writes between native reads, a page is the first min(limit, k) changes owed, positioned at its last revision, or done and at the head exactly when nothing is left where that is decided. |
| `ChangeFeed.PageEnds` | crates/ai-hist-napi/src/change_feed.rs:287-319 | When the first read owes no more than the page, no later state owes anything past it below the head. |
| `ChangeFeed.NothingAfterLast` | crates/ai-hist/src/change_feed.rs:1052-1066 | Past the last change owed nothing is owed, in this state or any later one. |
| `ChangeFeed.RefusedIff` | crates/ai-hist-napi/src/change_feed.rs:331-383 | Exactly when `changes` answers with which error: by its arguments alone before a database is opened, by cursor misuse, by a cursor bound to other kinds, or by a start that is past the head or another database's; nothing written during the read refuses it. |
| `ChangeFeed.AnsweredFromItsStart` | crates/ai-hist/src/change_feed.rs:1249-1282 | The page of an accepted request, told by its arguments and the views alone: it starts at the mark given, at the named cursor it resumes, or at the beginning, holds the first changes owed from there to the head, and is done exactly when nothing is left. |
| `ChangeFeed.ResumesPastItsCursor` | crates/ai-hist/src/change_feed.rs:1256-1263 | A request that resumes is never handed a change its cursor has passed. |
| `ChangeFeed.NothingWithoutADatabase` | crates/ai-hist-napi/src/change_feed.rs:368-379 | Without a database a well-named request gets an empty page that is done. |
| `ChangeFeed.CommitIff` | crates/ai-hist/src/change_feed.rs:1475-1535 | A commit is taken exactly when the store issued the position and the cursor counts the same kinds; it moves that one cursor forward, or to the position when the cursor stood past the head at opening and has not moved since. |
| `ChangeFeed.ResyncHeals` | crates/ai-hist/src/change_feed.rs:1000-1006 | The commit of a resync brings a cursor that was past the head back to where the resync got. |
| `ChangeFeed.OneFillServesAPage` | crates/ai-hist-napi/src/change_feed.rs:360-367 | Asking for one row more than the page: after its first pull a page's drain reads the store again only when everything then owed is handed out or at a full maximum page, so below the maximum the look-ahead's row is already there. |
| `ChangeFeed.Dispatch` | crates/ai-hist-napi/src/change_feed.rs:331-386 | The answer is the refusal of the arguments, an empty finished page for a missing database, or the page read or its refusal. |
| `FeedWire.PositionReadsBack` | crates/ai-hist-napi/src/change_feed.rs:60-88 | A 64-bit epoch printed as sixteen hex digits parses back to the same position. |
| `FeedWire.CanonicalIff` | crates/ai-hist-napi/src/change_feed.rs:60-88 | An accepted position fits 64 bits, and is printed again as it came exactly when it was sixteen lower-case digits. |
| `FeedMirror.Replica.Apply` | sdk-ts/src/pagination.ts:413-413 | Handing one change to the consumer folds that upsert or delete into the replica. |
| `FeedMirror.ApplyNext` | sdk-ts/src/pagination.ts:413-413 | Folding the next change of a page keeps every record synced that is not still to be applied, even when the store has moved on. |
| `FeedMirror.YieldAll` | sdk-ts/src/pagination.ts:413-413 | A consumer that stops part way through a page is synced to the last change it took. |
| `FeedMirror.ChangesSince` | sdk-ts/src/pagination.ts:407-422 | With writers between any two native reads and a consumer that may stop at any change, the replica equals the store on every selected record whose latest revision is at or below the position reached; a finished run reaches the last page's head. |
| `FeedMirror.MirrorsUnlessLeft` | sdk-ts/src/pagination.ts:407-422 | A replica synced to the head is the store's selected live records exactly when no record it holds has left the filter. |
| `FeedMirror.MirrorIsExact` | crates/ai-hist/src/change_feed.rs:455-476 | A replica synced to the head is exactly the store's selected live records when the query asks for every session or for no prompts. |
| `FeedMirror.DrainSyncs` | sdk-ts/src/pagination.ts:407-422 | Folding everything owed from where a replica is synced leaves it synced to the head. |
| `FeedMirror.FollowingSyncs` | sdk-ts/src/pagination.ts:407-422 | A replica kept by draining again and again, with any writes between, is synced to each drain's head. |
| `FeedMirror.MirrorsIff` | crates/ai-hist/src/change_feed.rs:455-476 | A replica kept by draining, whatever is written between drains, is the store's selected live records at the end of every drain exactly when the query asks for every session or for no prompts. |
| `FeedMirror.PromptMoveIsMissed` | crates/ai-hist/src/change_feed.rs:455-462 | A drained one-session replica keeps a prompt that was given to another session. |
| `FeedMirror.PromptDeleteIsMissed` | crates/ai-hist/src/change_feed.rs:458-476 | A prompt's tombstone names no session, so a drained one-session replica keeps a deleted prompt: for every such filter, the writes and drains that show it. |
| `FeedMirror.QuietPage` | crates/ai-hist-napi/src/change_feed.rs:287-319 | On a quiet store a page is the first min(limit, k) owed, done exactly when k is at most the limit, and leaves the rest owed. |
| `FeedMirror.QuietDrain` | crates/ai-hist-napi/src/change_feed.rs:287-319 | Draining a quiet store hands out everything owed once and in order, ends at the head, and takes max(1, ceil(k / limit)) pages. |
| `FeedMirror.PagesForIsCeiling` | crates/ai-hist-napi/src/change_feed.rs:287-319 | The page count is the ceiling of k over the limit, and at least one. |
| `FeedMirror.QuietRunEnds` | sdk-ts/src/pagination.ts:411-421 | Following positions over a quiet store always ends. |
| `FeedRuns.StepKeeps` | crates/ai-hist/src/change_feed.rs:1475-1545 | Every step of every run, interleaved with any writes, keeps what each cursor promises its own consumer and moves no cursor back. |
| `FeedRuns.AtLeastOnce` | sdk-ts/src/pagination.ts:412-421 | Over any events of crashing and concurrent committing runs that start where their own consumer has left nothing below unconsumed, every selected record last written at or below a named cursor has been fully consumed by a run of that very name. |
| `FeedRuns.FreshKeepsPromise` | crates/ai-hist/src/change_feed.rs:1441-1450 | A fresh store with no cursor keeps the promise, so the guarantee holds from the beginning. |
| `FeedRuns.SafeStartIff` | crates/ai-hist/src/change_feed.rs:990-1001 | A committing run's start is safe, whatever happens later, exactly when its consumer has consumed everything selected at or below it. |
| `FeedRuns.CursorStartsAreCovered` | crates/ai-hist/src/change_feed.rs:990-1001 | Starting at the beginning, at the named cursor, or at or below it passes over nothing unconsumed. |
| `FeedProgress.NeverHandedAgain` | crates/ai-hist/src/change_feed.rs:986-998 | A run past a cursor is handed nothing at or below it, whatever other runs, writes, crashes and commits happen. |
| `FeedProgress.NextRunGoesOn` | crates/ai-hist/src/change_feed.rs:1256-1263 | A consumer's next run, resumed at its cursor, is handed only changes after what that cursor had reached. |
| `FeedProgress.RunGetsThrough` | sdk-ts/src/pagination.ts:407-422 | From any start a committing run that nothing disturbs ends, having consumed exactly what it had and everything owed after its start, with its cursor at the head. |
| `Walker.IsAncestor` | sdk-ts/src/pagination.ts:253-260 | Following parents ends, and finds the candidate exactly when it is the session itself or one of its ancestors. |
| `Walker.Look` | sdk-ts/src/pagination.ts:283-310 | One child edge is counted, flagged, skipped or walked so that counts, flags, the tree and the budget stay exact. |
| `Walker.Expand` | sdk-ts/src/pagination.ts:275-311 | All pages of a session's child edges are looked at, each edge once, whatever the page size. |
| `Walker.WalkLevel` | sdk-ts/src/pagination.ts:272-314 | Expanding a level visits everything one edge further while the budget lasts, and yields each of its sessions once. |
| `Walker.SessionDescendants` | sdk-ts/src/pagination.ts:232-315 | The walk ends with an acyclic parent map over observed edges, exact shortest depths, and exact counts and flags, within bounds of 32 deep and 1000 sessions unless asked otherwise, held to 1..64 and 1..10000; it yields as many sessions within its depth as fit, and every descendant exactly when they all fit and none is deeper. |
| `Walker.AsManyAsFit` | sdk-ts/src/pagination.ts:272-312 | The sessions visited are within the depth bound, and number the lesser of the budget and all the sessions that are. |
| `Walker.AllExactlyWhenTheyFit` | sdk-ts/src/pagination.ts:232-315 | Yielded are all descendants exactly when with the root they number at most the budget and none is deeper than the bound. |
| `Walker.YieldsEachOnce` | sdk-ts/src/pagination.ts:272-314 | Yielded are the visited sessions but the root, each once, at most maxNodes - 1, in nondecreasing depth from 1 to maxDepth, each at its shortest distance even when the budget cuts a level. |
| `Walker.NewDistance` | sdk-ts/src/pagination.ts:292-306 | A session met first while expanding depth d is at distance d + 1, because everything nearer was already visited. |
| `Walker.NeverSilentlyShort` | sdk-ts/src/pagination.ts:284-308 | If no walked session, root included, ends flagged, the visited sessions are exactly those reachable over observed edges, in any cyclic or diamond-shaped graph. |
| `Walker.ShortOnlyAtRoot` | sdk-ts/src/pagination.ts:290-312 | The root is never yielded: with no yielded flag the walk is complete exactly when the root and its distinct children fit the node budget. |
| `Walker.BudgetOfOneIsSilent` | sdk-ts/src/pagination.ts:294-312 | A budget of one yields nothing although a child is reachable and unvisited. |
| `Walker.RiseInOrder` | sdk-ts/src/pagination.ts:272-314 | Nondecreasing depth holds between any two yields, not only neighbours. |
| `Walker.Clamp` | sdk-ts/src/pagination.ts:236-245 | An option is held between one and its ceiling and passes through unchanged inside. |
| `JsonFaithful.ReadPrint` | sdk-ts/src/delivery.ts:42-64 | Reading canonical text with an RFC 8259 reader gives back the value's meaning: keys sorted, absent members dropped, absent items null. |
| `JsonFaithful.SameTextIffAlike` | sdk-ts/src/delivery.ts:42-64 | Two values have the same canonical text exactly when they are equal up to object key order, absent members, and what reads as null. |
| `JsonFaithful.PrintIsRender` | sdk-ts/src/delivery.ts:42-64 | The printer prints exactly the value's meaning. |
| `JsonFaithful.ReadRender` | sdk-ts/src/delivery.ts:42-64 | The reader undoes the printer on every JSON value, whatever follows it. |
| `JsonFaithful.ReadEscaped` | sdk-ts/src/delivery.ts:57-61 | String escaping, short, hex and surrogate alike, is undone by the string grammar of section 7 of RFC 8259. |
| `JsonFaithful.SortCanonical` | sdk-ts/src/delivery.ts:53-53 | Sorting by key gives the same list exactly for the same members. |
| `JsonText.LessIsFirstDifference` | sdk-ts/src/delivery.ts:53-53 | One key comes before another exactly when at the first difference it ends or has the smaller code unit. |
| `JsonText.PrintedKeysAscend` | sdk-ts/src/delivery.ts:52-58 | Read as it stands, canonical text has the keys of every object, at any depth, in ascending order of code units. |
| `JsonText.PrintedIsClean` | sdk-ts/src/delivery.ts:57-61 | Canonical text has no control character and no lone surrogate, so encoding it as UTF-8 before hashing loses nothing. |
| `JsonText.EscapedIsShortest` | sdk-ts/src/delivery.ts:57-61 | No text without control characters and lone surrogates that reads as a string is shorter than its canonical spelling. |
| `Delivery.ParseList` | sdk-ts/src/delivery.ts:131-138 | The loop over conflicts returns the parsed list, or refuses at a bad item or a revision named twice. |
| `Delivery.ParseDeliveryConflict` | sdk-ts/src/delivery.ts:111-145 | The method accepts exactly the bodies its specification accepts. |
| `Delivery.AcceptedIsWellFormed` | sdk-ts/src/delivery.ts:89-145 | Nothing is accepted but a 409 with labels, digests, revisions, bounds, distinct revisions and first conflict all as the protocol asks. |
| `Delivery.AnswerReadsBack` | sdk-ts/src/delivery.ts:89-145 | Every well-formed answer is accepted and read back exactly. |
| `Delivery.ProperMeans` | sdk-ts/src/delivery.ts:131-138 | In an accepted list every conflict is sound and any two name different revisions. |
| `Recovery.RecoverDeliveryConflict` | sdk-ts/src/delivery.ts:161-196 | The loops compute the recovery the specification describes, every refusal in its place. |
| `Recovery.RecoveryKeepsTheRest` | sdk-ts/src/delivery.ts:166-196 | A proven batch conflict quarantines nothing and retries every record in order; a proven record conflict quarantines what it names and retries the rest, unless nothing is left; nothing but the identity and the records of a retry changes. |
| `Recovery.NoRecordIsLost` | sdk-ts/src/delivery.ts:193-196 | After an accepted answer every record is retried or its revision is quarantined. |
| `Recovery.KeptAt` | sdk-ts/src/delivery.ts:193-193 | A record not named stands in the retry behind exactly those kept before it. |
| `Recovery.KeptCount` | sdk-ts/src/delivery.ts:193-193 | As many records are kept as are not named. |
| `Recovery.QuarantineIsProven` | sdk-ts/src/delivery.ts:180-192 | The quarantine succeeds exactly when every conflict names one record with its very digest and no revision twice, and is the named revisions in order. |
| `Recovery.RecoverySplits` | sdk-ts/src/delivery.ts:172-195 | With distinct revision ids the records split exactly into quarantined and kept, in order; no retry exactly when nothing is left; the retry changes only identity and records. |
| `Recovery.RemovesOnlyProvenIff` | sdk-ts/src/delivery.ts:193-193 | Filtering by revision alone removes nothing unproven exactly when no proven revision is carried by two records. |
| `Recovery.SharedRevisionLosesBoth` | sdk-ts/src/delivery.ts:193-193 | Two records under one revision: a proof about one removes both. |
| `RecoveryChains.ActsOnlyOnProof` | sdk-ts/src/delivery.ts:161-196 | An answer is acted on exactly when it is about this origin and proves this batch or each record it names; every other is refused. |
| `RecoveryChains.RecordDigestIff` | sdk-ts/src/delivery.ts:71-84 | With an injective hash two records share a digest exactly when equal in every field, up to payload key order and the two spellings of no session. |
| `BatchContent.BatchDigestIff` | sdk-ts/src/delivery.ts:77-87 | With an injective hash two batches share a digest exactly when equal in every field and in the content of every record in its place. |
| `BatchContent.RecordReadsBack` | sdk-ts/src/delivery.ts:71-84 | A record's text is read as its ten fields, and no session, spelt either way, as null. |
| `RecoveryChains.RetryIdentityIff` | sdk-ts/src/delivery.ts:147-154 | Two retries share an identity exactly when origin, parent identity, parent content and kept revisions agree. |
| `RecoveryChains.ChainShrinks` | sdk-ts/src/delivery.ts:156-196 | Along any chain of recoveries records only leave, never reorder, and each record conflict strictly shrinks them. |
| `RecoveryChains.IdentitiesNeverRepeat` | sdk-ts/src/delivery.ts:147-154 | Under a one-way hash no batch identity repeats along a chain, the first batch's included. |
| `CatalogOwner.Catalog.FindCache` | crates/ai-hist/src/catalog_owner.rs:107-114 | Searching the stack from the top finds the innermost cache of the connection and source. |
| `CatalogOwner.Catalog.CatalogRawPath` | crates/ai-hist/src/catalog_owner.rs:147-166 | The owner is the sweep's if it knows the session, else the stored non-empty path. |
| `CatalogOwner.Catalog.IncomingMustNotReplace` | crates/ai-hist/src/catalog_owner.rs:87-130 | The method decides as the specification does, Codex and shared-store exemptions included. |
| `CatalogOwner.Catalog.Upsert` | crates/ai-hist/src/discover.rs:3875-3984 | One read writes its merged row and no other. |
| `CatalogOwner.Catalog.Sweep` | crates/ai-hist/src/catalog_owner.rs:37-76 | A sweep leaves the cache stack as it was wherever it stops, and its effect is the replay of its reads against the owners at its start. |
| `CatalogOwner.KeyAlone` | crates/ai-hist/src/discover.rs:3875-3984 | Sessions do not interfere: after any reads a row is what the reads of its own session make of it. |
| `CatalogOwner.KeptOutExactlyWhen` | crates/ai-hist/src/catalog_owner.rs:78-130 | In a sweep or outside one, a transcript is kept out exactly when another file owns the row, is present, and neither exemption applies, the sweep's own rollout record deciding Codex projections where it has one. |
| `CatalogOwner.SiblingsErased` | crates/ai-hist/src/catalog_owner.rs:87-130 | While the recorded file stays present and no exemption applies, any interleaving of reads, of this and other sessions, leaves path, prompt, models, version, stamp and assistant text as without the reads of the session's other transcripts; and the title, unless one of them was a full ingest over a shallow row. |
| `CatalogOwner.TitleErasedIff` | crates/ai-hist/src/discover/catalog_columns.rs:61-65 | A sibling read leaves no trace in the title under any later run exactly when the row is full already or the read is no full ingest, for every source and row. |
| `CatalogOwner.LatestOwnReadShows` | crates/ai-hist/src/catalog_owner.rs:206-244 | What the owner's latest read said is what the row says, however many reads of siblings and other sessions follow. |
| `CatalogOwner.FirstReadShows` | crates/ai-hist/src/discover/catalog_columns.rs:33-39 | What the first transcript of an unknown session says is what its row says, however many siblings are read after it. |
| `CatalogOwner.LatestTitleShows` | crates/ai-hist/src/discover/catalog_columns.rs:61-65 | After the owner's read and any siblings the title is a bot session's own word, a full row's first, a shallow row's latest, and unchanged by a read without one. |
| `CatalogOwner.DirectoryIsLastNamed` | crates/ai-hist/src/discover/catalog_columns.rs:42-42 | A row's directory is the one named last by any read of its session. |
| `CatalogOwner.ActivityIsLatest` | crates/ai-hist/src/discover/catalog_columns.rs:49-53 | But for Grok, activity is the latest the row had or any read reported. |
| `CatalogOwner.ActivityStartsOver` | crates/ai-hist/src/ingest.rs:11259-11270 | An ingest that replaces the window sets the activity, and it counts from there. |
| `CatalogOwner.GrokActivityIsLastReported` | crates/ai-hist/src/discover/catalog_columns.rs:50-50 | Of a Grok session the bounded read that reports activity last is believed, backwards too. |
| `CatalogOwner.FlagsTell` | crates/ai-hist/src/ingest.rs:11285-11327 | A session first met in a run is full exactly when it was ingested, and local or remote exactly when it was so read. |
| `CatalogOwner.LegacyRowIsLocal` | crates/ai-hist/src/discover.rs:3883-3912 | A row from before presences is local, and stays it when another machine's read comes first. |
| `CatalogOwner.RemotePathIsLastNamed` | crates/ai-hist/src/discover/catalog_columns.rs:55-59 | A session read on other machines only has the path named last. |
| `CatalogOwner.PathlessTakesFirstRemote` | crates/ai-hist/src/discover/catalog_columns.rs:55-59 | A local session without a path has the first another machine names. |
| `CatalogOwner.ProjectionDuringSweep` | crates/ai-hist/src/catalog_owner.rs:103-126 | During a sweep a Codex projection is kept out exactly when the owner is present and is not the rollout the sweep recorded for the session. |
| `CatalogOwner.MissingOwnerIsReplaced` | crates/ai-hist/src/catalog_owner.rs:78-86 | An owner whose file is gone lets the transcript being read claim the row, whatever sweeps are under way. |
| `CatalogOwner.FirstClaimStays` | crates/ai-hist/src/catalog_owner.rs:87-130 | Outside a sweep the first transcript to claim a row keeps it under any later reads while its file is there. |
| `CatalogOwner.LastClaimWinsInSweep` | crates/ai-hist/src/catalog_owner.rs:33-37 | In any sweep that began with no owner, the last transcript to name a path has the row. |
| `CatalogOwner.SnapshotOwner` | crates/ai-hist/src/catalog_owner.rs:33-57 | A sweep judges every read by the owner at its start, whatever it has written since. |
| `CatalogOwner.SweepErasesSiblings` | crates/ai-hist/src/catalog_owner.rs:33-76 | Over a session owned at its start, a sweep of any sessions erases sibling reads as reads outside it do, the title with the same exception. |
| `CatalogOwner.EmptyPathDisowns` | crates/ai-hist/src/catalog_owner.rs:93-98 | A read with an empty path takes the owner away; after any further reads that name no path the next transcript to name one has the row. |
| `Handoff.AfterIsBefore` | crates/ai-hist/src/store.rs:3334-3366 | The page query's three continuation cases admit exactly the rows after the cursor in the stream's own order, undated rows last. |
| `Handoff.ResumesAt` | crates/ai-hist/src/store.rs:3334-3366 | A cursor at the n-th row admits exactly the rows after it, however rows are stored. |
| `Handoff.PageAt` | crates/ai-hist/src/store.rs:3372-3411 | A page at the n-th row is the next ones, has a continuation exactly when more follow, and its checkpoint stands after its last row. |
| `Handoff.PromptsAt` | sdk-ts/src/handoff.ts:392-404 | Prompts filtered, sorted and sliced page just as the stored streams do. |
| `Handoff.Advances` | sdk-ts/src/handoff.ts:372-418 | One call hands over the next rows of all four streams and continues exactly while one of them does. |
| `Handoff.FollowHandoff` | sdk-ts/src/handoff.ts:372-431 | Following next_cursor to its end yields every row of every stream exactly once in its own order, in as many calls as the longest stream has pages. |
| `Handoff.InOrderIsTheStream` | sdk-ts/src/handoff.ts:392-394 | A stream in its own order has the same rows, each once, by time with undated rows last and by key where time does not tell. |
| `Handoff.RowsPerCall` | sdk-ts/src/handoff.ts:263-269 | A call takes 1 to 1000 rows of a stream, 200 unless told otherwise, and refuses any other number. |
| `Handoff.ShorterStreamWouldRestart` | sdk-ts/src/handoff.ts:411-418 | Without its checkpoint a finished stream would be read again from its first row; with it, nothing is. |
| `Relay.Attempt.Handle` | sdk-ts/src/relay-agents.ts:256-313 | Each event moves the attempt as its specification says. |
| `Relay.RequestSocket` | sdk-ts/src/relay-agents.ts:225-316 | An attempt over any events and its deadline always settles. |
| `Relay.StepKeeps` | sdk-ts/src/relay-agents.ts:230-313 | Every event keeps: settled once and for good, an answer within the size bound, an indeterminate result exactly for a sent mutation, no sending once dead. |
| `Relay.SettlesOnce` | sdk-ts/src/relay-agents.ts:242-247 | A settlement never changes, whatever still happens. |
| `Relay.UnsentStaysUnsent` | sdk-ts/src/relay-agents.ts:288-295 | An attempt settled unsent never goes out later. |
| `Relay.SentMutationIsDecided` | sdk-ts/src/relay-agents.ts:233-301 | A join or leave went out exactly when its attempt ends in an answer or an indeterminate result. |
| `Relay.RelayRequest` | sdk-ts/src/relay-agents.ts:130-166 | The loop stops at the first attempt that settles the request, and otherwise reports the worst failure met. |
| `RelayOutcomes.FailsUnsent` | sdk-ts/src/relay-agents.ts:297-313 | How an attempt ends whose socket fails before the request went out, by the system's error code. |
| `RelayOutcomes.FailsSent` | sdk-ts/src/relay-agents.ts:297-313 | How an attempt ends whose socket fails after the request went out: indeterminate for a join or leave. |
| `RelayOutcomes.TimesOut` | sdk-ts/src/relay-agents.ts:288-295 | How an attempt ends that nobody answers in time, sent or not. |
| `RelayOutcomes.AnswersWhole` | sdk-ts/src/relay-agents.ts:257-282 | An answer that comes to its end within 1 MiB is the attempt's, byte for byte. |
| `RelayOutcomes.AnswerBreaksOff` | sdk-ts/src/relay-agents.ts:238-241 | An answer that breaks off is invalid to a read and leaves a join or leave indeterminate. |
| `RelayOutcomes.AnswerTooLarge` | sdk-ts/src/relay-agents.ts:260-270 | So does one that grows past 1 MiB, at the chunk that takes it there. |
| `RelayOutcomes.AnswerStalls` | sdk-ts/src/relay-agents.ts:288-295 | An answer still coming in at the deadline is a timeout to a read and leaves a join or leave indeterminate. |
| `RelayOutcomes.NextIsTried` | sdk-ts/src/relay-agents.ts:140-156 | A candidate that denies, is busy or absent, or times out before the request goes out never keeps the next from being tried. |
| `RelayOutcomes.FirstAnswerIsGot` | sdk-ts/src/relay-agents.ts:140-157 | The caller gets the first answer behind candidates that never took the request. |
| `RelayOutcomes.NobodyTookIt` | sdk-ts/src/relay-agents.ts:158-165 | When no candidate took the request the caller hears of a denied one, else of a busy one, else that nothing is running. |
| `RelayOutcomes.TimeoutIsTold` | sdk-ts/src/relay-agents.ts:153-159 | A read that timed out after it went out is told before any other failure that was passed over. |
| `RelayOutcomes.EndsWithItsCode` | sdk-ts/src/relay-agents.ts:157-157 | An attempt that ends the request ends it in its own code. |
| `Relay.MutationGoesOutAtMostOnce` | sdk-ts/src/relay-agents.ts:130-166 | Over any candidates and events a join or leave goes out at most once, on the last candidate tried, and the caller then gets its answer or indeterminate_result, and neither otherwise. |
| `Relay.ReadsMayRepeat` | sdk-ts/src/relay-agents.ts:153-156 | A read that timed out after going out does let the next candidate be tried. |
| `Relay.CandidatesOnce` | sdk-ts/src/relay-agents.ts:175-179 | Candidates are exactly the given non-empty paths, none twice. |
| `Relay.CandidatesInOrder` | sdk-ts/src/relay-agents.ts:175-205 | Candidates stand in the order they are named first. |
| `Relay.MutationError` | sdk-ts/src/relay-agents.ts:318-359 | An answered mutation succeeds exactly on a success status with parsing data, never reports an unreadable success as a plain failure, and otherwise fails with the answer's own code or its HTTP status. |
| `Relay.HttpCodeTells` | sdk-ts/src/relay-agents.ts:329-329 | The code made of an HTTP status names that status and no other. |
| `ExportInstall.InstallSqliteExport` | crates/ai-hist-cli/src/export.rs:179-216 | With a failure at any step, in every state on the way the new database has no old sidecar beside it and until then every old sidecar is kept; it succeeds exactly when parking and replacing do; otherwise, if nothing more fails, the files are as they were. |
| `ExportInstall.SafeIsIntact` | crates/ai-hist-cli/src/export.rs:166-178 | A safe state, told by the names of the three sidecars: none beside the new database, each somewhere until it is there. |
| `ExportInstall.RestoreParkedSidecars` | crates/ai-hist-cli/src/export.rs:225-235 | Moving parked sidecars back is safe at every step and, without a failure, restores the files. |
| `ExportInstall.ParkAll` | crates/ai-hist-cli/src/export.rs:184-201 | Parking stops at the first failure, and has moved every sidecar aside when it does not fail. |
| `ExportInstall.ParkedIsSafe` | crates/ai-hist-cli/src/export.rs:169-178 | Any set of parked sidecars keeps the old database and every sidecar's content. |
| `ExportInstall.SidesApart` | crates/ai-hist-cli/src/export.rs:218-241 | Sidecar names, parked names and the database's own never coincide. |
| `ExportPages.ReadPage` | crates/ai-hist/src/export.rs:371-450 | A page is the longest run of rows that keeps the record, scan and byte caps; it is refused exactly when the envelope or the record that would open it is too large for any page. |
| `ExportPages.SizeAppends` | crates/ai-hist/src/export.rs:386-392 | Page sizes add up: records take their own size and one separator between any two. |
| `ExportPages.ServePage` | crates/ai-hist/src/export.rs:370-450 | The last page is served again unchanged, the next one moves the snapshot on; a page is served exactly when the snapshot is unexpired and is asked for its last page, or for its next and that fits. |
| `ExportRegistry.ExpireTakesTheFirst` | crates/ai-hist-napi/src/export.rs:116-125 | Expiring closes exactly the first min(limit, expired) expired snapshots and keeps the rest in order. |
| `ExportRegistry.Registry.Expire` | crates/ai-hist-napi/src/export.rs:116-125 | The retain loop leaves what expiring leaves and counts what it closed. |
| `ExportRegistry.Registry.CreateExport` | crates/ai-hist-napi/src/export.rs:165-186 | A new snapshot is registered, after expired ones are closed, exactly when its clock is valid and fewer than 32 are open. |
| `ExportRegistry.Registry.ExportPage` | crates/ai-hist-napi/src/export.rs:188-204 | Refused as not found exactly when no snapshot owns the cursor, as expired exactly when the first owner has expired, and served exactly when the first owner is live and can serve; an expired one is released. |
| `ExportRegistry.Registry.PerformAll` | crates/ai-hist-napi/src/export.rs:117-217 | Over every interleaving of create, page, close, expire and reaper steps at most 32 snapshots are open. |
| `ExportRegistry.ReaperWakesInTime` | crates/ai-hist-napi/src/export.rs:84-111 | After a sweep the reaper sleeps a second or to the earliest expiry if that is sooner, never past one, and without a deadline only when nothing is open. |
| `ExportRegistry.ForeignKeeps` | crates/ai-hist-napi/src/export.rs:117-217 | Whatever other clients and the reaper do, a snapshot is as its client left it or gone. |
| `ExportRegistry.OwnRead` | crates/ai-hist-napi/src/export.rs:188-204 | A page asked for with a snapshot's own cursor comes from that snapshot. |
| `ExportRegistry.ForeignLeavesOpen` | crates/ai-hist-napi/src/export.rs:117-217 | A snapshot nobody else names stays open while nobody's clock reaches its expiry. |
| `ExportRegistry.OwnReadIsServed` | crates/ai-hist-napi/src/export.rs:188-204 | Asked for with its own cursor before it expires, an open snapshot that can serve does. |
| `HistoryExport.ExportHistory` | sdk-ts/src/history-export.ts:73-90 | Among any interleaved clients an export yields a beginning of the frozen records in order, all of them when it completes, and never leaves its snapshot open; and it completes whenever there is room, its records fit, the consumer stays and no clock reaches the expiry. |
| `Shell.CommandReadsBack` | sdk-ts/src/operations.ts:1271-1289 | Read by the quoting rules of section 2.2 of the POSIX Shell Command Language the command is exactly the intended words, session id and project unchanged, exactly when neither holds a NUL. |
| `Shell.CommandOffered` | sdk-ts/src/operations.ts:1271-1284 | A command is offered exactly for a session with an id that can be on this machine and comes from one of five programs that resume. |
| `Shell.ReadQuote` | sdk-ts/src/operations.ts:1287-1289 | A quoted string reads back as itself in the middle of any text, and cannot be read at all when it holds a NUL. |
| `Hydration.HydrateSession` | sdk-ts/src/operations.ts:495-578 | The answer is the fold of the parts found with every failed connector noted; a local error the connectors cannot answer, the first cancellation or storage failure, or no part at all ends the call with that error instead. |
| `Hydration.FirstEndIs` | sdk-ts/src/operations.ts:556-566 | The call ends with what its first ending attempt ends it with: a cancellation, or a failure with one of six codes of the store and the native side. |
| `Hydration.PartsAndFailures` | sdk-ts/src/operations.ts:545-575 | Every connector's result is a part in its place, and every connector that threw is noted in its place. |
| `Hydration.PartsCount` | sdk-ts/src/operations.ts:545-575 | There are as many parts as the local answer and the connectors give, the local one first. |
| `Hydration.FailuresCount` | sdk-ts/src/operations.ts:567-575 | There are as many notes of failure as connectors threw. |
| `Hydration.FirstCodeIs` | sdk-ts/src/operations.ts:566-581 | With no part the caller hears of the first connector error that has a code. |
| `Hydration.MergeConforms` | sdk-ts/src/normalization.ts:849-954 | Merging two conforming results conforms: capability is the one the union entitles to. |
| `Hydration.MergeCapability` | sdk-ts/src/normalization.ts:849-856 | Whatever two parts claim, their merge is full exactly with every session kind, shallow exactly when both are and nothing is covered, else partial. |
| `Hydration.FoldConforms` | sdk-ts/src/normalization.ts:889-954 | A fold of conforming results conforms and covers exactly what some part covers. |
| `Hydration.FoldSelects` | sdk-ts/src/normalization.ts:895-901 | Status, presence, index position and session come from one part, and no part has a higher status. |
| `Hydration.RicherSpeaks` | sdk-ts/src/normalization.ts:894-901 | Of two presences the one with the higher status speaks for the merge, and of equal ones the one with the greater capability. |
| `Hydration.FoldMaxima` | sdk-ts/src/normalization.ts:937-943 | Every count is the greatest any part reports. |
| `Hydration.FoldSums` | sdk-ts/src/normalization.ts:945-950 | Bytes are the sum over all parts. |
| `Hydration.FoldKeepsNotes` | sdk-ts/src/normalization.ts:908-931 | All other diagnostics are kept in order, and a merge carries one coverage note of its own exactly when a session kind is missing. |
| `Hydration.NoteTells` | sdk-ts/src/normalization.ts:913-931 | Of a merge only the last diagnostic can be a coverage note; there is one exactly when a session kind is not covered, and it names what is covered and what is missing. |
| `Hydration.FoldRelates` | sdk-ts/src/normalization.ts:951-951 | Related sessions are the union, each once in a merge. |
| `Hydration.RelatedInOrder` | sdk-ts/src/normalization.ts:951-951 | A merge lists the related sessions of the earlier part first, in their order. |
| `Hydration.OrderDoesNotMatter` | sdk-ts/src/normalization.ts:889-954 | Permuting the inputs changes none of coverage, capability, counts, bytes and status. |
| `Hydration.FullIffAllKinds` | sdk-ts/src/normalization.ts:859-862 | Nothing is missing exactly when all five session kinds are covered. |

## Left out

- SQLite, SQL planning, full-text search, migrations and I/O errors: reads and writes are atomic steps that succeed, except where a failure is the point.
- ChangeFeed.Open: does not model the chain of retired epochs: an epoch is one number per database, and a watermark of any other is refused.
- Kinds given by an unknown name, and a consumer name checked on commit as it is on reading: a commit takes both as given.
- Committing on a read-only store, which is refused before anything is written.
- The reset of a feed when the exported schema changes: the store's columns are fixed.
- The rows' own columns: a change carries them as an opaque list.
- ChangeFeed.Dispatch: does not model reopening a store whose schema is stale, after which the page read is the same, nor storage errors.
- Non-finite `maxNodes`, which the walker refuses: node bounds are integers or absent.
- Walker.SessionDescendants: does not model edges changing between two pages of one walk; the edges are one graph.
- `getSessionTree` and agreement of its `truncated` flags with the walker's: the two walk in different orders and do differ.
- Parsing a JSON number into a double: a number is its spelling, and `spell` stands for how a literal is respelled once read.
- Symbol-keyed and inherited properties of a printed value, and values with getters.
- `deliveryRetryAfter` and the destination plugins: no state of their own.
- CatalogOwner.Catalog.Upsert: does not model the presence table beyond whether a row has local and remote presences, nor a row's project key, agent name, session kind and window start.
- CatalogOwner.SiblingsErased: does not model the Grok process log, which adds models to a Grok row after any write.
- `recorded_path_is` and `retained_observation`: comparisons and one query over the rows the model keeps.
- The catalog lookup with its repeated-cursor guard, the discovery retries and the hydration step of a handoff.
- Bounds on a handoff intent and reading the invoking session from the environment.
- HTTP bytes, the JSON of answers and timers of a relay request: only their abstract events; trimming of candidate paths.
- What `cd` and the resumed programs do with a word that begins with a dash: only the words are read back.
- Shell expansions, redirections and operators other than `&&`: the reader refuses text that uses them unquoted.
- The rename of a staged export over a symbolic link, and the check that an export is not the active database.
- Decoding of export rows, the selection's own matching and the origin id: a row is a record of some size or left out.
- The published export limits, command-line rendering, tool registration and the native loader.
- Which input wins each remaining scalar of a hydration fold: it depends on the order of three or more inputs.
- `discoverSessions` paging, `ensureLocalStore`, text search and usage snapshots.
