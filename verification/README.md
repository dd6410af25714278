# NotedThat, verified

A Dafny model of the parts of NotedThat whose guarantees hold over whole runs rather than
over one call, with proofs of those guarantees:

- **EventLog** — the in-process event log: a bounded ring, a lossy broadcast channel, and
  subscribers that join backlog to live events and answer a lag.
- **Scheduler**, **IndexWorker** — the indexing scheduler: per-file lanes, the ready queue,
  the concurrency bound, the permits, and the loops that drain it.
- **Text**, **ObjectPath**, **Listing**, **VectorIndex**, **Reconcile** — reconciliation:
  the paged walk over a changing store, the per-object `ETag` of the index, the two-cursor
  comparison, and a whole pass composed of the three.
- **Convergence** — what repeated passes, each followed by the indexer's handling of what it
  reported, come to while storage stands still.
- **Sessions** — who may use an MCP session, across every interleaving of requests.
- **ObjectStore**, **Staging**, **Ranges**, **Calendar**, **ScanScope** — conditional
  writes, body staging, byte and line ranges, civil dates, and scan narrowing.

State the source changes in place is a class whose methods are proved equal to a function on
values; the theorems are about those functions, over every sequence of actions.

## Assumptions

- The content hash is hexadecimal and injective (`GoodDigest`), and storage `ETag`s are not
  empty (`EtagsNonEmpty`).
- rmcp never issues a session id twice, and never the nil UUID (`Sessions.Enabled`). Requests
  may carry any id whatever; ownership is stated for the ids no request carried before they
  were released. Nothing is assumed about principals: a session opened without one is in the
  model.
- The indexer writes entries only under paths that parse to themselves (`Convergence.Normal`),
  and a listing and a `HEAD` of the same object report the same `ETag`.
- Event ids and permit counts stay below 2^64.
- A broadcast receiver reports a lag when more than `depth` entries are unread. `depth` is
  arbitrary and unrelated to the ring's capacity.

## What the proofs found

- A lag that a refill repairs can happen exactly when the channel is shallower than the ring
  (`RepairableIff`). The comment at memory.rs:102-104 is right that only a subscriber more than
  a ring behind loses events (`RefillEndsIff`, `RefillCatchesUp`), but the adapter asks for a
  channel as deep as the ring, and tokio may round that up. The channel is then never the
  shallower one, and every lag ends the stream (`DeepChannelLagIsFinal`). The guard for events
  the backlog already covered (memory.rs:121-123) is never taken (`NextIsSuccessor`).
- `Reconciliation::keys` is documented as being in key order (reconcile.rs:72). It is in raw
  key order. The paths are in order exactly when no leading `/` moves a differing key past an
  unslashed one, and strictly so exactly when it also turns none into another (`OrderIff`,
  `KeyOrderIff`); `SlashBreaksOrder` is an input for which they are not.
- A stored key with a leading `/` is reported as changed by every pass (`SlashedNeverClean`):
  it is looked up again under the path without the slash. Passes over storage that stands
  still come to rest after the first, and then report exactly the stuck keys (`Converges`,
  with `Stuck` spelling out the cases): slashed keys, objects without an `ETag`, objects with
  nothing to index that are not in step already or have a slashed twin, and private objects
  that the indexer finds fit to keep.
- A walk with a page size of 0 completes at once with nothing, which a comparison would take
  for mass deletion; with any other page size it is complete (`WalkEtagsPaged`). The caller's
  page size is 1000.
- A session opened with no principal on the request admits everyone (`Ownership`), as
  `bind_session` says in its log message.

## Model

| member | source | states |
|---|---|---|
| `EventLog.LogIsPublished` | crates/notedthat-events/src/memory.rs:135-148 | in every run the log is the published events, unchanged, in order and numbered from one |
| `EventLog.Delivery` | crates/notedthat-events/src/memory.rs:94-203 | for every capacity, channel depth and interleaving, a subscription has yielded exactly the events published to its knowledge base with ids in (start, cursor], each once, in order, across lag refills |
| `EventLog.SubscriptionDelivers` | crates/notedthat-events/src/memory.rs:150-203 | the same from the caller's side: whatever precedes and follows an accepted `subscribe(kb, after)`, delivery starts right after the requested id, or after the latest one |
| `EventLog.NextIsSuccessor` | crates/notedthat-events/src/memory.rs:94-130 | the entry about to be passed is always the cursor's successor, so no id is skipped and the already-covered branch is dead |
| `EventLog.GoneIff` | crates/notedthat-events/src/memory.rs:150-171 | a resume position is refused exactly when it is past the latest id or more than a ring behind it, that is, when some later id was evicted; agrees with the broker's test; a refusal names the position asked for and the first id that can still be had |
| `EventLog.BrokerGoneIff` | crates/notedthat-events/src/nats.rs:84-95 | the broker's test is exactly "ahead of the stream, or some id after the position precedes the first retained one", for empty streams too |
| `EventLog.LaggedThenGone` | crates/notedthat-events/src/memory.rs:100-116 | after a stream ends with `Lagged { resume_after: c }`, every later `subscribe(Some(c))` is `Gone`, whatever happens in between |
| `EventLog.RefillEndsIff` | crates/notedthat-events/src/memory.rs:100-116 | a refill gives up exactly when the subscriber is more than a whole ring behind |
| `EventLog.DeepChannelLagIsFinal` | crates/notedthat-events/src/memory.rs:41-54 | with a channel at least as deep as the ring, no lag is ever repaired |
| `EventLog.RefillCatchesUp` | crates/notedthat-events/src/memory.rs:100-116 | in every reachable state, a lag that finds the subscriber within the ring is repaired without losing an event: the refill and one step per event behind bring it level, everything since its start delivered |
| `EventLog.RepairableIff` | crates/notedthat-events/src/memory.rs:41-54 | a run with a repairable lag exists exactly when the channel is shallower than the ring |
| `EventLog.CatchesUp` | crates/notedthat-events/src/memory.rs:94-130 | a subscriber within the channel's depth is level with the log after one step per event behind, having delivered everything since its start |
| `EventLog.MemoryPublisher.constructor` | crates/notedthat-events/src/memory.rs:41-54 | starts empty with ids from one and a capacity of at least one |
| `EventLog.MemoryPublisher.Publish` | crates/notedthat-events/src/memory.rs:135-148 | appends to ring and channel, evicts from the front by popping until the ring fits, returns the id handed out |
| `EventLog.MemoryPublisher.Subscribe` | crates/notedthat-events/src/memory.rs:150-185 | the decision and snapshot of `subscribe`, leaving a subscription that satisfies the delivery invariant |
| `EventLog.Subscription.Poll` | crates/notedthat-events/src/memory.rs:94-130 | one atomic step of a stream; what it yields is the event right after the old cursor and of its knowledge base |
| `EventLog.Subscription.Refill` | crates/notedthat-events/src/memory.rs:100-116 | the lock-holding half of a lag |
| `EventLog.Subscription.PassOver` | crates/notedthat-events/src/memory.rs:120-129 | moves the cursor, delivering only the stream's own knowledge base |
| `Scheduler.Scheduling` | crates/notedthat-indexer/src/worker.rs:458-506 | in every reachable state, per key, finished then running equals started, and started then waiting equals accepted, in order; handlers have distinct keys, equal the active set and stay within the bound; ready holds, once, exactly the keys that wait without a handler |
| `Scheduler.StartsInReadyOrder` | crates/notedthat-indexer/src/worker.rs:483-500 | a key at position p of the ready queue starts after exactly p other starts, whatever accepts and finishes intervene |
| `Scheduler.SameFile` | crates/notedthat-indexer/src/worker.rs:455-456 | events share a lane exactly when they are about the same file |
| `Scheduler.NeverStalls` | crates/notedthat-indexer/src/worker.rs:230-242 | work left with nothing running can always be started |
| `Scheduler.IdleMeansHandled` | crates/notedthat-indexer/src/worker.rs:503-505 | idle with nothing running means every accepted event was handled exactly once, those of one key finishing in the order accepted |
| `IndexWorker.PermitsConserved` | crates/notedthat-indexer/src/queue.rs:70-121 | over every run, free permits, permits held by senders, and events in channel, lanes and handlers add up to capacity, so the reported depth is what is pending; `Full` exactly when all are out, `Closed` exactly when one is free and the worker has stopped |
| `IndexWorker.RefusalIsFree` | crates/notedthat-indexer/src/queue.rs:70-89 | a refused send changes nothing, its permit returned; an accepted event is last in the channel |
| `IndexWorker.TakenIsSent` | crates/notedthat-indexer/src/queue.rs:150-168 | while the worker runs, what it has taken followed by what is in the channel is what was sent, in order |
| `IndexWorker.StopIsFinal` | crates/notedthat-indexer/src/queue.rs:70-89 | after the worker stops nothing is accepted again and every permit is free or with a sender |
| `IndexWorker.QueueEmpties` | crates/notedthat-indexer/src/worker.rs:174-242 | from every state of a running worker some run handles everything exactly once, in order per key, and returns every permit no sender holds |
| `IndexWorker.IndexQueue.Offer` | crates/notedthat-indexer/src/queue.rs:70-89 | `try_send` on the semaphore and channel is the system's step whatever else is going on |
| `IndexWorker.Worker.Accept` | crates/notedthat-indexer/src/worker.rs:473-480 | queues behind earlier events of the key; the key becomes ready if it was neither waiting nor active |
| `IndexWorker.Worker.StartNext` | crates/notedthat-indexer/src/worker.rs:483-492 | starts the oldest ready key's next event, or reports that none is ready |
| `IndexWorker.Worker.Finish` | crates/notedthat-indexer/src/worker.rs:495-500 | frees the key, which is ready again if more events wait |
| `IndexWorker.Worker.StartReady` | crates/notedthat-indexer/src/worker.rs:208-228 | fills the slots or empties the ready queue, losing no event, and leaves something running unless nothing waits |
| `IndexWorker.Worker.Complete` | crates/notedthat-indexer/src/worker.rs:197-200 | whichever handler completes, exactly one running event becomes finished |
| `IndexWorker.Worker.Drain` | crates/notedthat-indexer/src/worker.rs:230-242 | terminates in every completion order with every accepted event handled exactly once, those of one key finishing in order |
| `IndexWorker.Worker.RunLoop` | crates/notedthat-indexer/src/worker.rs:174-205 | terminates in every schedule of completions, arrivals and shutdown, never waiting on nothing, with everything taken from the channel handled exactly once, those of one key finishing in order; without a shutdown, everything sent |
| `IndexWorker.Worker.Select` | crates/notedthat-indexer/src/worker.rs:184-203 | each pass of `select!` reduces the work left by one |
| `IndexWorker.Worker.Sweep` | crates/notedthat-indexer/src/worker.rs:186-189 | shutdown takes every event already in the channel, in order |
| `Text.LessIff` | crates/notedthat-core/src/reconcile.rs:82-86 | key order is lexicographic: by the first character that differs, or by which ends |
| `Text.TrimIff` | crates/notedthat-core/src/preconditions.rs:86-95 | trimming takes all the blanks off both ends and nothing else |
| `ObjectPath.ParseNormalises` | crates/notedthat-core/src/object_path.rs:66-99 | a parsed path is the input less at most one leading slash, never starts with one, and parses to itself |
| `ObjectPath.PathGrammar` | crates/notedthat-core/src/object_path.rs:66-99 | one leading slash aside, exactly the joins of one or more segments, none of them empty, `.` or `..` or holding a slash, backslash or NUL, are paths, and parse to themselves |
| `ObjectPath.InternalIff` | crates/notedthat-core/src/object_path.rs:7-14 | private keys are those whose first segment is `.notedthat` |
| `VectorIndex.FoldOne` | crates/notedthat-indexer/src/vector_store.rs:89-105 | merging one more chunk keeps each object's entry the `ETag` all its chunks carry, or empty when they disagree |
| `VectorIndex.IndexedObjects` | crates/notedthat-indexer/src/testing.rs:623-654 | sorted, one entry per object with chunks in scope, with the settled `ETag`, stated without reference to chunk order |
| `VectorIndex.IndexedEtagOf` | crates/notedthat-indexer/src/testing.rs:588-621 | answers an `ETag` exactly when every chunk carries it; for a non-empty one, exactly when the listing settles on it |
| `VectorIndex.OrderIrrelevant` | crates/notedthat-indexer/src/vector_store.rs:84-105 | permuting the chunks changes neither what is listed nor its `ETag` |
| `Listing.ListObjects` | crates/notedthat-core/src/testing.rs:547-610 | a sorted page of matching objects beyond the cursor, leaving out only greater keys; truncated exactly when it leaves some out, and then full to the limit or 1000, with a cursor for its last key; a bad cursor is refused |
| `Listing.WalkEtagsPaged` | crates/notedthat-core/src/reconcile.rs:269-292 | with arbitrary changes between pages, a completed walk read every page, is sorted, reports only what a listing held, and holds every key present throughout (page size at least 1); it fails only with the first listing that does; every page but the last is full, and it finishes within one page more than the keys fill |
| `Listing.WalkOne` | crates/notedthat-core/src/reconcile.rs:278-290 | a page ends the walk with everything present throughout, or is full and moves the walk past its last key |
| `Listing.CursorMoves` | crates/notedthat-core/src/reconcile.rs:318-335 | the store's cursors never repeat, so the walk's guards do not trip on it |
| `Listing.AdvanceIff` | crates/notedthat-core/src/reconcile.rs:318-335 | whatever a backend answers, the walk ends exactly on a page that announces no more, goes on exactly with a cursor it did not just send, and otherwise fails |
| `Reconcile.Compare` | crates/notedthat-core/src/reconcile.rs:114-206 | for an index side in order, repeats allowed: each stored key is kept or changed by the first index entry with its key, each index entry that repeats a key or has no object is orphaned, and exactly those are reported; without repeats the counts are the sizes of the raw-key sets and kept plus changed is what storage holds; `keys` is the paths in raw key order, in path order exactly when no slash is in the way |
| `Reconcile.OnDiskIff` | crates/notedthat-core/src/reconcile.rs:122-127 | the storage keys compared are the paths outside the private segment other than the four reserved ones |
| `Reconcile.Participation` | crates/notedthat-core/src/reconcile.rs:97-113 | any other stored key never counts as changed; an index entry for one that is a path is an orphan, and what is no path is on neither side |
| `Reconcile.MergeSides` | crates/notedthat-core/src/reconcile.rs:152-206 | the two-cursor loop classifies every entry of a sorted and an ordered side |
| `Reconcile.MergeOne` | crates/notedthat-core/src/reconcile.rs:158-203 | one turn advances a cursor and keeps counts and reported keys right |
| `Reconcile.MergePair` | crates/notedthat-core/src/reconcile.rs:163-173 | a key under both cursors is kept or changed by this pair alone |
| `Reconcile.Conclude` | crates/notedthat-core/src/reconcile.rs:114-206 | without repeated index keys the entry-by-entry tally is the set comparison |
| `Reconcile.ReconcilePass` | crates/notedthat-server/src/run/reconcile.rs:185-231 | a whole pass over a changing store takes nothing present throughout for an orphan, finds every real orphan, keeps only objects all of whose chunks carry an `ETag` storage reported, and leaves steady, fully indexed objects alone |
| `Reconcile.OrderIff` | crates/notedthat-core/src/reconcile.rs:72-77 | the reported paths are in key order exactly when losing a slash moves no reported key past another, and distinct exactly when it turns none into another |
| `Reconcile.KeyOrderIff` | crates/notedthat-core/src/reconcile.rs:72-77 | the same of the inputs to a comparison: strictly in key order exactly when slashes are harmless among the keys that differ |
| `Reconcile.PathsAreKeys` | crates/notedthat-core/src/reconcile.rs:72-77 | the reported paths are the raw keys exactly when none starts with a slash |
| `Reconcile.SlashBreaksOrder` | crates/notedthat-core/src/reconcile.rs:72-77 | an input to a comparison whose reported paths are not in key order |
| `Convergence.Converges` | crates/notedthat-server/src/run/reconcile.rs:185-231 | while storage stands still every pass after the first reports exactly the keys stuck to begin with, and is clean exactly when there were none |
| `Convergence.NextReports` | crates/notedthat-indexer/src/worker/pipeline.rs:76-279 | after a pass and the handling of what it reported, the next pass reports exactly the stuck keys |
| `Convergence.StuckStays` | crates/notedthat-indexer/src/worker/pipeline.rs:76-279 | a pass neither frees a stuck key nor makes another one stuck |
| `Convergence.HandledAllAt` | crates/notedthat-indexer/src/worker/pipeline.rs:76-279 | what handling leaves under a path depends only on whether it was reported, not on order or repetition |
| `Convergence.RunPass` | crates/notedthat-server/src/run/reconcile.rs:185-231 | listing both sides, comparing and handling every reported path is one such pass: clean exactly when nothing differs, and leaving exactly the stuck keys to report |
| `Convergence.SlashedNeverClean` | crates/notedthat-core/src/reconcile.rs:60-65 | a stored key with a leading slash is reported as changed by every pass |
| `Sessions.Ownership` | crates/notedthat-mcp/src/http.rs:376-464 | in every reachable state, of ids no request carried before release: a released session that rmcp holds and a principal opened has that principal recorded and admits it alone; no request ever forwarded to a held session came from another; and of every id, a record names only the opener |
| `Sessions.CommitKeeps` | crates/notedthat-mcp/src/http.rs:273-291 | the sweep's lock-order argument, with rmcp free to change between snapshot and sweep |
| `Sessions.RecordSweeps` | crates/notedthat-mcp/src/http.rs:284-291 | a record releases the new id under its opener and keeps exactly the records of sessions rmcp held when the lock was taken, so the table is at most that snapshot plus the new id |
| `Sessions.CheckDecides` | crates/notedthat-mcp/src/http.rs:391-426 | in every run, a check on a held session whose id was not carried early admits its opener's request as it came, and sends any other to rmcp under an id that names nothing |
| `Sessions.ForwardCarries` | crates/notedthat-mcp/src/http.rs:421-426 | an admitted request reaches rmcp with the id it carried; only a DELETE that rmcp accepts ends the session and sends its record off |
| `Sessions.ForgetRemoves` | crates/notedthat-mcp/src/http.rs:294-296 | forgetting removes that record and no other |
| `Sessions.OpenerServed` | crates/notedthat-mcp/src/http.rs:391-427 | a whole request from a session's opener is forwarded with its id, and a successful DELETE leaves neither session nor record |
| `Sessions.StrangerTurnedAway` | crates/notedthat-mcp/src/http.rs:391-420 | a whole request from anyone else leaves every table as it was |
| `Sessions.SessionOpens` | crates/notedthat-mcp/src/http.rs:429-433 | a request is let in exactly when fewer than the bound are held |
| `Sessions.SessionRecorded` | crates/notedthat-mcp/src/http.rs:434-444 | its response releases the session recorded under its opener |
| `Sessions.SessionUnbound` | crates/notedthat-mcp/src/http.rs:444-459 | one opened with no principal is released without a record |
| `Sessions.OvershootBounded` | crates/notedthat-mcp/src/http.rs:367-375 | with at most n requests in flight the number of sessions stays below the bound plus n |
| `Sessions.SameOwner` | crates/notedthat-mcp/src/http.rs:189-208 | owners coincide exactly for principals that differ at most in groups |
| `Sessions.McpSessions.Admit` | crates/notedthat-mcp/src/http.rs:260-265 | an unrecorded id is admitted, a recorded one only for its owner |
| `Sessions.McpSessions.Record` | crates/notedthat-mcp/src/http.rs:284-291 | the table afterwards, and that it holds nothing but live ids and the new one |
| `Sessions.McpSessions.Forget` | crates/notedthat-mcp/src/http.rs:294-296 | removes the one record |
| `ObjectStore.EtagsAreHashes` | crates/notedthat-core/src/testing.rs:409-545 | in every run of puts, copies and deletes each object's `ETag` is the hash of its bytes |
| `ObjectStore.PutDecided` | crates/notedthat-core/src/testing.rs:409-438 | in every reachable state and for every pair of conditions, a PUT succeeds exactly when the bucket is there, the object meets `If-Match` and `If-None-Match` does not stop it; what is then stored and answered; each refusal changes nothing |
| `ObjectStore.CopyDecided` | crates/notedthat-core/src/testing.rs:472-520 | the same of a COPY, with its source and the condition on it |
| `ObjectStore.DeleteDecided` | crates/notedthat-core/src/testing.rs:522-545 | the same of a DELETE: the key is gone, the answer says whether it was there, and no other object moves |
| `ObjectStore.CompareAndSwap` | crates/notedthat-core/src/preconditions.rs:86-150 | in every reachable state a PUT or DELETE with `If-Match` on the `ETag` of some bytes succeeds exactly when the object holds those bytes, and otherwise changes nothing |
| `ObjectStore.IssuedEtagNamesBytes` | crates/notedthat-core/src/testing.rs:409-520 | a put or copy answers with the `ETag` of the bytes now stored, says whether the key was new, keeps or replaces the content type as asked, and moves no other object |
| `ObjectStore.IfMatchList` | crates/notedthat-core/src/preconditions.rs:80-95 | a comma-separated list of issued tags, strong or marked weak any number of times, matches as `If-Match` exactly the bodies its strong tags were issued for |
| `ObjectStore.IfNoneMatchList` | crates/notedthat-core/src/preconditions.rs:97-116 | as `If-None-Match` it matches exactly the bodies any of its tags was issued for |
| `ObjectStore.GoneMeansDeleted` | crates/notedthat-core/src/testing.rs:522-545 | only a delete makes an object disappear |
| `ObjectStore.CreatesAreSeparated` | crates/notedthat-core/src/preconditions.rs:97-150 | two successful `If-None-Match: *` writes of a key always have a delete between them |
| `ObjectStore.InMemoryStorage.PutObject` | crates/notedthat-core/src/testing.rs:409-438 | new store and outcome, refusals included |
| `ObjectStore.InMemoryStorage.CopyObject` | crates/notedthat-core/src/testing.rs:472-520 | new store and outcome, refusals included |
| `ObjectStore.InMemoryStorage.DeleteObject` | crates/notedthat-core/src/testing.rs:522-545 | new store and outcome, refusals included |
| `Staging.StageStream` | crates/notedthat-core/src/staging.rs:107-190 | success, stored bytes and kind of refusal depend only on the joined body; file-backed exactly when forced or over the threshold; the memory buffer never exceeds it and reaches the longest stretch of chunks that fits; a too-large refusal names the declared length or what the first chunk past the limit came to |
| `Ranges.BytesRoundTrip` | crates/notedthat-core/src/range.rs:76-82 | printing then parsing a byte range returns it exactly when its bounds are in order |
| `Ranges.LinesRoundTrip` | crates/notedthat-core/src/range.rs:120-127 | printing then parsing a line range, inserts included, returns it exactly when it is well formed |
| `Ranges.ParsedBytesReprint` | crates/notedthat-core/src/range.rs:280-309 | what the byte parser accepts is well formed and reads the same when printed |
| `Ranges.ParsedLinesReprint` | crates/notedthat-core/src/range.rs:319-369 | what the line parser accepts is well formed and reads the same when printed |
| `Ranges.ByteGrammar` | crates/notedthat-core/src/range.rs:371-405 | the byte parser accepts exactly the int-range and suffix-range grammar of section 14.1.1 of RFC 9110 within 64 bits, with the range spelled |
| `Ranges.LineGrammar` | crates/notedthat-core/src/range.rs:337-369 | the line parser accepts exactly its grammar: lines from 1, and an end just before the start meaning an insert |
| `Ranges.RangeHeaderReads` | crates/notedthat-core/src/range.rs:280-309 | what a `Range` header with a unit reads as: an unknown unit is kept and its range ignored; `bytes` in any case takes one range between blanks, of exactly the grammar; and each refusal |
| `Ranges.LineHeaderReads` | crates/notedthat-core/src/range.rs:319-369 | the same of a line header, whatever its unit |
| `Ranges.HeaderWithoutUnit` | crates/notedthat-core/src/range.rs:280-285 | a header without `=` is refused, empty or not |
| `Ranges.ByteRefusals` | crates/notedthat-core/src/range.rs:371-405 | a spec is refused as an overflow exactly when a number too large is the first thing wrong, and otherwise by name |
| `Ranges.LineRefusals` | crates/notedthat-core/src/range.rs:337-369 | the same of a line spec |
| `Ranges.DecimalReads` | crates/notedthat-core/src/range.rs:399-405 | a printed number is all digits without a leading zero and reads back as itself |
| `Ranges.PrintedForms` | crates/notedthat-core/src/range.rs:76-127 | a range prints as its unit and the plain decimals of its bounds, spelling it in the grammar the parsers read |
| `Ranges.ResolvesToIntersection` | crates/notedthat-core/src/range.rs:85-110 | a byte range resolves to exactly the positions it asks for that the object has, within 64 bits, and to nothing exactly when there are none |
| `Ranges.FromBytes` | crates/notedthat-core/src/range.rs:145-177 | line starts are exactly 0 and the positions after each newline that is not final, the carriage-return branch changing nothing |
| `Ranges.LinesPartition` | crates/notedthat-core/src/range.rs:143-177 | lines are non-empty, hold a newline only at their end, have one unless last, and join to the object |
| `Ranges.RangeIsItsLines` | crates/notedthat-core/src/range.rs:180-258 | every satisfiable line range is exactly the lines it asks for, which are those its `Content-Range` names, joined; and which ranges are satisfiable |
| `Calendar.RendersDate` | crates/notedthat-core/src/events.rs:413-431 | every day count renders a valid Gregorian date |
| `Calendar.RendersSuccessor` | crates/notedthat-core/src/events.rs:420-429 | the next day count renders the calendar successor, leap days, centuries and eras included |
| `Calendar.CountsBack` | crates/notedthat-core/src/events.rs:420-429 | counting a rendered date's days year by year and month by month gives back the day count |
| `Calendar.StampRoundTrip` | crates/notedthat-core/src/events.rs:413-431 | date and time recombine to the seconds given, or to 0 if they are negative |
| `Calendar.FitsI64` | crates/notedthat-core/src/events.rs:413-431 | no intermediate leaves the 64-bit range |
| `ScanScope.NarrowingIsExact` | crates/notedthat-api-http/src/authz.rs:208-229 | the chosen prefix covers every key both asked for and granted, nothing outside the request or the granted segment, and `Disjoint` exactly when no key is both |

## Left out

- HTTP routing, middleware, JSON envelopes, status mapping and metrics: wiring with no deep property.
- The S3, filesystem, Qdrant and JetStream adapters and OIDC: foreign systems; rmcp is a set that may drop sessions at any time.
- Inside the indexing pipeline, snapshots, chunking and embedding, and search ranking: `Convergence` takes as given which objects are indexable and yield chunks.
- Read preconditions, `If-Range` and HTTP dates: case tables over an external date parser.
- Closing of an event stream: a subscription holds the sender its receiver reads from, so the channel cannot close under it.
- Events sent after the shutdown sweep, and the drain timeout: nothing is claimed of them.
- `IndexQueueSender::from_mpsc`: a raw channel for fixtures that no worker drains.
- Reachability errors and the manifest of the in-memory store, and read and write failures while staging: each is returned as it comes.
- The zero-padded text of a timestamp and of a `Content-Range`: the numbers they print are modelled.
- `Sessions.Ownership`: claims no owner for an id that a request carried before rmcp released it, which for version 4 UUIDs is taken not to happen.
- `Convergence.Converges`: storage and indexing steps that fail are outside it, but for the missing `ETag`; storage that changes between passes is `Reconcile.ReconcilePass`.
