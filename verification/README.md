# Verified models of the daemon's stateful core

A Dafny model of the parts of the daemon whose correctness is not visible from one function body:
the durable event log with its replay-to-live handoff, the optimistic file saves, the file watcher's
suppression and throttling, the pairing rate limiter, the preview tickets, and three text and list
transformations. `dafny verify dfyconfig.toml` checks everything.

Where the source changes an object in place, the model is a class whose methods are proved equal to
functions on values; the theorems are about runs of those functions. Where the source interleaves
tasks, the model is a state machine over the points at which the code can be interrupted, and the
theorems quantify over all its runs.

## Modules

| file | what it models |
|---|---|
| `Events`, `EventStore`, `Timestamps`, `Decimals` | the event table, its queries and pruning, the stored timestamp text |
| `EventPaging`, `PagingDeletions`, `ForwardPaging` | the HTTP cursor encoding and clients that page back or poll forwards, while rows are appended, pruned or deleted by age |
| `Publisher`, `Receiving` | the event bus, its broadcast ring and one subscription; exactly what one read answers |
| `Handoff`, `LagRecovery` | all interleavings of writers, pruning and a client that re-subscribes after lag |
| `ReplayLimit`, `PublishOrder`, `CrossedWriters`, `MissedRows` | exactly when the replay limit, or the order of publishes, loses events; exactly what is missed over any run |
| `FileSaves`, `FileRegister`, `FileCache` | all interleavings of saves: locks, linearisation, base-content cache |
| `FileSync` | the object itself, method by method, tied to the interleaving model |
| `LockCollection` | exactly which lock entries stay behind |
| `Fswatch`, `FswatchVerdicts` | the watcher's state and its unbounded counterpart; each verdict read off the operations before it |
| `PairRate` | the per-peer token bucket with eviction |
| `Preview` | one-time preview tickets and cookies |
| `Utf8`, `Conversation` | transcript export and truncation |
| `GitStatus` | the NUL-separated status parser |
| `PromptContext` | the shared path budget of a prompt |
| `LruCaches`, `KeptRows`, `Options`, `Sequences` | a recency list with a capacity, selections of log rows, option and result types, a sequence law |

## Where the code and its promises differ

The model follows the code. These are the places where a promise holds only under a condition, and the
member that gives the condition or a concrete failure.

- No gap in the handoff needs four things the code does not enforce; each loss is characterised exactly.
  - Order of publishes: a client that never lags gets the whole log if and only if its replay covers what was
    published before its registration and the ids above its replay are published in increasing order from then on
    (`PublishOrder.NothingIsLostIff`). When its replay covers, it misses exactly the overtaken ids
    (`PublishOrder.CoveredMissesTheOvertaken`; a losing run is `CrossedWriters.CrossedPublishesLoseAnEvent`).
  - Replay limit: a subscription skips nothing if and only if the rows above its cursor that were published before
    its registration fit the limit (`ReplayLimit.SkipsNothingIffNotShort`, over runs
    `ReplayLimit.CaughtUpMissesNothingIff`). With the code's own limit of 1000,
    `ReplayLimit.ReplayLimitLosesARow` loses row 1001 without any lag or crossing.
  - Pruning above the cursor: the rows lost are those below the end of the replay, or already published, that are
    no longer in the table (`LagRecovery.DeliveredIsLogWithoutSkips`).
  - All together, for any order of publishes, any number of lags and any pruning: the client has the log without the
    rows deleted below the end of a replay and those a live event passed over because they were published before
    the registration or not before that event (`MissedRows.DeliveredIsLogWithoutMissed`).
  - Strict reads: `recv_or_lag`, followed by a new subscription after a lag. `recv` reads on and is covered by the
    ordering theorems only.
- `last_seen_id` is documented as the highest id delivered. The code sets it to the last replayed id when the
  subscription is made; the two agree exactly when the replay has been drained
  (`Handoff.LastSeenIsDeliveredIffDrained`, a state where they differ is `Handoff.UndrainedCursorIsAhead`).
- Age pruning compares stored text. For cutoffs in the years 0 to 9999 it is chronological exactly when no stored
  year exceeds 9999 (`EventStore.AgePruningIsChronological`; a row of a later year is `EventStore.Year10000IsPruned`).
- `track_file` takes no file lock, so its look, its assignment and its cache put interleave with saves.
  - Its second half does what an uninterrupted tracking would do exactly if the file is still untracked, or is at
    revision 1 with the same content as the most recent cache entry (`FileSync.LateTrackIsAtomicIff`).
  - One save in between leaves the revision right and the cache stale (`FileSync.TrackFileOverlappingOneSave`); two
    saves also take the revision down (`FileSync.TrackFileOverlappingSaves`).
  - Over runs, the revisions are at every moment those of a serial compare-and-set register if and only if every
    tracking assigns while the file is untracked or at revision 1, and no save checked before that assignment
    goes on to set a revision, or to fail, on a revision it would no longer accept
    (`FileRegister.SavesRefineRegister`).
- Lock entries are documented as evicted after the operation. The code calls `gc_lock` only after a save that went
  through, and only after dropping its own references. At any moment a key has an entry if and only if one of its
  saves holds a reference, or the last thing that happened to its mutex is that a reference was given up and not
  that `gc_lock` was called (`LockCollection.EntryStaysIff`). So stale, failed and cancelled saves leave the entry
  (`FileSync.SaveAloneStops`), and so can a save that went through, when a stale one begins before its `gc_lock`
  (`LockCollection.OverlappedEntryStays`).
- The status parser replaces bytes that are not UTF-8, rewrites backslashes, and reads a second path only when the
  index code is a rename or copy. Parsing undoes printing if and only if every name is valid UTF-8 without a
  backslash and no original path stands behind a record with another index code (`GitStatus.ParsingUndoesPrinting`).
  One failing listing for each kind: `GitStatus.InvalidNameIsReplaced`, `GitStatus.WorktreeRenameIsMisread`, and
  `GitStatus.StrayNamePanics`, where the misread path makes the parser slice inside a character.

## Model

| member | source | states |
|---|---|---|
| `EventStore.Store.Open` | src/events/store.rs:64-120 | an opened store has the rows and used ids of the database file; a new file is the case of none |
| `EventStore.Store.Append` | src/events/store.rs:141-162 | an append adds one row behind all others with an id never used before, stamps a zero time, and changes nothing when no id is left |
| `EventStore.Store.Prune` | src/events/store.rs:308-323 | keeps exactly the newest rows, reports how many went, refuses a non-positive count |
| `EventStore.Store.Delete` | src/events/store.rs:544-560 | removes exactly the rows a condition selects and keeps the order and ids of the rest |
| `EventStore.Store.PruneOlderThan` | src/events/store.rs:331-351 | removes exactly the rows whose stored text sorts before that of now minus the age; for a cutoff in years 0 to 9999 these are the rows older than the age if and only if no stored year exceeds 9999; refuses a zero age |
| `EventStore.WithoutKeepsOrder` | src/events/store.rs:544-560 | deletion removes exactly the rows that meet the condition and leaves the ids strictly increasing |
| `EventStore.WeakerDeletesMore` | src/events/store.rs:331-351 | a weaker deletion condition keeps fewer rows, and the same rows exactly if it agrees on every row |
| `EventStore.AgePruningIsChronological` | src/events/store.rs:331-351 | for a cutoff in years 0 to 9999, deleting by text order deletes exactly the chronologically older rows if and only if no stored year exceeds 9999 |
| `EventStore.LateRowIsPruned` | src/events/store.rs:331-351 | any row of a later year is deleted although it is newer than the cutoff |
| `EventStore.Year10000IsPruned` | src/events/store.rs:331-351 | a concrete such row: the year 10000, deleted as older than 2024 |
| `Timestamps.EarlierIsChronological` | src/events/store.rs:331-351 | the calendar order of two UTC times is the order of their distance in nanoseconds, leap years included |
| `Timestamps.FractionOrder` | src/events/store.rs:150-156 | fractions printed with 0, 3, 6 or 9 digits, followed by the offset, sort as the fractions do |
| `Timestamps.TextOrderInRange` | src/events/store.rs:150-156 | for years 0 to 9999 the byte order of the printed times is the calendar order although digit counts differ |
| `Timestamps.TextOrderIsChronological` | src/events/store.rs:331-351 | against a cutoff in years 0 to 9999 a stored text sorts before it if and only if the time is earlier or its year exceeds 9999 |
| `EventPaging.CursorSelectsPageBefore` | src/api/events.rs:25-38 | -(id+1) selects the last rows before id for every id, and -1 selects the tail |
| `EventPaging.StoreKeepsWindow` | src/events/store.rs:308-323 | one append or row-count prune moves one end of a window of the history |
| `EventPaging.TableIsWindow` | src/events/store.rs:141-162 | after any run of appends and row-count prunes the table is a window of the history |
| `EventPaging.RunsAdvance` | src/events/store.rs:308-323 | the tables seen at any later and later moments of any run are windows that only move forwards |
| `EventPaging.PagingReassemblesHistory` | src/events/store.rs:201-233 | over advancing windows: pages fetched backwards until one is empty and prepended are exactly the session's rows present at the first request, in order and once each; row-count pruning meanwhile can only cut off the oldest |
| `EventPaging.PagingOverAnyRun` | src/events/store.rs:201-233 | the same for requests at any moments of any run of appends and row-count prunes |
| `EventPaging.PagingTerminates` | src/events/store.rs:201-233 | the client meets an empty page after at most one request more than there are rows |
| `PagingDeletions.PageRows` | src/api/events.rs:25-38 | a page is exactly the selected rows from its first one up to the bound, and empty only if there are none |
| `PagingDeletions.TablesNeverReturn` | src/events/store.rs:308-351 | in any run of appends, row-count prunes and deletions by any condition, deleted rows never return and new rows have ids above all earlier ones |
| `PagingDeletions.PagingOverDeletions` | src/events/store.rs:201-233 | over any such run the pages are, in order and once each, exactly those of the session's rows in the first table that are still there when the page that reaches down to them is fetched |
| `ForwardPaging.ForwardPage` | src/api/events.rs:34-68 | without a negative cursor a page is in order the first rows with a larger id, of the session if one is named: what is left out is above the whole page, and the page is then full; at most 1000 rows by default, 10000 in any case, as many as asked for otherwise |
| `ForwardPaging.NothingIsPassedOver` | src/events/store.rs:164-199 | a client that polls behind the last row of each page until one is empty has every row of the current table above its first cursor |
| `ForwardPaging.PollingOverAnyRun` | src/events/store.rs:164-199 | over any run of appends and deletions the polled pages are, in order and once each, exactly the rows above the first cursor still there when the request that reaches up to them is made, and all of the current table once a page is empty |
| `Publisher.EventBus.constructor` | src/events/publisher.rs:57-70 | a new bus has an empty ring of 1024 messages over the given store |
| `Publisher.EventBus.AppendAndPublish` | src/events/publisher.rs:101-106 | the id is assigned durably before the event is sent; a failed append sends nothing |
| `Publisher.EventBus.SetLiveFanout` | src/events/publisher.rs:86-94 | installs the WebSocket fan-out |
| `Publisher.EventBus.PublishLive` | src/events/publisher.rs:111-125 | sends the event to the ring, and to the WebSocket fan-out if one is installed |
| `Publisher.EventBus.Publish` | src/events/publisher.rs:290-299 | an event without a durable id is refused and not sent |
| `Publisher.EventBus.Subscribe` | src/events/publisher.rs:139-159 | the receiver is registered at the end of the ring before the log is queried; the loop over the replay yields the largest replayed id |
| `Publisher.EventSubscription.RecvOrLag` | src/events/publisher.rs:218-251 | the two loops return the first replayed or live event above the last seen id, or lag, or closed, and advance the subscription to just behind it |
| `Receiving.ReplayComesFirst` | src/events/publisher.rs:218-227 | while there is replay left, a call hands out its next event and does not look at the channel |
| `Receiving.LiveAnswer` | src/events/publisher.rs:229-250 | with the replay drained: lag if and only if unread messages have left the ring, with their number; else an event if and only if an unread message has an id above the last seen one; else waiting or closed as the channel is open or not |
| `Receiving.LiveState` | src/events/publisher.rs:229-250 | the event is the first unread one above the last seen id, which becomes its id; the position ends just behind it, at the oldest retained message after a lag, at the end otherwise |
| `Receiving.CallIsReads` | src/events/publisher.rs:218-251 | one undisturbed call is a run of the strict reads of the interleaving model and adds exactly the event it answers to what the client has |
| `Handoff.DeliveryIsStrictlyIncreasing` | src/events/publisher.rs:213-257 | in every interleaving, with any publish order, duplicates, pruning and lags, the client is handed strictly increasing ids above its first cursor |
| `Handoff.LastSeenIsDeliveredIffDrained` | src/events/publisher.rs:253-257 | the last seen id is the last delivered id if and only if the replay has been drained |
| `Handoff.UndrainedCursorIsAhead` | src/events/publisher.rs:253-257 | a run after which it is the id of an event not handed out yet |
| `Handoff.DeliveredIsPersisted` | src/events/publisher.rs:101-125 | with writers that persist first, every event handed out is in the log at that moment |
| `CrossedWriters.CrossedPublishesLoseAnEvent` | src/events/publisher.rs:101-125 | a run with two writers that publish in the opposite order of their ids: the client reads everything and never gets the first event |
| `LagRecovery.ReplayIsKept` | src/events/publisher.rs:139-159 | the replay is exactly the log from the cursor to the end of the replay without the skipped rows |
| `LagRecovery.StepKeepsRecovery` | src/events/publisher.rs:101-159 | every append, publish, prune of either kind, registration, query and read keeps: delivered plus undelivered is the log without the skipped ids |
| `LagRecovery.DeliveredIsLogWithoutSkips` | src/events/publisher.rs:213-257 | with in-order publishes, after any number of lags, each answered by a new subscription, and any pruning, the client has exactly the log up to its last id except the rows its replays left out although they lay below the end of a replay or had been published before that registration |
| `LagRecovery.CaughtUpMissesExactlyTheSkips` | src/events/publisher.rs:213-257 | a client that has caught up misses exactly the skipped ids, and nothing if and only if none was skipped |
| `ReplayLimit.SkipsNothingIffNotShort` | src/events/publisher.rs:139-159 | a subscription on a table with all rows above its cursor skips nothing if and only if the rows above the cursor published before its registration fit the limit |
| `ReplayLimit.CaughtUpMissesNothingIff` | src/events/publisher.rs:213-257 | over runs: a caught-up client has the whole log above its first cursor if and only if its current subscription was within the limit and no earlier one beyond it handed out a live event |
| `ReplayLimit.CoveredRunsSkipNothing` | src/events/publisher.rs:139-159 | if every subscription of a run is within the limit, none skips an id |
| `ReplayLimit.NoGapInHandoff` | src/events/publisher.rs:101-159 | then the client has exactly the log's ids above its first cursor up to the last one handed out, also those appended or published between registration and query |
| `ReplayLimit.ReplayLimitLosesARow` | src/events/store.rs:29-30 | a run at the limit of 1000 in which 1001 rows are published before the subscription, everything is read, and row 1001 is never delivered |
| `PublishOrder.RecordsAreNotOvertaken` | src/events/publisher.rs:226-240 | dropping ids at or below the last seen one keeps exactly the events no higher id came before |
| `PublishOrder.LiveDeliveriesAreRecords` | src/events/publisher.rs:218-251 | for any publish order and any earlier lags, what the current subscription hands out is its replay followed by the running maxima above it of the messages from its position on |
| `PublishOrder.SubscriptionMissesExactly` | src/events/publisher.rs:101-159 | a row above the cursor is never handed out if and only if its id exceeds the end of the replay and it was published before the registration or after a higher id |
| `PublishOrder.CoveredMissesTheOvertaken` | src/events/publisher.rs:101-159 | when the replay covers what was published before, the missed rows are exactly the overtaken ones |
| `PublishOrder.SubscriptionIsCompleteIff` | src/events/publisher.rs:101-159 | a subscription that has read everything handed out the whole log above its cursor if and only if its replay covers what was published before and the ids above it were published in order from then on |
| `PublishOrder.NothingIsLostIff` | src/events/publisher.rs:101-159 | the same for the whole run of a client that never lags |
| `MissedRows.GapIsPassedOver` | src/events/publisher.rs:226-240 | a row between the cursor and a live event above it was published before the subscription was registered or not before that event |
| `MissedRows.DeliveredIsLogWithoutMissed` | src/events/publisher.rs:213-257 | for persisted publishes in any order, any number of lags and any pruning, delivered plus undelivered is the log up to the cursor without the rows deleted below the end of a replay and those passed over by a live event |
| `MissedRows.ReadEverythingMissesExactly` | src/events/publisher.rs:213-257 | a client that has read everything misses exactly these rows and those above its cursor published before its registration, and nothing if and only if there are none |
| `FileSaves.SoleCountMeansNoClones` | src/files/mod.rs:141-149 | a reference count of one means that no save has the mutex |
| `FileSaves.LockInvStep` | src/files/mod.rs:117-149 | every step, collection and cancellation included, keeps: the map entry is the mutex of every save with a reference for that key, and a guarded save owns it |
| `FileSaves.MutualExclusion` | src/files/mod.rs:204-270 | in every reachable state no two saves are inside the guarded section of one key, also after a save was dropped while its blocking write runs |
| `FileSaves.LocksAreCollected` | src/files/mod.rs:141-149 | in every run from an empty map each lock entry belongs to some save of that key that is in progress or ended without going through |
| `LockCollection.EntryStaysIff` | src/files/mod.rs:141-149 | in every reachable state a key has an entry if and only if a save of it holds a reference, or the last of all references given up and collections of that key was a reference given up |
| `LockCollection.OverlappedEntryStays` | src/files/mod.rs:264-270 | a save that goes through while a stale save of the same file begins before its collection: both end and the entry stays |
| `FileRegister.StepIsSerialIff` | src/files/mod.rs:190-302 | one step is one step of a compare-and-set register if and only if a tracking finds its file untracked or at revision 1, and a save finds the revision it read when it sets it, or one it expects when its write fails |
| `FileRegister.SavesRefineRegister` | src/files/mod.rs:190-302 | every interleaving of saves, cancellations, reads and trackings is at every moment a serial history of the register ending in the current revisions, if and only if every step met that condition |
| `FileRegister.ApartTrackingsAreSerial` | src/files/mod.rs:190-302 | it does when trackings assign while their file is untracked or at revision 1 and no save of it is in its guarded section |
| `FileRegister.EachSaveTakesEffectOnce` | src/files/mod.rs:190-270 | a finished save stands in that history exactly once with the outcome its caller got; a cancelled one at most once |
| `FileRegister.AnswersAreSerial` | src/files/mod.rs:190-270 | every answered call got the answer of its place in the serial order |
| `FileRegister.OrderRespectsRealTime` | src/files/mod.rs:190-270 | a save answered before another began comes first in the serial order |
| `FileRegister.InstantCallsRespectRealTime` | src/files/mod.rs:277-302 | a read or tracking comes after every save answered before it, before every save begun after it, and in step order with other reads and trackings |
| `FileRegister.RevisionCountsSaves` | src/files/mod.rs:190-270 | from being tracked on, a key's revision grows by exactly the number of saves that went through, so it never goes down |
| `FileRegister.OneSavePerExpectedRevision` | src/files/mod.rs:190-270 | saves of a tracked key that go through expect strictly increasing revisions |
| `FileRegister.TrackedFilesAreCompareAndSet` | src/files/mod.rs:190-285 | both of these for every run that is a serial history of the register |
| `FileCache.CacheInvStep` | src/files/mod.rs:251-272 | every step keeps: cached content of a settled file is what is on disk, and a save between its write and its cache put wrote what is on disk |
| `FileCache.CacheAgreesWithDisk` | src/files/mod.rs:251-272 | in every reachable state, trackings interleaved anywhere, the cache is within its capacity and agrees with the disk for every file with no save between write and put and nothing astray |
| `FileCache.TrackPutAgreesIff` | src/files/mod.rs:290-302 | the put of a tracking leaves cache and disk in agreement if and only if the content it was called with is still on disk |
| `FileCache.CacheShowsLastCompletedSave` | src/files/mod.rs:305-317 | through any evictions, reads and forgets a cached entry is the content of the last completed save or tracking |
| `FileSync.FileSync.WithCapacity` | src/files/mod.rs:95-104 | empty maps and a cache of at least one entry |
| `FileSync.FileSync.LockFor` | src/files/mod.rs:117-137 | one mutex per key, made on first use and cloned once |
| `FileSync.FileSync.GcLock` | src/files/mod.rs:141-149 | removes the entry if and only if nobody else has the mutex |
| `FileSync.FileSync.CurrentRev` | src/files/mod.rs:153-159 | tells an untracked file from one at revision 0 |
| `FileSync.FileSync.SetRev` | src/files/mod.rs:162-165 | changes the revision of one key |
| `FileSync.FileSync.SaveGuarded` | src/files/mod.rs:206-262 | the guarded section: a stale save changes nothing, a failed write changes only the disk, a save that goes through changes disk, revision and cache of its key only |
| `FileSync.FileSync.SaveInner` | src/files/mod.rs:190-273 | the whole save, with lock creation and collection; other holders keep their counts |
| `FileSync.FileSync.CurrentRevision` | src/files/mod.rs:277-285 | the revision of a tracked file, 0 otherwise |
| `FileSync.FileSync.TrackFile` | src/files/mod.rs:290-302 | uninterrupted: a new file gets revision 1 and its content is cached; a tracked one is left alone |
| `FileSync.FileSync.TrackUntracked` | src/files/mod.rs:294-297 | the half behind the look assigns revision 1 and puts the content, whatever happened since |
| `FileSync.FileSync.GetBaseContent` | src/files/mod.rs:305-310 | answers what is cached and changes only the recency order |
| `FileSync.FileSync.Forget` | src/files/mod.rs:313-317 | drops the cached content and keeps the revision |
| `FileSync.LateTrackIsAtomicIff` | src/files/mod.rs:290-302 | that half is what an uninterrupted tracking would do at that moment if and only if the file is untracked, or at revision 1 with this content as the most recent cache entry |
| `FileSync.TrackAloneIsTrackFile` | src/files/mod.rs:290-302 | look, assignment and put of the interleaving model, uninterrupted, compute what the method computes |
| `FileSync.TrackFileOverlappingOneSave` | src/files/mod.rs:290-302 | one save between look and the rest: the revision is 1, the cache shows what was read before the save, the disk what was saved |
| `FileSync.TrackFileOverlappingSaves` | src/files/mod.rs:290-302 | two saves in between: their revisions 1 and 2 fall back to 1, and the cache is stale |
| `FileSync.SaveAloneStops` | src/files/mod.rs:190-273 | the interleaving steps of an undisturbed save that is stale or cannot write compute what the method computes, and leave the lock entry |
| `FileSync.SaveAloneSucceeds` | src/files/mod.rs:190-273 | the same for a save that goes through, with the entry collected exactly when no other save has the mutex |
| `LruCaches.OperationsKeepValid` | src/files/mod.rs:251-272 | put, get and pop keep the cache within its capacity with distinct keys |
| `LruCaches.EntriesAfterPut` | src/files/mod.rs:251-272 | after a put the cache holds the new entry and otherwise only entries it had |
| `LruCaches.PutChangesNothingIff` | src/files/mod.rs:294-297 | a put changes nothing if and only if it puts what is already the most recent entry |
| `LruCaches.OrderAfterHit` | src/files/mod.rs:305-317 | on a key in the cache, get and put move its entry to the front, pop takes it out, and the others keep their order |
| `LruCaches.OrderAfterMiss` | src/files/mod.rs:251-272 | on another key get and pop change nothing, and put goes in front, dropping the last entry if the cache was full |
| `Fswatch.SharedState.constructor` | src/fswatch/mod.rs:317-327 | no roots, two empty maps of capacity 4096, open |
| `Fswatch.SharedState.AddWorkspace` | src/fswatch/mod.rs:179-205 | registers a root under its workspace, not after close |
| `Fswatch.SharedState.RemoveWorkspace` | src/fswatch/mod.rs:207-225 | removes that workspace's roots and nothing else |
| `Fswatch.SharedState.NoteAppWrite` | src/fswatch/mod.rs:228-235 | records the time of a write by the app, not after close |
| `Fswatch.SharedState.Close` | src/fswatch/mod.rs:246-260 | closing is final and changes no map |
| `Fswatch.SharedState.Cleanup` | src/fswatch/mod.rs:331-352 | removes exactly the entries older than each map's age bound, one by one |
| `Fswatch.SharedState.HandlePath` | src/fswatch/mod.rs:533-608 | cleans up when 30 seconds have passed, decides one path: skipped, unowned (by components, or by lower-cased text with a slash or backslash behind the root where the platform folds case), suppressed, throttled or passed, and records only a pass |
| `Fswatch.SharedState.HandleEvent` | src/fswatch/mod.rs:508-608 | undisturbed, the loop over an event's paths stops at the first path that is not passed; access and attribute events change nothing |
| `Fswatch.EventIsItsSteps` | src/fswatch/mod.rs:508-608 | this loop is the steps of the interleaving model, one lock per path, with nothing in between |
| `Fswatch.EvictedIsOld` | src/fswatch/mod.rs:85-89 | when the recency list overflows, the evicted entry has left its window |
| `Fswatch.PutAgrees` | src/fswatch/mod.rs:228-235 | recording a time keeps the bounded map in agreement with an unbounded one inside the window |
| `Fswatch.ExpireAgrees` | src/fswatch/mod.rs:331-352 | so does the periodic cleanup |
| `Fswatch.BoundedMapsDecideAlike` | src/fswatch/mod.rs:551-585 | from any agreeing states, every decision of every run equals that of maps that never evict and are never cleaned; anything may come between the paths of an event, and writes may be noted after its clock reading |
| `Fswatch.WatcherDecidesLikeUnboundedMaps` | src/fswatch/mod.rs:551-585 | the same from the initial state at capacity 4096, if no more paths than that are recorded inside a map's window, counted from the reading of the event in progress |
| `Fswatch.PassesAreThrottled` | src/fswatch/mod.rs:565-585 | surfaced changes of one path are at least 300 ms apart, by the readings of their events, in every run |
| `Fswatch.AppWritesAreSuppressed` | src/fswatch/mod.rs:551-563 | a change is never surfaced when a write of that path was noted before the lock was taken for it, less than two seconds before the event's reading or after it |
| `FswatchVerdicts.VerdictOfPath` | src/fswatch/mod.rs:551-586 | the verdict on a path, from the operations before it: closed after close; else unowned if and only if no root registered and not removed since has it; else suppressed if and only if a write of it was noted less than two seconds before the reading or later; else throttled if and only if it was passed less than 300 ms before; else passed |
| `FswatchVerdicts.NoVerdictIff` | src/fswatch/mod.rs:522-549 | there is none if and only if the path is a new symlink, a directory or has one of ten ignored components, or its event has returned |
| `FswatchVerdicts.UnderRootIff` | src/fswatch/mod.rs:628-639 | a path is under a root if and only if its first components are the root's; where case is folded, if its text starts with the root's up to ASCII letter case, ended by its end, a slash or a backslash |
| `FswatchVerdicts.TextOfLonger` | src/fswatch/mod.rs:631-640 | the text compared where case is folded has a slash in front of each component, and is a slash for the file system root |
| `FswatchVerdicts.CleanedIsRecent` | src/fswatch/mod.rs:331-352 | a cleanup keeps exactly the writes of the last two and the passes of the last thirty seconds |
| `FswatchVerdicts.StateAfterPath` | src/fswatch/mod.rs:551-586 | handling a path cleans up if and only if the last cleanup is more than thirty seconds old, records the path if and only if it is passed, and otherwise changes nothing |
| `PairRate.PairLimiter.AllowPairRequest` | src/api/pair.rs:205-234 | eviction, refill, charge and answer of one request as one transition of the table |
| `PairRate.AllowIsSane` | src/api/pair.rs:205-234 | every bucket keeps between 0 and 5 tokens and a charge time in the past |
| `PairRate.StepAgrees` | src/api/pair.rs:213-233 | a table that evicts answers one request like one that does not, and stays a part of it |
| `PairRate.EvictionIsInvisible` | src/api/pair.rs:213-233 | for every schedule of many peers the answers with eviction equal those of a table that never evicts |
| `PairRate.RateBound` | src/api/pair.rs:20-27 | in any window of T seconds of any schedule at most 5 + T/12 requests of one peer are accepted |
| `PairRate.SilentPeerIsAccepted` | src/api/pair.rs:205-234 | after any schedule a peer silent for 12 seconds is accepted |
| `PairRate.BurstOfFive` | src/api/pair.rs:20-21 | of simultaneous requests of a new peer exactly the first five are accepted |
| `PairRate.AcceptedIff` | src/api/pair.rs:205-234 | after any schedule a request is accepted if and only if, for every T back to the start, at most 5 + T/12 of the peer's requests have been accepted in the last T seconds with it |
| `PairRate.OthersAfterRequest` | src/api/pair.rs:213-217 | another peer's bucket is dropped if and only if it was idle for sixty seconds and there are more than 1024; else it stays as it is |
| `Preview.PreviewTokens.CreatePreviewSession` | src/api/preview.rs:33-67 | expired tokens go, and a known workspace gets a ticket for thirty minutes |
| `Preview.PreviewTokens.ExchangePreviewTicket` | src/api/preview.rs:207-229 | a live ticket of this workspace is consumed and replaced by a cookie with the same workspace and deadline; otherwise nothing is granted |
| `Preview.PreviewTokens.PreviewAuthorization` | src/api/preview.rs:162-204 | an entry ticket, when present, decides alone; the cookie is looked at only without one |
| `Preview.LineageIsConserved` | src/api/preview.rs:49-62 | in every run each live token descends from exactly one create call and keeps its workspace and deadline, distinct live tokens have distinct roots, each value is exchanged at most once |
| `Preview.AccessStaysWithinRoot` | src/api/preview.rs:178-203 | access is granted only for the root's workspace within thirty minutes of its creation |
| `Preview.LiveValueOpensItsWorkspace` | src/api/preview.rs:178-203 | a live value opens a workspace if and only if it is its root's and the deadline has not passed, as ticket and as cookie |
| `Preview.SpentValueNeverGrants` | src/api/preview.rs:207-229 | once exchanged, a value grants nothing in any continuation of the run |
| `Preview.AccessIff` | src/api/preview.rs:162-229 | after any run a value, as cookie or as ticket, opens a workspace if and only if it was issued and not exchanged since, and its create call was for this workspace less than thirty minutes ago; showing a cookie changes nothing |
| `Preview.CreatedTicketOpens` | src/api/preview.rs:33-67 | a known workspace is answered with the new ticket, which opens it for thirty minutes unless exchanged, whatever else is asked meanwhile; an unknown one with an error |
| `Preview.ExchangedCookieOpens` | src/api/preview.rs:207-229 | an exchange is answered with the new value, which opens the workspace as a cookie until the deadline of the create call |
| `Preview.SurvivesIff` | src/api/preview.rs:207-229 | a value other than the one issued is live behind an operation if and only if it was before, is not the one exchanged, and is not dropped as expired by a ticket being issued or shown; workspace and deadline never change |
| `Utf8.BoundaryIffPrefixValid` | src/acp/conversation.rs:155-161 | in valid UTF-8 the character boundaries are exactly the lengths of valid prefixes |
| `Utf8.AtMostThreeStepsBack` | src/acp/conversation.rs:155-161 | the boundary loop steps back at most three times |
| `Utf8.TruncateUtf8` | src/acp/conversation.rs:155-161 | the loop cuts at the last boundary within the limit |
| `Utf8.TruncatedIsLongestValidPrefix` | src/acp/conversation.rs:155-161 | the cut is the longest valid prefix that fits, at most three bytes short of the limit |
| `Utf8.EncodeIsValid` | src/acp/conversation.rs:137-152 | the encoding of any text is valid UTF-8 |
| `Utf8.DecodingUndoesEncoding` | src/acp/conversation.rs:137-152 | decoding the encoded text gives back every character |
| `Utf8.LossyIsValid` | src/git/repo.rs:140-144 | replacing what is not valid gives valid UTF-8 |
| `Utf8.LossyKeepsExactlyValid` | src/git/repo.rs:140-144 | and changes nothing if and only if the bytes were valid |
| `Utf8.ReplacedTogether` | src/git/repo.rs:140-144 | bytes that begin no character are replaced by one replacement character as far as they are a proper start of some character, and at least one byte |
| `Conversation.FlushAssistant` | src/acp/conversation.rs:81-87 | a blank turn adds nothing, any other one block |
| `Conversation.RenderEvents` | src/acp/conversation.rs:77-118 | the mutable fold yields the blank-line join of one block per prompt, tool and maximal run of chunks |
| `Conversation.GatheredIsJoin` | src/acp/conversation.rs:95-100 | the gathered turn is the join of the trimmed chunks but for separators in front of the first chunk that is not blank |
| `Conversation.BlocksAppend` | src/acp/conversation.rs:89-116 | grouping a concatenation is concatenating the groupings unless a run of chunks spans the border |
| `Conversation.IgnoredEventsLeaveNoTrace` | src/acp/conversation.rs:89-116 | deleting a thought, an empty chunk or an event of another type anywhere changes nothing |
| `Conversation.PromptSplitsTranscript` | src/acp/conversation.rs:90-94 | the export of a history continued by a prompt is the two exports joined |
| `Conversation.PromptParagraph` | src/acp/conversation.rs:91-94 | a prompt is one paragraph, labelled as the user's with its trimmed content, between the exports of what is before and behind it |
| `Conversation.ToolParagraph` | src/acp/conversation.rs:101-113 | so is a tool, under its name, or else its kind, or else "tool" |
| `Conversation.AssistantParagraph` | src/acp/conversation.rs:81-100 | events between prompts and tools are one paragraph, labelled as the assistant's, of the trimmed contents of the chunks that are neither thoughts nor empty, or none if that is blank |
| `Conversation.TrimLaw` | src/acp/conversation.rs:82-93 | trimming removes characters of the Unicode White_Space property at both ends, and all of them |
| `Conversation.TruncateExport` | src/acp/conversation.rs:137-152 | the branches of the truncation, non-positive limits included |
| `Conversation.NoteIsAscii` | src/acp/conversation.rs:144-147 | the truncation note is ASCII whatever the total |
| `Conversation.NoteTellsTotal` | src/acp/conversation.rs:144-147 | the note says the number of bytes of the whole export in decimal digits |
| `Conversation.TruncatedExportIsValidAndTight` | src/acp/conversation.rs:137-161 | the result is valid UTF-8 within the limit: the input if it fits, else the longest boundary prefix that leaves room followed by the whole note, or exactly the fitting bytes of the note |
| `Conversation.ExportConversation` | src/acp/conversation.rs:72-118 | query of at most 10000 rows of the session, fold and truncation together |
| `GitStatus.ParseStatus` | src/git/repo.rs:139-194 | the index-driven loop over the fields, read as text with invalid bytes replaced, computes the rows of the fields ahead of it, or panics at the same input |
| `GitStatus.ParsedRecord` | src/git/repo.rs:148-194 | a printed record with its original path where the parser looks for it yields its rows under the names as read, without panic, and the loop goes on exactly behind it, whatever follows |
| `GitStatus.ReadAsIff` | src/git/repo.rs:140-163 | a name is read as it is if and only if it is valid UTF-8 without a backslash |
| `GitStatus.ReadableRecord` | src/git/repo.rs:148-194 | one readable printed record yields its rows and the loop goes on exactly behind it |
| `GitStatus.ParsingUndoesPrinting` | src/git/repo.rs:139-194 | for names of any bytes but NUL, parsing a printed listing gives exactly its rows in order if and only if every name is valid UTF-8 without a backslash and no original path stands behind a record whose index code is neither rename nor copy |
| `GitStatus.InvalidNameIsReplaced` | src/git/repo.rs:140-144 | a modified file named by the byte 0xFF is listed under the replacement character |
| `GitStatus.WorktreeRenameIsMisread` | src/git/repo.rs:157-163 | a rename shown by the worktree code only is parsed as two records |
| `GitStatus.StrayNamePanics` | src/git/repo.rs:153-156 | a rename of that kind from a name of one three-byte character panics the slice |
| `GitStatus.RowsAreGrouped` | src/git/repo.rs:171-192 | the staged rows are the index changes and the unstaged rows the worktree changes and untracked files, in listing order |
| `GitStatus.ParsedRowsMean` | src/git/repo.rs:161-192 | for a readable listing a row is in the result if and only if some record stands for it: the untracked file, or the added, deleted, renamed, conflicted or modified path as the code of the row's side says |
| `GitStatus.ShortFieldIsSkipped` | src/git/repo.rs:148-151 | fields of fewer than three bytes have no effect |
| `GitStatus.LastRenameHasNoOrigin` | src/git/repo.rs:154-160 | a rename at the end of the output is listed without an original path |
| `PromptContext.BoundedRelativePaths` | src/acp/context.rs:377-388 | the lazy chain takes the new relative paths up to the limit, looks at nothing behind the last one, and records exactly those in the shared set |
| `PromptContext.SharedBudget` | src/acp/context.rs:271-284 | open context followed by recent context is the first min(limit, 100) elements of the deduplicated relative paths of both lists |
| `PromptContext.DeduplicatedAppend` | src/acp/context.rs:377-388 | the second pass over the shared set continues the deduplication of the first |
| `PromptContext.DeduplicatedKeepsFirsts` | src/acp/context.rs:377-388 | the deduplication has every element once and loses none |
| `PromptContext.BudgetedIsBounded` | src/config/model.rs:24-25 | at most the limit, no path twice, only relative paths of the lists, and all of them when there is room |
| `PromptContext.BudgetedIsEarliest` | src/acp/context.rs:377-388 | the paths disclosed stand in the order of their first occurrences, and a relative path is left out only if the budget is spent on paths that occur before it |
| `PromptContext.RelativeIff` | src/acp/context.rs:396-409 | a path is accepted if and only if it is not empty, does not start with a slash and has no two dots between slashes or ends |

## Left out

- FileCache.CacheAgreesWithDisk: says nothing about files whose last change was a cancelled or failed save, a write from outside, or a tracking that put other content than the disk has, because then the code leaves disk and cache apart.
- ReplayLimit.NoGapInHandoff: the hypotheses named above, which the code does not enforce.
- PublishOrder.NothingIsLostIff: assumes that pruning has left the rows above the cursor in the table at each query, and that an event is published once, after its append; without these, `MissedRows` says what is missed.
- FileRegister.SavesRefineRegister: a save counts at the step that sets its revision and a tracking at its assignment; other places of the same calls in the order are not considered.
- Fswatch.WatcherDecidesLikeUnboundedMaps: clock readings do not decrease in the order in which they are taken, and events are handled by one thread, as the debouncer does.
- EventPaging.PagingReassemblesHistory: a row with the largest 64-bit id is below no backward cursor; deletions by age are treated in `PagingDeletions`.
- Timestamps.TextOrderIsChronological: leap seconds and timestamps written by earlier Go versions in another format are not modelled.
- GitStatus.ParseStatus: the git process, branches and ahead/behind counts.
- PromptContext.SharedBudget: session lookup, prompt counts, resources, profile text and Windows path prefixes of `prepare`.
- `PairRate` uses real numbers for the floating-point tokens; peer address normalisation is left out.
- `Preview` takes random values as parameters that never repeat and does not hash them; HTTP headers, cookie syntax, file serving and daemon credentials are left out.
- SQLite, tokio channels and mutexes, DashMap, `lru` and chrono are modelled by their documented behaviour; I/O errors other than a full table and a failed file write are left out, and so are poisoned locks.
- 64-bit overflow of file revisions; `-after` in the event cursor wraps as in a build without overflow checks.
- Directory walking, OS watches, debouncing, the emit channel and its overflow, and which of several overlapping roots a surfaced event is attributed to.
- The JSON payloads of events, file keys and path resolution, `TransferQueue`, the WebSocket hub itself, the prune ticker.
- Log, diff, stash, staging and commits in `src/git`; configuration, profiles, providers and the HTTP routing around the modelled handlers.
