# entheai: models and proofs

This project models the stateful and sequence-heavy core of entheai and proves what that
code keeps. One module per component:

| module | component | form |
|---|---|---|
| `BaseCache` | a worker's cache of bare base repositories: LRU index, holds, eviction, disk | classes with a value model |
| `WorkerProtocol` | the worker's claim loop and coder tasks: permits, in-flight counter, presence, the cache and its holds, the 20 s timeout | step machine over await points |
| `WorkerItem` | the processing of one work item, and the machine's moves for it | method, and a refinement between the two |
| `WorkQueue` | subscribe, dispatch, claim with redelivery, upload, publish, ack, accept, apply | step machine |
| `Presence` | one presence message per node | method with a loop |
| `CappedReader`, `McpRequests` | the MCP client's capped line reader, reader task, and request table | classes, methods, step machine |
| `Decimal`, `CivilDate`, `BudgetLedger` | calendar arithmetic, the daily request meter, one pulse of the current engine | functions; classes for the ledger and the engine |
| `RawStore` | the content-addressed store and its mirrored full-text index | class with a value model |
| `Ranking`, `Mesh`, `FrozenRanks` | stable ranking, reranking, the rank overlay, freeze and thaw | functions, methods, a class for the overlay |
| `RecallFusion` | reciprocal-rank fusion and normalisation | nested-loop method and functions |
| `Kompress` | filler removal, truncation, pruning, the pipeline | functions and a loop method |
| `AnswerFold` | the two folds that decide an agent run's answer and evidence | methods with loops |
| `ShaderBlock`, `ShellQuote` | the managed config block; POSIX quoting | method and functions |

`Wrappers` holds the option type they share.

Every method is proved equal to a specification function or a declarative statement; the
promises of the source are then proved about that specification, over every input, every run
or every schedule. Clocks, schedulers, the network, the disk's and the database's answers are
inputs. Floats are `real`, and the content hash is a parameter assumed to be collision-free.

## Where the code and its promises part

Each of these is proved, with the exact condition under which the promise holds:

- **Stranded holds.** The comment at `bin/entheai-worker/src/main.rs:279-286` says a live base
  is never left pinned. A task is left holding its base for ever exactly when the 20 s timeout
  fires between taking the hold and giving it back (`StrandedIffCancelledHolding`,
  `StrandedHoldIsForever`, `AttachTimeoutStrandsTheBase`).
- **Over-cap is not temporary.** `next_eviction` tolerates "a temporary over-cap", and the
  comment at `crates/config/src/lib.rs:1640-1642` says an attached base is never the
  least-recent one. When a call ends within the cap can be looked up before it, exactly: a hit
  if and only if the index with its base fits, a build if and only if the least recent bases that
  then exceed the cap are all unpinned (`GetEndsWithinCapIff`, `EvictionReachesCapIff`). There
  are two ways to stay over it. A single base held at the front stops all eviction behind it, and
  the index grows without bound (`OnePinStopsEviction`). And a hit never evicts, so bases that are
  good on disk but not indexed, as after a restart, enter one by one past any cap with nothing
  in use (`HitsAloneOutgrowCap`). What the in-use guard is for holds of every schedule in which
  each cache call is one step: the repository of a coder at work never vanishes
  (`CoderKeepsItsBase`). Between the awaits inside a call the code does not promise it: one task
  may pop a base, another pin it as a hit, and the first then delete it.
- **`Closed` is unreachable.** The comment at `crates/mcp/src/lib.rs:137-138` says end of stream
  fails pending requests with `Closed`. They end with the RPC error "closed", and no request
  ever ends with `Closed` (`EndAnswersEveryone`, `NeverClosed`). A request registered after end
  of stream can only fail to write or time out (`LateRegistrationOnlyTimesOut`).
- **The managed block.** Re-merging is idempotent if and only if the markers in the text are
  paired (none, or the first begin before the first end). Otherwise the next merge changes the
  text again, deletes user text, or panics (`LawIffMarkersPaired`, `StrayBegin`, `StrayEnd`,
  `EndBeforeBegin`).
- **The budget's hard stop.** With `u32` addition wrapping in release builds
  (`Cargo.toml:59`), the cap is a hard stop exactly for requests that fit beside a full budget
  (`HardStopIffFits`). A failed save is only logged, and since writing empties the file first
  it can also wipe the day's record of all sources. The cap of a source on a date is then a hard
  stop if and only if nothing more is asked of that source on that date after a save that lost
  spend of it: its own save that kept the old file, or a save for any source that was cut short
  (`HardStopIffNoLossMatters`). Of the saved spend alone, each save cut short lets at most one
  more cap through (`NoDateOverspends`); that bound does not count what is granted on saves that
  kept the old file.
- **The two folds are not mirrors.** The comment at `crates/core/src/entheai_agent.rs:356` says
  `run_to_text` mirrors `run_with_events`. They agree exactly under the condition of
  `FoldsAgreeIff`; after text and then a tool call, `run_to_text` returns the text and
  `run_with_events` nothing (`SpokenThenCalled`).
- **Rank as tie-breaker.** Waking puts overlap before rank, for every matcher and prompt, if and
  only if nodes of different knowledge rank less than 4 apart, or exactly 4 with the lower one
  first (`WakeIsLexicographicIff`, `BlendIsLexicographicIff`). The overlay keeps its own values in
  [0, 2], which is close enough (`InRangeIsClose`), but a static prior is not clamped, so a node
  without any overlap can wake first (`FarRanksMisorder`, `StaticPriorOutranksMatch`). For the
  same reason a thaw is exact if and only if the saved ranks lie in [0, 2] (`RoundTripIff`).
- **Retention.** `prune` computes its cutoff in wrapping 64-bit arithmetic; it is the promised
  one exactly while it fits (`CutoffExactIff`), and with the largest retention everything goes
  (`LargestRetentionEmptiesStore`).
- **A failed mirror insert** leaves a row outside the full-text index for that row's whole life;
  ingesting it again does not repair it (`FailedMirrorIsNeverRepaired`). The index covers the
  rows if and only if every content stored now was mirrored when it went in
  (`IndexCompleteIff`).
- **The pruner** drops only units that score zero or less, whatever its threshold and penalty,
  so in the pipeline it drops nothing (`PrunedIffWorthless`, `PruneKeepsAll`). A filler is
  still in the text after its own pass if and only if the text had it twice in a row or, for a
  filler of two words, one inside the other (`FillerSurvivesIffDoubled`, `PhraseSurvivesIff`);
  the passes that follow neither remove a one-word filler nor make a new one
  (`FillerRemainsIff`).
- **Normalised recall scores** lose their order exactly when the spread is positive but at most
  the double epsilon, which a large smoothing constant causes (`NormalizeKeepsOrderIff`,
  `ListOrderSurvivesIff`). Given an id that a list holds once and places at least as
  well as another, fusion never gives it less, whatever the constant, if and only if the other
  does not repeat (`PlacementHoldsIffOnce`). The one caller, `crates/memory/src/store.rs:357`,
  passes lists that name each row once, so repeats reach only the public function.

## Model

| member | source | states |
|---|---|---|
| WorkerProtocol.EveryScheduleKeepsInv | bin/entheai-worker/src/main.rs:192-258 | under every interleaving at await points: permits, loop and unfinished tasks balance; the in-flight counter, the presence backing and the hold map are exact; stranded tasks are past the fast path |
| WorkerProtocol.ConcurrencyBounded | bin/entheai-worker/src/main.rs:192-206 | with n = max(1, max_concurrent_coders), over every schedule: at most n claimed items are unfinished, a waiting loop can take a permit exactly while fewer are, and the counter is the number of tasks between add and sub |
| WorkerItem.HoldingLoopClaims | bin/entheai-worker/src/main.rs:207-236 | a loop with a permit in hand can claim, which adds exactly one task, or hand the permit back |
| WorkerItem.PresenceNamesTask | bin/entheai-worker/src/main.rs:195-245 | a Working presence names the text of a claimed task, and the cache keeps the configured capacity |
| WorkerProtocol.CancelledDisk | bin/entheai-worker/src/main.rs:301-316 | a cancelled cache call changes at most its own path, and never a good repository |
| WorkerProtocol.QuiescentPresenceIsIdle | bin/entheai-worker/src/main.rs:238-255 | whenever no task is counted or owes the Idle write, presence reads Idle |
| WorkerProtocol.ReleaseFindsItsHold | crates/federation/src/base_cache.rs:106-114 | every release in a reachable state finds a count of at least one: no underflow |
| WorkerProtocol.LedgerAtRest | bin/entheai-worker/src/main.rs:369-396 | when all tasks have ended the hold map is empty iff no timeout ever fired on a task holding its base, and else counts, base by base, the tasks on which one did |
| WorkerProtocol.CoderKeepsItsBase | crates/federation/src/base_cache.rs:66-73 | with each cache call taken as one step, under every schedule of builds, evictions, timeouts and releases: the base of a task that attaches, runs on it or cleans up is pinned, indexed and valid on disk |
| WorkerProtocol.StrandedIffCancelledHolding | bin/entheai-worker/src/main.rs:301-316 | a task is stranded iff some earlier step was its timeout while it held its base |
| WorkerProtocol.StrandedHoldIsForever | bin/entheai-worker/src/main.rs:279-286 | a stranded hold keeps its base pinned in every later state of every schedule |
| WorkerProtocol.AttachTimeoutStrandsTheBase | bin/entheai-worker/src/main.rs:301-321 | a concrete schedule in which processing returns with the base still pinned |
| WorkerItem.ProcessOne | bin/entheai-worker/src/main.rs:287-396 | for one item and every answer of the outside world: the cache stays safe, holds are balanced unless the timeout fired while attaching, and the result is an error or carries exactly the tag hit, miss or degraded |
| WorkerItem.MachineProcesses | bin/entheai-worker/src/main.rs:287-396 | in any state and for every answer of the outside world the machine has the moves that process an item; they leave the cache as process_one does, strand the hold exactly on a timeout while holding, and touch nothing else |
| WorkerItem.TaskStartsAndFinishes | bin/entheai-worker/src/main.rs:236-258 | before processing a task counts itself and announces its item; afterwards it counts itself out, announces Idle if it was the last, publishes, acks and frees its permit |
| WorkerItem.DropUndoesHold | crates/federation/src/base_cache.rs:95-114 | one release after one mark gives back the same hold map |
| BaseCache.CacheIndex.Touch | crates/federation/src/base_cache.rs:25-28 | the base moves to the most recent end, the others keep their order |
| BaseCache.CacheIndex.PopFront | crates/federation/src/base_cache.rs:42-44 | takes the least recent base, or nothing from an empty index |
| BaseCache.BaseCache.MarkInUse | crates/federation/src/base_cache.rs:95-102 | one more hold on this base, no other count changes |
| BaseCache.BaseCache.ReleaseHold | crates/federation/src/base_cache.rs:106-114 | one hold less; the key goes at zero; an absent key changes nothing |
| BaseCache.BaseCache.PopEvictable | crates/federation/src/base_cache.rs:122-132 | pops exactly the least recent base when over cap and unpinned |
| BaseCache.BaseCache.EvictAll | crates/federation/src/base_cache.rs:136-140 | the eviction loop computes the recursive eviction of the value model and terminates |
| BaseCache.BaseCache.Get | crates/federation/src/base_cache.rs:146-183 | the whole call, with all its error paths, is the value-level transition |
| BaseCache.EvictCount | crates/federation/src/base_cache.rs:122-140 | how many least recent bases go: every one of them unpinned and over cap, and then at cap or at a pinned one |
| BaseCache.EvictionShape | crates/federation/src/base_cache.rs:136-140 | eviction drops exactly that prefix; at the path of each dropped base lies what its delete left, nothing if it succeeded, and every other path is untouched |
| BaseCache.EvictedDisk | crates/federation/src/base_cache.rs:136-140 | the same said of the bases that left the index |
| BaseCache.GetDisk | crates/federation/src/base_cache.rs:146-183 | the disk after any call, path by path: hit, failed build, finished build and its evictions |
| BaseCache.EvictionKeepsSafe | crates/federation/src/base_cache.rs:116-140 | eviction never takes a pinned base, never more than the excess, and stops at cap or at a pinned front |
| BaseCache.GetKeepsSafe | crates/federation/src/base_cache.rs:146-187 | every call keeps pinned within indexed within valid on disk, and the index duplicate-free |
| BaseCache.GetOutcome | crates/federation/src/base_cache.rs:91-102 | success means exactly one hold more on a valid indexed base; failure changes no hold and no index entry |
| BaseCache.ReachableCacheIsSafe | crates/federation/src/base_cache.rs:66-187 | after every sequence of whole calls the cache is safe and the index is ordered by last use |
| BaseCache.EvictionReachesCapIff | crates/federation/src/base_cache.rs:116-140 | eviction ends within the cap iff the least recent bases beyond the cap are all unpinned |
| BaseCache.GetEndsWithinCapIff | crates/federation/src/base_cache.rs:146-183 | for every call, from what can be seen before it: a hit ends within the cap iff the index with its base fits, a build iff the least recent bases that then exceed the cap are unpinned, a failed call iff the index was within it |
| BaseCache.HitsAloneOutgrowCap | crates/federation/src/base_cache.rs:156-161 | for every cap and n: n bases good on disk but not indexed, used and released one by one, all stand in the index with nothing in use |
| BaseCache.OnePinStopsEviction | crates/federation/src/base_cache.rs:116-132 | for every cap and every n, one pinned least recent base and n others that come and go leave all n + 1 in the index |
| WorkQueue.BuildersInjective | crates/federation/src/types.rs:38-48 | subjects and keys of different (session, index) pairs differ, whatever the session's characters, and result keys are never base keys |
| WorkQueue.NamesSpelled | crates/federation/src/types.rs:38-48 | each name is its prefix, the session and the index in decimal |
| WorkQueue.ItemIsCarriedThrough | crates/federation/src/executor.rs:70-118 | from any state the protocol can carry a new item through, and its executor applies its own run's bundle |
| WorkQueue.FirstResultIsAccepted | crates/federation/src/lib.rs:212-217 | a waiting executor accepts the first result that reached it, and only once its item is dispatched |
| WorkQueue.UnconfirmedStepsCount | crates/federation/src/executor.rs:83-96 | an item whose dispatch failed is queued although its executor gave up, and a bundle whose upload failed is stored although its run is not committed |
| WorkQueue.Interruptions | crates/federation/src/executor.rs:81-118 | a run may crash until it has acked, an executor may give up until it has applied, and an unsent result reaches nobody |
| WorkQueue.StoredBundleIsApplied | crates/federation/src/executor.rs:99-113 | what is applied for a committed result is the bundle in the store by then |
| WorkQueue.EveryRunKeepsInv | crates/federation/src/lib.rs:150-217 | every run keeps mailboxes, store, acks and delivery counts tied to worker runs of the right item |
| WorkQueue.AcceptedResultIsOwn | crates/federation/src/executor.rs:81-118 | an accepted result and the bundle then applied come from ended runs of the executor's own item; only committed results are applied |
| WorkQueue.SentResultReachesItsExecutor | crates/federation/src/lib.rs:190-217 | a sent result is appended to its own executor's mailbox while that one listens, and to nobody else's |
| WorkQueue.DeliveredAtMostThrice | crates/federation/src/lib.rs:160-188 | an item has at most three worker runs and is up for another exactly while it has fewer and is not acked |
| WorkQueue.PublishFollowsSubscribe | crates/federation/src/executor.rs:81-98 | when a result is published its item had been subscribed to, claimed and processed |
| WorkQueue.AckFollowsPublish | bin/entheai-worker/src/main.rs:236-258 | an ack comes only after processing ended and the publish was attempted |
| Presence.DedupPresence | crates/federation/src/lib.rs:307-320 | every node that sent a message keeps exactly its newest one, the last seen on a tie |
| Presence.NewestUnique | crates/federation/src/lib.rs:302-306 | a node's newest message is unique |
| CappedReader.ReadCappedLine | crates/mcp/src/lib.rs:84-129 | for every chunking: the outcome and the bytes left are those of cutting the whole stream at its first newline, and the buffer never exceeds the cap |
| CappedReader.Source.Consume | crates/mcp/src/lib.rs:105-126 | consuming n bytes removes exactly the first n of what is left |
| CappedReader.ReadAll | crates/mcp/src/lib.rs:143-156 | repeated reads give the specified outcomes and leave nothing |
| CappedReader.ReadAllIsSplit | crates/mcp/src/lib.rs:79-129 | all outcomes are those expected of the pieces between newlines |
| CappedReader.ExpectedExact | crates/mcp/src/lib.rs:84-129 | expected is: the piece itself within the cap and TooLong above it, for each terminated piece and a non-empty tail, and then the end or the error |
| CappedReader.SplitKeepsBytes | crates/mcp/src/lib.rs:79-83 | splitting loses no byte and leaves no newline in a piece |
| CappedReader.SplitUnique | crates/mcp/src/lib.rs:79-83 | it is the only such cut |
| McpRequests.Router.Route | crates/mcp/src/lib.rs:163-184 | one message resolves at most the pending request with its id; without id, result or error it changes nothing |
| McpRequests.Router.Drain | crates/mcp/src/lib.rs:186-189 | end of stream fails exactly the pending callers and empties the table |
| McpRequests.Router.ReaderLoop | crates/mcp/src/lib.rs:139-190 | for every chunking the reader task delivers the messages of the newline-separated lines in order, then closes |
| McpRequests.HeardInOrder | crates/mcp/src/lib.rs:143-184 | lines are heard in order, a parsed one as its message, an oversized or unparsable one as nothing, the end as the end |
| McpRequests.DeliveredInOrder | crates/mcp/src/lib.rs:163-189 | what is heard is delivered one after the other |
| McpRequests.ResponseIsDelivered | crates/mcp/src/lib.rs:170-184 | over every run: a message with the id of a waiting, unanswered call lets it receive the result, or the error's text, which takes precedence and defaults to "unknown mcp error"; with neither it goes on waiting |
| McpRequests.CallsRunTheirCourse | crates/mcp/src/lib.rs:207-238 | in every reachable state a new call can be made, sent and waited for under its own id; a failed write and silence each take its entry out again and end it |
| McpRequests.EveryRunKeepsInv | crates/mcp/src/lib.rs:139-238 | over every interleaving of callers and reader, each caller's table entry and channel agree with what the stream has said to it |
| McpRequests.AnswerComesFromStream | crates/mcp/src/lib.rs:163-184 | a value or RPC error is the first input since registration that answers the id; a value comes from a message with that id, that result and no error |
| McpRequests.PendingIsUnanswered | crates/mcp/src/lib.rs:207-238 | the pending map is exactly the registered, unanswered calls |
| McpRequests.IdsDistinct | crates/mcp/src/lib.rs:208 | no two requests share an id |
| McpRequests.FinishedIsFinal | crates/mcp/src/lib.rs:207-238 | a resolved request keeps its result in every later state |
| McpRequests.StrayMessageChangesNothing | crates/mcp/src/lib.rs:181-184 | late, duplicate and made-up replies change nothing |
| McpRequests.AnsweredCallerReceives | crates/mcp/src/lib.rs:224-237 | an answered waiting caller can only take its answer; an unanswered one can only time out |
| McpRequests.NeverClosed | crates/mcp/src/lib.rs:227 | no request ends with Closed |
| McpRequests.EndAnswersEveryone | crates/mcp/src/lib.rs:186-189 | end of stream gives every waiting call the RPC error "closed" |
| McpRequests.LateRegistrationOnlyTimesOut | crates/mcp/src/lib.rs:207-238 | a call registered after end of stream ends with a write error or a timeout |
| CivilDate.CivilFromDaysCorrect | crates/current/src/lib.rs:91-104 | the formula gives a valid Gregorian date whose day number, counted year by year and month by month, is the day it came from |
| CivilDate.YearOfEraCorrect | crates/current/src/lib.rs:96 | the year-of-era division lands in the year that contains the day, for every day of the 400-year era |
| CivilDate.DayNumberOrder | crates/current/src/lib.rs:91-104 | counting days is strictly monotone and injective on valid dates |
| CivilDate.NextDaySucceeds | crates/current/src/lib.rs:91-104 | the next day's date is the calendar successor |
| CivilDate.OnlyEpochIsDayZero | crates/current/src/lib.rs:91-104 | 1970-01-01 is day 0 and no other |
| CivilDate.SecondsToDateOrder | crates/current/src/lib.rs:91-104 | seconds map to dates in order; two instants share a date iff they share an 86400-second day |
| CivilDate.FormatReads | crates/current/src/lib.rs:103 | the text is year, month and day in that order, each read back as its number, in 4, 2 and 2 digits for years before 10000 |
| CivilDate.FormatInjective | crates/current/src/lib.rs:103 | different dates print differently |
| CivilDate.SameDateTextIffSameDay | crates/current/src/lib.rs:147-164 | the ledger's text comparison compares UTC days |
| Decimal.DigitsAsWritten | crates/current/src/lib.rs:103 | numerals are written in the ten digits, most significant first |
| Decimal.PaddedRoundTrip | crates/current/src/lib.rs:103 | a zero-padded numeral reads back as its number |
| Decimal.DigitsInjective | crates/federation/src/types.rs:38-48 | a decimal numeral determines its number |
| BudgetLedger.Ledger.TrySpend | crates/current/src/lib.rs:151-192 | load, compare, save: the file and the answer after one call, on every path, whether the write succeeds, is not begun, or is cut short and leaves nothing readable |
| BudgetLedger.ForwardClockForwardDates | crates/current/src/lib.rs:147-164 | a clock that does not run back stamps dates that are never returned to |
| BudgetLedger.RecordIsSavedSpend | crates/current/src/lib.rs:151-192 | over every run with forward dates, from any file and however its writes end: the record grows by exactly the saved spend, never past the cap, until a write of the date is cut, and each cut write lets at most one more cap be spent |
| BudgetLedger.AcceptedSplits | crates/current/src/lib.rs:166-192 | granted spend is saved spend plus what was granted although its write failed |
| BudgetLedger.NoDateOverspends | crates/current/src/lib.rs:151-192 | from any file, on every date: saved spend takes no record past its cap while no write of the date is cut, and stays within one cap more for each that is |
| BudgetLedger.SavedIsAll | crates/current/src/lib.rs:166-175 | when every write succeeds, saved spend is all the spend there is and none is cut |
| BudgetLedger.RefusalChangesNothing | crates/current/src/lib.rs:177-192 | a refusal leaves the file as it was |
| BudgetLedger.HardStopIffFits | crates/current/src/lib.rs:186 | the cap is a hard stop for requests of size n iff cap + n fits u32 |
| BudgetLedger.HardStopIffNoLossMatters | crates/current/src/lib.rs:151-192 | from any file, with any sources sharing it, over any run with forward dates: whatever the caps, a source's opening record and what it is granted on a date stay within its cap, iff it is asked for nothing more on that date after a write that lost spend of it (its own kept the old file, or any was cut when something of it was spent) |
| BudgetLedger.PeakGrantsAll | crates/current/src/lib.rs:179-192 | a cap as high as the largest sum ever compared grants every request of the source on the date, and the record then is what the writes left of them |
| BudgetLedger.CurrentEngine.Attempt | crates/current/src/lib.rs:655-656 | one metered attempt and its line in the report |
| BudgetLedger.CurrentEngine.PulseTopics | crates/current/src/lib.rs:678-697 | one request per topic; all but the last granted, and topics are skipped only after a refusal |
| BudgetLedger.CurrentEngine.Pulse | crates/current/src/lib.rs:646-717 | which requests one pulse attempts, in which order and size, and that the report lists exactly the ledger's answers and the keyless sources |
| BudgetLedger.LogExact | crates/current/src/lib.rs:655-713 | the answers are the ledger's, call by call; the granted calls are listed as spent and the refused sources as exhausted, in order, and nothing else |
| BudgetLedger.EngineGrants | crates/current/src/lib.rs:593-603 | on a fresh ledger exactly the requests within the configured caps are granted, WorldMonitor's within 50 as well, and none of another source |
| BudgetLedger.RunsCompose | crates/current/src/lib.rs:133-138 | pulses in a row, and restarts, form one run through the file |
| BudgetLedger.ReportSumsGrants | crates/current/src/lib.rs:646-717 | a report's total for a source is what the run was granted for it |
| BudgetLedger.ReportIsLedgerIncrease | crates/current/src/lib.rs:646-717 | within one date and with successful writes it is also the increase of the record, which ends within the cap |
| BudgetLedger.WorldMonitorWithinMandate | crates/current/src/lib.rs:593-603 | with dates going forward and whatever is configured: saved WorldMonitor requests stay within 50 on any date, and 50 more for each cut write; when every write succeeds 50 is all there is |
| RawStore.IdsSpelled | crates/memory-pp/src/raw_store.rs:145-149 | an id is "blake3:" and the hash of the kind's name, a NUL and the bytes |
| RawStore.EncodeInjective | crates/memory-pp/src/raw_store.rs:145-149 | the kind-NUL-bytes encoding is injective |
| RawStore.IdsDistinct | crates/memory-pp/src/raw_store.rs:145-149 | distinct (kind, bytes) pairs have distinct ids, given a collision-free hash |
| RawStore.RawStore.Ingest | crates/memory-pp/src/raw_store.rs:139-181 | a stored id changes nothing; a new one gets its row and, unless mirroring fails with an error, one index entry |
| RawStore.RawStore.Get | crates/memory-pp/src/raw_store.rs:184-209 | something comes back iff the id is stored, with the stored bytes, metadata and time; the kind is the stored one, or tool output when that is none of the four |
| RawStore.RawStore.Prune | crates/memory-pp/src/raw_store.rs:212-231 | exactly the rows created at the cutoff or later stay, unchanged; the index loses the same ids, and the removed are counted |
| RawStore.StoreIsSumOfLives | crates/memory-pp/src/raw_store.rs:139-231 | over every run each pair is stored, unchanged, exactly while its own history of ingests and prunes says so, independently of all others |
| RawStore.GetReturnsIngested | crates/memory-pp/src/raw_store.rs:184-209 | get gives back the ingested bytes, kind and first metadata while that life lasts |
| RawStore.RowsAreIngested | crates/memory-pp/src/raw_store.rs:139-181 | every row is some ingested content under its own id |
| RawStore.IndexMirrorsRows | crates/memory-pp/src/raw_store.rs:164-175 | over every run of successful calls the index holds one entry per row with the same bytes, and nothing else |
| RawStore.ReingestIsNoOp | crates/memory-pp/src/raw_store.rs:164-175 | ingesting stored content changes neither table |
| RawStore.IndexCompleteIff | crates/memory-pp/src/raw_store.rs:164-175 | in every run each row is in the index iff every content stored now was mirrored when it went in |
| RawStore.FailedMirrorIsNeverRepaired | crates/memory-pp/src/raw_store.rs:164-175 | after any run, a content whose mirroring fails when it goes in is stored and not in the index, whatever is ingested later, until a prune reaches it |
| RawStore.ContentNeverChanges | crates/memory-pp/src/raw_store.rs:139-231 | an id means the same kind and bytes in any two runs |
| RawStore.CutoffExactIff | crates/memory-pp/src/raw_store.rs:213 | the wrapped cutoff is the promised one iff that time fits 64 bits |
| RawStore.LargestRetentionEmptiesStore | crates/memory-pp/src/raw_store.rs:212-231 | with the largest retention a prune removes every row |
| Ranking.SortIsStable | crates/memory-pp/src/mesh.rs:540-545 | the sort is a descending permutation that keeps equals in their order |
| Ranking.StableSortUnique | crates/memory-pp/src/mesh.rs:540-545 | that determines the result |
| Ranking.SortCongruence | crates/memory-pp/src/frozen.rs:268-269 | orders that agree on the elements at hand sort them alike |
| Ranking.IndexTieBreakIsStable | crates/memory-pp/src/mesh.rs:540-545 | sorting by score and then position is the stable sort by score |
| Mesh.CandidatesExact | crates/memory-pp/src/mesh.rs:532-538 | the candidates are exactly the stored spans, each with its position and the score of its own preview |
| Mesh.Rerank | crates/memory-pp/src/mesh.rs:526-548 | the result is the first top_k of the stable descending order of the candidates still stored, or an error when there is none |
| Mesh.RerankKeepsTheBest | crates/memory-pp/src/mesh.rs:526-548 | no span is introduced or repeated, as many come back as may, in order, and none left out ranks above a returned one |
| Mesh.ReorderFollowsKnownIds | crates/memory-pp/src/mesh.rs:133-142 | whatever the sidecar returns, the result holds only supplied spans, in exactly the order of the known ids |
| Mesh.LastOfIdStands | crates/memory-pp/src/mesh.rs:137-138 | where several spans share an id it stands for the last of them |
| FrozenRanks.FrozenStore.Reweight | crates/memory-pp/src/frozen.rs:141-177 | every hit node's rank becomes its clamped sum, computed from the ranks before; the hit names are returned |
| FrozenRanks.FrozenStore.SetRank | crates/memory-pp/src/frozen.rs:182-202 | sets one clamped rank; an unknown name changes nothing |
| FrozenRanks.FrozenStore.Thaw | crates/memory-pp/src/processor.rs:334-342 | re-applies the saved activations and counts those whose node is known |
| FrozenRanks.FrozenStore.Wake | crates/memory-pp/src/frozen.rs:246-275 | the first top_k of the triggered nodes, sorted by overlap plus a quarter of the live rank |
| FrozenRanks.ClampNearest | crates/memory-pp/src/frozen.rs:85-88 | clamping gives the rank of [0, 2] that is nearest |
| FrozenRanks.FilteredExact | crates/memory-pp/src/frozen.rs:99-124 | of a loaded file exactly the values in range of known names are kept |
| FrozenRanks.WokenInOrder | crates/memory-pp/src/frozen.rs:246-258 | nodes wake in their order |
| FrozenRanks.WokenOne | crates/memory-pp/src/frozen.rs:246-258 | a node wakes exactly if a trigger hits |
| FrozenRanks.HitNamesAreWoken | crates/memory-pp/src/frozen.rs:141-156 | a reweight returns the names of the nodes the text hits, in order |
| FrozenRanks.AssignExact | crates/memory-pp/src/frozen.rs:129-202 | setting a rank moves that node alone, and a node never set has its static prior |
| FrozenRanks.KnownInOrder | crates/memory-pp/src/processor.rs:335-342 | a thaw counts activations one by one |
| FrozenRanks.KnownOne | crates/memory-pp/src/processor.rs:335-342 | an activation counts exactly if its node is known |
| FrozenRanks.LastActivationWins | crates/memory-pp/src/processor.rs:335-342 | of several activations of one name the last decides |
| FrozenRanks.BriefInOrder | crates/memory-pp/src/processor.rs:322-331 | anchors appear in the brief in their order |
| FrozenRanks.BriefOne | crates/memory-pp/src/processor.rs:322-331 | a stored anchor stands under its own heading, a pruned one is left out |
| FrozenRanks.OpsKeepInRange | crates/memory-pp/src/frozen.rs:85-202 | from whatever was loaded, every sequence of updates keeps the overlay in [0, RANK_MAX] over known names, and such an overlay survives being saved and loaded |
| FrozenRanks.AdjustedExact | crates/memory-pp/src/frozen.rs:141-177 | with unique names a reweight moves hit nodes to their clamped sum and no other node |
| FrozenRanks.FreezeExact | crates/memory-pp/src/processor.rs:274-289 | a freeze saves one activation per woken node, with its live rank |
| FrozenRanks.ThawSetsActivatedOnly | crates/memory-pp/src/processor.rs:334-342 | whatever happened in between, a thaw gives activated nodes their clamped saved rank and leaves the others alone |
| FrozenRanks.RoundTripIff | crates/memory-pp/src/processor.rs:274-342 | over every sequence of updates in between, freeze and thaw is exact iff the saved ranks lie in [0, RANK_MAX] |
| FrozenRanks.AllRestored | crates/memory-pp/src/processor.rs:335-342 | every activation is restored while its node exists |
| FrozenRanks.CheckpointBrief | crates/memory-pp/src/processor.rs:318-332 | the brief holds the anchors still stored, in order, and the count is their number |
| FrozenRanks.BlendIsLexicographicIff | crates/memory-pp/src/frozen.rs:261-266 | overlap plus a quarter rank orders by overlap first, for all counts, iff ranks lie less than 4 apart |
| FrozenRanks.WakeIsLexicographic | crates/memory-pp/src/frozen.rs:243-275 | while nodes of different knowledge rank less than 4 apart (or exactly 4, the lower first), waking is the stable order by overlap, then rank |
| FrozenRanks.WakeIsLexicographicIff | crates/memory-pp/src/frozen.rs:261-269 | for uniquely named nodes the two orders give the same list for every matcher and prompt iff the ranks are that close |
| FrozenRanks.FarRanksMisorder | crates/memory-pp/src/frozen.rs:261-269 | any two nodes of different knowledge whose ranks are not have a matcher that wakes them in the wrong order |
| FrozenRanks.InRangeIsClose | crates/memory-pp/src/frozen.rs:85-88 | live ranks in [0, RANK_MAX] are close enough |
| FrozenRanks.StaticPriorOutranksMatch | crates/memory-pp/src/frozen.rs:262-266 | an unclamped prior wakes a node without overlap before one that matches |
| RecallFusion.Rrf | crates/memory/src/recall.rs:18-29 | the nested loops give exactly the listed ids, each the sum of 1/(k + rank) over its places, with k at least 0 |
| RecallFusion.Smoothing | crates/memory/src/recall.rs:19-21 | the constant used is the larger of the configured one and 0 |
| RecallFusion.PlaceIsReciprocal | crates/memory/src/recall.rs:23-26 | in a list that names an id once, place i is worth 1 / (k + i) |
| RecallFusion.BetterPlacedScoresHigher | crates/memory/src/recall.rs:15-29 | an id placed at least as well in every list scores at least as high as one that no list repeats, and higher iff it is another listed id |
| RecallFusion.PlacementHoldsIffOnce | crates/memory/src/recall.rs:18-29 | an id that a list holds once and places at least as well as another never gets less, for all constants, iff the other stands at most once |
| RecallFusion.ListOrderIrrelevant | crates/memory/src/recall.rs:18-29 | the order of the lists does not matter |
| RecallFusion.NormalizeStretches | crates/memory/src/recall.rs:34-49 | the same ids, into [0, 1], no two swapped; above epsilon 0 and 1 are reached and differences scale evenly, otherwise all are 1 |
| RecallFusion.NormalizeKeepsOrderIff | crates/memory/src/recall.rs:31-49 | the whole order survives iff all scores are equal or the spread exceeds epsilon |
| RecallFusion.ListOrderSurvivesIff | crates/memory/src/recall.rs:18-49 | a list keeps its order through fusion and normalisation iff its first and last place differ in worth by more than epsilon |
| Kompress.Rewrite | crates/kompress-core/src/rewriter.rs:32-50 | the loop over the fillers and the cut compute the unit's rewritten text and its word count |
| Kompress.StripDropsFillers | crates/kompress-core/src/rewriter.rs:37-39 | the filler pass drops filler words and no others, keeping the order |
| Kompress.StripInOrder | crates/kompress-core/src/rewriter.rs:37-39 | fillers are replaced one after the other, in the order of the list |
| Kompress.StripOne | crates/kompress-core/src/rewriter.rs:37-39 | a one-filler pass replaces the spaced filler by one space |
| Kompress.FillerRemainsIff | crates/kompress-core/src/rewriter.rs:37-39 | after the whole pass a one-word filler that no later one contains is still there iff its own pass met it twice in a row |
| Kompress.ContainedIsWord | crates/kompress-core/src/rewriter.rs:6-19 | a one-word filler is contained in another only as one of its words |
| Kompress.FillerSurvivesIffDoubled | crates/kompress-core/src/rewriter.rs:37-39 | a one-word filler is still in the text after its pass iff the text had it twice in a row |
| Kompress.PhraseSurvivesIff | crates/kompress-core/src/rewriter.rs:37-39 | a filler of two different words is, iff the text had it twice in a row or one inside the other |
| Kompress.FillersAreOneOrTwoWords | crates/kompress-core/src/rewriter.rs:6-19 | every filler of the list is one word or two different ones |
| Kompress.RewriteOnlyDropsWords | crates/kompress-core/src/rewriter.rs:32-46 | the result's words are the original less filler words, cut after 60, with the ellipsis on the last |
| Kompress.PrunedIffWorthless | crates/kompress-core/src/pruner.rs:18-35 | for every positive threshold and penalty a unit is dropped iff it need not be kept and scores zero or less |
| Kompress.PrunedByRawScore | crates/kompress-core/src/pruner.rs:18-35 | in raw scores: dropped iff not must-keep and at most 0, or at most -0.3 when critical by syntax |
| Kompress.BoostExact | crates/kompress-core/src/loss.rs:29-35 | the boost is 0.3, up to a score of 1 |
| Kompress.LossExact | crates/kompress-core/src/loss.rs:4-15 | at the pruner's settings the loss is the distance above 0.35 and three times the distance below it |
| Kompress.PruneInOrder | crates/kompress-core/src/pruner.rs:18-35 | kept units stay in order |
| Kompress.PruneOne | crates/kompress-core/src/pruner.rs:18-35 | a unit is kept exactly if the rule keeps it |
| Kompress.PruneKeepsAll | crates/kompress-core/src/pruner.rs:18-35 | units at the composer's base score are never dropped |
| Kompress.PipelineKeepsEveryUnit | crates/kompress-core/src/pipeline.rs:32-48 | one unit per input, in order, with its own id, rewritten text, score 0.5 and critical flag; tokens never grow and the ratio lies in [0, 1] |
| Kompress.PipelineTotals | crates/kompress-core/src/pipeline.rs:33-39 | the totals are the sums over inputs and units, and the ratio is theirs |
| Kompress.RatioIs | crates/kompress-core/src/circulator.rs:15-20 | the ratio is output over input, and 0 without input |
| Kompress.JoinedText | crates/kompress-core/src/rewriter.rs:40-43 | cut text sets its words apart by single spaces |
| Kompress.UnitIdsDistinct | crates/kompress-core/src/composer.rs:13-30 | units have different ids |
| AnswerFold.RunWithEvents | crates/core/src/event_bridge.rs:90-203 | the loop over the stream yields the declared answer, evidence and transcript, or the first failure |
| AnswerFold.RunToText | crates/core/src/entheai_agent.rs:348-421 | the second loop yields its own declared answer, or the first failure |
| AnswerFold.ConcatInOrder | crates/core/src/event_bridge.rs:122 | the text of a turn is its text parts in order; other parts add nothing |
| AnswerFold.CallsAndResponses | crates/core/src/event_bridge.rs:123-130 | a turn has calls, or results, exactly if some part is one |
| AnswerFold.TurnKinds | crates/core/src/event_bridge.rs:39-44 | what is a boundary and what a pure-text turn, part by part; a denial is an object with `error` as its only key |
| AnswerFold.DeltasInOrder | crates/core/src/event_bridge.rs:112-120 | streamed deltas add up in order, and only partial events have any |
| AnswerFold.StreamEndsAtFailure | crates/core/src/event_bridge.rs:90-107 | the events read are those before the first failure, and that one is reported |
| AnswerFold.EvidenceAt | crates/core/src/event_bridge.rs:157-187 | one record per response, in order, with its id, tool, result and arguments, disallowed exactly for a bare error object |
| AnswerFold.PartsInOrder | crates/core/src/event_bridge.rs:157-187 | the parts read are those of the complete events, in order |
| AnswerFold.SaidIsSpoken | crates/core/src/event_bridge.rs:141-144 | the assistant's transcript rows are the pure-text turns, in order |
| AnswerFold.AnswerIsOnRecord | crates/core/src/event_bridge.rs:190-198 | a non-empty answer is always on the transcript, added once if it was only streamed |
| AnswerFold.PlainAnswerExact | crates/core/src/entheai_agent.rs:355-421 | run_to_text returns the stream's last pure-text turn, and without any what was streamed since the last call or result turn |
| AnswerFold.FoldsAgreeIff | crates/core/src/entheai_agent.rs:355-421 | the two agree iff the last pure-text turn lies in the last round, or there is none, or it equals that round's deltas |
| AnswerFold.SpokenThenCalled | crates/core/src/entheai_agent.rs:392-404 | after any stream, a pure-text turn and then a call turn make run_to_text return the text and run_with_events nothing |
| AnswerFold.SuchTurnsExist | crates/core/src/entheai_agent.rs:392-404 | for every non-empty text and every call there are such turns, so the two do differ |
| AnswerFold.LastTextIsAnswer | crates/core/src/event_bridge.rs:141-148 | a pure-text turn followed by no pure-text, call or result turn is the answer |
| AnswerFold.StreamIsAnswer | crates/core/src/event_bridge.rs:190-198 | without one the answer is what was streamed since the last call or result turn |
| AnswerFold.RoundTextIsLastText | crates/core/src/event_bridge.rs:141-155 | a pure-text turn of the last round is the stream's last one |
| AnswerFold.TranscriptMatchesEvidence | crates/core/src/event_bridge.rs:157-187 | the transcript's function rows are the evidence's results, in order |
| AnswerFold.ArgsOfNearestCall | crates/core/src/event_bridge.rs:158-177 | a response gets the arguments of the nearest unanswered call with its id |
| AnswerFold.NoArgsWithoutCall | crates/core/src/event_bridge.rs:169-175 | a response to a call already answered, or never made, gets none |
| ShaderBlock.MergeShaderBlock | crates/launcher/src/lib.rs:306-329 | the text and action of one merge, and where its slice panics |
| ShaderBlock.LawIffMarkersPaired | crates/launcher/src/lib.rs:302-329 | merging p then q is merging q, and re-merging is AlreadyCurrent with the same text, iff the markers are paired |
| ShaderBlock.MergedText | crates/launcher/src/lib.rs:306-329 | the merged text letter by letter, the path in it, and the action reported |
| ShaderBlock.BlockStartsLine | crates/launcher/src/lib.rs:321-327 | a new block begins on a line of its own |
| ShaderBlock.RemergeCurrentIff | crates/launcher/src/lib.rs:308-320 | merging q after p reports the block current iff the paths are the same |
| ShaderBlock.MergePanicsIff | crates/launcher/src/lib.rs:308-310 | the slice panics exactly where the first begin lies behind the first end |
| ShaderBlock.MergedShape | crates/launcher/src/lib.rs:302-329 | with paired markers the merged text is the user's text around one block |
| ShaderBlock.MergeIntoBlock | crates/launcher/src/lib.rs:308-320 | a block in place is swapped and nothing else changes |
| ShaderBlock.FirstMergeMakesOneBlock | crates/launcher/src/lib.rs:321-329 | without markers all user text is kept as a prefix and exactly one block appears |
| ShaderBlock.StrayBegin | crates/launcher/src/lib.rs:308-329 | a begin without an end: the second merge deletes all text from that begin on |
| ShaderBlock.StrayEnd | crates/launcher/src/lib.rs:308-320 | an end without a begin: the second merge panics |
| ShaderBlock.EndBeforeBegin | crates/launcher/src/lib.rs:308-320 | an end before the begin: never idempotent |
| ShaderBlock.ManagedMarkersAreGood | crates/launcher/src/lib.rs:240-241 | the program's two markers satisfy what these results need |
| ShellQuote.QuoteRoundTrip | crates/launcher/src/lib.rs:93-96 | for every path the shell reads the quoted form back as one word, the path |
| ShellQuote.LexQuote | crates/launcher/src/lib.rs:93-96 | in any context, a quoted path adds exactly the path to the word in progress |
| ShellQuote.QuoteInjective | crates/launcher/src/lib.rs:93-96 | different paths are quoted differently |
| ShellQuote.InnerCommandRecovered | crates/launcher/src/lib.rs:81-91 | the inner command is read as cd, the directory, and-if, exec, the program |

## Left out

- Finer interleaving inside one cache call: validity check, touch and pin are separate awaits in the source, and eviction pops before it deletes; the disk-safety results are for calls taken as one step each. A timeout comes before such a call ends, leaving anything at the path it was building, or after it.
- A clone process that outlives the call a timeout cancelled.
- WorkerProtocol.CoderKeepsItsBase: stated with each cache call as one step; between the awaits inside a call the code does not keep it.
- WorkerProtocol.QuiescentPresenceIsIdle: presence may read Idle while a coder runs, because a late Idle write can overtake a new task's Working write; only the quiescent claim holds of the code.
- Panicking coder tasks and a worker that is killed mid-run in the concurrency machine (a dropped permit and an uncounted task); crashes are modelled in the work queue.
- The claim's ack deadline, dispatcher deadlines and timing of redelivery: any unacked item may be redelivered at any time, up to three times.
- Subject wildcards and the message server itself: a message reaches the live subscriptions whose subject is the same string.
- The executor's git steps and worktree reset after a failed apply, and bundle sizes.
- Each (session, index) pair is executed once; two executors racing on the same pair are not modelled.
- Wrap-around of request ids, the in-flight counter and hold counts at the machine's integer width.
- McpRequests.Router.ReaderLoop: lossy UTF-8 decoding, trimming and JSON parsing of a line are one function parameter, so blank and unparsable lines are those it rejects.
- The clock read twice within one ledger load, on either side of midnight; a process killed inside a write; and more than one process sharing the ledger file.
- Fetching and normalising items in the pulse (HTTP clients, dates inside items, newest batch).
- Full-text recall, recency order and the sanitised query of the raw store: ordering and matching are SQLite's.
- Term extraction, trigger matching, lower-casing and previews: parameters of the ranking results; the wave scorer, the model file, recency decay and the final blend are not modelled.
- Rounding, infinities and NaN in scores and ranks.
- Persistence failures of the rank overlay, and the checkpoint's other fields (ratio, seed, session, time).
- The critical-syntax and must-keep tests of the compressor: arbitrary predicates in every result about it.
- Byte offsets: texts are sequences of characters, whose matches are those of the UTF-8 bytes.
- The WezTerm variant of the managed block, and writing the config files.
- Paths that are not valid UTF-8, which the program prints lossily before quoting them.
- Anything the shell does after reading the words (expansion, execution).
- Live event forwarding to the TUI, memory recording and the truncated previews of the agent run; a missing call id is left unnamed where the program draws a fresh one.
- Terminal discovery, rendering, the beacon, licence and configuration loading: interface and plain data.
