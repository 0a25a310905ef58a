# Verification of an apt caching proxy

A model in Dafny of the parts of the proxy that carry state over unbounded runs, with proofs
of what they promise. `dafny verify dfyconfig.toml` checks everything.

Concurrent components are step systems: a state with a program counter for every goroutine or
call, `Enabled` and `Step` for one shared operation at a time, and `Execution` for runs.
Sequential components are classes and methods with the loops of the original, each proved
against a specification function, and theorems about those functions. Beside the theorems
over runs stand laws that say what each answer, step or field comes to without the
functions that compute it. What the code asks of
the outside (GitHub, the disk, the database, regular expressions, the clock) is a parameter,
and a statement holds for all answers that parameter can take. Where the model fixes
something about the outside instead, as the order of an issue listing, it stands under "Left out".

| files | component |
|---|---|
| `TaskQueue.dfy`, `TaskQueueTheorems.dfy`, `TaskQueueAnswers.dfy` | the bounded task queue and its shutdown |
| `LruSpec.dfy`, `LruCache.dfy`, `LruTheorems.dfy` | the LRU cache: sequence, table over a linked ring, whole runs |
| `ChronologicalSort.dfy`, `UpdateScheduler.dfy`, `UpdateSchedulerTheorems.dfy`, `UpdateSequenceTheorems.dfy`, `UpdateCycleTheorems.dfy`, `IssuePipeline.dfy` | chronological and parent-first ordering of issue updates, its validator, and the three in turn |
| `Prefetcher.dfy`, `PrefetcherTheorems.dfy`, `PrefetcherSteps.dfy`, `IndexPrefetch.dfy` | prefetch workers, fetches, cleanups; filtering and batching |
| `KeyManager.dfy`, `KeyManagerTheorems.dfy`, `KeyManagerAnswers.dfy` | double-checked key retrieval |
| `Text.dfy`, `PackageParser.dfy`, `PackageParserTheorems.dfy`, `ReleaseParser.dfy` | line scanning and the Debian index parsers |
| `PathMapper.dfy` | the priority rule table |
| `CacheStore.dfy`, `CachePruning.dfy` | the entry store with its size counter, selection and pruning |
| `IssueProcessor.dfy`, `IssueTheorems.dfy`, `IssueRuns.dfy`, `IssueOutcomes.dfy`, `DuplicateIssues.dfy`, `DuplicateTheorems.dfy` | GUID-guarded issue creation and duplicate closing |
| `Sums.dfy`, `Options.dfy` | totals over sequences, optional values |

## What the proofs found

Where a natural property does not hold of the code, the project proves exactly when it does.

- Queue: a Submit that passed a flag check can still send on the closed task channel, and
  exactly those calls can (`WhoCanSendOnClosed`). The closed-channel branch of the worker
  loop belongs to workers started after `wg.Wait` returned, and to nobody else; where a
  finished Stop left tasks behind, such a worker still runs their handlers
  (`LateStartHandles`).
- LRU cache: the zero-capacity case drops the newest entry where the loop drops the oldest;
  they agree as long as one entry at most has to go, which is all Add leaves. Capacities
  below zero act as zero.
- Scheduler: stamps with a time zone, without one and malformed ones cannot be compared with
  each other, and no choice of comparisons sorts a mixture (`SortableIff`). Resolving is
  idempotent exactly when no parent cycle has two members; on a cycle exactly one update
  stands before its parent, the one whose parent the first update to reach it reaches first
  (`BreaksIffEntered`). Updates without a guid are not moved behind their parent.
- Prefetcher: fetch goroutines outlive the worker that started them, so any number of fetches
  of one URL can be under way at once, with a single worker. A request is skipped only for a
  live fetch of its URL that began at the same nanosecond, and not even for that one once a
  cleanup has deleted its key (`SkippedIffHeld`).
- Key manager: `HasKey` and `RemoveKey` do not strip `0x`, so for an id with `0x` the first
  misses the key that `FetchKey` fetched for it, and the second reports success and removes
  nothing. `RemoveKey` deletes one file but forgets every spelling, and `ListAvailableKeys`
  replaces the cache by what it read before it had the lock; by exactly these two a key whose
  file never leaves the disk becomes one that is downloaded again
  (`FetchedAfterIffForgotten`). `FetchKey` can return nil for a key removed meanwhile.
- Parser: a stanza with fields but no Package bleeds into the next stanza and the next file.
  A line of white space ends a stanza for `ParsePackages` and not for `ParsePackagesFile`.
  The fast line scanner and the full parse part ways over a second Filename in a stanza, one
  written without the space behind the colon or with space before it, and one in a stanza
  without Package; `FastExtractionIff` says when exactly.
- Mapper: among rules of equal priority the unstable sort decides; the answer is determined
  exactly when the best matching rules are equal, and where it sends a request exactly when
  they agree on repository and remote path.
- Cache: `SaveCacheEntry` never subtracts what it overwrites, and `RecordCacheHit` saves, so
  the counter grows with every hit; a deletion that fails halfway lowers it while the entry
  stays. It covers the bytes stored exactly as long as the second does not use up the first.
  At most ten entries are pruned for one Add.
- Issue processor: the body of an issue may be null. The search then raises an error that is
  taken for "no duplicate", whatever is listed behind that issue. The processor makes such
  issues itself: an update file may hold `"body": null`, which is posted or patched as it
  stands without a GUID and fails with one. And a request for a page that fails leaves the
  search with the pages before it. The issues created with one GUID are at most one more than
  these events and the markers that updates or deletions take (`BoundedCreations`); the bound
  is met for every number of null bodies, whoever opens them, of searches cut short and of
  markers taken. An empty or null `repo` is searched in the default repository, but nothing
  can be created for it. A comment that was posted is reported as failed
  (scripts/issue_manager.py:1719-1737), because `add_comment` returns a truth value
  (scripts/issue_manager.py:589-603).

## Model

| member | source | states |
|---|---|---|
| `TaskQueue.Enabled` | internal/queue/queue.go:40-107 | when each atomic operation of a worker, a Submit call or a Stop call can happen |
| `TaskQueue.Step` | internal/queue/queue.go:40-107 | what that operation does to the channels, the flag, the wait group, the once and the calls |
| `TaskQueue.InOrderStep` | internal/queue/queue.go:90-106 | every step keeps: at most 100 buffered tasks, and received followed by buffered is accepted |
| `TaskQueue.NoneLostStep` | internal/queue/queue.go:45-60 | every step keeps: a received task was handled or is in the hands of one worker |
| `TaskQueue.AcceptedOnceStep` | internal/queue/queue.go:83-107 | every step keeps: the accepted tasks are those of the Submit calls that returned nil, each once |
| `TaskQueue.StopOrderedStep` | internal/queue/queue.go:66-80 | every step keeps: the body of Stop runs once, by one call, in the order flag, stop signal, wait, task channel; nobody is back before it is done |
| `TaskQueue.WorkersJoinedStep` | internal/queue/queue.go:41-60 | every step keeps: the wait group counts live workers, and those started before wg.Wait returned left on the signal |
| `TaskQueue.ExecutionInv` | internal/queue/queue.go:40-107 | all five invariants hold along every run |
| `TaskQueueTheorems.FirstInFirstOut` | internal/queue/queue.go:33-56 | in every reachable state tasks were received in the order of acceptance whatever their priority, the buffer holds the rest, and each is handled at most once |
| `TaskQueueTheorems.AfterStop` | internal/queue/queue.go:66-80 | once a Stop is back each channel was closed exactly once and the joined workers left on the signal; accepted is handled plus left over if and only if no worker started later runs a handler |
| `TaskQueueTheorems.LateWorkersOnly` | internal/queue/queue.go:40-56 | after a Stop is back a worker can receive a task if and only if it was started after wg.Wait returned, is idle, and a task was left behind |
| `TaskQueueTheorems.LateStartHandles` | internal/queue/queue.go:40-56 | and whenever a Stop left tasks, a worker started then does run a handler |
| `TaskQueueTheorems.ClosedOnce` | internal/queue/queue.go:67-79 | no channel is closed twice by any number of Stop calls, and the task channel only after all joined workers left |
| `TaskQueueTheorems.ClosedBranchNeedsLateStart` | internal/queue/queue.go:47-50 | the closed-channel branch is open to a worker if and only if it is idle, was started after wg.Wait returned, and the closed channel is empty |
| `TaskQueueTheorems.LateStartTakesClosedBranch` | internal/queue/queue.go:40-50 | and such a worker does take it, so the branch is not dead code |
| `TaskQueueTheorems.LateSubmitAddsNothing` | internal/queue/queue.go:84-87 | over any run, a Submit that loads the flag after it was set adds nothing |
| `TaskQueueTheorems.WhoCanSendOnClosed` | internal/queue/queue.go:83-106 | a Submit call can reach a send on the closed channel in some run if and only if it is past a flag check, or about to check while the flag is unset |
| `TaskQueueTheorems.OnlyThoseMeetClosed` | internal/queue/queue.go:84-106 | no run takes any other call to such a send |
| `TaskQueueTheorems.ThoseDoMeetClosed` | internal/queue/queue.go:84-106 | for each of those calls a schedule with a complete Stop leads there |
| `TaskQueueTheorems.StepTakesWork` | internal/queue/queue.go:45-60 | every step but a new call lowers a weighted measure over calls, buffer, workers and the once |
| `TaskQueueTheorems.RunsAreBounded` | internal/queue/queue.go:45-107 | without new calls no schedule is longer than the measure |
| `TaskQueueTheorems.QuietMeansStopped` | internal/queue/queue.go:66-80 | when nothing can move after a Stop was called, all Stops are back, all workers gone and all Submits answered |
| `TaskQueueTheorems.StopCompletes` | internal/queue/queue.go:66-80 | a called Stop can always finish, and every maximal run without new calls ends with it finished |
| `TaskQueueAnswers.AcceptedIff` | internal/queue/queue.go:90-101 | Submit returns nil if and only if one of its two sends finds the channel open with fewer than 100 tasks, and then its task is the last in the channel |
| `TaskQueueAnswers.QueueFullIff` | internal/queue/queue.go:99-105 | it says the queue is full if and only if the second send finds no room in the open channel |
| `TaskQueueAnswers.RefusedIff` | internal/queue/queue.go:84-97 | it says the queue is stopping if and only if one of its two loads finds the flag set |
| `TaskQueueAnswers.PanicsIff` | internal/queue/queue.go:90-105 | it panics if and only if one of its sends finds the channel closed |
| `TaskQueueAnswers.OnItsWayIff` | internal/queue/queue.go:83-106 | a call comes to its send, its recheck and its second send from the place before only, past a flag found unset |
| `TaskQueueAnswers.WorkerMovesIff` | internal/queue/queue.go:45-60 | what makes a worker take the first task, finish it, leave on the signal and leave on the closed channel |
| `TaskQueueAnswers.CanBeAccepted` | internal/queue/queue.go:83-92 | from every reachable state with the flag unset and room, a Submit about to load the flag has a run that ends accepted |
| `TaskQueueAnswers.QuietMeansServed` | internal/queue/queue.go:40-107 | without a Stop every Submit ends accepted or for want of room, and with a worker every accepted task is handled when nothing is left to do |
| `LruSpec.ZeroCapacityAgrees` | internal/cache/lru.go:147-170 | the zero-capacity special case agrees with the general loop if and only if there is at most one entry to drop |
| `LruCache.EvictList.PushFront` | internal/cache/lru.go:54-54 | the ring of elements gains the element in front and stays linked both ways |
| `LruCache.EvictList.Remove` | internal/cache/lru.go:84-84 | exactly the given element leaves the ring |
| `LruCache.EvictList.MoveToFront` | internal/cache/lru.go:40-40 | exactly the given element moves to the front |
| `LruCache.LRUCache.constructor` | internal/cache/lru.go:24-30 | a new cache is empty, its table and list agree |
| `LruCache.LRUCache.Add` | internal/cache/lru.go:33-59 | map and list still agree, and the recency sequence is that of the specification: moved, revalued and counted, or pushed and evicted |
| `LruCache.LRUCache.Get` | internal/cache/lru.go:62-76 | hits exactly the keys held, moves the entry to the front and counts the hit |
| `LruCache.LRUCache.Remove` | internal/cache/lru.go:79-87 | removes exactly the key from map and list |
| `LruCache.LRUCache.EvictIfNeeded` | internal/cache/lru.go:144-171 | evicts in place what the specification evicts, for zero and negative capacities too |
| `LruCache.LRUCache.GetLRUItems` | internal/cache/lru.go:90-106 | the last n entries of the list, least recent first |
| `LruCache.LRUCache.GetMostPopularItems` | internal/cache/lru.go:109-134 | n entries in descending order of hits, none left out with more hits than one returned |
| `LruCache.SortByHits` | internal/cache/lru.go:121-127 | the in-place insertion sort leaves a permutation with descending hits |
| `LruCache.LRUCache.Size` | internal/cache/lru.go:137-141 | the number of keys is the length of the list |
| `LruTheorems.RunSound` | internal/cache/lru.go:33-87 | after every run keys are distinct and the size is within the capacity |
| `LruTheorems.NestedApply` | internal/cache/lru.go:33-87 | one operation on two caches side by side keeps the nesting and the bound d - c on the surplus |
| `LruTheorems.Inclusion` | internal/cache/lru.go:33-87 | after any operations, removals included, the smaller cache holds a subsequence of the larger with equal values and no more hits |
| `LruTheorems.LastDistinctKeys` | internal/cache/lru.go:33-76 | after any run without removals the list is the last `capacity` distinct keys by effective access, with accesses defined without a cache |
| `LruTheorems.RecentByLastUse` | internal/cache/lru.go:33-76 | the reference list orders the keys by their last use |
| `LruTheorems.HoldsLastValue` | internal/cache/lru.go:38-52 | each key held carries the value it was last added with |
| `LruTheorems.HitsCountUses` | internal/cache/lru.go:38-73 | the hits of a key held are its Adds and Gets since it last entered, that Add included |
| `ChronologicalSort.SortedChronologically` | scripts/enhanced_issue_manager.py:306-323 | on stamps of one kind the sort is chronological, then by sequence number, and leaves updates of equal keys as they stood |
| `ChronologicalSort.SortedInTime` | scripts/enhanced_issue_manager.py:306-323 | earlier times come first, malformed stamps in dictionary order, lower sequence numbers first on equal stamps |
| `ChronologicalSort.MixedKindsFail` | scripts/enhanced_issue_manager.py:311-323 | whatever comparisons a sort makes: if none of them fails and together they leave only one order, all stamps are of one kind |
| `ChronologicalSort.SortableIff` | scripts/enhanced_issue_manager.py:311-323 | comparisons that settle the order without a failure exist if and only if all stamps are of one kind |
| `ChronologicalSort.OnlyOneOrder` | scripts/enhanced_issue_manager.py:323-323 | two chronological lists with the same updates of each key in the same order are equal, so that determines the sort |
| `ChronologicalSort.KeyOrder` | scripts/enhanced_issue_manager.py:311-321 | the keys of one kind are totally preordered |
| `UpdateCycleTheorems.LastUpdateWins` | scripts/enhanced_issue_manager.py:329-340 | the graph holds, for each guid of the batch, the last update that carries it |
| `UpdateSchedulerTheorems.VisitMarks` | scripts/enhanced_issue_manager.py:352-367 | a visit terminates on every parent graph and marks exactly the guid and its chain of unvisited ancestors |
| `UpdateScheduler.Resolver.VisitGuid` | scripts/enhanced_issue_manager.py:352-367 | the recursive closure over the set and the list does what the specification says |
| `UpdateScheduler.Resolver.ResolveDependencies` | scripts/enhanced_issue_manager.py:325-376 | dict filling and the loop over the updates give the specified list |
| `UpdateScheduler.ValidateUpdateSequence` | scripts/enhanced_issue_manager.py:378-404 | the errors reported, in order; valid if and only if each update refers to an issue and a named parent was created before it |
| `UpdateScheduler.ReportedIffWrong` | scripts/enhanced_issue_manager.py:378-404 | an error is reported if and only if a comment, update or close names neither issue nor parent, or a parent without a create action before it |
| `UpdateScheduler.NoProblems` | scripts/enhanced_issue_manager.py:385-404 | no error is reported exactly when every update is acceptable where it stands |
| `UpdateSchedulerTheorems.VisitEmits` | scripts/enhanced_issue_manager.py:352-367 | a visit appends the chain of unvisited ancestors, farthest first |
| `UpdateSchedulerTheorems.SurvivorsOnce` | scripts/enhanced_issue_manager.py:329-340 | each guid of the batch is in the resolved list exactly once, with its last update |
| `UpdateSchedulerTheorems.GuidlessKept` | scripts/enhanced_issue_manager.py:369-375 | updates without a guid keep their order, none lost or doubled |
| `UpdateSchedulerTheorems.ParentsFirstButOncePerCycle` | scripts/enhanced_issue_manager.py:348-376 | an update with a guid stands behind its in-batch parent, or opens a block that is its whole parent cycle; never both |
| `UpdateSchedulerTheorems.BreaksOnCycle` | scripts/enhanced_issue_manager.py:348-376 | what stands before its parent lies on a cycle together with it |
| `UpdateSchedulerTheorems.OneBreakPerCycle` | scripts/enhanced_issue_manager.py:348-376 | on each parent cycle exactly one update stands before its parent |
| `UpdateCycleTheorems.BreaksIffEntered` | scripts/enhanced_issue_manager.py:348-376 | which one: an update stands before its parent if and only if the first update to reach it reaches its parent first |
| `UpdateSchedulerTheorems.UnchangedIffParentFirst` | scripts/enhanced_issue_manager.py:348-376 | with distinct guids a list comes back unchanged if and only if its parents come first |
| `UpdateSchedulerTheorems.ParentFirstIffNoCycle` | scripts/enhanced_issue_manager.py:348-376 | the resolved list is parent-first if and only if no parent cycle has two members |
| `UpdateSchedulerTheorems.ResolvedGraph` | scripts/enhanced_issue_manager.py:348-376 | resolving keeps the graph |
| `UpdateSchedulerTheorems.IdempotentIffNoCycle` | scripts/enhanced_issue_manager.py:348-376 | resolving twice equals resolving once if and only if no parent cycle has two members |
| `UpdateSequenceTheorems.VisitedIffCalled` | scripts/enhanced_issue_manager.py:352-375 | after k updates exactly their guids and in-batch ancestors are visited |
| `UpdateSequenceTheorems.OvertakersAreAncestors` | scripts/enhanced_issue_manager.py:348-376 | least displacement: what overtakes an update is an ancestor of an update at or before it |
| `UpdateSequenceTheorems.GuidlessAcceptable` | scripts/enhanced_issue_manager.py:369-404 | an update without a guid is acceptable if and only if its parent was called before its turn |
| `UpdateCycleTheorems.GuidAcceptableIff` | scripts/enhanced_issue_manager.py:378-404 | an update with a guid is acceptable in the resolved list if and only if its references are right and it does not stand before a parent it refers to |
| `UpdateCycleTheorems.ValidatesIff` | scripts/enhanced_issue_manager.py:325-404 | for every batch, cycles and repeated guids included: validation of the resolved list reports nothing if and only if conditions on the batch alone hold |
| `IssuePipeline.PlanChronological` | scripts/enhanced_issue_manager.py:246-260 | sorting, resolving and validating in turn: a failing sort, the problems found, or the resolved list, and exactly when which |
| `IssuePipeline.OnlyAncestorsOvertake` | scripts/enhanced_issue_manager.py:246-260 | in the plan an update overtakes a chronologically earlier one only if it is an ancestor of that or of one taken up before |
| `Prefetcher.Enabled` | internal/backend/prefetcher.go:244-320 | when a worker, a fetch, the clock, a cleanup or the shutdown can take its next shared operation |
| `Prefetcher.Step` | internal/backend/prefetcher.go:244-420 | the effect of that operation on queue, table, counters, wait group and failure map |
| `Prefetcher.CountsStep` | internal/backend/prefetcher.go:263-265 | every step keeps: inProgress counts the workers inside processSingleURL |
| `Prefetcher.WaitsStep` | internal/backend/prefetcher.go:276-278 | every step keeps: the wait group counts outer goroutines not done or about to start |
| `Prefetcher.OwnedStep` | internal/backend/prefetcher.go:268-279 | every step keeps: each key has an owner that will delete it; one to one until a cleanup deletes |
| `Prefetcher.AccountedStep` | internal/backend/prefetcher.go:244-316 | every step keeps: each accepted request is queued, in hand, fetched or skipped, once |
| `Prefetcher.FailuresStep` | internal/backend/prefetcher.go:301-313 | every step keeps: the failure counter is the length of the trailing run of failures |
| `PrefetcherTheorems.Bookkeeping` | internal/backend/prefetcher.go:257-316 | in every reachable state inProgress is that count and within 0..maxActive, and the wait group is zero if and only if no fetch is live or about to start |
| `PrefetcherTheorems.EveryKeyIsHeld` | internal/backend/prefetcher.go:268-279 | in every reachable state the operations that will delete a key are just those whose key a cleanup deleted, and one more if the key is in the table; so a key in the table is held, and a held one not orphaned is in the table |
| `PrefetcherTheorems.OrphanedIff` | internal/backend/prefetcher.go:357-421 | a key becomes an orphan if and only if a cleanup deletes it while it is in the table |
| `PrefetcherTheorems.SkippedIffHeld` | internal/backend/prefetcher.go:268-275 | in every reachable state a request is skipped if and only if more operations hold its URL with the same stamp than cleanups made orphans |
| `PrefetcherTheorems.WaitedForMeansGone` | internal/backend/prefetcher.go:276-279 | with the wait group at zero only a worker between storing and wg.Add has a key; with inProgress zero as well the table is empty |
| `PrefetcherTheorems.NothingLostOrRepeated` | internal/backend/prefetcher.go:244-316 | conservation of accepted requests URL by URL, and the failure counter against the log of results |
| `PrefetcherTheorems.StepTakesWork` | internal/backend/prefetcher.go:244-320 | every worker or fetch step lowers a weighted measure |
| `PrefetcherTheorems.RunsAreBounded` | internal/backend/prefetcher.go:244-320 | undisturbed runs are no longer than the measure |
| `PrefetcherTheorems.QuietMeansDrained` | internal/backend/prefetcher.go:244-320 | when nothing can move, the counters are zero and the table empty; requests stay queued only if all workers stopped |
| `PrefetcherTheorems.Drains` | internal/backend/prefetcher.go:244-320 | from every reachable state all maximal undisturbed runs end there, and there is one |
| `PrefetcherTheorems.FetchesPileUp` | internal/backend/prefetcher.go:267-276 | for every n a run of one worker reaches n simultaneous fetches of one URL: neither table nor counter deduplicates or limits them |
| `PrefetcherSteps.TakenUpInOrder` | internal/backend/prefetcher.go:244-256 | over any run requests are taken up in the order in which they came in |
| `PrefetcherSteps.HappensIff` | internal/backend/prefetcher.go:357-421 | when requests, the shutdown and the operations of cleanups can come |
| `PrefetcherSteps.WorkerMovesIff` | internal/backend/prefetcher.go:244-280 | what makes a worker take up, count, stamp, store, skip, hand over and leave a request, and stop |
| `PrefetcherSteps.FetchMovesIff` | internal/backend/prefetcher.go:276-320 | what makes a fetch go on: its answer or the timeout, then its key, then the wait group; the inner part answers once whatever became of the outer |
| `PrefetcherSteps.FailuresMove` | internal/backend/prefetcher.go:301-313 | a waited-for success clears the failures of its URL, such a failure adds one, nothing else changes them |
| `PrefetcherSteps.NotedIff` | internal/backend/prefetcher.go:357-371 | a cleanup notes a key if and only if it had been in the table for more than 15 seconds when the cleanup began |
| `PrefetcherSteps.ActiveAfter` | internal/backend/prefetcher.go:268-279 | a key comes into the table by a Store, with the time, and goes by its fetch or a cleanup |
| `IndexPrefetch.FilterForPrefetch` | internal/backend/prefetcher.go:323-343 | keeps the wanted URLs, in whatever order the configured architectures are walked |
| `IndexPrefetch.WantedIff` | internal/backend/prefetcher.go:323-354 | a URL is wanted if and only if no architecture is configured, it has the directory or file name of a configured one, or of none of the seven common ones |
| `IndexPrefetch.FilterURLsByArchitecture` | internal/backend/prefetcher.go:556-585 | the exported filter keeps exactly the same URLs |
| `IndexPrefetch.ContainsAnyArch` | internal/backend/prefetcher.go:346-354 | whether the URL names a common architecture |
| `IndexPrefetch.Feeder.SetBatchSize` | internal/backend/prefetcher.go:89-93 | the batch size stays positive |
| `IndexPrefetch.Feeder.ProcessIndexFile` | internal/backend/prefetcher.go:142-192 | whatever the batch size, each wanted URL that is not active when it is looked up is offered once and in order; nothing under memory pressure |
| `IndexPrefetch.IdleExtremes` | internal/backend/prefetcher.go:165-180 | everything is offered when nothing is active, nothing when all is |
| `KeyManager.Step` | internal/keymanager/keymanager.go:181-305 | the steps of FetchKey between lock operations, RemoveKey, ListAvailableKeys with its directory read before the lock, and outside file changes |
| `KeyManagerTheorems.DownloadedOnce` | internal/keymanager/keymanager.go:245-302 | single flight: in every run a folded key id is downloaded at most once more than it was lost or unreadable, and once less if it was there from the start |
| `KeyManager.SingleFlightStep` | internal/keymanager/keymanager.go:245-302 | the invariant behind it, kept by every step |
| `KeyManagerTheorems.OneInside` | internal/keymanager/keymanager.go:246-247 | at most one call is inside recheck and download |
| `KeyManagerTheorems.NilMeansHasKey` | internal/keymanager/keymanager.go:181-305 | when FetchKey returns nil, HasKey holds for the normalized id if and only if the call did not find the key before the lock, or the last event about it since was neither a RemoveKey nor a ListAvailableKeys that could look at no file of it among the names read |
| `KeyManagerAnswers.NilIff` | internal/keymanager/keymanager.go:181-305 | FetchKey returns nil if and only if its found file is there, or cannot be looked at, and is younger than the ttl, a recheck sees a cached spelling on disk, or a server delivers |
| `KeyManagerAnswers.ErrorIff` | internal/keymanager/keymanager.go:181-305 | a call on its way returns an error if and only if it has come behind the last server under the lock |
| `KeyManagerAnswers.ErrorMeansAllFailed` | internal/keymanager/keymanager.go:270-304 | in every run an error with retrieval on means that each keyserver failed the call once, the default one where none is configured |
| `KeyManagerAnswers.QueuesIff` | internal/keymanager/keymanager.go:190-243 | a call queues for the lock if and only if the cache has no spelling of its key, the file found is gone, or it is too old |
| `KeyManagerAnswers.UnderLockIff` | internal/keymanager/keymanager.go:245-302 | under the lock it looks up just the cached spellings, then tries one server after the other |
| `KeyManagerAnswers.CachedAfter` | internal/keymanager/keymanager.go:181-305 | which names are cached after a download, a RemoveKey, a ListAvailableKeys, and that nothing else changes the cache |
| `KeyManagerAnswers.RecordsCount` | internal/keymanager/keymanager.go:285-295 | the downloads counted are the successful ones |
| `KeyManagerAnswers.EqualFoldIff` | internal/keymanager/keymanager.go:472-488 | ids are the same up to the case of letters |
| `KeyManagerAnswers.NormalizeMeans` | internal/keymanager/keymanager.go:186-187 | FetchKey works with the id in capitals without one 0x in front |
| `KeyManagerTheorems.NilWithoutKey` | internal/keymanager/keymanager.go:199-227 | that exception occurs: a run in which FetchKey returns nil for a key no longer cached |
| `KeyManagerTheorems.HasKeyWithoutPrefix` | internal/keymanager/keymanager.go:472-488 | HasKey agrees with the normalized id for ids without 0x |
| `KeyManagerTheorems.HasKeyMissesPrefixed` | internal/keymanager/keymanager.go:472-488 | with 0x it finds nothing in any cache without a name that starts with 0x, so it misses the key FetchKey fetched for that id |
| `KeyManagerTheorems.RemoveLeavesFileIff` | internal/keymanager/keymanager.go:736-782 | RemoveKey forgets every spelling, and leaves a file of the key if and only if there was one under another name than the one it deletes |
| `KeyManagerTheorems.RemoveDoesNothingIff` | internal/keymanager/keymanager.go:736-782 | it changes nothing, and succeeds, if and only if the id matches no cached name and names no file |
| `KeyManagerTheorems.RemoveMissesPrefixed` | internal/keymanager/keymanager.go:736-782 | so with 0x it leaves the key in place that FetchKey fetched for the id |
| `KeyManagerTheorems.ForgottenIff` | internal/keymanager/keymanager.go:564-598 | while its file stays, a cached name leaves the cache if and only if the step is a RemoveKey of the key or a ListAvailableKeys that read the directory before the file was there |
| `KeyManagerTheorems.FetchedAgainIff` | internal/keymanager/keymanager.go:245-302 | a key whose file stays can be downloaded again if and only if its name is not cached or a call is past the recheck for it |
| `KeyManagerTheorems.FetchedAfterIffForgotten` | internal/keymanager/keymanager.go:181-305 | over any run that spares the file: from some point on the key can be downloaded again if and only if a step of the run forgot it |
| `Text.TrimAround` | internal/parser/package_parser.go:121-122 | trimming takes exactly the surrounding white space |
| `Text.SpacesAre` | internal/parser/package_parser.go:121-122 | which characters count as white space |
| `Text.CarriageReturnDropped` | internal/parser/package_parser.go:97-102 | of the carriage returns before a line feed one is dropped |
| `Text.LinesAppend` | internal/parser/package_parser.go:97-102 | scanning lines distributes over texts that end in a line feed |
| `Text.LinesUnlines` | internal/parser/package_parser.go:97-102 | writing lines and scanning them are inverse |
| `Text.Scanner.Scan` | internal/parser/package_parser.go:97-102 | one scan yields the first line and leaves the rest |
| `PackageParser.Feed` | internal/parser/package_parser.go:104-149 | what one line does to the packages read and the stanza pending |
| `PackageParserTheorems.SetLineMeans` | internal/parser/package_parser.go:118-149 | a line with a colon sets the field of its trimmed key, whatever it held, and no other |
| `PackageParserTheorems.FeedMeans` | internal/parser/package_parser.go:104-149 | an empty line ends a stanza in one parser, a blank one in the other; with its Package it is a package, else it is read on |
| `PackageParser.ParsePackagesFile` | internal/parser/package_parser.go:84-158 | the scanner loop parses as specified: an empty line ends a stanza, which is kept if it has a Package and read on otherwise |
| `PackageParser.ParsePackages` | internal/parser/package_parser.go:278-336 | the scanner loop parses as specified: a blank line ends a stanza, which is kept if it has a Package and read on otherwise |
| `PackageParser.ExtractPackageURLs` | internal/parser/package_parser.go:224-239 | the non-empty Filename fields below the repository, in order |
| `PackageParser.ExtractURLsFromIndex` | internal/backend/prefetcher.go:589-607 | the trimmed non-empty values of the lines starting with Filename, in order |
| `PackageParser.PackageIndex.AddPackage` | internal/parser/package_parser.go:57-64 | the package joins the end of its name's list, other lists stay |
| `PackageParser.ParsePackagesFileWithIndex` | internal/parser/package_parser.go:161-173 | the index groups the parsed packages by name in order |
| `PackageParserTheorems.RoundTrip` | internal/parser/package_parser.go:84-158 | printing packages with a name and trimmed single-line values and parsing gives them back, with either parser |
| `PackageParserTheorems.FastExtractionAgrees` | internal/backend/prefetcher.go:589-607 | on printed files the line scanner finds exactly the non-empty Filename fields of the parsed packages |
| `PackageParserTheorems.FastExtractionIff` | internal/backend/prefetcher.go:589-607 | on any text they agree, there and on each beginning of it, if and only if every line is plain in its stanza: behind the Package the first Filename is one that both see and any other one repeats it unseen, before the Package the scanner sees none, and no Package line names or unnames a stanza behind its Filename |
| `PackageParserTheorems.JoinIff` | internal/parser/package_parser.go:84-158 | parsing distributes over concatenation for every second file if and only if the first leaves no field pending |
| `PackageParserTheorems.JoinSeparatedIff` | internal/parser/package_parser.go:105-116 | with an empty line between, if and only if the last stanza has a Package or no field: others bleed |
| `PackageParserTheorems.ParsersAgree` | internal/parser/package_parser.go:278-336 | both parsers agree unless a white-space line stands inside a stanza with a Package |
| `PackageParserTheorems.WhiteSpaceLineIff` | internal/parser/package_parser.go:293-299 | such a line makes them differ on some continuation if and only if a stanza with a Package is open |
| `ReleaseParser.ParseIndexFilenames` | internal/parser/package_parser.go:242-275 | the scanner loop computes the list of the first SHA256 section |
| `ReleaseParser.SectionReads` | internal/parser/package_parser.go:242-275 | printed sections are read back complete and in order, whatever stands around them |
| `ReleaseParser.FirstSectionOnly` | internal/parser/package_parser.go:242-275 | on any text: the third fields of the indented lines right behind the first line that starts with SHA256:, and without such a line nothing (NoSection) |
| `PathMapper.PathMapper.SortRules` | internal/mapper/mapper.go:224-228 | some descending order of the same rules; every tie-break is possible |
| `PathMapper.PathMapper.AddPrefixRule` | internal/mapper/mapper.go:147-160 | the table is a descending permutation of all rules added, this one included |
| `PathMapper.PathMapper.AddExactRule` | internal/mapper/mapper.go:163-176 | the table stays a descending permutation of all rules added, now with the exact rule |
| `PathMapper.PathMapper.AddRegexRule` | internal/mapper/mapper.go:123-144 | the table stays a descending permutation of all rules added, now with the regex rule; a bad pattern is an error and changes nothing |
| `PathMapper.PathMapper.AddRewriteRule` | internal/mapper/mapper.go:179-202 | the same for a rule that rewrites the path |
| `PathMapper.PathMapper.AddRule` | internal/mapper/mapper.go:205-221 | adds the rule the type stands for; unknown types and bad patterns are errors that change nothing |
| `PathMapper.PathMapper.MapPath` | internal/mapper/mapper.go:231-334 | the loop answers with the first matching rule, else the direct mapping or its error; and repository, remote path, cache path and index flag are those of the kind of rule, said without the mapping functions |
| `PathMapper.LookupAnswers` | internal/mapper/mapper.go:231-334 | every table the sort may leave answers so: behind a prefix and one slash, nothing for an exact rule, rewritten or behind the repository for a regular expression |
| `PathMapper.PicksHighest` | internal/mapper/mapper.go:239-302 | the answer is that of a matching rule of highest priority among all rules added, and direct exactly when none matches |
| `PathMapper.ConfluentIff` | internal/mapper/mapper.go:224-334 | the answer, with the rule that gave it, is independent of insertion order and tie-breaking if and only if all matching rules of highest priority are equal |
| `PathMapper.ConfluentPlaceIff` | internal/mapper/mapper.go:224-334 | repository, remote path and cache path are independent of them if and only if those rules agree on repository and remote path |
| `PathMapper.AnyTopCanWin` | internal/mapper/mapper.go:224-228 | every matching rule of highest priority wins in some table |
| `PathMapper.DirectRejoins` | internal/mapper/mapper.go:304-333 | the direct mapping fails exactly on single components; else repository and remote path rejoin to the cache path |
| `CacheStore.DatabaseStore.SaveCacheEntry` | internal/storage/pebbledb.go:254-269 | whatever the database answers: the counter grows by the size, nothing is subtracted for an overwritten entry, even when the write fails |
| `CacheStore.DatabaseStore.DeleteCacheEntry` | internal/storage/pebbledb.go:272-293 | entry and size go, down to zero; a failing write has already lowered the counter, a failing read nothing |
| `CacheStore.DatabaseStore.RecordCacheHit` | internal/storage/pebbledb.go:296-317 | a hit saves the entry again and so adds its size again, also when that write fails |
| `CacheStore.HitMeans` | internal/storage/pebbledb.go:296-317 | the entry has one hit more and the present access time, and is otherwise as it was; no other entry changes |
| `CacheStore.SaveMeans` | internal/storage/pebbledb.go:254-269 | the entry stands under its path, no other entry changes, and the counter has its size more |
| `CacheStore.DeleteMeans` | internal/storage/pebbledb.go:272-293 | the entry is out, and its size off the counter down to zero, also when the write fails |
| `CacheStore.DatabaseStore.ListCacheEntries` | internal/storage/pebbledb.go:350-383 | every entry exactly once |
| `CacheStore.CounterOverstates` | internal/storage/pebbledb.go:254-317 | over any run with any answers the counter stays at or above the bytes stored if and only if the failed deletions never use up what was overwritten, hit or failed to be saved; and then it is above by exactly the difference |
| `CacheStore.DriftStep` | internal/storage/pebbledb.go:254-317 | what one operation, failing or not, does to the distance between counter and bytes stored, the floor at zero included |
| `CacheStore.FallsBelowIff` | internal/storage/pebbledb.go:272-293 | one operation takes the counter below the bytes stored if and only if it is a failed deletion of an entry larger than that distance |
| `CacheStore.FloorActs` | internal/storage/pebbledb.go:283-286 | the clamp at zero is not dead: an entry saved and twice deleted, failing the first time, reaches it |
| `CacheStore.FloorIdle` | internal/storage/pebbledb.go:283-286 | it never acts where the counter covers the bytes stored |
| `CachePruning.ExchangeSort` | internal/cache/cache.go:300-306 | the in-place exchange sort leaves an ordered permutation |
| `CachePruning.Cache.GetLRUItems` | internal/cache/cache.go:291-314 | the entries accessed longest ago, access times ascending, none left out that was accessed before one of them |
| `CachePruning.Cache.GetMostPopularItems` | internal/cache/cache.go:317-340 | the entries with the most hits, hits descending, none left out that has more than one of them |
| `CachePruning.PrefixSelected` | internal/cache/cache.go:308-313 | the first entries of a sorted listing are such a selection |
| `CachePruning.Cache.PruneItems` | internal/cache/cache.go:148-162 | the loop over files, entries, counter and its own size is the fold of single removals that stops at the limit |
| `CachePruning.FoldPrunes` | internal/cache/cache.go:148-162 | that fold removes just the listed files and entries, and the counter loses what was taken, down to zero; for every answer of disk and database |
| `CachePruning.Cache.Add` | internal/cache/cache.go:120-167 | the error and the whole new state of files, entries and counter, whatever fails; a refused path or a failed first write changes nothing |
| `CachePruning.RemovedAreOldest` | internal/cache/cache.go:139-162 | what an Add removes are at most ten entries, accessed no later than any entry that was no candidate |
| `CachePruning.RemoveOneMeans` | internal/cache/cache.go:153-161 | a file goes if it was there and could be removed, then its entry if the database deletes it, and the size only with both |
| `CachePruning.PruneReaches` | internal/cache/cache.go:148-162 | the loop's size is conserved and reaches the limit if and only if removing every removable candidate would |
| `CachePruning.ShortestPrefix` | internal/cache/cache.go:148-162 | when every removal succeeds, the shortest prefix of the candidates that reaches the limit goes, or all |
| `CachePruning.WithinLimitIff` | internal/cache/cache.go:139-163 | after a successful Add the counter is within the limit if and only if it is once all that can be taken off for the ten oldest entries is taken off; from every state with a counter of zero or more |
| `CachePruning.CounterIsLoopSizeIff` | internal/cache/cache.go:139-163 | the counter ends at the loop's own size if and only if, of the candidates whose turn comes, none is removed halfway and the removable ones are no larger than the counter, or they are just as large |
| `IssueProcessor.Process` | scripts/issue_manager.py:1191-1252 | what one update does to the issue store, action by action |
| `IssueProcessor.IssueUpdateProcessor.CheckGuidUniqueness` | scripts/issue_manager.py:1428-1493 | the search loop over the part of the listing that came, newest first, a null body letting the operation pass |
| `IssueProcessor.IssueUpdateProcessor.CreateIssue` | scripts/issue_manager.py:1550-1622 | the outcome of a creation: the new issue in front of the listing, with a null body where one was given, and both entries of the map; refused in a repository that does not exist, and where a marker would go behind null |
| `IssueOutcomes.CreateMeans` | scripts/issue_manager.py:1550-1622 | a creation puts one open issue with title and marked body in front, remembers both GUIDs for it, and changes nothing else |
| `IssueOutcomes.CreatedExactly` | scripts/issue_manager.py:1191-1225 | when a create action creates, with the strategies that make the second search and the title check |
| `IssueOutcomes.CreateSucceedsIff` | scripts/issue_manager.py:1550-1622 | when a create action reports success, in a dry run and outside |
| `IssueProcessor.IssueUpdateProcessor.UpdateIssue` | scripts/issue_manager.py:1624-1678 | the issue patched, by number or by the parent GUID in the map, and with which title and body; null is written without a GUID and fails with one |
| `IssueOutcomes.UpdateMeans` | scripts/issue_manager.py:1624-1678 | a given title or body is written, with the marker comment in full behind a body, an absent one kept, and nothing else changes |
| `IssueOutcomes.ChildrenFindParent` | scripts/issue_manager.py:1604-1633 | after a creation an update that names its GUID as parent goes to the new issue |
| `IssueProcessor.IssueUpdateProcessor.AddComment` | scripts/issue_manager.py:1680-1737 | nothing of the store changes, and outside a dry run a failure is reported even for a comment that was posted |
| `IssueOutcomes.CommentMeans` | scripts/issue_manager.py:1680-1737 | a comment action changes no issue, and reports success in a dry run only |
| `IssueProcessor.IssueUpdateProcessor.CloseIssue` | scripts/issue_manager.py:1739-1780 | the issue is closed and keeps title and body |
| `IssueOutcomes.CloseMeans` | scripts/issue_manager.py:1739-1780 | a close that goes through leaves the issues with that number closed, with title and body kept, and every other issue and repository as it was |
| `IssueProcessor.IssueUpdateProcessor.DeleteIssue` | scripts/issue_manager.py:2040-2219 | the issue is removed, or closed where the deletion fails and closing does not |
| `IssueOutcomes.DeleteMeans` | scripts/issue_manager.py:2040-2219 | a delete that goes through takes just that issue out, and one that falls back closes it as a close does |
| `IssueProcessor.IssueUpdateProcessor.ProcessSingleUpdate` | scripts/issue_manager.py:1191-1252 | duplicate check and dispatch have the specified outcome |
| `IssueProcessor.UniqueIff` | scripts/issue_manager.py:1460-1493 | the check refuses if and only if an issue with one of the GUIDs is listed before the first without a body |
| `IssueOutcomes.CarriesIff` | scripts/issue_manager.py:1460-1493 | an issue carries a GUID if and only if its body has the marker comment somewhere |
| `IssueOutcomes.BlockedIff` | scripts/issue_manager.py:1460-1493 | a creation is stopped by an issue with its guid or legacy guid before which only issues with a body are listed |
| `IssueTheorems.EmbeddedIsChecked` | scripts/issue_manager.py:1138-1165 | whichever of guid and legacy_guid is present, the GUID written is among those searched |
| `IssueOutcomes.KindsOfGuid` | scripts/issue_manager.py:1138-1165 | a lone guid without the form of a UUID counts as a legacy one, otherwise both stay what they are |
| `IssueTheorems.SecondCheckAddsNothing` | scripts/issue_manager.py:1359-1426 | on one listing the check inside creation never refuses what the first check let pass |
| `IssueTheorems.CreatedIff` | scripts/issue_manager.py:1191-1225 | a create action creates an issue if and only if it has a title, is no dry run, puts no marker behind null, nothing objects to the title, no GUID of it is listed before a null body in what the searches see, and GitHub creates it in a repository there is |
| `IssueTheorems.CreatedWhereSearched` | scripts/issue_manager.py:1452-1456 | an issue is created in the repository that was searched: an empty or null repo entry is searched in the default one, and nothing can be created for it |
| `IssueTheorems.FreshWhenCreated` | scripts/issue_manager.py:1550-1607 | a created GUID was shielded by no issue of the part searched and is shielded after; where all of these have a body, none carried it |
| `IssueTheorems.OrderIrrelevant` | scripts/issue_manager.py:1460-1493 | where all issues have a body the order of the listing makes no difference to the search |
| `IssueTheorems.KeepsMarkerIff` | scripts/issue_manager.py:1138-1678 | an issue keeps its marker through any event if and only if that is not an update of this issue that goes through with null or a body lacking the marker, nor its deletion |
| `IssueTheorems.BoundedCreations` | scripts/issue_manager.py:1138-1607 | over any number of runs, actions and answers: the issues created with one GUID in a repository are at most one more than the exposing events (a null body opened by others or by the processor, a null body patched in front of the shielding issue, a marker taken, a search cut short of it), one less if the GUID is shielded at the start |
| `IssueTheorems.AtMostOnce` | scripts/issue_manager.py:1138-1607 | without exposing events at most one issue per repository is created with a GUID, none if one shields it already |
| `IssueRuns.NullBodiesMeetBound` | scripts/issue_manager.py:1461-1493 | the bound is met for every n, by others and by the processor itself: a run with fresh numbers in which n null bodies are opened and n + 1 issues with one GUID created |
| `IssueRuns.CutsMeetBound` | scripts/issue_manager.py:657-691 | and likewise with n searches whose listing is cut short by a failed request |
| `IssueRuns.UpdatesMeetBound` | scripts/issue_manager.py:1624-1678 | and likewise with n markers taken by updates |
| `IssueTheorems.GuardedIff` | scripts/issue_manager.py:1322-1326 | the guard searches the repository of creation if and only if the repo entry is missing or non-empty, or the default is the one meant |
| `DuplicateIssues.DuplicateIssueManager.GroupByTitle` | scripts/issue_manager.py:2474-2486 | every stripped title once, with all its issues in order |
| `DuplicateIssues.DuplicateIssueManager.CloseDuplicateGroup` | scripts/issue_manager.py:2488-2512 | closes those but the lowest number whose close succeeds, and counts them |
| `DuplicateIssues.DuplicateIssueManager.CloseDuplicates` | scripts/issue_manager.py:2411-2472 | closes exactly the surplus issues among those looked at; a dry run counts them all and closes none |
| `DuplicateTheorems.OneSurvivorPerTitle` | scripts/issue_manager.py:2411-2512 | when every close succeeds exactly the lowest number of each stripped title stays |
| `DuplicateTheorems.CountIsIssuesMinusTitles` | scripts/issue_manager.py:2411-2472 | the count is issues minus distinct titles |
| `DuplicateTheorems.SurplusAfter` | scripts/issue_manager.py:2488-2512 | closing some surplus issues leaves exactly the others surplus |
| `DuplicateTheorems.SecondRun` | scripts/issue_manager.py:2411-2512 | a second run finds exactly the failed closes, and none if and only if all succeeded |

## Left out

- KeyManager.UpperChar: folds ASCII letters only; key ids are hexadecimal, and full Unicode case folding is library behaviour.
- KeyManagerTheorems.DownloadedOnce: does not bound downloads of keys that leave cache or disk or cannot be looked at; the code then downloads again, and the bound counts these cases.
- KeyManagerTheorems.FetchedAgainIff: answers for automatic retrieval switched on; without it FetchKey returns at once.
- Expired keys: the recheck ignores expiry, so no refreshing is claimed; `RefreshExpiredKeys` and `PrefetchDefaultKeys` are not modelled.
- PackageParser.ParsePackagesFile: takes decoded text that is not gzip data; decompression, invalid UTF-8 and the scanner's token limit are library behaviour.
- PackageIndex.Search and ParseReleaseFile: would only add easy members.
- LruCache.LRUCache.GetLRUItems: a negative count is not modelled; the original panics on it.
- TaskQueue.Step: a send on the closed channel is a panic that ends the process; the step system records it as the outcome of the call and runs on, so what follows it in a run has no counterpart.
- LRU and mapper locks: every operation holds its lock throughout, so operations are modelled one after the other.
- Wall-clock time: a timeout is a step that may always happen, and clock readings are arbitrary.
- Prefetcher.Step: the bare-URL lookup and the counter read in ProcessIndexFile only decide whether and how a request is offered, so the step system lets the outside offer any request; a second Shutdown, which panics, is not a step.
- `RunStartupPrefetch`, `processBatch` and the unused `filterByArchitecture`: plumbing around the same queue.
- PathMapper.Library: regular expressions, formatting and path joining are uninterpreted functions; the default rules of New are not listed.
- CacheStore.DatabaseStore: only the entries and the size counter; PebbleDB, persistence of the counter, hash mappings and the maintenance routine are left out.
- CachePruning.Cache.Add: a write of the file that fails halfway is taken to leave no file.
- Concurrent cache calls: cache.go holds no lock in Add, and RecordCacheHit reads and writes in two operations of the database; both are modelled one call after the other, and the counter of two calls that interleave is not.
- IssueProcessor.IssueUpdateProcessor.CheckGuidUniqueness: a listing is newest first, as GitHub lists by default, and comes whole or as a beginning of that; issues that shift between pages while they are fetched are not modelled.
- IssueProcessor.IssueUpdateProcessor.ProcessSingleUpdate: files, summaries, labels and the comment written to a parent issue are left out, unescaping is done before, and only number, title, body and state of an issue are kept; an update changes title and body only, and an empty title is taken for none; titles, guids and repositories are strings or null, numbers are numbers.
- IssueTheorems.BoundedCreations: one processor runs at a time; issues that others edit, delete or move between repositories are not events, only issues they open.
- IssueTheorems.AtMostOnce: says nothing of runs with exposing events; for those BoundedCreations gives the bound that can be had.
- The title check before creation and the search for an existing comment GUID are answers of the outside: they use searches and first pages whose completeness the code does not control.
- DuplicateTheorems.SecondRun: for runs that look at all open issues; under the issue limit later issues are not looked at.
- DuplicateIssues.Strip: Python's strip is an uninterpreted function.
- ChronologicalSort.SortChronologically: takes parsed stamps; time-stamp parsing is library behaviour, and stamps that are no strings are left out. Which comparisons Python's sort makes is not modelled: MixedKindsFail holds for any.
- UpdateSchedulerTheorems.VisitMarks: recursion has no depth limit; CPython raises RecursionError on a parent chain of about a thousand.
- The `children` lists of the dependency graph are filled and never read.
- HTTP, TLS, health endpoints, adapters, configuration, metrics and project scripts: input and output, or easy members.
