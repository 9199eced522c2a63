# Caches, queues and limiters of the task manager, verified

A Dafny model of the backend's cache and job subsystem, with proofs over every run, every
interleaving and every input.

- **Warm-up queue** (`WarmupQueue*.dfy`): workers share an immediate and a delayed sorted set
  and a dead-letter list; promotion reads, removes and adds in separate commands; failures are
  retried with a growing delay; validation jobs spawn jobs. The protocol is a step relation with
  a program counter per worker, and the worker's own methods are proved to be paths of it.
- **Circuit breaker** (`CircuitBreaker.dfy`): the class, and what its state means in terms of the
  outcomes recorded by overlapping calls.
- **Two-level cache** (`MemoryCache.dfy`, `MultiLevelCache.dfy`, `CacheHistory.dfy`, `CacheMemory.dfy`,
  `CacheOverwrites.dfy`, `CacheStaleness.dfy`): a TTL map over a Redis that may fail at any call, before or after having
  applied it, behind the breaker; and overlapping calls of many instances.
- **Task service** (`TaskService.dfy`, `TaskPages.dfy`, `CacheKeys.dfy`, `CachedTasks*.dfy`,
  `CachedTaskService.dfy`): the cached service against the plain one, and where the two part.
- **Priority queue, scheduler, pool, batch warmer** (`PriorityQueue.dfy`, `JobScheduler.dfy`,
  `WorkerPool.dfy`, `BatchWarmer.dfy`, `CacheWarmer.dfy`).
- **Sliding-window limiter** (`RateLimiter.dfy`, `RateLimiterDelays.dfy`) and **list worker**
  (`ListWorker.dfy`, `ListWorkerPartition.dfy`, `ListWorkerTurns.dfy`, `ListWorkerBackoff.dfy`).

Redis is maps, scored maps and sequences; time is an integer number of nanoseconds that never
decreases; faults, clock readings, handler outcomes and scheduling are inputs that the theorems
quantify over. Code that updates in place is classes and methods proved against functions of the
old state; the theorems about runs are about those functions.

## What the code does not do

Each is proved with an exact condition or a concrete run.

- A delayed warm-up job can be completed twice as soon as there are two workers.
- With `halfOpenMaxCalls` below 2 a breaker that has opened never closes again in sequential use.
- Five lookups of unknown ids open the breaker. A deletion is then refused without reaching the
  healthy Redis, the service ignores that, and readers get the old task again; for update, deletion
  and creation it is proved exactly when.
- An overwritten value can come back exactly if it was to live longer than the last value set.
- A creation without id or status caches a task that differs from the stored row, and a page whose
  count fails is cached with a total of 0.
- The limiter's bound needs exact scores and a key that outlives the window. Redis scores are
  doubles, so a span within 256 ns of the window can hold one more; windows such as 1.5 s lose
  their last half second to `EXPIRE`; simultaneous requests are counted once, so that with them
  the bound holds for a Rate of 1 alone; and pipelines that reach Redis late take their delay off
  the span.
- The list worker's delay wraps at the 28th attempt; a due job without a handler disappears; a list
  is passed over for a later one only once every entry has been due, and none was sent back to it.
- Jobs with one key and different data in one batch leave the cache to chance if two goroutines
  work and no later batch has the key.

A larger `Priority` goes first in both queues. The repository's README says otherwise; the model
follows the code (backend/internal/cache/priority_queue.go:24).

## Model

| member | source | states |
|---|---|---|
| `WarmupQueueWorker.WarmupQueues.EnqueueToRedis` | backend/internal/cache/integrated_cache_warmer.go:283-305 | a job due later than the clock reading enters the delayed set with its due second, any other the immediate set with that reading's second minus its priority; anyone may run between the reading and the command |
| `WarmupQueueWorker.ZRangeByScore` | backend/internal/cache/integrated_cache_warmer.go:376-380 | the result is the lowest-scored members up to the bound: scores do not fall along it, it is as long as asked for or all that is due, and what is due and left out scores at least as much as all in it |
| `WarmupQueueWorker.WarmupQueues.MoveDelayedJobs` | backend/internal/cache/integrated_cache_warmer.go:372-399 | a path of the protocol from polling to popping, with any commands of others between its own; the jobs it re-adds are the ten lowest due ones, oldest due time first, of the delayed set as it was at its read |
| `WarmupQueueWorker.WarmupQueues.RunHandler` | backend/internal/cache/integrated_cache_warmer.go:504-517 | a handler succeeds, fails, or - for a validation job only - spawns one warm-up job with three tries and a new id, at a clock reading some time before |
| `WarmupQueueWorker.WarmupQueues.FinishJob` | backend/internal/cache/integrated_cache_warmer.go:432-460 | after a failure the job is to be retried k seconds later on attempt k while tries are left, to be buried otherwise; after success the worker polls again |
| `WarmupQueueWorker.WarmupQueues.ExecuteJob` | backend/internal/cache/integrated_cache_warmer.go:417-461 | executing a popped job is a path of the protocol that ends with an idle worker |
| `WarmupQueueWorker.WarmupQueues.ProcessImmediateJobs` | backend/internal/cache/integrated_cache_warmer.go:401-415 | popping and executing is a path of the protocol |
| `WarmupQueueWorker.WarmupQueues.ProcessJobs` | backend/internal/cache/integrated_cache_warmer.go:364-370 | one polling round is a path of the protocol, so all results about runs hold of this code |
| `WarmupQueueSafety.InvStep` | backend/internal/cache/integrated_cache_warmer.go:372-461 | every command of every worker keeps the invariant |
| `WarmupQueueSafety.NoJobLost` | backend/internal/cache/integrated_cache_warmer.go:283-305 | in every run of any number of workers, each accepted job is queued, in hand, dead-lettered, completed or (only if a command failed) lost; queued jobs have tries left, dead ones have used exactly all; without failed commands failures = retries + dead letters + those about to be stored |
| `WarmupQueue.RangeIsLowestDue` | backend/internal/cache/integrated_cache_warmer.go:376-380 | the recursive range that the protocol uses is exactly: score order, all due members or as many as asked for, nothing lower left out |
| `WarmupQueueSafety.PromotionTakesLowestDue` | backend/internal/cache/integrated_cache_warmer.go:372-399 | whichever worker reads the delayed set gets its ten lowest due jobs |
| `WarmupQueueSafety.RewarmsTheSameKey` | backend/internal/cache/integrated_cache_warmer.go:504-517 | a validation job whose key is missing enqueues a fresh warm-up job for the same key, data and priority, with three tries |
| `WarmupQueueSafety.DeadMoves` | backend/internal/cache/integrated_cache_warmer.go:452-456 | a buried job goes to the head of the dead-letter list and nothing ever leaves it |
| `WarmupQueueWork.WorkIsKept` | backend/internal/cache/integrated_cache_warmer.go:283-461 | in every run, each job in either set, the dead-letter list or a worker's hands has the kind, payload, tries, creation time and priority of the job brought in with its id: retries, promotion and burial change attempts and due time alone |
| `WarmupQueueSafety.FailureIsRecorded` | backend/internal/cache/integrated_cache_warmer.go:436-442 | the history that the timing results use records the first failure, and the due time of a retry determines the last one |
| `WarmupQueueSafety.AttemptsAreSpaced` | backend/internal/cache/integrated_cache_warmer.go:372-397 | in every run a job is popped less than a second before its due time at the earliest; attempt k+1 comes more than k-1 seconds after failure k and more than k(k-1)/2 after the first; the last attempt more than (M-1)(M-2)/2 seconds after the first failure |
| `WarmupQueueSafety.AddedAtIsTheLastAdd` | backend/internal/cache/integrated_cache_warmer.go:392-396 | score plus priority of a member of the immediate set is the second of the clock reading with which it was added last |
| `WarmupQueueSafety.BoundedOvertaking` | backend/internal/cache/integrated_cache_warmer.go:300-304 | in every run in which nobody stalls for more than d between reading the clock and its ZADD, a job that joins after another and is popped before it joined no later than the other's second plus the difference of the priorities plus d in whole seconds |
| `WarmupQueueSafety.NothingLatePasses` | backend/internal/cache/integrated_cache_warmer.go:401-406 | with priorities in [lo, hi] and stalls of at most d, nothing that joins more than hi - lo seconds and d later is popped first |
| `WarmupQueueDrain.StepLowers` | backend/internal/cache/integrated_cache_warmer.go:417-461 | a measure weighted by tries, place and job type falls on every command that does work and never rises, although promotion interleaves, retries re-queue and validation jobs spawn |
| `WarmupQueueDrain.QueueDrains` | backend/internal/cache/integrated_cache_warmer.go:364-370 | without outside enqueues, every run has at most Measure many working commands |
| `WarmupQueueDrain.NeverStuck` | backend/internal/cache/integrated_cache_warmer.go:344-370 | while work is left, some worker reaches a working command within three steps |
| `WarmupQueueDrain.NothingLeftBehind` | backend/internal/cache/integrated_cache_warmer.go:432-460 | when no work is left, every job is completed, dead-lettered or was lost to a failed command |
| `WarmupQueueOnce.CompletedTwice` | backend/internal/cache/integrated_cache_warmer.go:386-398 | two workers that read the same delayed job complete it twice: a concrete run |
| `WarmupQueueOnce.AtMostOnceIffOneWorker` | backend/internal/cache/integrated_cache_warmer.go:386-398 | every run completes every job at most once if and only if there is at most one worker |
| `CircuitBreaker.CircuitBreaker.Allow` | backend/internal/cache/circuit_breaker.go:77-95 | admits exactly in Closed, in Open once the timeout since the last failure is over, and in HalfOpen with a quorum of at least two |
| `CircuitBreaker.CircuitBreaker.RecordFailure` | backend/internal/cache/circuit_breaker.go:97-113 | counts the failure, stamps its time, and opens the breaker at the threshold or when half open |
| `CircuitBreaker.CircuitBreaker.RecordSuccess` | backend/internal/cache/circuit_breaker.go:115-135 | clears the failure count when closed, goes from open to half open once the timeout is over, counts and closes at the quorum when half open |
| `CircuitBreakerHistory.StateFromLog` | backend/internal/cache/circuit_breaker.go:97-135 | state and counters are a function of the outcome log: Closed iff no run of failures since the last closing reached maxFailures, the count is that run, successes count the late successes since the last failure, and Closed and Open have none |
| `CircuitBreakerHistory.OnlyFourTransitions` | backend/internal/cache/circuit_breaker.go:97-135 | Closed to Open, Open to HalfOpen, HalfOpen to Open and HalfOpen to Closed are the only changes |
| `CircuitBreakerHistory.ClosesOnlyAfterQuorum` | backend/internal/cache/circuit_breaker.go:115-135 | it closes only after halfOpenMaxCalls consecutive successes recorded no earlier than the timeout after the last failure |
| `CircuitBreakerHistory.OverlapReplays` | backend/internal/cache/circuit_breaker.go:61-75 | over every interleaving of overlapping calls the breaker is the replay of the outcomes in recording order |
| `CircuitBreakerHistory.AdmissionFromLog` | backend/internal/cache/circuit_breaker.go:77-95 | over every interleaving, a call is admitted exactly if the log has not tripped the breaker, or its timeout is over, or it is half open with a quorum of at least two |
| `CircuitBreakerHistory.RecoversIffTwoCalls` | backend/internal/cache/circuit_breaker.go:86-87 | n sequential successes after the timeout close it if and only if halfOpenMaxCalls is at least 2 and n reaches it; below 2 it admits nothing any more |
| `CircuitBreakerHistory.NeverClosesIff` | backend/internal/cache/circuit_breaker.go:77-135 | an open breaker stays unclosed in every sequence of calls, one after the other, with any outcomes and times, if and only if halfOpenMaxCalls is below 2 |
| `MemoryCache.PatternsAgreeIffPlain` | backend/internal/cache/memory.go:111-122 | prefix matching in memory and glob matching in Redis agree on all texts if and only if the pattern has no wildcard besides a trailing star |
| `MemoryCache.PlainBodyAgrees` | backend/internal/cache/memory.go:111-122 | the direction the task service uses, for one text |
| `MemoryCache.MemoryCache.Get` | backend/internal/cache/memory.go:35-49 | an unexpired value or nothing; an expired entry is removed |
| `MemoryCache.MemoryCache.DeletePattern` | backend/internal/cache/memory.go:61-70 | removes exactly the keys that match |
| `MemoryCache.MemoryCache.Cleanup` | backend/internal/cache/memory.go:90-104 | removes exactly the expired entries, which no later lookup could have seen |
| `MultiLevelCache.RedisCache.Set` | backend/internal/cache/redis.go:72-87 | stores, or fails with or without having stored |
| `MultiLevelCache.RedisCache.DeletePattern` | backend/internal/cache/redis.go:115-129 | removes the keys matching the glob, or fails with or without having done so |
| `MultiLevelCache.MultiLevelCache.Set` | backend/internal/cache/multilevel.go:42-57 | writes memory and, if the breaker admits it, Redis; reports nothing of a failure but counts it |
| `MultiLevelCache.MultiLevelCache.Get` | backend/internal/cache/multilevel.go:59-88 | memory first, then Redis through the breaker, a hit there promoted for five minutes; a miss counts as a breaker failure |
| `MultiLevelCache.MultiLevelCache.Delete` | backend/internal/cache/multilevel.go:90-105 | memory always, Redis through the breaker; the answer tells whether Redis confirmed |
| `MultiLevelCache.MultiLevelCache.DeletePattern` | backend/internal/cache/multilevel.go:107-115 | both levels, Redis past the breaker |
| `CacheHistory.GetIsLatestOrMiss` | backend/internal/cache/multilevel.go:42-115 | over every sequence of calls with any pattern of Redis failures and refusals, a value returned is the one set last and not deleted since, unless the last deletion was not confirmed; assumes that no value of that key outlives its successor |
| `CacheHistory.OneTtlPerKeyOutlasts` | backend/internal/cache/memory.go:26-33 | one positive time to live for the key gives that assumption |
| `CacheOverwrites.TwoSetsRead` | backend/internal/cache/multilevel.go:42-88 | exactly which failures make a Get return the first of two values |
| `CacheOverwrites.OverwrittenReturnsIff` | backend/internal/cache/multilevel.go:42-88 | for any Sets of one key, with any TTLs, and a breaker that bears one failure: some history with these Sets, no deletion of the key and any other calls and failures ends in a Get that returns an overwritten value if and only if that value never ends in Redis, or ends there after the last value ended in memory |
| `CacheOverwrites.OnlyOutlivingReturn` | backend/internal/cache/multilevel.go:42-88 | the half that holds for every breaker configuration: a Get returns the last value, or one that outlives it |
| `CacheOverwrites.FirstOfTwoReturnsIff` | backend/internal/cache/multilevel.go:42-88 | the case of two Sets and nothing else |
| `CacheMemory.RemembersUntil` | backend/internal/cache/multilevel.go:42-88 | over every history: a value that was Set answers each Get on the instance up to its TTL, a value read from Redis each Get of the next five minutes, whatever Redis and the breaker do, if nothing sets, deletes or clears the key; after that it is a miss unless Redis answers |
| `CacheMemory.RemembersUntilOn` | backend/internal/cache/multilevel.go:59-88 | the same on each of many instances over one Redis, whatever the others do |
| `CacheMemory.ForgetsAtOnce` | backend/internal/cache/multilevel.go:90-115 | after a deletion, confirmed or not, the instance answers from Redis or not at all until the key is filled again |
| `CacheMemory.SharedUntil` | backend/internal/cache/multilevel.go:42-88 | a value that one instance wrote to Redis answers the other instances up to its TTL, and no longer |
| `CacheMemory.BreakerIsReplay` | backend/internal/cache/multilevel.go:42-115 | over every history the cache's breaker is the replay of the outcomes of the Redis calls it admitted, a miss being a failure and a pattern deletion none, so that the results about outcome logs hold of it |
| `CacheMemory.CountersAreExact` | backend/internal/cache/multilevel.go:42-115 | over every history hits, errors and deletes count the answered Gets, the failed or refused Redis calls and the Deletes |
| `CacheHistory.EveryCallIsCounted` | backend/internal/cache/multilevel.go:42-88 | hits + misses = number of Gets and sets = number of Sets over every history |
| `CacheHistory.StalenessIsBounded` | backend/internal/cache/multilevel.go:42-88 | any number of instances over one Redis, one call at a time, any failures: a returned value was Set for that key at some t with TTL T and is returned no later than t + T + 5 minutes (or was stored without expiry) |
| `CacheStaleness.OverlapStalenessIsBounded` | backend/internal/cache/multilevel.go:42-88 | the same when calls overlap, a Get split into lookup, Redis read and promotion and a Set into its two writes, t being the time of one of them: no later than t + T + 5 minutes + the longest delay between a read and its promotion |
| `CacheStaleness.OverlapStalenessIsExact` | backend/internal/cache/multilevel.go:67-74 | for promotions delayed by at most d, a bound holds of every run if and only if it is at least 5 minutes + d |
| `CacheStaleness.GetIsItsSteps` | backend/internal/cache/multilevel.go:59-88 | an admitted Get at one instant is the lookup, the read and the promotion of the overlapping model |
| `TaskService.FindAfterUpdate` | backend/internal/services/tasks.go:68-70 | an update changes the row with the id and no other row; TaskPages.UpdatedFields says how |
| `TaskService.FindAfterRemove` | backend/internal/services/tasks.go:72-74 | a deletion removes the row with the id and no other |
| `TaskPages.UpdatedFields` | backend/internal/services/tasks.go:68-70 | field by field: after an update the row has each non-zero field that was given, each other field as it was, its id, and the time of the call |
| `TaskPages.UpdatedInPlace` | backend/internal/services/tasks.go:68-70 | no row moves and every other row is unchanged |
| `TaskPages.RemovedClosesUp` | backend/internal/services/tasks.go:72-74 | the rows around a removed one stay in their order |
| `TaskPages.NewRowFields` | backend/internal/services/tasks.go:26-28 | field by field: a new row is the task as given with a generated id, status "pending" and the current times where none were given |
| `TaskPages.SortArranges` | backend/internal/services/tasks.go:46-64 | the sorted table is the rows at a permutation of its places, none after the next in the requested column and direction, ties in table order |
| `TaskPages.ArrangementIsUnique` | backend/internal/services/tasks.go:46-64 | only one permutation does that, so the sorted list is determined |
| `TaskPages.TextBeforeIsPrecedes` | backend/internal/services/tasks.go:64 | the title order: the first difference decides, and a prefix comes first |
| `TaskPages.PageIsCut` | backend/internal/services/tasks.go:54-64 | page p of size s is rows (p-1)s up to ps of the sorted table, cut off at its end |
| `TaskPages.PagesJoin` | backend/internal/services/tasks.go:54-64 | consecutive pages from the first concatenate to the start of the sorted table: no row twice, none left out |
| `TaskPages.PageArguments` | backend/internal/services/tasks.go:54-61 | page numbers from 1 and sizes from 1 to 100 are taken as written, all others become 1 and 10 |
| `TaskPages.AtoiOfDecimal` | backend/internal/services/tasks.go:56-61 | a decimal, with or without a sign, reads back as the number it was written from, if that fits 64 bits |
| `CacheKeys.PageKeyIsOwnIffNoColons` | backend/internal/services/cached_tasks.go:91 | a page key belongs to one argument list only if and only if the arguments hold no colon |
| `CacheKeys.KeysDiffer` | backend/internal/services/cached_tasks.go:53-72 | task, list and page keys never clash, and only page keys match the page pattern |
| `CacheKeys.SharedKeyDifferentPages` | backend/internal/services/cached_tasks.go:90-118 | two requests with one key and different pages, for arguments with a colon |
| `CachedTaskService.CachedTaskService.CreateTask` | backend/internal/services/cached_tasks.go:33-50 | database, memory, Redis, breaker, metrics and reply after the call equal the specification |
| `CachedTaskService.CachedTaskService.GetTaskByID` | backend/internal/services/cached_tasks.go:52-69 | cache first, then the row, cached for 30 minutes; database errors and a missing row are told apart; the state and reply equal the specification the coherence results are about |
| `CachedTaskService.CachedTaskService.GetTasks` | backend/internal/services/cached_tasks.go:71-88 | cache first, then the whole table, cached for 10 minutes; the state and reply equal the specification the coherence results are about |
| `CachedTaskService.CachedTaskService.GetTasksPaginated` | backend/internal/services/cached_tasks.go:90-118 | cache under the key of the four arguments, then the sorted page with the total, 0 if its count fails, cached for 5 minutes; the state and reply equal the specification the coherence results are about |
| `CachedTaskService.CachedTaskService.UpdateTask` | backend/internal/services/cached_tasks.go:120-139 | the table changes, then task, owner, page and list entries are deleted in that order, whatever Redis answers; the state and reply equal the specification the coherence results are about |
| `CachedTaskService.CachedTaskService.DeleteTask` | backend/internal/services/cached_tasks.go:141-161 | the row goes, then task, owner (read before), page and list entries are deleted in that order; the state and reply equal the specification the coherence results are about |
| `CachedTasksCoherence.ForgetSettles` | backend/internal/services/cached_tasks.go:126-136 | the deletions after a change, if confirmed, leave every entry in both levels in agreement with the new table |
| `CachedTasksCoherence.ServeKeeps` | backend/internal/services/cached_tasks.go:33-161 | every operation keeps all entries in agreement with the table and replies as the plain service would |
| `CachedTasksCoherence.SameTables` | backend/internal/services/tasks.go:26-74 | the table evolves as under the plain service, whatever the cache does |
| `CachedTasksCoherence.CachedServiceAgrees` | backend/internal/services/cached_tasks.go:33-161 | over every history in which deletions are confirmed, tasks are created with id and status and totals are counted, each reply is that of the plain service after the same calls: a task up to its time stamps, lists and (colon-free) pages exactly |
| `CachedTasksMemory.ServedUntil` | backend/internal/services/cached_tasks.go:33-161 | over any calls in between that do not write or delete the entry, and any faults: a task that was created or read from the table is answered the same way for 30 minutes, the list for 10, a page for 5, and what was read from Redis for 5 |
| `CachedTasksMemory.ChangeIsForgotten` | backend/internal/services/cached_tasks.go:33-161 | after a change of the table memory holds no list, no page, none of the owner's lists, and after an update or deletion not the task, whatever Redis and the breaker do |
| `CachedTasksLimits.CreateCoherentIff` | backend/internal/services/cached_tasks.go:33-50 | a creation leaves the cache coherent if and only if the task comes with an id and a status |
| `CachedTasksAdmission.ReadableUpdateIff` | backend/internal/services/cached_tasks.go:120-139 | with Redis healthy, an update leaves nothing wrong to be read if and only if the breaker admits calls, or Redis has no readable entry of the task that its content leaves and none of a list that changes |
| `CachedTasksAdmission.ReadableDeleteIff` | backend/internal/services/cached_tasks.go:141-161 | with Redis healthy, a deletion leaves nothing wrong to be read if and only if the breaker admits calls, or there is no such task, or Redis has no readable entry of it and of the list |
| `CachedTasksAdmission.ReadableCreateIff` | backend/internal/services/cached_tasks.go:33-50 | with Redis healthy, a creation leaves nothing wrong to be read if and only if id and status are given and the breaker admits calls or Redis has no readable list |
| `CachedTasksAdmission.HealthyUpdateIff` | backend/internal/services/cached_tasks.go:120-139 | the condition for an update that changes the task, over all entries: the breaker admits calls or Redis holds neither the task nor the list |
| `CachedTasksLimits.FailedCountCoherentIff` | backend/internal/services/tasks.go:62-65 | a page whose count fails is cached with total 0, which is right if and only if it came from the cache or there are no tasks |
| `CachedTasksLimits.MissesOpenTheBreaker` | backend/internal/cache/multilevel.go:67-74 | any lookups of any unknown ids at any times count as breaker failures, and the one that makes them five opens it while Redis is healthy |
| `CachedTasksLimits.HealthyRedisServesOldTask` | backend/internal/services/cached_tasks.go:120-139 | a concrete history, no fault anywhere, after which a read returns the task as it was before a confirmed update |
| `CachedTasksLimits.WarmupEmptiesTheList` | backend/internal/services/cached_tasks.go:197-209 | after the warm-up job of the service has run, the list call answers with no tasks, right only for an empty table |
| `PriorityQueue.SiftUpStep` | backend/internal/cache/priority_queue.go:58-67 | one swap towards the root moves the one violation of heap order to the parent |
| `PriorityQueue.SiftDownStep` | backend/internal/cache/priority_queue.go:69-79 | one swap with the better child moves the violation down |
| `PriorityQueue.RootJobIsBest` | backend/internal/cache/priority_queue.go:81-90 | in a heap whose items carry their job's priority the root holds a maximum |
| `PriorityQueue.PriorityQueue.Swap` | backend/internal/cache/priority_queue.go:27-31 | two items change places, their index fields follow, nothing else changes |
| `PriorityQueue.PriorityQueue.Up` | backend/internal/cache/priority_queue.go:58-67 | sift-up restores the heap and keeps the jobs |
| `PriorityQueue.PriorityQueue.Down` | backend/internal/cache/priority_queue.go:69-79 | sift-down restores the heap below n and leaves the rest alone |
| `PriorityQueue.PriorityQueue.PopLast` | backend/internal/cache/priority_queue.go:40-48 | the last item leaves with index -1 |
| `PriorityQueue.PriorityQueue.Push` | backend/internal/cache/priority_queue.go:58-67 | heap order and index fields hold and the multiset of jobs gains the job |
| `PriorityQueue.PriorityQueue.Pop` | backend/internal/cache/priority_queue.go:69-79 | the root, of maximum priority, leaves the multiset; heap order and indexes hold; nothing from an empty queue |
| `PriorityQueue.PriorityQueue.Peek` | backend/internal/cache/priority_queue.go:81-90 | a job of maximum priority, or nothing |
| `JobScheduler.ExtractJobsBatch` | backend/internal/cache/job_scheduler.go:200-218 | takes exactly min(capacity, n) jobs, in non-increasing priority, none below any job it leaves, and loses none |
| `JobScheduler.Drain` | backend/internal/cache/priority_queue.go:69-79 | popping until empty gives all jobs in non-increasing priority |
| `JobScheduler.BoundedPool.SubmitJob` | backend/internal/cache/worker_pool.go:89-106 | accepts exactly if the pool runs and the channel has room, and then only appends the job; that is the check and acceptance, or refusal, of the pool protocol |
| `JobScheduler.BoundedPool.SubmitJobs` | backend/internal/cache/worker_pool.go:108-116 | with room for the batch all jobs are taken, in order, while workers may receive at any time |
| `JobScheduler.Scheduler.ProcessScheduledJobs` | backend/internal/cache/job_scheduler.go:119-140 | with a running pool and an empty channel it submits all min(2 x workers, n) best jobs in order and drops none |
| `CacheWarmer.CacheWarmer.AddWarmupJob` | backend/internal/cache/warmer.go:76-92 | the swap loop inserts the job after the last one of at least its priority |
| `CacheWarmer.InsertionIsStable` | backend/internal/cache/warmer.go:82-91 | in a sorted list the job goes behind exactly those of at least its priority |
| `CacheWarmer.InsertedAllSorted` | backend/internal/cache/warmer.go:82-91 | inserting one by one gives a sorted permutation |
| `CacheWarmer.DrainMatchesList` | backend/internal/cache/priority_queue.go:21-90 | draining the heap and the insertion list give the same sequence of priorities |
| `WorkerPool.ConservedStep` | backend/internal/cache/worker_pool.go:89-145 | every step of every goroutine keeps: accepted = passed + in the channel + in hand, for each job |
| `WorkerPool.ReceivedInOrder` | backend/internal/cache/worker_pool.go:118-127 | in every run from every start the jobs that workers have received, followed by the channel, are the accepted jobs in the order of acceptance, and no history shrinks |
| `WorkerPool.SingleWorkerKeepsOrder` | backend/internal/cache/worker_pool.go:118-145 | with one worker cache.Set is called in the order of acceptance, and for exactly the accepted jobs once Stop has returned |
| `WorkerPool.WorkersTakeTheFront` | backend/internal/cache/worker_pool.go:118-127 | while nothing is accepted, what leaves the channel is its front |
| `JobScheduler.BatchTakenBestFirst` | backend/internal/cache/job_scheduler.go:119-140 | jobs accepted best first, with any others between them, are received best first in every run |
| `JobScheduler.BoundedPool.WorkersReceive` | backend/internal/cache/worker_pool.go:118-127 | what the scheduler's pool lets its workers take is a legal run of the pool protocol with the same channel and histories |
| `WorkerPool.ControlStep` | backend/internal/cache/worker_pool.go:49-145 | every step keeps the buffer bound and the lock discipline between submitters, collector and Stop |
| `WorkerPool.StopDrainsThePool` | backend/internal/cache/worker_pool.go:69-145 | over all interleavings: the buffer never exceeds 2 x workers, nothing is sent on a closed channel, no channel is closed twice, and when Stop has returned each accepted job has gone to cache.Set exactly once |
| `WorkerPool.RunIsBounded` | backend/internal/cache/worker_pool.go:69-87 | once Stop is the announced writer, every run up to its return is no longer than a bound known at that moment |
| `WorkerPool.StopIsNeverStuck` | backend/internal/cache/worker_pool.go:69-87 | until Stop returns some goroutine can move, without any new submission or reader |
| `WorkerPool.BatchIsNotDropped` | backend/internal/cache/worker_pool.go:89-116 | into an empty channel, no submission is refused before 2 x workers are accepted and Stop is called |
| `RateLimiter.DistributedRateLimiter.CheckLimit` | backend/internal/middleware/rate_limiter.go:94-117 | decision and new sorted set equal the specification; other keys are untouched |
| `RateLimiter.PrunedIsWindow` | backend/internal/middleware/rate_limiter.go:97-110 | for ordered times and a window that its key outlives, the pruned set is the window of the full request log, whether or not Redis dropped the key on its millisecond clock |
| `RateLimiter.AdmittedIff` | backend/internal/middleware/rate_limiter.go:94-117 | with increasing times, a request is admitted exactly if fewer than Rate came before or the one Rate places before has left the window (refused ones count) |
| `RateLimiter.AtMostRate` | backend/internal/middleware/rate_limiter.go:94-117 | for every monotone rounding of scores, at most Rate requests pass in any span whose first score is inside the last one's window |
| `RateLimiter.DoubleScoresAlmostKeepTheBound` | backend/internal/middleware/rate_limiter.go:94-117 | with the doubles Redis keeps, at most Rate pass in every span shorter than the window less 256 ns, for windows below a second or of whole seconds |
| `RateLimiter.BoundHoldsIff` | backend/internal/middleware/rate_limiter.go:97-110 | over increasing times, at most Rate pass in every span shorter than the window, for all rates and logs, if and only if scores tell neighbouring times apart and the window is below a second or at most a nanosecond above whole seconds (or at most a nanosecond) |
| `RateLimiter.DoubleScoresMissTheBound` | backend/internal/middleware/rate_limiter.go:106 | two requests in less than a window, both admitted at Rate 1, with the doubles Redis keeps |
| `RateLimiter.ExpiryMissesTheBound` | backend/internal/middleware/rate_limiter.go:108 | a window that its key does not outlive: two requests less than a window apart, both admitted at Rate 1 |
| `RateLimiter.SameInstantIsCountedOnce` | backend/internal/middleware/rate_limiter.go:106 | requests in the same nanosecond share one member: any number passes when Rate is at least 2 |
| `RateLimiter.TiedBoundHoldsIff` | backend/internal/middleware/rate_limiter.go:94-117 | when requests may come in the same nanosecond, at most Rate pass in every span shorter than the window if and only if the window is not positive, or Rate is 0, or Rate is 1, scores tell times apart and the key outlives the window |
| `RateLimiterDelays.NoDelayIsChecked` | backend/internal/middleware/rate_limiter.go:94-117 | pipelines that run at their clock readings are those of the limiter |
| `RateLimiterDelays.AtMostRateRead` | backend/internal/middleware/rate_limiter.go:97-110 | pipelines that reach Redis up to a delay after their clock readings, and so out of clock order: at most Rate of the requests read between lo and hi pass, if hi plus the delay is less than the window after lo, for every monotone rounding |
| `RateLimiterDelays.AtMostRateDelayed` | backend/internal/middleware/rate_limiter.go:97-110 | that is, with the doubles Redis keeps, in every span shorter than the window less the delay and 256 ns |
| `RateLimiterDelays.DelaysMissTheBound` | backend/internal/middleware/rate_limiter.go:97-110 | and not in every span shorter than the window: three requests pass at Rate 2, even with exact scores |
| `ListWorker.Worker.BLPop` | backend/internal/worker/worker.go:102-117 | takes the head of the first list that is not empty |
| `ListWorker.Worker.ExecuteJob` | backend/internal/worker/worker.go:130-160 | without a handler an error; a failure goes to the retry list while tries are left, to the dead list otherwise |
| `ListWorker.Worker.RetryJob` | backend/internal/worker/worker.go:162-167 | appends the job to the retry list, due after the 64-bit delay |
| `ListWorker.WorkIsKept` | backend/internal/worker/worker.go:102-180 | a job that comes back is unchanged if it waited, and otherwise has one attempt more and keeps id, type, payload and tries, in the retry list with tries left and in the dead list without |
| `ListWorker.Worker.ProcessNextJob` | backend/internal/worker/worker.go:102-128 | lists and handler calls after one turn equal the specification, for readable and unreadable entries |
| `ListWorker.Worker.WorkerLoop` | backend/internal/worker/worker.go:86-100 | the loop is the run of the specification |
| `ListWorkerPass.PassState` | backend/internal/worker/worker.go:102-180 | every list after k turns, also when the polled list is the retry list and others are polled too |
| `ListWorkerPartition.StablePartition` | backend/internal/worker/worker.go:102-180 | n turns on a list of n, at any clock readings: the waiting jobs stay in order, the due ones ran in order, failures alone went to retry or dead list, no other list changed |
| `ListWorkerPartition.OneFate` | backend/internal/worker/worker.go:119-137 | each entry waits, runs or vanishes; it vanishes exactly if it is unreadable or due without a handler |
| `ListWorkerTurns.FirstListStarvesTheRest` | backend/internal/worker/worker.go:103 | while the first list holds a job that is not due, no run takes anything from another list |
| `ListWorkerTurns.LaterListServedIff` | backend/internal/worker/worker.go:103-128 | after a pass over the first list that holds something - the retry list or any other - the worker turns to a later list if and only if every entry was unreadable, or due and not sent back |
| `ListWorkerBackoff.InvStep` | backend/internal/worker/worker.go:102-180 | every step of any number of workers keeps: tries match failures, failures are spaced by the delays, no job runs before its due time |
| `ListWorkerBackoff.DelayIsExactIff` | backend/internal/worker/worker.go:163 | the delay is 2^k minutes if and only if k is at most 27; then it wraps |
| `ListWorkerBackoff.DeadHistoriesAreTheFeasible` | backend/internal/worker/worker.go:130-180 | the failure times of a dead job over all runs are exactly the sequences of max(1, M) times, the first not before the due time and each at least the delay after the one before |
| `ListWorkerBackoff.BacksOffIff` | backend/internal/worker/worker.go:162-167 | at least 2^M - 2 minutes lie between first failure and death in every run if and only if M is at most 28 |
| `BatchWarmer.InvStep` | backend/internal/cache/warmer.go:232-257 | every channel operation and Set keeps: each job taken from the channel is set or in one goroutine's hands |
| `BatchWarmer.EachJobSetOnce` | backend/internal/cache/warmer.go:232-257 | when processBatch returns, each job was Set exactly once under every interleaving; without goroutines none was |
| `BatchWarmer.StepLowers` | backend/internal/cache/warmer.go:232-257 | every step lowers a measure, so every batch ends |
| `BatchWarmer.NeverStuck` | backend/internal/cache/warmer.go:250-256 | the warmer's sends never block and until the batch ends some step is possible |
| `BatchWarmer.OrdersAreExactly` | backend/internal/cache/warmer.go:232-257 | the orders of Set that g goroutines can produce are exactly the permutations in which the job at place m has index below m + g |
| `BatchWarmer.ScheduleIndependentIff` | backend/internal/cache/warmer.go:232-264 | one batch: the cache ends up the same under every interleaving if and only if at most one goroutine works or jobs with the same key carry the same data and TTL |
| `CacheWarmer.CacheWarmer.ProcessBatch` | backend/internal/cache/warmer.go:232-257 | any scheduler: terminates, and the Sets made are the jobs in one such order |
| `CacheWarmer.CacheWarmer.WarmCache` | backend/internal/cache/warmer.go:213-227 | the batches of the job list ran one after the other, each under any scheduling of its goroutines; without goroutines nothing is Set |
| `CacheWarmer.RunsAreExactly` | backend/internal/cache/warmer.go:183-264 | the orders of Set that whole runs can produce are exactly the permutations that stay inside the batches and in which the job at place m has index below m + concurrency |
| `CacheWarmer.RunIndependentIff` | backend/internal/cache/warmer.go:183-264 | all whole runs leave the same cache if and only if concurrency is 1, or any two jobs with one key in one batch carry the same data and TTL unless a later batch holds that key |
| `CacheWarmer.DistinctKeysAreIndependent` | backend/internal/cache/warmer.go:183-264 | with distinct keys the cache is the same after every run |

## Left out

- Counters of the warm-up queue (failedJobs and the like) are incremented without a lock in Go; the model takes each increment as one step.
- A failing ZRangeByScore, ZRem or ZPopMin in the warm-up queue: only the loss of a job in hand by a failing write is modelled.
- The local route of warm-up jobs and the router's threshold (backend/internal/cache/integrated_cache_warmer.go:251-281, 307-341): it does not agree with the Redis route for batch, eviction and validation jobs.
- The kinds of payload errors of the handlers: a handler may fail or succeed at will.
- A negative TTL of one nanosecond, which go-redis reads as "keep the TTL".
- MemoryCache.PatternsAgreeIffPlain: the glob has stars and question marks, but no character classes and escapes, which no pattern of the service uses.
- CacheOverwrites.OverwrittenReturnsIff: a breaker that opens at the first failure (maxFailures below 2), where the value also needs the breaker to recover in time.
- WorkerPool.RunIsBounded: Stop's wait for its turn among the writers, which Go's fair mutex ends; until then submitters and the collector may go on.
- CacheHistory.StalenessIsBounded: one call at a time; CacheStaleness has the bound for overlapping calls.
- The caller's pointer that promotion stores in memory (backend/internal/cache/multilevel.go:71): every Get is taken to have a fresh destination that nobody changes.
- Reads that fill the cache while another call changes the same task: calls of the service run one at a time.
- GetTasksByUser: its key is not matched by the pattern that is meant to invalidate it (backend/internal/services/cached_tasks.go:42, 164).
- The order of rows that the database leaves open (taken as table order), the overflow of a page offset, and an update that changes a task's id.
- The database's collation of titles: they are compared byte by byte.
- What the warm-up handlers read from and write to the cache: only their outcomes are modelled.
- JSON and reflection copies, taken to preserve values.
- Failing Redis commands of the limiter (the request is let through then) and of the list worker (a popped job is lost if its push fails).
- ListWorkerBackoff.BacksOffIff: the workers do not poll the dead list and nobody enqueues to it; ListWorkerPartition covers that case for one worker.
- CacheWarmer.CacheWarmer.WarmCache: no cancellation, and batch sizes of at least 1; a size of 0 loops for ever and a negative one panics.
- Restarting or resizing a pool, scheduler triggers, Exists, Health, Stats, tags, the token-bucket limiter and the breaker of the middleware.
- HTTP handlers, authentication, configuration, the frontend and deployment.
