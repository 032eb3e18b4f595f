# Verified models of the framework's stateful core

This project models the parts of the framework whose behaviour spans many calls, and proves what
they promise over every input and every run:

- **The lease queue protocol** (`LeaseQueue`, `LeaseQueueFailures`,
  `MemoryQueueModel`/`MemoryQueueRefinement`/`MemoryQueuePlaces`/`MemoryQueueTiming`/`MemoryQueueClass`,
  `RedisScripts`/`RedisQueueRefinement`/`RedisQueuePlaces`/`RedisReclaim`/`RedisQueueTiming`/`RedisQueueClass`,
  `TaskWorkerModel`/`MemoryTasks`/`RedisTasks`). One abstract lease queue: a bag of
  slots (ready, leased, revoked, in hand, dead, gone) rewritten one at a time. Conservation, fencing
  and the retry budget are proved for it once. `MemoryQueue`'s methods and the Redis commands and scripts
  are each shown to be runs of it, so both backends inherit those theorems. The Redis side is a transition
  system: every script or single command is one atomic step, any number of processes interleave, and a
  crash drops whatever an operation holds between two of its commands. A *mode* says how much is
  assumed of the callers: `Any` nothing; `Guarded` fresh job ids and dead-lettering under a live lease only;
  `Budgeted` fresh ids of jobs made by `createEnqueue`, and the settling calls of a worker whose `retries` equals
  the job's `maxRetries`, which may come after its lease has expired; `Failing` the same, and of one job that no
  delivery succeeds. `MemoryTasks` and `RedisTasks` put any number of workers and a backend together and say what
  becomes of a job by what its handlers do.
- **The radix router** (`RouterPaths`, `RouterModel`, `RouterSearch`, `RouterBindings`, `RouterRegistration`,
  `RouterMatch`, `RouterParams`, `RouterClass`). The tree is a table of nodes by the edges that lead to them; the class proves the mutable,
  linked tree equal to it, method by method.
- **Encapsulation scopes** (`ScopeModel`, `ScopeHooks`, `ScopeClass`, `AppGuards`). Which contexts reach a route,
  the cache of resolved hook chains behind its dirty flag, and the guards of unrouted requests.
- **The key-value store and its globs** (`KvModel`, `KvStoreClass`, `Glob`).
- **Response-cache keys** (`CacheKey`, `CacheClass`).
- **Rate limiting and addresses** (`RateLimitModel`, `RateLimitClass`, `Cidr`, `IpText`).
- **Two printer/parser pairs** (`Wire` and `WireLibrary` for the RPC format, `Sse` for event streams, read back by the WHATWG HTML
  Living Standard, sections 9.2.5 and 9.2.6).

`Options`, `QueueTypes`, `JsMap` and `Bags` hold shared types: an insertion-ordered map as an
association list, the message and dead-letter records, and multiset facts. A class that the source updates in place is a
Dafny class whose methods are proved against a function on values; the theorems are about that
function. Clock readings, fresh tokens and timeouts are parameters.

Where the code departs from what one would expect of it:

- `attempt` counts lease expiries as well as reported failures (packages/core/src/queue.ts:272), although the
  comment at packages/core/src/queue.ts:26-27 says it counts reported failures only.
- `deadLetter` under a lease that is already lost still records a dead entry, on both backends, and the job is then in
  two places (`MemoryQueuePlaces.LateDeadLetterDoubles` is such a run). "At least one place" is proved of any callers and the
  retry budget of callers that may be late; `MemoryQueuePlaces.RunKeepsExactlyIff` and `RedisQueuePlaces.RunKeepsExactlyIff`
  say exactly which runs keep every job in one place.
- Pushing an id again adds a copy, except on Redis while the very same message waits in the sorted set.
- The Redis dead-letter script releases by token alone. An entry about another job than the leased one would lose
  the leased job; the model records it as lost.
- With a dead-letter cap of 0 the Redis trim keeps the whole list, since its stop index is -1 (`RedisScripts.TrimIsCapped`,
  `RedisQueuePlaces.DeadLetterIsCapped`); the in-memory queue keeps none.
- The comment at packages/queue-redis/src/index.ts:482-483 speaks of draining first; the code stages, then drains.
- A parameter with an empty name is reported by `hasPath` and never matched
  (`RouterMatch.ListedAndUnmatchedIff` says exactly when, `RouterMatch.NamelessParamIsUnmatchable` gives a case).
- Backtracking deletes an outer binding of the same name (`RouterMatch.RepeatedNameLosesBinding` gives a case,
  `RouterParams.MatchBindsItsOwnIff` says exactly when).
- `ttl` reads an expiry time of 0 as none, even when it has passed.
- A covering guard is dropped below a context prefix that is not continued at a segment boundary
  (`ScopeHooks.CoveringGuardIsDropped` gives a case, `ScopeHooks.NothingIsSkippedIff` says exactly when).
- One host has two rate-limit buckets, although packages/rate-limit/src/ip.ts:81-86 promises one for every spelling: `1.2.3.4`
  and `::ffff:102:304` (`IpText.OneHostTwoBuckets`). A bracketed `::ffff:1.2.3.4` is refused (`IpText.BracketedMappedIsRefused`).
- A path with a `|` is not deleted by its own invalidation key (`CacheKey.OwnPathIsInvalidated`).
- A payload tagged `RegExp` is handed back as parsed, blocked keys and all (`Wire.RegExpPayloadIsRaw`; `Wire.DecodedIsSafeIff`
  says exactly when a decoded value holds one).

## Model

| member | source | states |
|---|---|---|
| `LeaseQueue.RunKeepsEveryJob` | packages/core/src/queue.ts:149-292 | in every run, whatever the callers do, each pushed job stays in at least one place |
| `LeaseQueue.RunKeepsExactlyOne` | packages/core/src/queue.ts:149-292 | with fresh ids and live-lease dead-lettering each pushed job is in exactly one place at every moment of a run |
| `LeaseQueue.StepKeepsExactlyIff` | packages/core/src/queue.ts:149-292 | with no condition on the callers, a step keeps each pushed job in exactly one place if and only if it neither pushes a known id nor dead-letters without the lease |
| `LeaseQueue.RunKeepsExactlyIff` | packages/core/src/queue.ts:149-292 | the same of runs: exactly one place at every moment if and only if every step is such |
| `LeaseQueue.LostLeaseStaysLost` | packages/queue-redis/src/index.ts:49-116 | tokens are never shared, and no later step revives a lease or delivery that is over |
| `LeaseQueue.DeliveryEnds` | packages/queue-redis/src/index.ts:159-165 | exchanging a delivery's slot for a token-free one leaves no trace of its token |
| `LeaseQueue.RunKeepsBudget` | packages/core/src/queue.ts:187-197 | a stored job has `deliveries == attempt`, a leased one `attempt + 1`, with `attempt <= maxRetries` and its failures numbered in order, late dead-lettering included |
| `LeaseQueue.LifeIsBounded` | packages/core/src/queue.ts:262-281 | from any state on and until a job is redriven, its deliveries and its non-heartbeat steps are bounded by what its one unsettled copy has left, whatever dead copies late workers add |
| `LeaseQueue.EnqueuedJobIsDeliveredAtMost` | packages/core/src/task.ts:483-504 | an enqueued job is delivered at most `maxRetries + 1` times until it is redriven, and settled after at most `3 * maxRetries + 3` steps |
| `LeaseQueue.ReachesByOwes` | packages/core/src/queue.ts:153-197 | what an operation hands out is charged to the job's remaining budget |
| `LeaseQueue.DeliveryIsRemembered` | packages/core/src/queue.ts:160-173 | ever after a delivery, whoever still carries its token carries the message that was handed out |
| `LeaseQueue.ReachableIsSafe` | packages/core/src/queue.ts:149-292 | conservation, unique tokens and budget hold in everything a mode's runs can reach |
| `LeaseQueue.RevivalComposes` | packages/core/src/queue.ts:175-212 | what is over after one run stays over after the next |
| `LeaseQueueFailures.RunFails` | packages/core/src/queue.ts:262-281 | in every run in which no delivery of a job succeeds, its failures on record are its deliveries so far, and its live copy is settled only after `maxRetries + 1` of them |
| `LeaseQueueFailures.RunKeepsLone` | packages/core/src/queue.ts:149-292 | in every run a job's only live copy stays its only live copy until it is redriven |
| `MemoryQueueRefinement.MemoryQueueRefines` | packages/core/src/queue.ts:149-292 | every in-memory operation is a run of the abstract lease queue under the same caller conditions, delivering and redriving exactly the jobs the operation does |
| `MemoryQueueRefinement.MemoryQueueIsSafe` | packages/core/src/queue.ts:149-292 | over any run of operations: conservation, unique tokens, budget, nothing revived |
| `MemoryQueueRefinement.JobIsPoppedAtMost` | packages/core/src/queue.ts:153-173 | over any run of operations an enqueued job is popped at most `maxRetries + 1` times until it is redriven |
| `MemoryQueuePlaces.OperationKeepsExactlyIff` | packages/core/src/queue.ts:149-292 | an operation keeps each job in exactly one place if and only if it pushes a fresh id, or dead-letters under a lease that is held for that job, or is any other |
| `MemoryQueuePlaces.RunKeepsExactlyIff` | packages/core/src/queue.ts:149-292 | the same of runs of operations, at every moment |
| `MemoryQueuePlaces.LateDeadLetterDoubles` | packages/core/src/queue.ts:206-212 | push, pop, expiry, pop, and dead-lettering with the first token: the job is in flight and dead |
| `MemoryQueueTiming.ReclaimIsComplete` | packages/core/src/queue.ts:262-281 | after a reclaim exactly the leases that are not over are in flight, and each job whose lease was is waiting again within its budget, or dead past it |
| `MemoryQueueTiming.PopHandsFirstDue` | packages/core/src/queue.ts:153-173 | a pop hands out the first message that is due, under the token and until the visibility timeout, and nothing only if nothing is due |
| `MemoryQueueTiming.NackedWaits` | packages/core/src/queue.ts:187-197 | after a nack under its lease, over any run of the others, no pop before `at` hands the job out, and it is stored to be due from `at` on, one attempt further |
| `MemoryQueueTiming.LeaseKeepsJob` | packages/core/src/queue.ts:160-173 | over any run, until a lease is over or its holder settles or extends it, the job stays in flight under it and is not handed out again |
| `MemoryQueueTiming.HeartbeatKeepsJob` | packages/core/src/queue.ts:199-204 | an extend moves that end to the new expiry |
| `MemoryQueueTiming.RedriveMeans` | packages/core/src/queue.ts:218-224 | the job's oldest dead entry is queued behind the others, due at once, its counters reset and its record kept |
| `MemoryQueueTiming.RedriveManyMeans` | packages/core/src/queue.ts:226-232 | so are the oldest entries up to the limit, in their order |
| `MemoryQueueRefinement.ReclaimOneReaches` | packages/core/src/queue.ts:262-281 | reclaiming an expired lease is a revocation, then a requeue or a burial, and evictions past the cap |
| `MemoryQueueRefinement.StaleTokenIsInert` | packages/core/src/queue.ts:175-204 | once a lease is lost, after any run, ack, nack and extend with its token change nothing |
| `MemoryQueueRefinement.StartIsSafe` | packages/core/src/queue.ts:134-147 | a new queue satisfies what the safety theorem starts from |
| `MemoryQueueClass.MemoryQueue.Push` | packages/core/src/queue.ts:149-151 | the caller's object joins the end of the list |
| `MemoryQueueClass.MemoryQueue.Pop` | packages/core/src/queue.ts:153-173 | reclaims, leases the first due message under the new token and returns a fresh copy of it |
| `MemoryQueueClass.MemoryQueue.Ack` | packages/core/src/queue.ts:175-185 | with the owning lease the job completes and the completed list keeps its newest entries; otherwise nothing changes |
| `MemoryQueueClass.MemoryQueue.Nack` | packages/core/src/queue.ts:187-197 | with the owning lease the same object is rewritten and queued again, to wait as `MemoryQueueTiming.NackedWaits` says; otherwise nothing changes |
| `MemoryQueueClass.MemoryQueue.Extend` | packages/core/src/queue.ts:199-204 | true exactly when the lease is held, and then only the expiry moves |
| `MemoryQueueClass.MemoryQueue.DeadLetter` | packages/core/src/queue.ts:206-212 | the entry is recorded with or without the lease; the lease goes only if it is held |
| `MemoryQueueClass.MemoryQueue.PushDead` | packages/core/src/queue.ts:283-288 | the oldest dead entries past the cap are evicted |
| `MemoryQueueClass.MemoryQueue.ReclaimExpired` | packages/core/src/queue.ts:262-281 | visiting the map while deleting from it reclaims the leases expired at the start, in order, as `MemoryQueueTiming.ReclaimIsComplete` says |
| `MemoryQueueClass.MemoryQueue.RedriveDeadLetter` | packages/core/src/queue.ts:218-224 | the oldest dead entry of the job returns as a new object with its counters reset |
| `MemoryQueueClass.MemoryQueue.RedriveDeadLetters` | packages/core/src/queue.ts:226-232 | the oldest entries up to the limit return, oldest first |
| `MemoryQueueClass.MemoryQueue.PurgeDeadLetters` | packages/core/src/queue.ts:234-238 | every dead entry goes, and their number is returned |
| `MemoryQueueClass.MemoryQueue.FindDue` | packages/core/src/queue.ts:156-157 | the scan finds the first message that is due |
| `RedisScripts.SplitUndoesJoin` | packages/queue-redis/src/index.ts:613-617 | `splitEntry` gives back token and payload, whatever the payload contains |
| `RedisScripts.PrefixIsToken` | packages/queue-redis/src/index.ts:538-548 | a token followed by the separator prefixes that token's entry and no other, even if payloads contain the separator |
| `RedisScripts.TrimIsCapped` | packages/queue-redis/src/index.ts:210-212 | a trim meets the cap if and only if the cap is positive or nothing was there |
| `RedisQueueRefinement.RedisQueueRefines` | packages/queue-redis/src/index.ts:284-456 | every command, at any point of an interleaving, is a run of the abstract lease queue, delivering and redriving exactly the jobs the command does |
| `RedisQueueRefinement.RedisQueueIsSafe` | packages/queue-redis/src/index.ts:49-214 | over every interleaving with crashes: lease hash keys equal the duplicate-free in-flight entries, no job is lost or, under guarded callers, doubled, the budget holds, nothing is revived |
| `RedisQueueRefinement.JobIsPoppedAtMost` | packages/queue-redis/src/index.ts:297-324 | over every interleaving with crashes an enqueued job is popped at most `maxRetries + 1` times until it is redriven |
| `RedisQueuePlaces.CommandKeepsExactlyIff` | packages/queue-redis/src/index.ts:284-456 | a command, at any point of an interleaving, keeps each job in exactly one place if and only if it pushes a fresh id or the very message that waits, or dead-letters the job whose entry its token owns, or is any other |
| `RedisQueuePlaces.RunKeepsExactlyIff` | packages/queue-redis/src/index.ts:284-456 | the same of interleavings with crashes, at every moment |
| `RedisQueuePlaces.OnlyCrashesLose` | packages/queue-redis/src/index.ts:338-359 | over every interleaving a job is lost once for each crash of an operation that held it, and never otherwise |
| `RedisQueuePlaces.DeadLetterIsCapped` | packages/queue-redis/src/index.ts:198-214 | dead-lettering leaves the dead list within the cap if and only if the cap is positive; with a cap of 0 it grows by one |
| `RedisQueuePlaces.DeadListIsCapped` | packages/queue-redis/src/index.ts:494-536 | over every interleaving, with a positive cap, the list is past the cap by at most the drains since the last trim |
| `RedisReclaim.ReapIsComplete` | packages/queue-redis/src/index.ts:131-147 | in every valid store, after a reap exactly the entries whose lease is not over are in flight, and the others are staged |
| `RedisReclaim.DrainIsComplete` | packages/queue-redis/src/index.ts:494-530 | draining leaves nothing staged, and every staged job is pending again one attempt further within its budget, or dead past it |
| `RedisReclaim.PromotionIsComplete` | packages/queue-redis/src/index.ts:179-189 | a promotion moves due members only, in order, and leaves no due one unless it moved as many as its limit |
| `RedisQueueTiming.RetriedWaits` | packages/queue-redis/src/index.ts:338-359 | a message stored again with a delay waits: over any interleaving no promotion before the end of the delay lets it go, and no pop hands it out |
| `RedisQueueTiming.LeaseKeepsJob` | packages/queue-redis/src/index.ts:105-147 | over any interleaving, until a lease is over or its holder settles or extends it, its entry stays in flight and its job is not handed out again |
| `RedisQueueTiming.HeartbeatMoves` | packages/queue-redis/src/index.ts:105-116 | an extend moves the lease of the token's entry, and no other, to the new expiry |
| `RedisQueueTiming.PushMeans` | packages/queue-redis/src/index.ts:284-295 | a job due now is pending behind the others, a later one waits in the sorted set for its time |
| `RedisQueueTiming.RedrivePutMeans` | packages/queue-redis/src/index.ts:415-434 | a redriven job is pending behind the others, due at once, its counters reset and its record kept |
| `RedisQueueRefinement.BuriedReaches` | packages/queue-redis/src/index.ts:198-214 | recording a dead entry moves the leased job it is about; without the lease it adds a copy, and a leased job it is not about is lost |
| `RedisQueueRefinement.StaleTokenIsInert` | packages/queue-redis/src/index.ts:70-116 | after any interleaving, ack, nack and extend with a lost lease's token change nothing |
| `RedisQueueRefinement.OwnedByToken` | packages/queue-redis/src/index.ts:70-82 | the scan by prefix finds the one entry of the token, or leaves the store as it was |
| `RedisQueueRefinement.ReapReaches` | packages/queue-redis/src/index.ts:131-147 | staging is a sequence of revocations; `RedisReclaim.ReapIsComplete` says of which leases |
| `RedisQueueRefinement.DrainReaches` | packages/queue-redis/src/index.ts:494-530 | draining a staged entry requeues or buries it, within the budget |
| `RedisQueueRefinement.DrainRoutesOnce` | packages/queue-redis/src/index.ts:159-165 | of two reapers holding one staged entry only the first routes it, whatever happens in between |
| `RedisQueueRefinement.DrainEndsDelivery` | packages/queue-redis/src/index.ts:159-165 | draining removes the last trace of the delivery's token |
| `RedisQueueRefinement.CrashReaches` | packages/queue-redis/src/index.ts:338-359 | a crash loses what the operation held and nothing of the store |
| `RedisQueueRefinement.PromoteStutters` | packages/queue-redis/src/index.ts:179-189 | promotion does not change the abstract state |
| `RedisQueueRefinement.RangeIsDue` | packages/queue-redis/src/index.ts:579-590 | whatever a range by score lists is due and stored |
| `RedisQueueRefinement.StoreReaches` | packages/queue-redis/src/index.ts:284-295 | storing adds one ready job; re-adding an identical delayed member keeps one |
| `RedisQueueRefinement.StartIsSafe` | packages/queue-redis/src/index.ts:229-276 | an empty store satisfies what the safety theorem starts from |
| `RedisQueueClass.RedisServer.EvalPop` | packages/queue-redis/src/index.ts:49-58 | the oldest pending payload moves to processing under its token, with its lease |
| `RedisQueueClass.RedisServer.EvalRelease` | packages/queue-redis/src/index.ts:70-82 | the scan removes the first entry with the prefix, from list and hash together |
| `RedisQueueClass.RedisServer.EvalExtend` | packages/queue-redis/src/index.ts:105-116 | the lease of the first entry with the prefix is retimed |
| `RedisQueueClass.RedisServer.EvalReap` | packages/queue-redis/src/index.ts:131-147 | the loop is the reap of the transition system, complete by `RedisReclaim.ReapIsComplete`, and returns how many it staged |
| `RedisQueueClass.RedisServer.EvalDrain` | packages/queue-redis/src/index.ts:159-165 | the entry is routed only by the caller that removes it from staging |
| `RedisQueueClass.RedisServer.EvalPromote` | packages/queue-redis/src/index.ts:179-189 | due members move to pending, guarded by their own removal |
| `RedisQueueClass.RedisServer.EvalDeadLetter` | packages/queue-redis/src/index.ts:198-214 | release by prefix if one is given, then record and trim |
| `RedisQueueClass.RedisQueue.Push` | packages/queue-redis/src/index.ts:284-295 | the method is the push command of the transition system |
| `RedisQueueClass.RedisQueue.Pop` | packages/queue-redis/src/index.ts:297-324 | the method is promotion, reaping, draining and one pop command; before the latter no lease that is over is in flight or staged, and every job that had one is pending or dead; it returns the oldest pending message as delivered |
| `RedisQueueClass.RedisQueue.Ack` | packages/queue-redis/src/index.ts:326-331 | the method is the ack command |
| `RedisQueueClass.RedisQueue.Nack` | packages/queue-redis/src/index.ts:338-359 | the method is its two commands, with the entry in hand in between |
| `RedisQueueClass.RedisQueue.Extend` | packages/queue-redis/src/index.ts:368-380 | the method is the extend command, and true exactly when the token owns a delivery |
| `RedisQueueClass.RedisQueue.DeadLetter` | packages/queue-redis/src/index.ts:382-394 | the method is the dead-letter command; an empty token counts as none; within the cap afterwards if and only if it is positive |
| `RedisQueueClass.RedisQueue.RedriveDeadLetter` | packages/queue-redis/src/index.ts:415-434 | the newest readable entry of the job is taken by one command and stored again by the next |
| `RedisQueueClass.RedisQueue.RedriveDeadLetters` | packages/queue-redis/src/index.ts:436-451 | oldest first, two commands an entry; unreadable entries are dropped and not counted |
| `RedisQueueClass.RedisQueue.PurgeDeadLetters` | packages/queue-redis/src/index.ts:453-458 | the method is the purge command and returns how many went |
| `RedisQueueClass.RedisQueue.DrainReclaimed` | packages/queue-redis/src/index.ts:494-536 | the loop is one drain command per staged entry, then a trim if any was handled, which leaves the dead list within a positive cap; nothing stays staged, and every job that was is pending or dead |
| `RedisQueueClass.RedisQueue.Reap` | packages/queue-redis/src/index.ts:480-486 | the method is the reap command followed by the drain loop; afterwards no lease that is over is in flight or staged, and every job that had one is pending or dead |
| `TaskWorkerModel.BackoffIsMonotone` | packages/core/src/task.ts:373 | retry delays never shrink and stay between one and thirty seconds |
| `TaskWorkerModel.BackoffDoubles` | packages/core/src/task.ts:373 | the first retry waits a second, each further one twice as long, up to thirty seconds |
| `TaskWorkerModel.MemoryWorkerKeepsBudget` | packages/core/src/task.ts:361-438 | whatever happened since its delivery, expiry of its lease included, every settling call of a worker with matching `retries` is within the budget |
| `TaskWorkerModel.RedisWorkerKeepsBudget` | packages/core/src/task.ts:361-438 | the same on Redis after any interleaving, where a retry is two commands with any commands of others between them |
| `TaskWorkerModel.RunKeepsHand` | packages/queue-redis/src/index.ts:341-358 | what an operation holds between its commands is untouched by everyone else's |
| `TaskWorkerModel.TaskWorker.Tick` | packages/core/src/task.ts:238-268 | a poll starts jobs until the worker is full or stopped, nothing is due, or a pop is rejected; jobs ending meanwhile free their places, and the concurrency is never exceeded |
| `MemoryTasks.ActKeepsWorking` | packages/core/src/task.ts:270-438 | whatever any number of workers do and however late, each call is within the retry budget and each delivery is about the message its lease holds |
| `MemoryTasks.AckedExactly` | packages/core/src/task.ts:296-311 | over any run a job is acked once for each delivery whose handler succeeded while its lease was held, and never otherwise |
| `MemoryTasks.FailingJobIsBuried` | packages/core/src/task.ts:361-438 | an enqueued job of a registered task whose every delivery fails, by its handler or its lease, is never acked or lost; its failures are its deliveries so far, and once it neither waits nor runs it was delivered exactly `maxRetries + 1` times and is dead with that many failures |
| `MemoryTasks.EndMeans` | packages/core/src/task.ts:361-438 | under its lease a success takes the job off as done; a failure within the retries stores it to wait for its backoff, with the failure on record; one past them, or an unknown task, makes it the newest dead entry with its error and failures |
| `RedisTasks.ActKeepsWorking` | packages/core/src/task.ts:270-438 | the same on Redis, with reapers, administrators and crashes in between |
| `RedisTasks.AckedExactly` | packages/core/src/task.ts:296-311 | the same on Redis, over any interleaving with crashes |
| `RedisTasks.FailingJobIsBuried` | packages/core/src/task.ts:361-438 | the same on Redis, over any interleaving in which no operation that holds the job crashes |
| `RedisTasks.EndMeans` | packages/core/src/task.ts:361-438 | the same on Redis for the call's first command |
| `RedisTasks.StoreAgainMeans` | packages/queue-redis/src/index.ts:338-359 | the second command of a retry stores the message one attempt further, due when its backoff has passed |
| `RouterPaths.CanonicalizeIsIdempotent` | packages/core/src/router.ts:381-402 | canonicalising twice is canonicalising once |
| `RouterPaths.CanonicalizeIff` | packages/core/src/router.ts:381-402 | accepted are exactly the canonical paths, the empty one for the root, and, if trailing slashes are ignored, a canonical path with one slash more |
| `RouterPaths.CanonicalizeIsInjective` | packages/core/src/router.ts:381-402 | accepted spellings of one canonical path differ by one trailing slash at most |
| `RouterPaths.RebuildUndoesSplit` | packages/core/src/router.ts:362-365 | a canonical path is its segments joined with slashes |
| `RouterPaths.NormalizeKeepsSegments` | packages/core/src/router.ts:367-371 | the static-map key has the URL's own segments, odd spellings included |
| `RouterSearch.SearchIsExact` | packages/core/src/router.ts:226-270 | for every tree, any names and any decoder: a hit is the most specific pattern that can be got to, with no failing decoding before it; a miss or a failure says why |
| `RouterSearch.HitIff` | packages/core/src/router.ts:216-270 | a pattern is hit, or the request malformed, exactly under those conditions |
| `RouterSearch.DecodedHitIff` | packages/core/src/router.ts:226-270 | when everything decodes, a pattern is hit exactly when one fits whose parameters are all named |
| `RouterBindings.SearchLeaves` | packages/core/src/router.ts:226-270 | for every tree and any names: a miss takes every name away that was tried below, a hit leaves its own bindings, each edge first losing what its more specific siblings tried |
| `RouterBindings.FinalIff` | packages/core/src/router.ts:248-267 | these are exactly the pattern's bindings if and only if every bound name lost at a later edge is bound again by the rest of the pattern |
| `RouterRegistration.RejectedIsNoOp` | packages/core/src/router.ts:82-166 | a registration that throws leaves tree and static map unchanged |
| `RouterRegistration.AddKeepsSound` | packages/core/src/router.ts:82-166 | an accepted registration keeps table and accepted routes in agreement |
| `RouterRegistration.BuildIsSound` | packages/core/src/router.ts:82-166 | whatever is registered, in whatever order, the table holds exactly the accepted routes |
| `RouterRegistration.AcceptedIff` | packages/core/src/router.ts:82-166 | after any attempts a route is refused for a parameter's name if and only if an accepted URL names the parameter at that place of the same pattern otherwise, and else as a duplicate if and only if an accepted route has its verb and its pattern |
| `RouterMatch.StaticMapRefinesTree` | packages/core/src/router.ts:155-208 | in every reachable table the static map gives what the tree walk alone gives, for every method and pathname |
| `RouterMatch.MatchIsExact` | packages/core/src/router.ts:168-270 | for every run of registrations and every request: when a route is found, when the request is bad, and that the route found is first in the order static, parameter, wildcard |
| `RouterMatch.DecodedMatchIff` | packages/core/src/router.ts:168-270 | when everything decodes, a route is found exactly when a registered one fits that has no empty name, whatever else is registered |
| `RouterParams.MatchBindsItsOwnIff` | packages/core/src/router.ts:226-270 | for every run of registrations and every request, in terms of the accepted URLs: the parameters are those of the found route's own URL if and only if each name it binds before a place where a more specific URL tried that name is bound again from there on |
| `RouterParams.MatchBindsItsOwn` | packages/core/src/router.ts:226-270 | so they always are if no accepted URL repeats a name |
| `RouterMatch.RepeatedNameLosesBinding` | packages/core/src/router.ts:253 | the counterexample: a route found after backtracking has lost its own parameter |
| `RouterMatch.MethodsAreExact` | packages/core/src/router.ts:309-319 | the collected methods are those of the fitting wildcard-free patterns |
| `RouterMatch.WalksAgree` | packages/core/src/router.ts:309-332 | the two walks agree: a path exists exactly when some method is collected |
| `RouterMatch.AllowedIsExact` | packages/core/src/router.ts:275-307 | `hasPath`, `allowedMethods` and the registered routes agree, GET standing in for HEAD |
| `RouterMatch.MatchableIff` | packages/core/src/router.ts:294-307 | a method is matched, HEAD through GET, exactly when a fitting route carries it that has no empty name |
| `RouterMatch.ListedAndUnmatchedIff` | packages/core/src/router.ts:275-332 | a method is listed and not matched exactly when every fitting route that carries it has an empty name |
| `RouterMatch.NamelessParamIsUnmatchable` | packages/core/src/router.ts:248 | the counterexample: `/:` is listed and never matched |
| `RouterMatch.DecodeParamIff` | packages/core/src/router.ts:248-256 | a parameter is bound to what its segment decodes to, unless `strictParams` is on and that holds a separator |
| `RouterMatch.StrictParamsAreSegments` | packages/core/src/router.ts:248-267 | with `strictParams` no parameter of a found route holds a separator, whatever its decoding gave, but for what a wildcard at the end binds |
| `RouterClass.Router.AddRoute` | packages/core/src/router.ts:82-166 | the linked tree and the static map become what the table's registration says, refusals included, which `RouterRegistration.AcceptedIff` characterises |
| `RouterClass.Router.FindOrCreate` | packages/core/src/router.ts:95-129 | the loop over the segments is the walk of the table, conflicts included |
| `RouterClass.Router.Descend` | packages/core/src/router.ts:96-128 | the child for a segment is found, or created and named |
| `RouterClass.Router.MatchNode` | packages/core/src/router.ts:226-270 | the mutating search reports what the search on the table finds, records included |
| `RouterClass.Router.Match` | packages/core/src/router.ts:168-208 | the method answers what the table answers |
| `RouterClass.Router.HasPath` | packages/core/src/router.ts:275-282 | the method answers what the table answers |
| `RouterClass.Router.CollectMethods` | packages/core/src/router.ts:309-319 | the shared set grows by exactly the methods below the node |
| `RouterClass.Router.AllowedMethods` | packages/core/src/router.ts:294-307 | the ordered list the table gives |
| `ScopeModel.ScopeIsExact` | packages/core/src/context.ts:106-135 | the contexts of a route are exactly its ancestors-or-self and what they reach through transparent children, once each, parents first, root first |
| `ScopeHooks.HooksAreScoped` | packages/core/src/context.ts:142-175 | a hook runs for a route exactly when it is local or belongs to an applying context; local hooks run last |
| `ScopeHooks.ParentHooksRunFirst` | packages/core/src/context.ts:142-175 | all hooks of a parent run before those of its child |
| `ScopeHooks.DecorationIsNearest` | packages/core/src/context.ts:166-168 | a decoration is that of the last applying context that has it |
| `ScopeHooks.DecorationsAreScoped` | packages/core/src/context.ts:166-168 | a route's request decorations are those of the contexts that apply to it, the last that has the key deciding; and so, apart, are its reply decorations |
| `ScopeHooks.AddedHookIsNamed` | packages/core/src/context.ts:388-398 | under its name an added hook is the last, and the lists of all other names are unchanged |
| `ScopeHooks.AddedHookRuns` | packages/core/src/context.ts:142-175 | an added hook runs, under its name, for exactly the routes its context applies to, and nothing else changes for any route |
| `ScopeHooks.OwnHooksAreNamed` | packages/core/src/context.ts:142-175 | a route's own hooks run under the names they were given |
| `ScopeHooks.AddChildKeepsTree` | packages/core/src/context.ts:219-226 | creating a child keeps the contexts a tree |
| `ScopeHooks.AddChildKeepsExtending` | packages/core/src/context.ts:204-205 | every child's prefix extends its parent's, by nothing exactly when it is transparent |
| `ScopeHooks.AddChildKeepsPrefixed` | packages/core/src/context.ts:204 | prefixes keep nesting when each new one does |
| `ScopeHooks.CoversUp` | packages/core/src/app.ts:62-66 | a nested prefix covers no path its parent's does not |
| `ScopeHooks.NestingIsNeeded` | packages/core/src/app.ts:62-66 | and that holds for every path exactly when prefixes nest at segment boundaries |
| `ScopeHooks.VisitIsExact` | packages/core/src/app.ts:424-438 | in every forest, for every path: a context is visited if and only if it is prefixed and every prefixed context from below the root down to it covers the path |
| `ScopeHooks.NothingIsSkippedIff` | packages/core/src/app.ts:424-438 | no covering prefixed context is skipped for any path if and only if all prefixes nest at segment boundaries |
| `ScopeHooks.CoveringGuardIsDropped` | packages/core/src/app.ts:424-438 | the counterexample: in a context `/ab` under `/a`, the guard is not run for `/ab` |
| `ScopeHooks.UnnestedIsMade` | packages/core/src/context.ts:219-226 | and that forest is what creating the two children and adding the hook makes |
| `ScopeHooks.TransparentAppliesAlike` | packages/core/src/context.ts:122-135 | a transparent context sees what its parent sees |
| `ScopeHooks.PathHooksAre` | packages/core/src/app.ts:422-452 | in every forest an unrouted request runs the root chain first, then exactly the guards of the contexts down to which every prefixed one covers the path, none twice |
| `ScopeHooks.PathHooksCover` | packages/core/src/app.ts:422-452 | with nesting prefixes these are the guards of the root and of all covering contexts |
| `ScopeClass.ScopeRegistry.CollectTransparent` | packages/core/src/context.ts:122-135 | the recursion over live objects marks and appends what the forest says |
| `ScopeClass.ScopeRegistry.CollectScopeContexts` | packages/core/src/context.ts:106-120 | the collected objects are the contexts of the route, in order |
| `ScopeClass.ScopeRegistry.ResolveBinding` | packages/core/src/context.ts:142-175 | the aliased scope, refilled in place, equals a fresh resolution |
| `ScopeClass.ScopeRegistry.Flush` | packages/core/src/context.ts:56-62 | once the flag is clear every bound scope equals a fresh resolution |
| `ScopeClass.ScopeRegistry.Register` | packages/core/src/context.ts:47-50 | a new binding sets the flag and disturbs no other |
| `ScopeClass.EncapsulationContext.AddHook` | packages/core/src/context.ts:388-398 | the hook joins the end of the list of its name in one context, every other list is the same, and the flag is set |
| `ScopeClass.EncapsulationContext.DecorateRequest` | packages/core/src/context.ts:406-413 | one decoration is set in this context, or in the root when application-wide, and the flag |
| `ScopeClass.EncapsulationContext.DecorateReply` | packages/core/src/context.ts:421-424 | one reply decoration is set in one context, and the flag |
| `ScopeClass.EncapsulationContext.CreateChild` | packages/core/src/context.ts:219-226 | the tree of objects gains one child, and the flag is set |
| `AppGuards.App.ContextScope` | packages/core/src/app.ts:461-469 | the memoised scope of a context holds its current guards |
| `AppGuards.App.VisitChildren` | packages/core/src/app.ts:424-438 | the recursive visit appends the contexts the forest's visit lists |
| `AppGuards.App.OnRequestHooksForPath` | packages/core/src/app.ts:422-452 | the merged list is the one characterised for all paths |
| `AppGuards.App.GetUpgradeHooks` | packages/core/src/app.ts:407-411 | without a path the root's guards, with one the path's; stale chains are rebuilt first |
| `Glob.ParseGlob` | packages/cache/src/store.ts:242-263 | the index loop yields the pattern's tokens, runs of stars collapsed |
| `Glob.MatchGlob` | packages/cache/src/store.ts:281-312 | the answer is membership in the tokens' language, and the cells filled are tokens times key length plus one |
| `Glob.CellIsRow` | packages/cache/src/store.ts:281-312 | the recurrence computes, prefix by prefix, the language of the tokens so far |
| `Glob.CollapsingKeepsLanguage` | packages/cache/src/store.ts:242-263 | collapsing a run of stars changes no answer |
| `Glob.CompiledMatches` | packages/cache/src/store.ts:242-312 | compiling and matching decide the declarative language of every pattern |
| `Glob.LanguageAppends` | packages/cache/src/store.ts:281-312 | a key is in the language of two token lists exactly when it can be cut between them |
| `KvModel.RunKeepsUseOrderAndCap` | packages/cache/src/store.ts:89-220 | in every run, whatever the clock does, iteration order is last-use order and the size stays within a positive cap |
| `KvModel.ReadIsLastWrite` | packages/cache/src/store.ts:89-110 | a read is the last live write, unless that many other keys were used since the key's last use |
| `KvModel.IncrementAddsToLastWrite` | packages/cache/src/store.ts:176-193 | `incr` adds to the last live number and keeps its expiry |
| `KvModel.SetIsReadUntil` | packages/cache/src/store.ts:102-110 | set with a time to live, a value is read until that time has passed and not from then on, over any later operations that do not write the key, unless it was displaced; without one it is read for ever |
| `KvModel.PresenceIsLastWrite` | packages/cache/src/store.ts:116-124 | in every run a key is present exactly when its last write is live, unless it was displaced |
| `KvModel.TtlIsLastWrite` | packages/cache/src/store.ts:154-164 | in every run the time to live is that of the last write, unless the key is expired or displaced |
| `KvModel.EvictedIsDisplaced` | packages/cache/src/store.ts:212-220 | an evicted key had at least the cap's number of distinct keys used after it |
| `KvModel.StepIsGood` | packages/cache/src/store.ts:89-229 | each operation keeps use order, cap, last writes and the account of every missing key |
| `KvStoreClass.MemoryKVStore.GetEntry` | packages/cache/src/store.ts:89-100 | a live hit is returned and moves to the end; an expired one is deleted |
| `KvStoreClass.MemoryKVStore.SetEntry` | packages/cache/src/store.ts:102-110 | the key is written as most recent, then the least recent ones go |
| `KvStoreClass.MemoryKVStore.EvictIfNeeded` | packages/cache/src/store.ts:212-220 | the loop leaves the most recently used entries that fit |
| `KvStoreClass.MemoryKVStore.Delete` | packages/cache/src/store.ts:112-114 | the key goes, and true exactly when it was there |
| `KvStoreClass.MemoryKVStore.HasEntry` | packages/cache/src/store.ts:116-124 | true exactly for a live entry, whose place it keeps; an expired one is deleted |
| `KvStoreClass.MemoryKVStore.Keys` | packages/cache/src/store.ts:126-140 | lists exactly the live matching keys, once each and in iteration order, deleting expired ones on the way |
| `KvStoreClass.MemoryKVStore.Clear` | packages/cache/src/store.ts:142-152 | exactly the keys under the prefix go |
| `KvModel.ClearTakesContinuations` | packages/cache/src/store.ts:142-152 | a key goes exactly when it is the prefix and any text after it |
| `KvStoreClass.MemoryKVStore.Ttl` | packages/cache/src/store.ts:154-164 | the remaining time of a live entry; -1 for an entry without expiry or with expiry 0, even a passed one; else -2, and then the entry is gone |
| `KvStoreClass.MemoryKVStore.Incr` | packages/cache/src/store.ts:176-193 | the stored entry and the result are the increment of the live value |
| `KvStoreClass.MemoryKVStore.Cleanup` | packages/cache/src/store.ts:222-229 | exactly the expired entries go |
| `CacheKey.SortIsNormalForm` | packages/cache/src/response-cache.ts:464-471 | two sorted queries are equal exactly when every name has the same ordered values |
| `CacheKey.SearchIsCanonical` | packages/cache/src/response-cache.ts:464-471 | the printed query identifies exactly that, after the filter |
| `CacheKey.KeyIsCanonical` | packages/cache/src/response-cache.ts:473-518 | two requests share a verbatim key exactly when method, scheme, host, path, represented headers and query values agree |
| `CacheKey.SplitUndoesLine` | packages/cache/src/response-cache.ts:385-397 | the parser gives back method, authority and path of a generated base |
| `CacheKey.InvalidateIsExact` | packages/cache/src/response-cache.ts:772-800 | a target hits exactly the verbatim entries of its path, over all partitions and, unless named, hosts and queries |
| `CacheKey.OwnPathIsInvalidated` | packages/cache/src/response-cache.ts:787 | a request's own `METHOD:/path` deletes its entry exactly when the path holds no bar |
| `CacheClass.ResponseCache.Invalidate` | packages/cache/src/response-cache.ts:772-800 | of the live entries exactly those hit are gone, and the answer says whether there was one |
| `RateLimitModel.EvictionIsExact` | packages/rate-limit/src/index.ts:209-231 | one entry goes: the first expired one scanned, or the first of the weakest |
| `RateLimitModel.CapHolds` | packages/rate-limit/src/index.ts:158-231 | in every run the map holds at most `maxKeys` entries, each key once |
| `RateLimitModel.AtMostMaxPerWindow` | packages/rate-limit/src/index.ts:441-457 | at most `max` requests of a key are admitted in one window |
| `RateLimitModel.AtMostTwiceMax` | packages/rate-limit/src/index.ts:441-457 | at most `2 * max` are admitted in any half-open interval as long as a window |
| `RateLimitModel.OwnHit` | packages/rate-limit/src/index.ts:158-196 | a hit counts on the key's own fixed window |
| `RateLimitModel.OtherHit` | packages/rate-limit/src/index.ts:158-196 | a hit of another key leaves the key's window as it was, unless it evicts it |
| `RateLimitClass.MemoryRateLimitStore.Increment` | packages/rate-limit/src/index.ts:158-196 | map and result are those of the model |
| `RateLimitClass.MemoryRateLimitStore.EvictOne` | packages/rate-limit/src/index.ts:209-231 | the running-minimum scan removes exactly the entry the rule picks |
| `RateLimitClass.MemoryRateLimitStore.Cleanup` | packages/rate-limit/src/index.ts:147-154 | the sweep removes exactly the windows that are over |
| `RateLimitClass.MemoryRateLimitStore.Admit` | packages/rate-limit/src/index.ts:441-457 | admitted within `max`, the rest of the quota is exact, and a retry time is positive and late enough |
| `Cidr.AndMask` | packages/rate-limit/src/ip.ts:131-136 | masking by ones above zeros keeps exactly the shifted prefix |
| `Cidr.Ipv4MasksArePrefixes` | packages/rate-limit/src/ip.ts:131-136 | inside a block exactly when the quotients by 2^(32-p) agree, for every p |
| `Cidr.Ipv6InCidr` | packages/rate-limit/src/ip.ts:138-147 | the eight-group loop answers whether the 128-bit quotients by 2^(128-p) agree, for every p |
| `IpText.ParseIpv4` | packages/rate-limit/src/ip.ts:27-38 | accepted are exactly four decimal parts of at most three digits and at most 255 with points between them, with their place value to the base 256 |
| `IpText.ToGroups` | packages/rate-limit/src/ip.ts:46-54 | accepted are exactly the empty text and hexadecimal groups of at most four digits with colons between them, with their values |
| `IpText.Ipv6OfIff` | packages/rate-limit/src/ip.ts:40-67 | accepted are exactly eight groups, or two lists of at most eight groups together around one double colon, which stands for the zeros between |
| `IpText.ParseGivesWellFormed` | packages/rate-limit/src/ip.ts:69-76 | whatever text is accepted, the address is in range |
| `IpText.ParseUndoesFormat` | packages/rate-limit/src/ip.ts:69-97 | every well-formed address is read back from its text |
| `IpText.DecorationsDoNotMatter` | packages/rate-limit/src/ip.ts:12-25 | between white space, plain, in brackets, and in brackets with a port an address is read alike; a version 4 one also with a port alone, and mapped |
| `IpText.CanonicalizeIsIdempotent` | packages/rate-limit/src/ip.ts:105-108 | canonical text is its own canonical form |
| `IpText.OneBucketPerHostIff` | packages/rate-limit/src/ip.ts:79-108 | two accepted texts share a bucket if and only if they name one host and both or neither write a version 4 host as hexadecimal groups |
| `IpText.EveryHostHasTwoBuckets` | packages/rate-limit/src/ip.ts:79-108 | every version 4 host has a second bucket, under its hexadecimal spelling |
| `IpText.OneHostTwoBuckets` | packages/rate-limit/src/ip.ts:79-86 | the counterexample: `1.2.3.4` and `::ffff:102:304` |
| `IpText.BracketedMappedIsRefused` | packages/rate-limit/src/ip.ts:12-25 | for every host, `::ffff:` and a dotted quad is the host, and the same in brackets is refused |
| `IpText.OneBucketPerAddress` | packages/rate-limit/src/ip.ts:105-108 | two spellings share a bucket if and only if they are read as one address |
| `Wire.RoundTrip` | packages/rpc/src/wire.ts:42-134 | decoding gives an encoded value back exactly when its nesting fits the cap and it holds no regular expression, blocked key or tag look-alike |
| `Wire.MisleadingIsTagged` | packages/rpc/src/wire.ts:93-129 | an encoded plain object is taken for a tag exactly when it looks like one |
| `Wire.PayloadIsSmaller` | packages/rpc/src/wire.ts:116-119 | a raw payload is never the object that carries it |
| `Wire.DecodedIsSafeIff` | packages/rpc/src/wire.ts:86-147 | for every text and depth: the decoded value has no blocked key if and only if no `RegExp` payload brings one along, payloads of map entries that a later entry displaces aside |
| `WireLibrary.FaithfulIsMet` | packages/rpc/src/wire.ts:42-134 | a library of printers and parsers that undo one another exists, so the round trip is not vacuous |
| `Wire.RegExpPayloadIsRaw` | packages/rpc/src/wire.ts:116-119 | the condition is needed: such a payload comes back as parsed, safe exactly when it is free of blocked keys |
| `Sse.FormatSSEEvent` | packages/core/src/sse.ts:40-67 | the appending loop prints the frame's lines |
| `Sse.FrameIsOneEvent` | packages/core/src/sse.ts:40-67 | a frame, read by the standard, dispatches exactly one event |
| `Sse.StreamReadsBack` | packages/core/src/sse.ts:33-67 | a stream of frames and pings dispatches exactly one event per send, in order, data equal up to line terminators |
| `Sse.PingIsSilent` | packages/core/src/sse.ts:109-118 | a ping dispatches nothing |
| `Sse.OneLineIsKept` | packages/core/src/sse.ts:56-62 | data without line terminators arrives unchanged |
| `Sse.NormalisedIs` | packages/core/src/sse.ts:56-62 | data arrives with every CRLF, and every other CR, become a line feed, and nothing else changed |
| `Sse.SanitizedIs` | packages/core/src/sse.ts:33-35 | a sanitised field is the field without its line terminators, and nothing else changes |
| `Sse.Channel.SendEvent` | packages/core/src/sse.ts:158-165 | what a reader has dispatched after a send is what was sent while open; after close nothing is written |
| `Sse.Channel.KeepAlive` | packages/core/src/sse.ts:109-118 | a timer tick changes nothing a reader sees |
| `Sse.Channel.Close` | packages/core/src/sse.ts:120-132 | closing writes nothing and ends sending |

## Left out

- JSON, Redis, UUIDs, clocks and timers: parameters with the contract used (parsing undoes printing, a script is atomic, a token is fresh and holds no separator, a later reading is not earlier).
- Stored payloads that do not parse, except on the dead list, and the token-less Redis ack and nack: stated as assumptions or absent.
- Absent `deliveries` and `failures` fields of stored messages: read as 0 and [].
- `listDeadLetters`, sizes, connection handling, `close` and `flush` of the queues.
- `RedisQueueClass.RedisQueue.DrainReclaimed`: one clock reading for the whole loop, where the source reads it per entry; `RedisQueueRefinement.RedisQueueRefines` allows any readings.
- `RedisQueueClass.RedisQueue`: its methods are proved for a client that runs alone; interleavings are the subject of `RedisQueueRefinement`, over the same commands.
- `LeaseQueue.LifeIsBounded`: its bound on deliveries is carried over to both backends (`JobIsPoppedAtMost`), its bound on the other steps is not; several of them can make up one operation.
- `MemoryQueueClass.MemoryQueue.Push`: asks that the message object is not in the queue already; the source would list one object twice.
- `MemoryQueueClass.MemoryQueue.PushDead`: asks the same of the entry's message object.
- `MemoryQueueClass.MemoryQueue.DeadLetter`: asks the same of the entry's message object.
- `MemoryQueueClass.MemoryQueue.ReclaimExpired`: the loop walks a copy of the map, the source a live iterator that skips what was deleted; only the entry at hand is deleted on the way.
- Task handlers, user hooks, logging, heartbeat timers, timeouts and stop deadlines: a handler succeeds, fails or never returns.
- `TaskWorkerModel.TaskWorker.Tick`: what ending jobs do to the queue while a pop is awaited is not part of the tick; it is part of the runs of `MemoryQueueRefinement`.
- Backends without a dead-letter queue or without leases: both modelled backends have them. A settling call the backend rejects is the worker's last act on the delivery (`Abandon`).
- Which of two delayed Redis members with one score comes first is not characterised: it is the server's.
- `TaskRegistry`'s check of task timeouts against the visibility timeout: a comparison.
- Route schemas, hooks and kinds, `getAllRoutes`, and percent decoding, which is a parameter of the router.
- `RouterParams.MatchBindsItsOwn`: asks for names distinct along each accepted URL; `RouterParams.MatchBindsItsOwnIff` asks for nothing and gives the exact condition.
- `RouterParams.MatchBindsItsOwnIff`: parameters are a map; the source keeps them in a plain object, where a parameter named `__proto__` is not bound.
- `ScopeHooks.PathHooksCover`: asks for prefixes that nest at segment boundaries; `ScopeHooks.PathHooksAre` asks for nothing.
- `ScopeClass.ScopeRegistry.ResolveBinding`: one refilled object stands for the arrays of a scope, so the identity of each single array is not modelled.
- `ScopeClass.ScopeRegistry.Flush`: coherence is of those objects, for the same reason.
- Plain decorations copied to children, plugin registration and `routeScopeHooks`.
- `getMany`, `setMany` and `decr` of the key-value store: loops and a negation over modelled operations.
- Hashed cache keys, single-flight, header and credential decisions; `URL` and `encodeURIComponent` are contracts (injective, no separators).
- `CacheKey.KeyIsCanonical`: asks for methods without `:`, `|`, `#` or `?`, where HTTP allows a token to hold `|` and `#`.
- `CacheClass.ResponseCache.Invalidate`: candidates are handled one after the other, where the source lets their store calls interleave.
- Rate-limit key derivation, the cap warning and fractional limits; a window entry is a value, not a shared object.
- `RateLimitModel.AtMostTwiceMax`: asks for a non-decreasing clock and a key that is not evicted while live; evicting it restarts its count.
- `parseCidr` and `isTrustedProxy`: thin wrappers over the modelled parsing and tests.
- Functions and symbols in the wire format, and numbers JSON does not keep (NaN, the infinities, -0); an invalid date is refused by the encoder, so it is outside `Wire.RoundTrip`.
- Byte encoding and chunking of event streams, JSON printing of their data, the hub, and the abort wiring of a channel; `retry` is given as printed digits.
- Strings are sequences of Unicode scalar values, the source's of UTF-16 code units: on characters above U+FFFF the sort order of query names and what a glob `?` matches differ from the source.
