# A verified model of the Activity Tracker API

The service records API calls, limits how often a client may call, and reports usage. This
project models its three stateful cores and proves what they promise over whole runs.

**The batched log pipeline** (`LogStorage`, `Retry`, `LogPipeline`, `LogSteps`, `LogConservation`,
`LogOrder`, `LogBounds`, `ApiLogRepository`). Accepted logs wait in a queue, are saved in batches, and are
parked in memory while the database is away. Node runs one synchronous stretch at a time, so
`LogPipeline.Next` makes each stretch between two awaits one step. Nothing in the program keeps
two flushes apart, so the state holds any number of open flights. Logs carry a number that the
program does not have, and a ledger lists every log it gives up, with the reason.

**The sliding-window rate limiter** (`Timestamps`, `LuaLimiter`, `KeyExpiry`, `MemoryLimiter`,
`LimiterEquivalence`, `RateLimiterRuns`, `RateLimiterService`, `RateLimitMiddleware`). The Lua
script over a Redis sorted set and the in-memory list that replaces it when Redis fails are
compared with each other and with a limiter that forgets nothing. `now` is read on the client
before its script runs, so a run may present times out of order. `LuaLimiter` studies a set that
never expires, `KeyExpiry` the key with its EXPIRE deadline on the Redis clock, and
`RateLimiterRuns` the whole service over such keys.

**The usage cache and its hot keys** (`UsageRows`, `CacheKeys`, `HotKeys`, `UsageCache`,
`UsageAnswers`, `UsagePrewarming`, `UsageTracking`, `ClientService`). Readers and pre-warmers compute reports query by query,
interleaved, each query seeing the data of its own moment.

For each core there are value-level steps (`Next`, `Handle`, `Advance`), theorems about every run
of them, and classes whose methods update fields the way the program does and are proved to take
exactly those steps. All times are milliseconds; integers are unbounded.

Assumptions, each stated where it is used:

- `save` of an array commits all of it or nothing, and one that reports failure committed nothing.
- Sorted-set members are distinct where admissions are counted. That rests on `math.random()`,
  which older Redis versions seed alike for every script. The members themselves are bounded
  without it (`LuaLimiter.WindowMembersBound`, `KeyExpiry.ExpiringMembersBound`);
  `LuaLimiter.SharedMemberBreaksBound` shows that the calls that share one are not.
- A Redis key, of the limiter or of the cache, lasts through the millisecond of its deadline and is
  gone after it.
- One server's in-memory fallback is modelled, with a clock that does not step back where a
  statement says so. The fallback applies the service default, never the client's own limit.
- Time-to-live settings are positive, as the environment schema demands (`UsageCache.Seconds`).
- A cached and a computed response differ in their message text, so equality of responses means
  equality of the rows they carry.

Where the code and its comments or intentions part:

- Some errors count as transient, so they park logs, yet are never retried: those of an exhausted
  pool ("too many connections"), and those that spell a retryable pattern in another letter case
  only, such as "DEADLOCK". `Retry.TransientNotRetriedIff` says that there are no others, and
  `Retry.TransientYetNotRetried` that both kinds occur.
- With a limit below 1 and nothing in the window, the script reports `now` as the reset time and
  the fallback `now + W` (`LimiterEquivalence.CallMatches`).
- A client named like another with a colon and more can share a limiter key with an endpoint of that
  other (`RateLimiterRuns.ClientsShareKeyIff`); the identifiers the service generates hold no colon.
- A query whose parameter did not parse is counted under a `NaN` key that pre-warming skips
  (`CacheKeys.CountedKeyRefreshes`).
- `getTopClients` is commented as caching empty results too; it does not, and hits are never empty
  (`UsageCache.HitsAreFresh`).
- Overlapping flushes, whatever the batch size, or a batch saved after its flush failed to write
  back parked logs, can reorder the logs in the database (`LogOrder.OverlapReorders`,
  `LogOrder.BatchOvertakesMemoryIff`); `LogOrder.DatabaseInOrderIff` says exactly when they do.

## Model

| member | source | states |
|---|---|---|
| LogSteps.FlushTakesBoth | src/repositories/api-log.repository.ts:121-161 | an add that fills the batch, a tick and a stop empty queue and parked logs into exactly one new flight, which carries the parked logs before the batch and saves them first, or the batch at once when there are none |
| LogSteps.OtherwiseNothingMoves | src/repositories/api-log.repository.ts:53-131 | any other add only queues its log, a tick on an empty queue does nothing, and clearing touches memory alone |
| LogSteps.ShutdownWritesBack | src/repositories/api-log.repository.ts:63-78 | a stop without a queue, or back from its flush, takes what is parked for a last write-back, or ends and stops the timers |
| LogSteps.SaveCommits | src/repositories/api-log.repository.ts:111-161 | a save that commits puts its logs at the end of the database, after which a flush goes on to its batch and a waiting shutdown resumes |
| LogSteps.FailureRetried | src/utils/retry.utils.ts:21-57 | a retryable failure of a save with fewer than three before it is retried and changes nothing else |
| LogSteps.FailureEndsSave | src/repositories/api-log.repository.ts:114-182 | any other failure ends the save: a write-back is parked again and its flush goes on, a batch is parked after a transient error, put before a queue shorter than 1000 after any other, and lost when the queue is longer; of what is parked the newest that fit stay, with the time of their storing |
| LogSteps.WriteBackFailedIff | src/repositories/api-log.repository.ts:91-143 | in every run a batch is saved past a failed write-back exactly when a failure ended the write-back of its own flush |
| LogConservation.ExactlyOnePlace | src/repositories/api-log.repository.ts:84-184 | in every state of every interleaving of adds, ticks, overlapping flushes, save outcomes, cleanups, clears and shutdowns, an accepted log is once in exactly one of queue, flights, memory, database, ledger; no other log is anywhere |
| LogConservation.NeverSavedTwice | src/repositories/api-log.repository.ts:111-118 | no log is saved twice in any run, write-backs and re-storing included |
| LogConservation.NextCopies | src/repositories/api-log.repository.ts:121-184 | a step neither makes nor destroys a log; only an add brings one in |
| LogConservation.RunSound | src/repositories/api-log.repository.ts:84-184 | every reachable state conserves logs, keeps memory within its cap, and has flights that hold something and whose failed attempts all deserved their retry |
| LogConservation.LedgerGrows | src/services/in-memory-storage.service.ts:36-105 | a step extends the ledger by exactly the stated number of losses, and each is an eviction over the cap, an expired entry, a clear, or a batch dropped from a full queue |
| LogConservation.RequeueOnlyUnretryable | src/repositories/api-log.repository.ts:166-182 | in every run a batch is re-queued or dropped only after an error neither retryable nor transient, and all earlier errors of that save were retried |
| LogOrder.InAcceptanceOrder | src/repositories/api-log.repository.ts:114-182 | when flushes do not overlap and the database is up or down for a whole flush, database, memory, flight and queue concatenate to a subsequence of the accepted logs, equal to them exactly when nothing was lost |
| LogOrder.BatchOvertakesMemoryIff | src/repositories/api-log.repository.ts:138-161 | saving a batch keeps acceptance order if and only if nothing is parked in memory at that moment |
| LogOrder.DatabaseInOrderIff | src/repositories/api-log.repository.ts:84-161 | for every batch size and any number of open flushes, the database of a run is in acceptance order if and only if every save added logs in order and later than all saved before |
| LogOrder.OverlapReorders | src/repositories/api-log.repository.ts:54-60 | for every batch size some run of adds, ticks and successful saves leaves the database out of order |
| LogOrder.NextContent | src/repositories/api-log.repository.ts:84-184 | a step of an orderly run appends what it accepts, or drops exactly its losses and keeps the order of the rest |
| LogBounds.AddLeavesShortQueue | src/repositories/api-log.repository.ts:121-128 | after every add the queue is shorter than the batch size |
| LogBounds.QueueFullNeedsRequeue | src/repositories/api-log.repository.ts:174-181 | with a batch size of at most 1000 a batch is dropped only after a re-queue has brought the queue to 1000, with no add, tick or stop in between |
| LogBounds.StoreStaysFifo | src/services/in-memory-storage.service.ts:24-100 | with a monotone clock the store of every reachable state is within its cap and in storage order, so age cleanup at any time removes a prefix |
| LogBounds.StopFinishes | src/repositories/api-log.repository.ts:63-78 | an undisturbed shutdown takes at most ten steps beside timer cleanups, retries included, and while a flight is open a next step is possible |
| LogBounds.StopLeavesNothing | src/repositories/api-log.repository.ts:63-78 | once its last flight has landed, an undisturbed shutdown ends with queue and memory empty, timers off, nothing newly lost, and the database holding exactly the accepted logs that were not lost before |
| LogStorage.KeptIffYoung | src/services/in-memory-storage.service.ts:97-100 | a log is kept exactly while it has been stored for less than the maximal age, and expires otherwise |
| LogStorage.CleanupTakesPrefixIff | src/services/in-memory-storage.service.ts:93-100 | age cleanup removes the oldest entries at every time if and only if the store is in storage order |
| LogStorage.SortedRemovesPrefix | src/services/in-memory-storage.service.ts:93-100 | of a store in storage order, cleanup at any time leaves a suffix |
| LogStorage.InMemoryLogStorage.Add | src/services/in-memory-storage.service.ts:24-43 | the log is appended; one beyond the cap costs the oldest, which enters the ledger |
| LogStorage.InMemoryLogStorage.AddAll | src/repositories/api-log.repository.ts:117 | storing logs one by one equals appending them all and cutting the oldest excess |
| LogStorage.InMemoryLogStorage.Flush | src/services/in-memory-storage.service.ts:48-53 | hands over every stored log in order and empties the store |
| LogStorage.InMemoryLogStorage.Clear | src/services/in-memory-storage.service.ts:72-76 | empties the store and books every log as cleared |
| LogStorage.InMemoryLogStorage.CleanupOldLogs | src/services/in-memory-storage.service.ts:93-106 | the filter loop leaves the young entries in order and books the others as expired |
| ApiLogRepository.Repository.constructor | src/repositories/api-log.repository.ts:46-51 | a new repository is in the initial state of the machine |
| ApiLogRepository.Repository.AddToBatch | src/repositories/api-log.repository.ts:121-128 | takes the machine's Add step on all fields |
| ApiLogRepository.Repository.OnBatchTimer | src/repositories/api-log.repository.ts:53-61 | takes the Tick step |
| ApiLogRepository.Repository.FlushBatch | src/repositories/api-log.repository.ts:130-140 | queue and parked logs are taken in one stretch, parked ones to be saved first; an empty queue does nothing |
| ApiLogRepository.Repository.FlushInMemoryLogs | src/repositories/api-log.repository.ts:84-91 | everything parked is taken into one flight waiting to be saved; with nothing parked nothing changes |
| ApiLogRepository.Repository.FinishStop | src/repositories/api-log.repository.ts:72-78 | the parked logs are taken for the final write-back, or the store is stopped when there are none |
| ApiLogRepository.Repository.StopBatchProcessor | src/repositories/api-log.repository.ts:63-78 | takes the Stop step |
| ApiLogRepository.Repository.ResumeStop | src/repositories/api-log.repository.ts:72-77 | takes the Resume step, after the awaited flush |
| ApiLogRepository.Repository.SaveSucceeded | src/repositories/api-log.repository.ts:111-161 | takes the SaveOk step of the flight's stage |
| ApiLogRepository.Repository.SaveFailed | src/repositories/api-log.repository.ts:114-182 | takes the SaveErr step: retry, re-store, park, re-queue or drop |
| ApiLogRepository.Repository.OnCleanupTimer | src/services/in-memory-storage.service.ts:81-106 | takes the Cleanup step |
| ApiLogRepository.Repository.ClearStorage | src/services/in-memory-storage.service.ts:72-76 | takes the Clear step |
| Retry.WithRetry | src/utils/retry.utils.ts:17-63 | returns the first success, or throws the first error that is not retryable or ends call maxRetries + 1; never more calls; the pauses are those of the backoff |
| Retry.DelayDoubles | src/utils/retry.utils.ts:44 | the first pause is the base, and each next one is twice as long until the cap |
| Retry.DatabasePauses | src/utils/retry.utils.ts:99-103 | a failing database save is retried three times at most, after 200, 400 and 800 milliseconds |
| Retry.DelaysGrow | src/utils/retry.utils.ts:44 | pauses never get shorter |
| Retry.TotalDelayBound | src/utils/retry.utils.ts:44-57 | n pauses take at most min(base * (2^n - 1), n * cap) |
| Retry.IncludesIff | src/utils/retry.utils.ts:36 | a substring is what lies between two parts of a string |
| Retry.RetryableIff | src/utils/retry.utils.ts:33-41 | an error is retried if and only if its message or name is a text around a listed pattern, or no pattern is listed |
| Retry.TransientIff | src/utils/retry.utils.ts:75-94 | an error is transient if and only if its message or name is a text around a listed pattern in any letter case |
| Retry.OutageTexts | src/utils/retry.utils.ts:75-113 | whatever surrounds it in message or name, each of the nine outage texts makes an error retryable and transient |
| Retry.TransientTexts | src/utils/retry.utils.ts:75-94 | in any letter case and surroundings each of the ten texts makes an error transient |
| Retry.RetryableIsTransient | src/utils/retry.utils.ts:75-119 | every error database retries wait for is classified transient |
| Retry.TransientNotRetriedIff | src/utils/retry.utils.ts:35-119 | the converse fails exactly for errors that spell no retryable pattern and either spell one in another letter case or report too many connections |
| Retry.TransientYetNotRetried | src/utils/retry.utils.ts:35-119 | both kinds occur: a full pool and a deadlock in capitals are transient and not retried |
| Retry.IncludesLowered | src/utils/retry.utils.ts:89-93 | lower-casing both sides keeps every substring occurrence |
| LuaLimiter.WindowMembersBound | src/services/rate-limiter.service.ts:27-45 | on a set that never expires, with clocks at most d apart and any `math.random()`, the admissions of a window of W - d added at most as many members as the limit of the last of them to arrive |
| LuaLimiter.WindowBound | src/services/rate-limiter.service.ts:27-45 | with distinct members such a window holds at most that many admissions, for any mix of limits |
| LuaLimiter.WindowBoundIsTight | src/services/rate-limiter.service.ts:27-45 | for every limit L and skew d <= W a run at that limit puts 2L - 1 admissions, or 2L without skew, into a window one millisecond longer |
| LuaLimiter.LimitOneApart | src/services/rate-limiter.service.ts:27-45 | under limit 1 any two admissions are a whole window apart, whatever clocks and members do |
| LuaLimiter.SharedMemberBreaksBound | src/services/rate-limiter.service.ts:45 | when all scripts add one member, every limit above 1 admits any number of calls in one window, without skew |
| LuaLimiter.Retained | src/services/rate-limiter.service.ts:29-30 | an admission stays in the set until a call a whole window later arrives |
| LuaLimiter.CountedLater | src/services/rate-limiter.service.ts:27-33 | an admission within W - d before a later-arriving call is counted by it |
| LuaLimiter.FrozenUntilReset | src/services/rate-limiter.service.ts:29-42 | between a denial and its reset time no call changes the set |
| LuaLimiter.DenialIsExact | src/services/rate-limiter.service.ts:35-42 | under one limit a denial's reset time lies ahead; a later call is denied, with the same reset time, exactly when it comes before it; clocks need not agree |
| KeyExpiry.ExpiringWindowBound | src/services/rate-limiter.service.ts:22-49 | with EXPIRE, calls at most d out of order, and clients, network delay included, ahead and behind of Redis by at most 60001 ms + d in sum, every window of W - d holds at most as many admissions as the limit of the last of them to arrive |
| KeyExpiry.ExpiringWindowBoundIff | src/services/rate-limiter.service.ts:22-49 | for windows of W - d that condition on ahead and behind is exact: the bound holds of every run if and only if it is met |
| KeyExpiry.ClockWindowBound | src/services/rate-limiter.service.ts:22-49 | from ahead and behind alone, however large, the bound holds in windows of W - (ahead + behind) |
| KeyExpiry.ExpiringMembersBound | src/services/rate-limiter.service.ts:22-49 | the same for the members added, without assuming them distinct |
| KeyExpiry.DeadlineIsLastAdmission | src/services/rate-limiter.service.ts:35-47 | the deadline of a key is a window and 60 seconds after the Redis time of its last admission; denials do not move it |
| KeyExpiry.RetainedExpiring | src/services/rate-limiter.service.ts:29-46 | an admission stays in the expiring key, its deadline ahead, until a call a window later on the client clock or a window and a minute later on the Redis clock |
| KeyExpiry.ExpiryUnseenIff | src/services/rate-limiter.service.ts:45-47 | expiry after window + 60 s changes no answer of any run if and only if clients run ahead and behind by at most 60 s, and the one millisecond a key outlasts, in sum |
| KeyExpiry.SameMembers | src/services/rate-limiter.service.ts:27-46 | within those clocks an expiring key holds at every point the members of one that never expires |
| KeyExpiry.FarApartSeesExpiry | src/services/rate-limiter.service.ts:46 | for every larger skew there is a run of two calls whose answers expiry changes |
| KeyExpiry.ExpiringDenialIsExact | src/services/rate-limiter.service.ts:35-46 | within those clocks, and under one limit, denials by the expiring key are exact as above |
| MemoryLimiter.MemoryRefinesNaive | src/services/rate-limiter.service.ts:138-191 | with a monotone clock the pruned limiter gives every answer of every run, resets and cleanups included, that the limiter remembering every admission gives |
| MemoryLimiter.CleanupUnseen | src/services/rate-limiter.service.ts:67-77 | cleanups at any points of a run, deleting empty clients, change no answer |
| MemoryLimiter.Simulation | src/services/rate-limiter.service.ts:147-175 | the pruned lists and the full histories agree on everything a call can see, for every client, throughout a run |
| MemoryLimiter.AnswerCountsWindow | src/services/rate-limiter.service.ts:154-190 | an answer counts the stamps of the last window: admitted exactly below the limit, with what remains, and otherwise told when the earliest of them leaves |
| MemoryLimiter.CleanupKeepsWindow | src/services/rate-limiter.service.ts:67-77 | a cleanup keeps a client exactly while one of its stamps is in the window, and of its stamps those |
| MemoryLimiter.ResetForgets | src/services/rate-limiter.service.ts:225-237 | after a reset the next request of the client is its first, and no other client notices |
| MemoryLimiter.CheckAgrees | src/services/rate-limiter.service.ts:154-190 | one check on agreeing states gives one answer and agreeing states |
| MemoryLimiter.NaiveCheckBounded | src/services/rate-limiter.service.ts:159-175 | an admission never lets a window exceed the limit |
| LimiterEquivalence.CallMatches | src/services/rate-limiter.service.ts:22-190 | script and fallback on matching states leave matching states, and answer alike if and only if the limit is at least 1, something is in the window, or the window is zero |
| LimiterEquivalence.LiveMatches | src/services/rate-limiter.service.ts:36-40 | both prunings keep the same admissions, and the first stamp of the list is the smallest score of the set |
| RateLimiterRuns.FallbackAnswersAlike | src/services/rate-limiter.service.ts:85-191 | on every request of a run with the default limit and ordered positive times, cleanups of memory at any points and clocks within the minute of expiry, Redis and the in-memory fallback give the same allowed, remaining, current and reset time |
| RateLimiterRuns.OfflineAnswer | src/services/rate-limiter.service.ts:138-191 | during an outage that lasts a whole run of such requests memory, cleaned at any times, answers what the script would on a set that never expires |
| RateLimiterRuns.MemoryDenialIsExact | src/services/rate-limiter.service.ts:138-191 | in every run of the service, whatever Redis answers meanwhile, on whichever endpoints the client is checked and whenever memory is cleaned, a denial by memory has its reset time ahead, and later checks by memory are denied with it exactly until then |
| MemoryLimiter.NaiveDenialIsExact | src/services/rate-limiter.service.ts:159-171 | for one history: a denial's reset time lies ahead and separates denied checks from admitted ones |
| RateLimiterRuns.FailoverBound | src/services/rate-limiter.service.ts:85-175 | whichever calls fail, before or after the script's effect, with keys that expire and memory cleaned at any times, a window of W - d, any window when calls run in the order of their times, admits a client at most its limit plus the service default |
| RateLimiterRuns.FailoverBoundIsReached | src/services/rate-limiter.service.ts:85-175 | for every limit and default some run of a client admits exactly their sum in one window |
| RateLimiterRuns.RedisWindowBound | src/services/rate-limiter.service.ts:94-127 | failures, other keys and expiry leave the bound of a key in windows of W - d in place |
| RateLimiterRuns.MemoryWindowBound | src/services/rate-limiter.service.ts:138-276 | all endpoints of a client share one memory allowance, the service default, in any window, cleanups or not |
| RateLimiterRuns.LimitOrDefault | src/services/rate-limiter.service.ts:91 | a missing or zero limit means the default, any other limit itself |
| RateLimiterRuns.KeySpelling | src/services/rate-limiter.service.ts:89-248 | a client has one key for each endpoint and another for none |
| RateLimiterRuns.ClientsShareKeyIff | src/services/rate-limiter.service.ts:89-248 | two clients can share a key if and only if they are one, or one is named like the other with a colon and more |
| RateLimiterRuns.LostReplyCounts | src/services/rate-limiter.service.ts:93-132 | a script counts the same whether its reply is lost or not, one that never ran counts nothing, and memory is asked exactly when there is no reply, by the default limit |
| RateLimiterRuns.SweepKeepsWindow | src/services/rate-limiter.service.ts:67-77 | a cleanup in a run of the service leaves Redis alone and in memory exactly the stamps of the window |
| RateLimiterRuns.RedisProjection | src/services/rate-limiter.service.ts:89-105 | a run of the whole service acts on each key as a run of the script on an expiring key |
| RateLimiterRuns.HistoryCounts | src/services/rate-limiter.service.ts:173-175 | the stamps recorded in memory in any interval are exactly the requests it admitted |
| RateLimiterService.RedisStore.EvalScript | src/services/rate-limiter.service.ts:22-49 | the script's commands in sequence, EXPIRE included, have the effect and reply of the one-step script on its key and touch no other |
| RateLimiterService.RateLimiter.CheckRateLimit | src/services/rate-limiter.service.ts:85-133 | takes the service step of a request, state and answer |
| RateLimiterService.RateLimiter.CheckRateLimitForEndpoint | src/services/rate-limiter.service.ts:243-277 | takes the service step of a request for an endpoint |
| RateLimiterService.RateLimiter.CheckRateLimitInMemory | src/services/rate-limiter.service.ts:138-191 | checks and updates the list of one client, and no other list |
| RateLimiterService.RateLimiter.CleanupInMemoryStore | src/services/rate-limiter.service.ts:67-77 | visiting the clients in any order leaves every list pruned and no empty one |
| RateLimiterService.RateLimiter.ResetRateLimit | src/services/rate-limiter.service.ts:225-237 | memory of the client is cleared whether or not Redis could delete its key |
| RateLimitMiddleware.Limit | src/middleware/rate-limit.middleware.ts:8-53 | without a client, or with an empty id, the request passes untouched; any other is checked by the service under its own limit or the default, told limit, remainder, reset time and window in its headers, and refused with status 429, Retry-After and the figures exactly when the check denies it |
| RateLimitMiddleware.RetryAfter | src/middleware/rate-limit.middleware.ts:35-36 | the whole seconds reach the reset time and overshoot it by less than one |
| RateLimitMiddleware.PatientClientAdmitted | src/middleware/rate-limit.middleware.ts:33-36 | a client that waits its Retry-After out is admitted by the expiring key, unless another call reached the reset time first |
| RateLimitMiddleware.PatientClientAdmittedByMemory | src/middleware/rate-limit.middleware.ts:33-36 | a client that memory refused and that waits its Retry-After out is admitted by memory, unless another of its checks reached the reset time first |
| CacheKeys.Spelling | src/api/client/clientService.ts:174-312 | the text of cache keys and of their hit and miss counters |
| CacheKeys.ParseIntReads | src/services/cache-prewarm.service.ts:101-109 | on any text parseInt skips leading space, takes a sign and all digits after it and ignores the rest; without digits it is NaN |
| CacheKeys.SplitJoins | src/services/cache-prewarm.service.ts:106 | the parts of any text hold no colon and make up the text when joined by colons |
| CacheKeys.RemoveFirstRemoves | src/services/cache-hit-tracker.service.ts:132 | replacing by nothing takes out the first occurrence |
| CacheKeys.OtherKeysRefreshNothing | src/services/cache-prewarm.service.ts:100-114 | keys of neither kind, and top keys without exactly two parts, are ignored |
| CacheKeys.ParsePrintedKey | src/services/cache-prewarm.service.ts:97-113 | parsing a printed cache key gives back kind and parameters |
| CacheKeys.ParsePrintedNum | src/services/cache-prewarm.service.ts:101-109 | parseInt undoes the printing of every integer and of NaN |
| CacheKeys.KeysDistinct | src/api/client/clientService.ts:174-234 | cache keys are equal exactly when their parameters are |
| CacheKeys.StripCounted | src/services/cache-hit-tracker.service.ts:132 | stripping prefix and suffix of a counter key gives the cache key it counts |
| CacheKeys.CountersDistinct | src/services/cache-hit-tracker.service.ts:22-23 | hits and misses of all parameters are counted apart |
| CacheKeys.CountedKeyRefreshes | src/services/cache-prewarm.service.ts:97-113 | a counted key refreshes the entry it was counted for if and only if no parameter is NaN |
| HotKeys.CacheHitTracker.TrackAccess | src/services/cache-hit-tracker.service.ts:20-31 | the counter of that key and kind goes up by one, from zero when missing |
| HotKeys.CacheHitTracker.SetThreshold | src/services/cache-hit-tracker.service.ts:110-117 | sets the threshold of one key |
| HotKeys.CacheHitTracker.GetHotCacheKeys | src/services/cache-hit-tracker.service.ts:123-144 | the loop returns every key that needs pre-warming once, whatever the order of the counters, and no other key |
| HotKeys.HitRateBelowHalf | src/services/cache-hit-tracker.service.ts:54-80 | a hit rate below 50 % means more misses than hits, or no access |
| HotKeys.CountersCount | src/services/cache-hit-tracker.service.ts:20-31 | after any run of accesses a counter holds the number of accesses of its kind and parameters |
| HotKeys.ScanOfAccesses | src/services/cache-hit-tracker.service.ts:71-144 | after any run of accesses the scan returns exactly the keys missed more often than hit and accessed more often than their threshold |
| HotKeys.ScanIsExact | src/services/cache-hit-tracker.service.ts:71-144 | the same for any counters of tracked queries |
| HotKeys.HotKeysRefresh | src/services/cache-prewarm.service.ts:81-83 | a hot key is the key of a tracked query and refreshes that query |
| UsagePrewarming.PrewarmStoresReport | src/api/client/clientService.ts:280-327 | from any state a pre-warming can run, and leaves behind the report of its query times in the cache, for the time to live of its kind, and nothing else |
| UsagePrewarming.PrewarmedReadHits | src/api/client/clientService.ts:179-327 | once a pre-warming has finished with the cache up and rows to store, a read within the time to live is a hit with those rows, until another report is stored |
| UsagePrewarming.StoredReportServes | src/api/client/clientService.ts:179-302 | after a pre-warmer or reader stored a report, and until the next one is stored for its parameters, a read with the cache up is answered at once with those rows exactly within the time to live, and computes after it |
| UsagePrewarming.HitIffStored | src/api/client/clientService.ts:179-320 | a read is a hit if and only if the cache is up and the last report stored for its parameters is within its time to live; any other read starts computing |
| UsageTracking.HotIffMostlyMissed | src/services/cache-hit-tracker.service.ts:71-144 | after any run of readers and pre-warmers whose accesses were counted, the scan returns exactly the reports the cache served for fewer than half of their reads, among those read more often than their threshold |
| UsageTracking.RunCounts | src/api/client/clientService.ts:180-195 | when every access is counted, the hit counter of a report is its cache hits and both counters together are its reads |
| UsageRows.LatestFirst | src/api/client/clientService.ts:208-212 | in sorted daily rows a later date comes before an earlier one, and of one date a larger count before a smaller |
| UsageRows.SortPermutes | src/api/client/clientService.ts:208 | sorting neither adds nor drops a row |
| UsageRows.SortSorts | src/api/client/clientService.ts:207-212 | the report is ordered by later date, then larger count, and keeps equal rows in collection order |
| UsageRows.StableSortUnique | src/api/client/clientService.ts:208-212 | no other list is ordered and keeps equal rows in order |
| UsageCache.ReportRows | src/api/client/clientService.ts:197-204 | a daily report holds every row read for any client, and no other |
| UsageCache.AnswersLatestFirst | src/api/client/clientService.ts:173-221 | in every run the rows of a successful daily answer, cached or computed, come with later dates first and larger counts first within a date |
| UsageCache.HitsAreFresh | src/api/client/clientService.ts:173-327 | in any interleaving of readers and pre-warmers, a hit at t is a non-empty report for exactly its parameters, all of whose queries ran at t - TTL - D or later, D being the longest time from a query to the cache write |
| UsageCache.CacheIsTransparent | src/api/client/clientService.ts:173-278 | with unchanged data every successful answer carries the rows of the uncached computation, whichever cache reads and writes fail |
| UsageCache.DoneIsReport | src/api/client/clientService.ts:197-212 | collecting client by client across awaits and sorting once gives the report of the query times |
| UsageCache.RunSound | src/api/client/clientService.ts:173-327 | every cached entry of every reachable state was written by a finished computation for the parameters of its key |
| UsageCache.HitSound | src/api/client/clientService.ts:179-187 | a hit under the key of some parameters found a report for those parameters |
| UsageAnswers.EveryReadAnsweredOnce | src/api/client/clientService.ts:173-278 | at every moment of every run a read has exactly one answer, for its own parameters, or is still computing; pre-warmers answer nobody |
| UsageAnswers.EveryPrewarmRuns | src/api/client/clientService.ts:280-327 | at every moment of every run the pre-warmings asked for are those that finished or failed, once each, and those still computing |
| UsageAnswers.WhoIsAnswered | src/api/client/clientService.ts:220-230 | a finished reader is answered with its rows and one whose query failed with a failure, which leaves the cache alone; pre-warmers answer nobody |
| UsageAnswers.OnlyQueriesFail | src/api/client/clientService.ts:189-218 | without a failed database query every answer succeeds, whatever the cache does |
| ClientService.Usage.GetUsage | src/api/client/clientService.ts:173-194 | takes the Read step: the access is counted as hit or miss, and the cached rows answer at once or a computation begins |
| ClientService.Usage.TrackAccess | src/api/client/clientService.ts:182-195 | the access is counted, or lost without an effect on the request |
| ClientService.Usage.PrewarmUsage | src/api/client/clientService.ts:280-284 | takes the Prewarm step, without reading the cache |
| ClientService.Usage.QueryReturned | src/api/client/clientService.ts:197-204 | takes the Query step: the client list first, then the rows of one client after the other |
| ClientService.Usage.QueryFailed | src/api/client/clientService.ts:222-230 | takes the QueryFails step: a reader gets a failure, the cache stays |
| ClientService.Usage.FinishUsage | src/api/client/clientService.ts:207-221 | takes the Finish step: sorted rows, stored unless empty, and answered even if the write fails |
| ClientService.Usage.PrewarmByCacheKey | src/services/cache-prewarm.service.ts:97-120 | recomputes exactly the parameters its key names, and nothing for other keys |

## Left out

- HTTP routing, authentication, schemas, streaming, encryption, SQL, migrations: thin wrappers or library code.
- Redis connections, Sentinel, replica lag and pub/sub: Redis is a sorted set and a map whose calls may fail.
- Real timers, cron and `prewarmAll`: their firing is an event that may happen at any time.
- `getCurrentUsage`, `getStatistics` and `getDashboardStats`: monitoring reads that would add only easy claims.
- The columns of a log beyond three, and the timestamp `save` gives it: they travel unread.
- An absolute bound on the queue: there is none, because a re-queue is guarded by the newer logs only.
- Resets in runs of the whole service, where they end every bound: they are events of the in-memory runs and methods of the classes.
- RateLimitMiddleware.Limit: omits the fail-open branch, because the check it guards never throws, and the fixed texts of a refusal.
- HotKeys.CacheHitTracker.SetThreshold: omits the 24-hour expiry of a threshold and a write that fails and is swallowed.
- HotKeys.CacheHitTracker.TrackAccess: omits the five-minute expiry of a counter; a failed count is the `tracked` flag of `UsageCache.Read`.
- Failed reads during a scan: counters are stable while it runs.
- Floating-point rounding of hit rates: rates are exact.
- Lower-casing of characters outside ASCII: none occurs in the error patterns.
- `parseInt` of white space beyond space, tab and line ends, and numbers too large to be printed or parsed exactly.
- JSON text, and dates that do not parse: rows are values with integer dates.
- ApiLogRepository.Repository.FlushBatch: the save itself is an event that succeeds or fails later, so the method covers the first stretch only.
- LogOrder.InAcceptanceOrder: is not claimed for overlapping flushes, for which it is false (`LogOrder.OverlapReorders`) and `LogOrder.DatabaseInOrderIff` gives the exact condition.
