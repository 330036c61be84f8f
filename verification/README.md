# A model of the rate limit decision path

This project models how the rate limit service decides a request: loading rule files
into a tree, matching descriptors, building cache keys, counting in Redis or in
memcached, judging the counts, keeping statistics, and answering. It proves what the
service is for: quotas hold under every interleaving, caches and store splits do not
change answers, every hit is counted once, and the answer to a request is what the
rule files say.

The concurrent parts are state machines whose steps are single backend commands. Any
number of calls, on any number of service instances, interleave freely; a run is any
sequence of enabled steps. The sequential parts are classes and methods with loops, as
in the source, each tied to a specification function about which the laws are proved.

| module | part of the system |
|---|---|
| `Limiter`, `LimitCall` | judging a batch of hits; the parts that both backends share in one call |
| `RedisProtocol`, `RedisQuota`, `RedisStatistics`, `RedisLocalCache`, `RedisSplitProtocol`, `RedisWitnesses` | the Redis limiter at command granularity, its laws over all runs, also with two stores |
| `RedisCache`, `RedisTwoStores`, `RedisStopMode`, `RedisUnchecked` | the Redis `DoLimit` as written; its two stores; its stop mode; descriptors that are not checked |
| `RedisRuns`, `RedisSolo`, `RedisRequest` | that `DoLimit` is an uninterrupted run of the machine |
| `MemcachedProtocol`, `MemcachedExactlyOnce`, `MemcachedAdmission`, `MemcachedRejection`, `MemcachedWitnesses` | the memcached limiter with its background workers, its laws over all runs, and runs that attain its bounds |
| `MemcachedCache`, `MemcachedSolo`, `Backends` | the memcached `DoLimit` as written; that it is an uninterrupted run of the machine; both backends compared over whole runs |
| `Expiry`, `CacheKeys` | lifetimes of counters; keys, windows and reset times |
| `Config`, `ConfigLookup`, `ConfigMeaning`, `ConfigHeap`, `StatsHandles` | loading, looking up, what rule files mean in terms of their fields, the heap that lookups share, and whose stats key remains on it |
| `Service`, `Health` | which limits are checked, the response, health and reloads |
| `RequestMeaning`, `ShouldRateLimit` | what a request means in terms of rule files and counters, and the service that serves it |

## Assumptions

- The counters that are looked up stay below 2^32, and for memcached below 2^31 when
  they are read, because the source parses them as signed 32-bit integers. The state
  machines enable a step only then; the methods state it as a precondition on the keys
  of the call. Nothing bounds the hits of a whole run.
- The near threshold is a number that is at most the limit; the source computes it in
  32-bit floating point from a ratio of at most one.
- Units are the four that `UnitToDivider` accepts; the source panics on others.
- A key is judged against one number where a law speaks of statistics or of the local
  cache, because local cache entries are keyed by the cache key alone. Everything else
  about its limits may vary; the near statistic also needs one near threshold, the
  shadow statistic one shadow mode.
- No cache key is used both with SECOND and with another unit where two stores are
  read as one. `CacheKeys.UnitsCollide` shows that keys alone do not guarantee it.
- The commands of a request are executed before the window in its key closes.

## Where the code does less than one might expect

- The stop mode charges all keys of a request or rejects it only up to shadow rules:
  `RedisStopMode.ShadowRuleStopsCharges` is a family of requests that are admitted
  with a key left uncharged, and `RedisStopMode.StopModeExactly` says exactly when,
  for every request.
- Hits of the one batch that straddles a limit are partly counted neither as within
  nor as over the limit: `RedisStatistics.StatisticsClosedForm`; for every positive
  limit `RedisWitnesses.StraddlingBatch` is a run with such a batch.
- Memcached admits more than the limit while increments are pending:
  `MemcachedAdmission.OverAdmissionBound` says by how much at most, and
  `MemcachedWitnesses.BoundIsAttained` gives, for every positive limit and every pending amount,
  a run that admits that much.
- A local cache in front of memcached can reject early. An answer fills it before the
  hits are submitted, so that in between a small request is turned away although
  nothing is stored: `MemcachedWitnesses.LocalRejectionCanBeEarly` is that family of
  runs, `MemcachedRejection.LocalRejectionExactly` says exactly when such a rejection is
  real, and `MemcachedRejection.EarlyOnlyBeforeSubmission` that it is early only until
  the hits that filled the cache are submitted. Rejections on a read are always real:
  `MemcachedRejection.ReadRejectionIsReal`.
- Cache keys with underscores, and of different units, can collide:
  `CacheKeys.UnderscoresCollide`, `CacheKeys.UnitsCollide`.
- A detailed limit of a rule that has children is returned as the shared object, so a
  later lookup redirects the statistics of an earlier one, even inside one request:
  `StatsHandles.LaterDescriptorRedirects`. `Service.ConstructLimitsToCheck` states the
  stats key of every checked descriptor, and `StatsHandles.OwnSpellingExactly` when it
  is the descriptor's own.
- In stop mode a limited status can be passed over by the headers, when nothing was
  counted against the largest of all limits: `RequestMeaning.LargestLimitIsPassedOver`.
  It makes no difference, because another status then has nothing remaining: in every
  mode headers are there exactly when they are enabled and some descriptor is checked
  (`RequestMeaning.HeadersExactly`).
- Response headers, once enabled by a reload, are never disabled again
  (`Health.HeadersStayEnabled`).

## Model

| member | source | states |
|---|---|---|
| `Limiter.ResetEndsWindow` | src/utils/utilities.go:19-38 | the reset is the first moment after now at which a window of the unit begins |
| `Limiter.WindowsInSeconds` | src/utils/utilities.go:19-32 | minutes, hours and days begin at the multiples of 60, 3600 and 86400 seconds; a day is 24 hours, an hour 60 minutes, a minute 60 seconds |
| `Limiter.CoveredClosedForm` | src/limiter/base_limiter.go:159-188 | how many hits of a batch have a number in a range, counted one by one, in closed form |
| `Limiter.JudgeCountsHits` | src/limiter/base_limiter.go:83-143 | a charged batch is judged exactly as its hits would be one by one: over, near, within, shadow, remaining and code |
| `Limiter.LocalRejectionCounts` | src/limiter/base_limiter.go:92-97 | a batch that the local cache rejects counts in full as over the limit and as rejected locally, and as nothing else but shadow |
| `Limiter.BaseRateLimiter.IsOverLimitWithLocalCache` | src/limiter/base_limiter.go:65-74 | true exactly for keys in an enabled local cache |
| `Limiter.BaseRateLimiter.CheckOverLimitThreshold` | src/limiter/base_limiter.go:159-174 | adds the over-limit and near-limit parts of the verdict on the batch, and nothing else |
| `Limiter.BaseRateLimiter.CheckNearLimitThreshold` | src/limiter/base_limiter.go:176-188 | adds the near-limit part of the verdict, and nothing else |
| `Limiter.BaseRateLimiter.IncreaseShadowModeStats` | src/limiter/base_limiter.go:190-198 | the shadow statistic grows by exactly the over-limit part |
| `Limiter.BaseRateLimiter.GetResponseDescriptorStatus` | src/limiter/base_limiter.go:83-143 | status, statistics and local cache after judging one key; an empty key changes nothing |
| `LimitCall.GenerateCacheKeys` | src/limiter/base_limiter.go:46-62 | one lookup per descriptor, empty exactly without a limit; total hits grow for checked descriptors only |
| `LimitCall.TotalsGrow` | src/limiter/base_limiter.go:56-59 | the total of a stats key grows by the hits, once for each limit under it, and no other field changes |
| `LimitCall.FieldsGrow` | src/limiter/base_limiter.go:92-140 | every field of a stats key grows by its sum over the verdicts of the lookups under that key |
| `LimitCall.ProbeLocalCache` | src/redis/fixed_cache_impl.go:128-144 | which lookups the local cache knows to be over their limit |
| `LimitCall.AnswerAll` | src/redis/fixed_cache_impl.go:198-213 | all statuses, statistics and cache entries of a call from its counts |
| `RedisProtocol.ChargingIsFrozen` | src/redis/fixed_cache_impl.go:67-125 | once a call has begun to charge, no step of any call changes what it decided to charge |
| `RedisProtocol.StepKeepsInv` | src/redis/fixed_cache_impl.go:67-211 | every step keeps the invariant that ties amounts, results, reads and verdicts to the counters |
| `RedisProtocol.RunKeepsInv` | src/redis/driver_impl.go:170-181 | the invariant over every interleaving of single commands |
| `RedisProtocol.CounterIsSumOfCharges` | src/redis/fixed_cache_impl.go:35-38 | conservation: a counter holds exactly what the calls have added, in every run |
| `RedisQuota.RunKeepsCap` | src/redis/fixed_cache_impl.go:148-213 | amounts whose INCRBY returned at most L never total more than L, in every run and mode |
| `RedisQuota.QuotaSafety` | src/redis/fixed_cache_impl.go:148-213 | without the stop mode, hits judged within a limit of at most L on a key total at most L, in every run |
| `RedisQuota.NearKeyIsOverLimit` | src/redis/fixed_cache_impl.go:110-124 | a key that looked near its limit is over it once charged, whatever happened since the GET |
| `RedisQuota.UnchargedKeyMeansOverLimit` | src/redis/fixed_cache_impl.go:67-125 | all or nothing: if a request without shadow limits leaves a key without its full charge, some status is OVER_LIMIT |
| `RedisQuota.AdmittedIsCharged` | src/redis/fixed_cache_impl.go:148-213 | every key of an admitted request is charged the hits and stays within its limit |
| `RedisQuota.AdmittedRequestsKeepQuota` | src/redis/fixed_cache_impl.go:67-213 | in every run, in every mode, fully admitted requests without shadow limits never total more than L hits on a key |
| `RedisStatistics.BatchMovesClosedForms` | src/limiter/base_limiter.go:159-188 | one more batch moves the closed forms of over and near by what it is judged |
| `RedisStatistics.StepKeepsCacheSound` | src/limiter/base_limiter.go:111-123 | on a key judged against one number, a local cache entry always proves that the counter is beyond it |
| `RedisStatistics.RunKeepsStatsInv` | src/limiter/base_limiter.go:83-143 | the telescoped statistics over every run, for a key judged against one number |
| `RedisStatistics.TotalSplits` | src/redis/fixed_cache_impl.go:126-151 | all hits on a key are in its counter or were rejected locally, the latter only over the limit |
| `RedisStatistics.HitsAreAccountedFor` | src/limiter/base_limiter.go:104-131 | within, over and the in-limit part of a straddling batch make up all hits |
| `RedisStatistics.StatisticsClosedForm` | src/limiter/base_limiter.go:83-198 | after T hits on a key judged against one number L, under whatever stats keys, names and units: over is max(0, T-L), near is max(0, min(T,L)-near) if there is one near threshold, shadow copies over if all its rules are in shadow mode and is 0 if none is, and at most one batch straddles |
| `RedisWitnesses.StraddlingBatch` | src/limiter/base_limiter.go:159-174 | for every positive limit, a run whose only batch straddles it, so that the hits up to the limit are counted nowhere |
| `RedisLocalCache.ChargesAlike` | src/redis/fixed_cache_impl.go:126-151 | counters that agree up to the limit judge the next batch alike, also when one side rejects locally |
| `RedisLocalCache.RunsRelated` | src/redis/fixed_cache_impl.go:126-211 | a run with local caches and the same run without stay related step by step |
| `RedisLocalCache.LocalCacheIsTransparent` | src/limiter/base_limiter.go:65-123 | with any caches and evictions, and one number per key to judge against, every lookup gets the code, remaining count and statistics of the run without caches, except the local cache counter; counters differ only beyond the limit; for every run that is one without caches too |
| `RedisLocalCache.TransparentWithinBudget` | src/redis/fixed_cache_impl.go:126-151 | the same without that assumption, when no single key is asked for 2^32 hits |
| `RedisCache.Client.PipeDo` | src/redis/driver_impl.go:170-181 | a pipeline has the effect of its commands one by one |
| `RedisCache.PipeRuns` | src/redis/fixed_cache_impl.go:148-196 | executing a pipeline of INCRBY and EXPIRE pairs is charging its lookups in order |
| `RedisCache.ChargesAreRouted` | src/redis/fixed_cache_impl.go:155-179 | per-second charges go to the second client if there is one, all others to the main one, and every INCRBY has an EXPIRE for divider and jitter behind it |
| `RedisCache.GetsAreRouted` | src/redis/fixed_cache_impl.go:87-97 | the GETs go where the charges go |
| `RedisCache.PipedCounts` | src/redis/fixed_cache_impl.go:160-180 | every key that a pipeline owns receives all its charges, and the expiration of the last one |
| `RedisCache.TwoStoresEqualOne` | src/redis/fixed_cache_impl.go:160-196 | the split pipelines in closed form: every lookup's result, every key's counter and expiration, as if on one store |
| `RedisTwoStores.SplitEqualsUnsplit` | src/redis/fixed_cache_impl.go:160-196 | the split pipelines and the unsplit sequence on one store: the same result at every index, the same counters and expirations |
| `RedisTwoStores.RunsAgree` | src/redis/fixed_cache_impl.go:87-196 | over every sequence of calls, in every mode and with or without a local cache, two stores give the results, counters, expirations and cached keys of one |
| `RedisSplitProtocol.SplitRunsAgree` | src/redis/fixed_cache_impl.go:87-196 | in every interleaving of single commands: what can be executed on two stores can on one and conversely, with the same progress and results, and the two stores make up the one |
| `RedisSplitProtocol.SplitRequestsKeepQuota` | src/redis/fixed_cache_impl.go:67-213 | so admitted requests keep their quota with two stores |
| `RedisCache.GetPipeRuns` | src/redis/fixed_cache_impl.go:87-108 | the GETs of a pipeline deliver the counters of its own lookups and change nothing |
| `RedisCache.FixedCache.ReadCounts` | src/redis/fixed_cache_impl.go:87-108 | the counts before the call, read through two pipelines as from one store |
| `RedisCache.FixedCache.DecideCharges` | src/redis/fixed_cache_impl.go:67-151 | what each lookup is charged, in every mode |
| `RedisCache.FixedCache.RunCharges` | src/redis/fixed_cache_impl.go:148-196 | counters, expirations and results after the charges, as on one store |
| `RedisCache.RoomSuffices` | src/redis/fixed_cache_impl.go:198-206 | room for the hits of all lookups keeps every result below 2^32 |
| `RedisCache.FixedCache.DoLimit` | src/redis/fixed_cache_impl.go:44-214 | the whole call in every mode: counters, expirations, statuses, statistics and local cache |
| `RedisStopMode.ShadowRuleStopsCharges` | src/redis/fixed_cache_impl.go:110-124 | a shadow rule that looks near its limit leaves another key uncharged while both statuses are OK |
| `RedisStopMode.ChargedUnlessHeldBack` | src/redis/fixed_cache_impl.go:67-151 | some key is left without its full charge exactly when the situation before the call holds keys back |
| `RedisStopMode.RejectsIfDecisive` | src/redis/fixed_cache_impl.go:198-211 | when keys are held back, exactly the decisive lookups outside shadow mode are rejected |
| `RedisStopMode.StopModeExactly` | src/redis/fixed_cache_impl.go:67-213 | a call, with keys repeated or not, is all or nothing exactly when it holds nothing back or a decisive lookup is not in shadow mode |
| `RedisStopMode.NearIsDecisive` | src/redis/fixed_cache_impl.go:110-124 | where equal keys have equal limits and none is known locally, the decisive lookups are the near ones |
| `RedisSolo.AmountAgrees` | src/redis/fixed_cache_impl.go:67-180 | the machine charges a checked lookup what the contract of `DoLimit` charges |
| `RedisRuns.AllAnswersRun` | src/redis/fixed_cache_impl.go:198-211 | answering the charged lookups of a call in any state: their verdicts, their cache entries, and nothing else |
| `RedisSolo.SoloRuns` | src/redis/fixed_cache_impl.go:67-211 | the checked lookups of an uninterrupted call are a run of the machine, with counters, cache entries and verdicts |
| `RedisRequest.ChargeCarries` | src/redis/fixed_cache_impl.go:148-180 | what a checked descriptor is charged does not depend on whether unchecked ones are listed |
| `RedisRequest.SoloIsDoLimit` | src/redis/fixed_cache_impl.go:44-214 | for every request and mode, an uninterrupted call takes the machine to the counters, cache entries and verdicts of the contract of `DoLimit` |
| `MemcachedProtocol.StepKeepsInv` | src/memcached/cache_impl.go:111-191 | every step keeps the invariant on lookups, background increments and workers |
| `MemcachedProtocol.StepKeepsWorkers` | src/memcached/cache_impl.go:270-302 | running increments and busy workers correspond one to one |
| `MemcachedProtocol.RunKeepsInv` | src/memcached/cache_impl.go:143-195 | the invariant over every interleaving |
| `MemcachedExactlyOnce.StepKeepsBalance` | src/memcached/cache_impl.go:152-191 | each of Increment, Add and the second Increment keeps the counter equal to the applied hits |
| `MemcachedExactlyOnce.ExactlyOnce` | src/memcached/cache_impl.go:143-191 | in every reachable state stored plus pending hits equal submitted hits; every submission is handed to exactly one worker, once |
| `MemcachedExactlyOnce.FlushMeansApplied` | src/memcached/cache_impl.go:193-195 | when the wait group of an instance is zero, all hits that this instance submitted are applied, each once; a wait group is never negative |
| `MemcachedExactlyOnce.AllFlushedMeansStored` | src/memcached/cache_impl.go:193-195 | when all instances have flushed, every counter equals the submitted hits |
| `MemcachedAdmission.LogBoundsAdmission` | src/memcached/cache_impl.go:111-141 | the reads of a run bound the admitted hits |
| `MemcachedAdmission.OverAdmissionBound` | src/memcached/cache_impl.go:111-191 | hits judged within a limit of at most L exceed L by no more than the hits read and not yet applied at the last such read |
| `MemcachedAdmission.NothingPendingNothingOver` | src/memcached/cache_impl.go:111-144 | when nothing is pending at the last read within a limit, the limit holds |
| `MemcachedWitnesses.BoundIsAttained` | src/memcached/cache_impl.go:111-191 | for every positive limit and every pending amount a run admits exactly both together |
| `MemcachedRejection.RunKeepsBacked` | src/memcached/cache_impl.go:152-191 | what a lookup has read, and what it has applied, stays stored |
| `MemcachedRejection.ReadRejectionIsReal` | src/memcached/cache_impl.go:121-144 | a lookup rejected on what it read: stored hits with its own exceed its limit, and submitted hits with its own do |
| `MemcachedRejection.RunKeepsFilled` | src/limiter/base_limiter.go:111-123 | every local cache entry, and every rejection by one, goes back to a lookup of that instance rejected on a read |
| `MemcachedRejection.LocalRejectionExactly` | src/memcached/cache_impl.go:88-144 | a rejection by the local cache is real exactly when a lookup that read beyond the limit has been submitted, or the submitted hits that read within it leave no room |
| `MemcachedRejection.EarlyOnlyBeforeSubmission` | src/memcached/cache_impl.go:139-144 | while such a rejection is early, no lookup that filled the cache against this limit or a larger one has been submitted |
| `MemcachedRejection.RejectionMeansReads` | src/memcached/cache_impl.go:111-141 | however a lookup on a key judged against one number is rejected, the lookups that have read the counter exceed that number |
| `MemcachedWitnesses.LocalRejectionCanBeEarly` | src/memcached/cache_impl.go:139-144 | for every positive limit, a run in which a small lookup is answered OVER_LIMIT with nothing stored or submitted |
| `MemcachedCache.Client.GetMulti` | src/memcached/cache_impl.go:114-119 | the stored values of the keys asked for |
| `MemcachedCache.Client.Increment` | src/memcached/cache_impl.go:161-162 | increments a stored counter or reports a miss |
| `MemcachedCache.Client.AddItem` | src/memcached/cache_impl.go:169-174 | stores a new counter or reports that one exists |
| `MemcachedCache.Parsed` | src/memcached/cache_impl.go:124-133 | a stored value is read right exactly below 2^31 |
| `MemcachedCache.MemcachedLimiter.Decide` | src/memcached/cache_impl.go:66-141 | statuses, statistics and local cache from the counts read |
| `MemcachedCache.MemcachedLimiter.IncreaseAsync` | src/memcached/cache_impl.go:152-191 | every key receives what its lookups charge |
| `MemcachedCache.MemcachedLimiter.DoLimitAndFlush` | src/memcached/cache_impl.go:66-150 | a whole flushed call |
| `MemcachedSolo.SoloIsFlushedCall` | src/memcached/cache_impl.go:66-195 | for every request there is a run of its own events alone that takes the machine to the counters, cache entries and verdicts of the contract of `DoLimitAndFlush`, with every wait group where it was |
| `Backends.ChargedCounts` | src/redis/fixed_cache_impl.go:35-38 | charging lookup by lookup gives the counters that both contracts state |
| `Backends.ServeMemcached` | src/memcached/cache_impl.go:66-150 | the memcached limiter does what the compared call says |
| `Backends.CallsAgree` | src/memcached/cache_impl.go:66-150 | one call with distinct keys: both backends give the same statuses and leave the same state |
| `Backends.BackendsAgree` | src/redis/fixed_cache_impl.go:126-213 | every sequence of flushed requests: same statuses, counters, statistics and cached keys on both backends |
| `Backends.CallIsOneByOne` | src/redis/fixed_cache_impl.go:148-213 | a pipelined call has the effect of its lookups one at a time |
| `RedisUnchecked.Serve` | src/redis/fixed_cache_impl.go:44-214 | the Redis limiter does what the compared call says, in every mode and with one store or two |
| `RedisUnchecked.RedisCallIsCall` | src/redis/fixed_cache_impl.go:126-213 | the call that the backends agree on is that one without the stop mode |
| `RedisUnchecked.WidthDoesNotMatter` | src/redis/fixed_cache_impl.go:101-125 | what checked lookups are charged does not depend on how many descriptors the request has |
| `RedisUnchecked.UncheckedAreInert` | src/limiter/base_limiter.go:46-62 | in every mode, dropping unmatched, unlimited and replaced descriptors changes no counter, statistic or cached key and no status of another descriptor |
| `Expiry.NothingExpiresEarly` | src/redis/fixed_cache_impl.go:155-179 | while a window is open its counter is the sum of all amounts added, whatever the jitter and the refreshes |
| `Expiry.SettledStays` | src/redis/fixed_cache_impl.go:35-38 | a counter that has a deadline keeps one, within bounds |
| `Expiry.CounterIsGoneAfterwards` | src/redis/fixed_cache_impl.go:155-179 | once an INCRBY was followed by an EXPIRE the counter is gone two dividers and the largest jitter after its window began |
| `Expiry.TtlIsWindowAndJitter` | src/redis/fixed_cache_impl.go:155-158 | the time to live is the length of a window and the drawn jitter on top |
| `CacheKeys.ParseFormat` | src/limiter/cache_key.go:73-74 | decimal window starts decode to themselves and hold no underscore |
| `CacheKeys.GenerateCacheKey` | src/limiter/cache_key.go:48-80 | the key of a checked descriptor names its window and is not empty; without a limit it is empty |
| `CacheKeys.SameDescriptorKeys` | src/limiter/cache_key.go:58-79 | keys of one descriptor coincide exactly when their windows do |
| `CacheKeys.KeySpelling` | src/limiter/cache_key.go:62-74 | a key spells prefix, domain, every key and value in order, and the window, with underscores in between |
| `CacheKeys.WindowStartBegins` | src/limiter/cache_key.go:73-74 | the window of a time is the last beginning of one that is not later |
| `CacheKeys.WindowOf` | src/utils/utilities.go:34-38 | the window start stays the same exactly until the reset |
| `CacheKeys.KeyChangesAtReset` | src/limiter/cache_key.go:73-74 | a descriptor's key changes exactly when the advertised reset has passed |
| `CacheKeys.KeyDeterminesLookup` | src/limiter/cache_key.go:58-79 | without underscores two keys are equal exactly when domain, entries and window are |
| `CacheKeys.UnderscoresCollide` | src/limiter/cache_key.go:66-71 | with underscores two descriptors of one domain can share a key |
| `CacheKeys.UnitsCollide` | src/limiter/cache_key.go:73-74 | windows of different units share a key at common window starts |
| `Config.CheckReplaces` | src/config/config_impl.go:176-183 | the first illegal replaces entry, if any |
| `Config.LoadDescriptors` | src/config/config_impl.go:124-197 | the loop loads what the recursive specification says, with the same errors |
| `Config.LoadOneIsTree` | src/config/config_impl.go:126-195 | one more rule is accepted exactly when the longer list is valid, and gives its tree |
| `Config.LoadAllIsTree` | src/config/config_impl.go:124-197 | loading a further list is loading the concatenation: same acceptance, tree and wildcard order |
| `Config.LoadConfigIsTree` | src/config/config_impl.go:246-268 | one more file is accepted exactly when all files together are valid |
| `Config.NewRateLimitConfig` | src/config/config_impl.go:421-430 | the loop over all files |
| `Config.MergingIsConcatenation` | src/config/config_impl.go:246-268 | files load exactly when domains are named and each domain's concatenated rules are valid at every level; the result is the tree of the concatenation |
| `ConfigMeaning.LoadErrorsAreTrue` | src/config/config_impl.go:126-183 | whatever a list of rules is refused for, some rule of it, at whatever depth, is wrong in this way |
| `ConfigLookup.NextIsPick` | src/config/config_impl.go:316-340 | one level: maps and wildcard list select the exact rule, else the first matching wildcard in file order, else the key alone |
| `ConfigLookup.LookupRefinesRules` | src/config/config_impl.go:309-371 | the walk through the tree finds exactly what a direct reading of the nested lists gives |
| `ConfigMeaning.PickSelects` | src/config/config_impl.go:316-340 | the rule that the reading picks is the one that the fields of the rules select: spelled like key and value, else the first wildcard in file order, else spelled like the key |
| `ConfigMeaning.SelectsOne` | src/config/config_impl.go:137-140 | among valid rules no entry selects two |
| `ConfigMeaning.ExactRuleIsPicked` | src/config/config_impl.go:131-134 | a rule with a value is found by its key and value |
| `ConfigMeaning.KeyRuleIsPicked` | src/config/config_impl.go:336-340 | a rule without a value is found by its key and any value that no sibling claims |
| `ConfigMeaning.WildcardRuleIsPicked` | src/config/config_impl.go:327-334 | a rule whose value is a stem and a star is found by every value with that stem that no sibling spells and no earlier wildcard covers |
| `ConfigMeaning.UnitsAreNamed` | src/config/config_impl.go:147-148 | a unit is named by its letters in any case |
| `ConfigMeaning.RuleReflects` | src/config/config_impl.go:162-171 | a loaded limit holds the quota, unit, name, replaces, shadow mode and detailed metric of its rule in the file |
| `ConfigMeaning.ReadFollowsChain` | src/config/config_impl.go:316-363 | a chain of selected rules decides the lookup: it finds the limit of the last rule, if that has one, under the joined spellings |
| `ConfigMeaning.ReadMatchesDepth` | src/config/config_impl.go:342-350 | a limit is found only at the end of such a chain, hence only at the depth of the request |
| `ConfigHeap.DescriptorKey` | src/config/config_impl.go:377-389 | the dotted spelling of a request's own limit |
| `ConfigHeap.OverrideSpelling` | src/config/config_impl.go:377-389 | the spelling of a request's own limit names only the values that are there, with dots in between |
| `ConfigHeap.OverrideIsPlain` | src/config/config_impl.go:292-306 | a request's own limit is what the request says, and never unlimited, in shadow mode, named, replacing or detailed |
| `ConfigHeap.DetailedSpelling` | src/config/config_impl.go:312-322 | a detailed stats key spells every key and value of the descriptor |
| `ConfigHeap.WalkMirrors` | src/config/config_impl.go:309-363 | lookups in the heap tree and in the loaded tree take the same way |
| `ConfigHeap.NextDescriptor` | src/config/config_impl.go:317-340 | one round of the lookup loop |
| `ConfigHeap.LoadedConfig.constructor` | src/config/config_impl.go:421-430 | a new configuration holds the loaded tree in objects of its own |
| `ConfigHeap.LoadedConfig.FindLimit` | src/config/config_impl.go:309-363 | the lookup loop finds what the walk finds and spells the detailed key |
| `ConfigHeap.LoadedConfig.LookUp` | src/config/config_impl.go:309-371 | what the tree gives a descriptor, as the shared object or as a copy, and under which stats key |
| `ConfigHeap.LoadedConfig.SameCell` | src/config/config_impl.go:342-350 | two descriptors get the same object exactly when they match the same rule |
| `ConfigHeap.LoadedConfig.GetLimit` | src/config/config_impl.go:279-371 | lookups are stable: settings never change, the result is that of the loaded tree whatever came before, and only the handle of a returned detailed limit is rewritten |
| `StatsHandles.RewritesExactly` | src/config/config_impl.go:365-368 | a lookup rewrites the handle of an object returned earlier exactly when both match the same rule |
| `StatsHandles.OwnSpellingExactly` | src/config/config_impl.go:352-368 | a descriptor is counted under its own spelling exactly when it does not share its limit or the last descriptor that does is spelled alike |
| `StatsHandles.OwnSpellingWithoutRivals` | src/config/config_impl.go:352-368 | in particular when no later descriptor that matches its rule is spelled otherwise |
| `StatsHandles.LaterDescriptorRedirects` | src/config/config_impl.go:342-370 | rule files and two descriptors of one request, of which the second redirects the statistics of the first |
| `Service.CheckedExactly` | src/service/ratelimit.go:150-173 | what is left to check are the rules that are not unlimited and have no name or one that no matched rule lists as replaced |
| `Service.ReplacementIsOrderFree` | src/service/ratelimit.go:113-175 | permuting or repeating descriptors permutes which of them are checked |
| `Service.MatchLimit` | src/service/ratelimit.go:132-159 | one round of the matching loop: the matched limit under its own stats key, and which shared handle is rewritten |
| `Service.MatchLimits` | src/service/ratelimit.go:121-160 | all matches, the union of the names they replace, and the stats key that each is left with |
| `Service.ConstructLimitsToCheck` | src/service/ratelimit.go:113-175 | a descriptor is checked exactly when its rule is not unlimited and its name is empty or listed as replaced by no matched rule; with the settings of its rule, and the stats key it is counted under |
| `Service.ChosenIsUnique` | src/service/ratelimit.go:195-222 | the rule for the described descriptor leaves no choice |
| `Service.Respond` | src/service/ratelimit.go:191-267 | overall code, statuses, global shadow mode, and named headers for the last rejecting or else the first least remaining descriptor |
| `Service.HeadersSay` | src/service/ratelimit.go:243-267 | which header name carries which number: the limit, what remains, and the seconds until the reset |
| `Service.LimiterStatuses` | src/limiter/base_limiter.go:200-217 | limiter statuses that are over the limit carry it; which ones the headers can describe |
| `Service.RejectionMeaning` | src/service/ratelimit.go:208-222 | some status rejects exactly when a checked descriptor outside shadow mode is known or counted over its limit |
| `RequestMeaning.RulesAreMeanings` | src/config/config_impl.go:279-371 | the rules matched in the loaded tree are those read off the files, and have a unit exactly when limited |
| `RequestMeaning.LookupsExactly` | src/service/ratelimit.go:113-175 | which descriptors are checked, under which key and against what, in terms of the rules read off the files |
| `RequestMeaning.OverrideIsChecked` | src/config/config_impl.go:292-306 | a limit that a request to a known domain brings along is always checked, and never in shadow mode |
| `RequestMeaning.FileRuleIsMeant` | src/config/config_impl.go:124-191 | a chain of selected rules of the files gives the limit of the last one, field by field, under their joined spellings after the domain |
| `RequestMeaning.FileRuleIsChecked` | src/service/ratelimit.go:113-175 | a checked descriptor is held to the number, unit, name and shadow mode written in the rule that its entries lead to |
| `RequestMeaning.FileRuleStatsKey` | src/config/config_impl.go:342-370 | and counted under the joined spellings of the rules, or under its own spelling where the rule is detailed and no later descriptor redirects it |
| `RequestMeaning.GivenWithoutStop` | src/redis/fixed_cache_impl.go:148-180 | without the stop mode a key receives the hits once for each lookup on it, and nothing when known over |
| `RequestMeaning.ChargeIsAmount` | src/redis/fixed_cache_impl.go:67-180 | the limiter charges each lookup what the request means, in every mode |
| `RequestMeaning.AddedIsGiven` | src/redis/fixed_cache_impl.go:148-180 | a key receives what its lookups are given, in request order |
| `RequestMeaning.VerdictIsMeant` | src/limiter/base_limiter.go:83-143 | each status, code, quota, remaining count and reset, in terms of counters and rules |
| `RequestMeaning.StatusSays` | src/limiter/base_limiter.go:98-137 | what a status tells in numbers: quota, what remains, code, and the seconds until the window ends |
| `RequestMeaning.DeltaCountsHits` | src/limiter/base_limiter.go:159-198 | the statistics of a charged lookup count its hits one by one |
| `RequestMeaning.KnownAdds` | src/limiter/base_limiter.go:92-97 | what a lookup that the local cache rejects adds to each statistic |
| `RequestMeaning.StatsAreTallied` | src/limiter/base_limiter.go:92-140 | the statistics of a call, under the stats keys of its descriptors |
| `RequestMeaning.StatusesDecide` | src/service/ratelimit.go:208-222 | the statuses reject exactly when some checked descriptor outside shadow mode is over its limit |
| `RequestMeaning.ChoiceIgnoresUnlimited` | src/service/ratelimit.go:199-222 | what unlimited descriptors report does not change which descriptor the headers describe |
| `RequestMeaning.SomeIsEligible` | src/service/ratelimit.go:199-206 | in every mode, where some descriptor is checked the headers can describe one |
| `RequestMeaning.LargestLimitIsPassedOver` | src/service/ratelimit.go:201-206 | a stop-mode request with a limited status that the headers pass over |
| `RequestMeaning.HeadersExactly` | src/service/ratelimit.go:224-231 | an answer has headers exactly when they are enabled and some descriptor is checked |
| `ShouldRateLimit.RateLimitService.Match` | src/service/ratelimit.go:185-188 | the limits of a request are those that the rule files mean, with their stats keys |
| `ShouldRateLimit.RateLimitService.Prepare` | src/service/ratelimit.go:185-188 | the lookups of a request and its total hits, in terms of the rule files |
| `ShouldRateLimit.RateLimitService.Limit` | src/redis/fixed_cache_impl.go:44-214 | statuses, counters, local cache and statistics of a call, in every mode, in terms of keys and rules |
| `ShouldRateLimit.RateLimitService.Conclude` | src/service/ratelimit.go:191-241 | the response, in terms of keys and rules |
| `ShouldRateLimit.RateLimitService.Worker` | src/service/ratelimit.go:179-241 | a whole request from rule files to response, in every mode: refusals, overall code, statuses, headers, counters, local cache and statistics |
| `RequestMeaning.ServedCounter` | src/redis/fixed_cache_impl.go:51-52 | without the stop mode a served request adds the hits it asks for, at least one, to a counter once for each checked descriptor with that key |
| `RequestMeaning.ServedTotal` | src/limiter/base_limiter.go:56-59 | in every mode it adds them to the total of a stats key once for each checked descriptor counted under it |
| `Health.AreAllComponentsHealthy` | src/server/health.go:33-42 | true exactly when every component is healthy |
| `Health.HealthChecker.constructor` | src/server/health.go:46-79 | flag and gRPC status agree with the initial components |
| `Health.HealthChecker.Fail` | src/server/health.go:90-104 | marks a known component and keeps flag and gRPC status equal to all-healthy |
| `Health.HealthChecker.MarkOk` | src/server/health.go:106-126 | the same, although nothing is written when some component is still unhealthy |
| `ShouldRateLimit.RateLimitService.SetConfig` | src/service/ratelimit.go:55-99 | a failed load changes only the error counter; a successful one takes over configuration, shadow mode and header names and reports its health |
| `Health.ReloadsOverRuns` | src/service/ratelimit.go:55-99 | in every run the service holds configuration and shadow mode of the last successful load and the header names of the last one that enabled headers; the config component tells whether there is a domain |
| `Health.NewServiceIsHealthy` | src/server/health.go:50-68 | a new service is healthy exactly when it need not wait for a configuration |
| `Health.ReportsAreKept` | src/server/health.go:90-126 | a report on a known component is what it then says; the others keep what they said, an unknown one is ignored |
| `Health.HeadersStayEnabled` | src/service/ratelimit.go:88-96 | headers once enabled stay enabled |
| `Health.TerminatedForEver` | src/server/health.go:70-76 | after SIGTERM the service is never healthy again unless that component is marked healthy |

## Left out

- Backend errors: the Redis panic and recovery path and memcached reads that fail and count as zero.
- Units beyond the four of `UnitToDivider`, for which the source panics when a key is built.
- 32-bit floating point in the near threshold; it is a number of at most the limit.
- Unicode case mapping of unit names; `Config.LoadDescriptors` maps ASCII letters only.
- The configuration tree is built as a value and then put on the heap; the source inserts into objects while it loads, which nobody can see because a failed load is dropped whole.
- Time to live of local cache entries and of memcached items; local cache entries may be evicted at any step, memcached items are not evicted.
- A limiter without a per-second client; the model holds one that is never used.
- RedisQuota.QuotaSafety: is about instances without the stop mode; in the stop mode an uncharged key is judged within its limit, and `RedisQuota.AdmittedRequestsKeepQuota` speaks of whole requests instead.
- Lookups of other requests between the lookups and the statistics of one request; they too redirect the handle of a shared detailed limit.
- YAML parsing and key validation, the copy from protocol buffers, and the file and xDS providers; the model begins with parsed rule lists and delivered updates.
- Redis and memcached connections, pools, TLS, sentinels, clusters, and server list refreshes.
- Health reports that Redis pools make; they appear as arbitrary reports on a component.
- Settings, metrics sinks, tracing, logging, HTTP handlers and command-line clients.
