# ArenaX backend engines, modelled and proved in Dafny

The ArenaX backend keeps a handful of small stateful engines in Redis, in atomics or in
memory: a response cache, two circuit breakers, session and refresh-token stores, two rate
limiters, a role engine with an audit log, a validation-error flattener and a transaction
retry loop. Each of them claims that a cheap counter, index or expiry time agrees with a
simple history. This project models those engines and proves the claims over whole runs.

Check everything with `dafny verify dfyconfig.toml`.

## How the model is built

* Each engine that updates state in place is a `class` whose methods take the steps of the
  source. Every method is proved equal to a function on values (`View()`, `Stored()`), and
  the run theorems are lemmas about those functions.
* A run is a sequence of timed events. Replaying it gives the implementation's state;
  separate functions ask questions of the whole history (how long is the trailing failure
  run, which timestamps lie in the window, which tags were invalidated), and the main lemmas
  say that the two agree in every reachable state.
* Where a documented claim does not hold for all inputs, there is a run that breaks it and a
  lemma of the form "it holds in every run if and only if the configuration or the run
  satisfies this condition".

Modules, from the shared ones up:

| module | contents |
|---|---|
| `Expiring`, `Words`, `Text` | Redis keys, sets and counters with a lifetime; machine words; printed text |
| `ResponseCache`, `CacheCoherence`, `RefreshLock`, `CacheKeys` | the cache, its runs against the origin, its refresh lock, its key names |
| `CircuitBreaker`, `BreakerHistory`, `HalfOpenProbes`, `ProbeCapacity`, `ProbeTrace` | the external breaker, its history specification, its probe counter under interleaving, how many probes that lets run, and the link to the history |
| `DbBreaker` | the database breaker and its outcome history |
| `TokenStore`, `SessionRevocation`, `RefreshRecords` | sessions and refresh records, and two run theories over them |
| `RateLimit`, `SlidingWindow`, `EndpointLimits` | buckets and the sorted-set limiter; the limiter against a plain log; from request lines to limits |
| `SecurityGuard`, `BackoffLevels`, `BlockList`, `FixedWindow`, `IntervalPeak`, `GuardVerdict` | the security middleware; violation levels; blocks and bursts; the aligned window counter; the most an interval forwards; every answer from the history |
| `FieldErrors`, `FieldErrorSort`, `FieldErrorOrder`, `FieldIdentifiers`, `FieldPaths` | the error walk; the stable sort; exactly when the result is order-independent; identifiers; paths as names of places |
| `Authorization`, `DefaultRoles` | role closure, access decisions, audit log; the shipped roles |
| `Transactions`, `TransactionOrder` | the retry loop; the order of its effects |

Assumptions, stated as hypotheses where they matter: one millisecond clock that does not run
backwards and is at least 1 where 0 means "unset", while timestamps and token claims are
truncated to whole seconds where the source truncates them; a key with a lifetime exists
until its expiry instant, to the millisecond; each method is one atomic step with its store answering, except in
`HalfOpenProbes`, which interleaves single atomic accesses, and in `CacheCoherence`, where
computing a value and storing it are two moments; random identifiers and token hashes never
repeat. Float arithmetic in the breaker's backoff is over `real`.

## Where the code and its documentation differ

The model follows the code.

* `/api/auth/refresh` resolves to the strict bucket with limit 5
  (`backend/src/middleware/rate_limit.rs:108-112`), not 10 as its table says. Tournament
  paths that contain `/complete`, `/dispute` or `/finalize` fall to the report bucket before
  the tournament rule is reached (`RateLimit.TournamentTier`).
* The limiter's limit is on distinct milliseconds, not on requests
  (`SlidingWindow.LimitsRequestsIff`), and the security middleware's "sliding window" is an
  aligned one; with the default settings an interval of its length can forward twice the
  limit (`IntervalPeak.BoundsEveryIntervalIff`, `IntervalPeak.TwiceTheLimitIff`).
* "Exactly one refresh runs per stale entry" fails for every shipped policy: the stored
  timestamp is truncated, so the lock can run out in the last second of the entry's life
  (`RefreshLock.OneRefreshIffNoRoom`, `RefreshLock.RoomForSecondIff`). A failed refresh keeps
  its lock, so it is not retried on the next read.
* The half-open probe limit is documented as the maximum of concurrent probes, but a call
  admitted while closed that ends while half-open takes a probe's place
  (`ProbeCapacity.LateEndAdmitsSecond`) or wraps the counter
  (`BreakerHistory.LateSuccessWedgesBreaker`); `ProbeCapacity.CapacityKeptIffAttributed` has
  the exact condition.
* WebSocket tokens are not in the user's session index, so revoking a user does not reach
  them (`SessionRevocation.SocketTokenSurvivesRevocation`).

## Model

| member | source | states |
|---|---|---|
| `ResponseCache.Cache.Get` | backend/src/middleware/cache.rs:195-255 | a lookup is a miss, a fresh hit or a stale hit as the entry's life and age say, and is counted exactly once |
| `ResponseCache.Cache.Set` | backend/src/middleware/cache.rs:258-311 | the entry is stored with the policy's lifetime and every tag set gains the key and a lifetime four times as long |
| `ResponseCache.Cache.InvalidateTag` | backend/src/middleware/cache.rs:314-337 | exactly the members of a live tag set and the set itself are deleted |
| `ResponseCache.Cache.InvalidateTags` | backend/src/middleware/cache.rs:340-344 | the tags are dropped one after the other |
| `ResponseCache.Cache.GetOrCompute` | backend/src/middleware/cache.rs:353-375 | a hit is served and a stale one asks for a refresh; a miss stores what the origin answers; an origin error changes nothing |
| `ResponseCache.Cache.TryLockRefresh` | backend/src/middleware/cache.rs:408-424 | the lock is taken exactly when no unexpired lock is held |
| `ResponseCache.TagAllEffect` | backend/src/middleware/cache.rs:298-310 | after the tag loop each named tag holds its live members plus the key, with the new expiry, and no other tag changed, duplicates included |
| `ResponseCache.DropTagsEffect` | backend/src/middleware/cache.rs:314-344 | invalidation removes every entry a dropped live set lists, removes nothing else and alters nothing |
| `CacheCoherence.CoherentIffCompatible` | backend/src/middleware/cache.rs:286-310 | in every disciplined run every hit, fresh or stale, is the origin's current value, if and only if keys sharing a tag have entry lifetimes within a factor of four |
| `CacheCoherence.RunIsGuarded` | backend/src/middleware/cache.rs:258-337 | in every reachable state a live entry is current and sits in each of its tag sets, none of which expires before it |
| `CacheCoherence.StrandedEntry` | backend/src/middleware/cache.rs:304-309 | for any two keys outside the factor of four a run exists in which a write misses a live entry |
| `CacheCoherence.CurrentIffDisciplined` | backend/src/middleware/cache.rs:353-405 | with compatible lifetimes and invalidating writes, a run serves only current values, at every moment, if and only if no write overtakes a value between its computation and its fill |
| `CacheCoherence.ShippedPolicies` | backend/src/middleware/cache.rs:72-85 | which of the shipped policies may share a tag |
| `RefreshLock.AcquiresIffHoldsRanOut` | backend/src/middleware/cache.rs:408-424 | in every run a lock attempt succeeds exactly when every earlier acquisition of that key has run out |
| `RefreshLock.StaleHitIsStaleRead` | backend/src/middleware/cache.rs:238-254 | in a reachable store a stale hit is exactly a read of the latest fill within its life, to the millisecond, whose age in truncated seconds has reached the fresh time |
| `RefreshLock.FutureStampIsNew` | backend/src/middleware/cache.rs:238-240 | an entry stamped in the future counts as new |
| `RefreshLock.HoldOutlivesVersion` | backend/src/middleware/cache.rs:412-419 | a lock taken for a stale version outlives all but the last second of that version, for sub-second policies too |
| `RefreshLock.SecondRefreshComesLate` | backend/src/middleware/cache.rs:377-405 | of the refreshes spawned by stale reads of a version, however delayed, a second one can start only in the version's last second or after it, whether or not the first one succeeded |
| `RefreshLock.OneRefreshIffNoRoom` | backend/src/middleware/cache.rs:346-393 | in every run each version starts at most one refresh, if and only if the policy leaves no room: fresh time zero, or least stale age plus hold above the lifetime |
| `RefreshLock.RoomGivesSecond` | backend/src/middleware/cache.rs:238-240 | for every other policy, a run in which two stale reads of one version both start a refresh |
| `RefreshLock.RoomForSecondIff` | backend/src/middleware/cache.rs:72-85 | the same condition in terms of the two durations; all shipped policies have room |
| `RefreshLock.LeftoverLockRunsOut` | backend/src/middleware/cache.rs:412-419 | a lock left by an earlier version runs out no later than the next version, and from then on the first attempt succeeds |
| `RefreshLock.LeftoverLeavesTimeIff` | backend/src/middleware/cache.rs:287-419 | a stale read of that version comes after every leftover lock, if and only if its lifetime exceeds the hold and it is stale in its last millisecond |
| `RefreshLock.DelayedAttemptRefreshesTwice` | backend/src/middleware/cache.rs:390-393 | for every policy and every stale read of a stored version, a spawned task delayed by the hold time refreshes a second time |
| `CacheKeys.KeyInjective` | backend/src/middleware/cache.rs:435-445 | distinct requests have distinct cache keys, for all strings and integers |
| `CacheKeys.NamesNeverCollide` | backend/src/middleware/cache.rs:182-188 | names of entries, tag sets and refresh locks never coincide across families and are injective within each |
| `CircuitBreaker.Breaker.State` | backend/src/middleware/circuit_breaker.rs:261-280 | the state derived from override, open time, cooldown and clock |
| `CircuitBreaker.Breaker.RetryAfter` | backend/src/middleware/circuit_breaker.rs:283-299 | the advertised wait |
| `CircuitBreaker.Breaker.AllowRequest` | backend/src/middleware/circuit_breaker.rs:306-330 | the admission decision and the counted probe |
| `CircuitBreaker.Breaker.RecordSuccess` | backend/src/middleware/circuit_breaker.rs:333-351 | the new counters after a success in each state, with the wrapping decrement |
| `CircuitBreaker.Breaker.RecordFailure` | backend/src/middleware/circuit_breaker.rs:354-383 | the new counters after a failure in each state |
| `CircuitBreaker.Breaker.TripCircuit` | backend/src/middleware/circuit_breaker.rs:386-407 | a trip counts itself, sets the cooldown and open time, and clears the failure and probe counters |
| `CircuitBreaker.Breaker.CloseCircuit` | backend/src/middleware/circuit_breaker.rs:410-425 | a close restores the initial counters and leaves the override alone |
| `CircuitBreaker.Breaker.ManualTrip` | backend/src/middleware/circuit_breaker.rs:428-431 | a manual trip sets the override and trips |
| `CircuitBreaker.Breaker.ManualReset` | backend/src/middleware/circuit_breaker.rs:434-437 | a manual reset restores the initial state |
| `CircuitBreaker.Breaker.Call` | backend/src/middleware/circuit_breaker.rs:440-475 | a refused call runs nothing, changes nothing and reports the wait; an admitted one records its outcome, timeouts as failures |
| `CircuitBreaker.CooldownLadder` | backend/src/middleware/circuit_breaker.rs:386-396 | for a multiplier of at least 1 the cooldown never shrinks from trip to trip, never exceeds the cap and is constant from the eleventh trip on |
| `CircuitBreaker.CooldownIsDocumented` | backend/src/middleware/circuit_breaker.rs:386-396 | for a whole multiplier the k-th trip waits the initial backoff times the multiplier to the power min(k - 1, 10), up to the cap |
| `CircuitBreaker.CooldownFromTripToTrip` | backend/src/middleware/circuit_breaker.rs:386-396 | for every multiplier the first trip waits the initial backoff, each further trip the multiple of the one before, and the cooldown is that wait in whole milliseconds or the cap |
| `CircuitBreaker.DefaultCooldowns` | backend/src/middleware/circuit_breaker.rs:148-161 | the default cooldowns are 5, 10, 20, 40 and then 60 seconds |
| `CircuitBreaker.RetryAfterIsLeast` | backend/src/middleware/circuit_breaker.rs:283-299 | a whole number of seconds reaches half-open exactly when there is no override and it is at least the advertised wait |
| `CircuitBreaker.WaitsIffCoolingDown` | backend/src/middleware/circuit_breaker.rs:283-299 | a wait is advertised exactly while a cooldown runs |
| `CircuitBreaker.CloseRespectsOverride` | backend/src/middleware/circuit_breaker.rs:410-425 | closing leaves a breaker like a new one, except that it does not lift a manual override |
| `BreakerHistory.ReplayMatches` | backend/src/middleware/circuit_breaker.rs:333-437 | after every history each counter is the answer to a question about the history: failure run, opening event, trip count with its cooldown, half-open successes since the trip, override; and the runs stay below their thresholds |
| `BreakerHistory.StateIsSpecified` | backend/src/middleware/circuit_breaker.rs:261-280 | the derived state is the one the history specification gives, at every moment |
| `BreakerHistory.ClosedCountsSuccesses` | backend/src/middleware/circuit_breaker.rs:346-348 | the success counter of a closed breaker is the run of successes since it closed |
| `BreakerHistory.LeavesClosedIff` | backend/src/middleware/circuit_breaker.rs:369-380 | Closed is left exactly on a manual trip or on the failure that completes the threshold run |
| `BreakerHistory.ReturnsToClosedIff` | backend/src/middleware/circuit_breaker.rs:338-345 | Closed is regained exactly on a manual reset or on the half-open success that completes the success threshold since the last trip |
| `BreakerHistory.AdmissionFollowsHistory` | backend/src/middleware/circuit_breaker.rs:306-330 | everything is admitted while closed and nothing during a cooldown or an override |
| `BreakerHistory.LateSuccessWedgesBreaker` | backend/src/middleware/circuit_breaker.rs:337-345 | for every failure threshold, a call admitted while closed that succeeds after the cooldown wraps the probe counter, and the breaker then admits nobody, if and only if the success threshold is at least 2 |
| `HalfOpenProbes.BoundedIffPaired` | backend/src/middleware/circuit_breaker.rs:313-328 | in every interleaving of loads, compare-exchanges, decrements and resets the probe counter stays within its limit if and only if decrements never outnumber the probes counted since the last reset |
| `HalfOpenProbes.FirstUnpaired` | backend/src/middleware/circuit_breaker.rs:339 | the first decrement without an outstanding probe leaves the counter at the largest 32-bit value |
| `HalfOpenProbes.CountsProbesIffOwned` | backend/src/middleware/circuit_breaker.rs:306-425 | in every interleaving the counter is, at every moment, the number of calls counted since the last reset and still in flight, if and only if every decrement is made by one of them and each of them ends by making one; and then it is within the limit |
| `ProbeCapacity.CapacityKeptIffAttributed` | backend/src/middleware/circuit_breaker.rs:141-143 | the most probes that further calls can bring into flight together is the documented limit, at every moment, if and only if every decrement is made by a probe in flight, every probe ends by making one, and no probe is in flight at a reset |
| `ProbeCapacity.LateEndAdmitsSecond` | backend/src/middleware/circuit_breaker.rs:333-361 | with a limit of one, a call admitted while closed that ends during a probe lets a second probe in, while the counter stays in range |
| `ProbeTrace.InFlightIsSharedCounter` | backend/src/middleware/circuit_breaker.rs:306-425 | the breaker's own counter, after any history, is the shared counter after the accesses that history makes, so the interleaving theorem applies to it |
| `ProbeTrace.CounterIsProbesIff` | backend/src/middleware/circuit_breaker.rs:306-361 | throughout a history the counter is the number of probes counted since the last trip or close and still in flight, if and only if every call that ends while half-open is one of them; then it is within the limit and a half-open breaker admits exactly while it is below |
| `DbBreaker.Breaker.constructor` | backend/src/db.rs:73-82 | a configured threshold of zero becomes one, and the breaker starts closed |
| `DbBreaker.Breaker.State` | backend/src/db.rs:89-99 | the state derived from the open time and the clock |
| `DbBreaker.Breaker.RecordSuccess` | backend/src/db.rs:102-106 | a success clears all three cells |
| `DbBreaker.Breaker.RecordFailure` | backend/src/db.rs:109-125 | a failure counts, frees the trial and reopens at the threshold or from half-open |
| `DbBreaker.Breaker.AllowsRequest` | backend/src/db.rs:131-141 | the admission decision and the trial flag |
| `DbBreaker.Breaker.Acquire` | backend/src/db.rs:170-197 | a refusal touches nothing; otherwise the pool's answer decides the result and the recorded outcome |
| `DbBreaker.CellsFollowHistory` | backend/src/db.rs:89-125 | the breaker is not closed exactly when the trailing failure run has reached the threshold, counter wrap included, and its open time is that of the latest failure until the counter wraps |
| `DbBreaker.StateFollowsHistory` | backend/src/db.rs:84-99 | the state at any moment is a function of the outcome history |
| `DbBreaker.HalfOpenTestIsRedundant` | backend/src/db.rs:113-116 | until the counter wraps, the threshold test already covers every half-open failure |
| `DbBreaker.TrialIff` | backend/src/db.rs:127-141 | a half-open attempt is admitted exactly when no other trial has been admitted since the last outcome |
| `DbBreaker.AdmissionFollowsHistory` | backend/src/db.rs:127-141 | until the counter wraps, an attempt goes through exactly when the failure run is below the threshold, or the cooldown since the latest failure is over and no trial is pending |
| `DbBreaker.TrialsPaidByFailures` | backend/src/db.rs:131-141 | over a whole run there are at most as many trials as recorded failures |
| `TokenStore.JwtService.GenerateAccessToken` | backend/src/auth/jwt_service.rs:245-276 | the token's expiry claim, the stored session and the extended user index |
| `TokenStore.JwtService.GenerateSocketToken` | backend/src/auth/jwt_service.rs:833-878 | a 60-second token and a 65-second session that is not indexed |
| `TokenStore.JwtService.ValidateToken` | backend/src/auth/jwt_service.rs:349-383 | the verdict in the order blacklist, expiry with leeway, session; acceptance renews the session |
| `TokenStore.JwtService.RevokeOne` | backend/src/auth/jwt_service.rs:631-639 | one session is deleted |
| `TokenStore.JwtService.RevokeUserSessions` | backend/src/auth/jwt_service.rs:607-628 | all indexed sessions, all indexed refresh records and both index sets are deleted, and the larger count is returned |
| `TokenStore.JwtService.GenerateRefreshToken` | backend/src/auth/jwt_service.rs:304-319 | the record and the extended index set |
| `TokenStore.JwtService.InvalidateRefreshToken` | backend/src/auth/jwt_service.rs:701-715 | the record and its index member are removed |
| `TokenStore.JwtService.RevokeAllRefreshTokens` | backend/src/auth/jwt_service.rs:722-739 | all indexed records and the set are deleted and counted |
| `TokenStore.JwtService.GetActiveRefreshTokens` | backend/src/auth/jwt_service.rs:745-782 | each indexed member with a live record is returned once, and the others are pruned |
| `SessionRevocation.CompleteIffIndexOutlivesToken` | backend/src/auth/jwt_service.rs:508-628 | in every run no access token issued before its user was revoked is ever accepted again, if and only if access lifetime plus leeway is below the refresh lifetime |
| `SessionRevocation.RevokedIsRejected` | backend/src/auth/jwt_service.rs:349-409 | the forward half, for every run, token and later time |
| `SessionRevocation.IndexExpiresFirst` | backend/src/auth/jwt_service.rs:536-544 | for every other configuration a busy session outlives its index and survives revocation |
| `SessionRevocation.LiveSessionsAreIndexed` | backend/src/auth/jwt_service.rs:587-604 | every live access session is in its user's live index, at any time after any run, if and only if twice the access lifetime plus leeway is below the refresh lifetime |
| `SessionRevocation.RenewedPastIndex` | backend/src/auth/jwt_service.rs:558-584 | for every other configuration a session renewed at its token's last use outlives its index |
| `SessionRevocation.GoneForGood` | backend/src/auth/jwt_service.rs:558-584 | a session that is gone never comes back, whatever is presented |
| `SessionRevocation.AcceptedIff` | backend/src/auth/jwt_service.rs:349-383 | in every run that does not revoke it, a token is accepted exactly when it is not blacklisted, still decodes and was used within the access lifetime; when it is expired or blacklisted instead |
| `SessionRevocation.SocketTokenSurvivesRevocation` | backend/src/auth/jwt_service.rs:859-878 | a WebSocket token is still accepted after its user was revoked, in every configuration |
| `RefreshRecords.LiveRecordsIndexed` | backend/src/auth/jwt_service.rs:279-324 | in every run a live record is in its user's set, which expires no earlier |
| `RefreshRecords.ListingIsExact` | backend/src/auth/jwt_service.rs:745-782 | listing returns exactly the user's live records |
| `RefreshRecords.RevokeAllLeavesNone` | backend/src/auth/jwt_service.rs:722-739 | after revoking all, the user has no live record |
| `RefreshRecords.RetiredTokenStaysDead` | backend/src/auth/jwt_service.rs:411-437 | an invalidated or revoked token's record is never found again in any run |
| `RefreshRecords.RecordFoundIff` | backend/src/auth/jwt_service.rs:304-319 | in every run a generated token's record is found exactly until the refresh lifetime is over or the token is rotated away or revoked |
| `RateLimit.SharedKeySharesBucket` | backend/src/middleware/rate_limit.rs:186-194 | two requests share a Redis key exactly when they share bucket and identity, so a sorted set has one limit and one window |
| `RateLimit.TournamentTier` | backend/src/middleware/rate_limit.rs:128-140 | tournament paths get the tournament bucket exactly when they are not report paths |
| `EndpointLimits.ResolvesIffBelongs` | backend/src/middleware/rate_limit.rs:99-161 | every tier has its own condition on verb and path, and a request gets a tier exactly when it meets it |
| `EndpointLimits.EndpointIsLimited` | backend/src/middleware/rate_limit.rs:99-161 | in every history an identity is admitted in at most as many milliseconds of any minute as its endpoint's limit: 5 for login, register and refresh, 30 for other authentication, and so on, with the configured default elsewhere |
| `EndpointLimits.RulesExist` | backend/src/middleware/rate_limit.rs:186-194 | one limit and one window per key can be chosen for all buckets at once, since a key names one bucket |
| `EndpointLimits.CountedTogetherIff` | backend/src/middleware/rate_limit.rs:186-194 | two requests count against each other exactly when they share tier and identity |
| `RateLimit.Limiter.SlidingWindowCheck` | backend/src/middleware/rate_limit.rs:186-230 | the sorted set after add, evict and expire, its size and the reset time |
| `RateLimit.Limiter.Decide` | backend/src/middleware/rate_limit.rs:344-384 | admission, remaining budget and a Retry-After equal to the window |
| `SlidingWindow.WindowIsLog` | backend/src/middleware/rate_limit.rs:197-218 | in every run the sorted set is the log of distinct timestamps in the window ending at the key's latest attempt |
| `SlidingWindow.CountIsDistinctAttempts` | backend/src/middleware/rate_limit.rs:200-223 | the count is the number of distinct milliseconds with an attempt in the window ending now; expiry never changes it |
| `SlidingWindow.AnyWindowBounded` | backend/src/middleware/rate_limit.rs:344-384 | any interval of the window's length holds at most `limit` distinct milliseconds with an admitted request |
| `SlidingWindow.LimitsRequestsIff` | backend/src/middleware/rate_limit.rs:90-93 | with at most `n` attempts on a key per millisecond, every interval holds at most `limit` requests in every history, if and only if `n` is at most 1, or the limit is 0, or `n` times the window in milliseconds is within the limit |
| `SlidingWindow.SameMillisecondCollapses` | backend/src/middleware/rate_limit.rs:202-206 | any number of requests in one millisecond is admitted |
| `SlidingWindow.RetryAfterSuffices` | backend/src/middleware/rate_limit.rs:361-376 | after a silent wait of Retry-After the next attempt is admitted exactly when the limit is positive |
| `SecurityGuard.Middleware.Call` | backend/src/middleware/security.rs:157-299 | the answer and the new keys for every path: whitelist, block, burst, window, escalation, body size, forward |
| `SecurityGuard.Middleware.IncrementBackoff` | backend/src/middleware/security.rs:355-370 | the violation level and its renewed lifetime |
| `SecurityGuard.Middleware.DetectBurst` | backend/src/middleware/security.rs:196-207 | the one-second counter |
| `SecurityGuard.Middleware.CheckWindow` | backend/src/middleware/security.rs:227-238 | the aligned window counter |
| `BackoffLevels.NeverExceedsIff` | backend/src/middleware/security.rs:207-259 | for every configuration, no run reports a level above the block threshold, if and only if the threshold is positive and the counter's lifetime is at most the block's |
| `BackoffLevels.RunKeepsShield` | backend/src/middleware/security.rs:162-259 | in every run a live level is within the threshold and one at the threshold is shielded by a block that lasts as long |
| `BackoffLevels.DelayAsDocumentedIff` | backend/src/middleware/security.rs:372-381 | the delay is `min(base * 2^(level-1), max)` for every configuration exactly up to level 64 |
| `BackoffLevels.AdvertisedDelay` | backend/src/middleware/security.rs:216-278 | in every run with threshold at most 64 every advertised delay is the documented one for its level |
| `BackoffLevels.NoViolationNoDelay` | backend/src/middleware/security.rs:375-378 | level zero waits nothing |
| `BlockList.AnsweredBlockedIff` | backend/src/middleware/security.rs:162-194 | in every run a request is refused as blocked exactly while a block set by an earlier burst or escalation answer to its address is in force |
| `BlockList.BlockedIffInForce` | backend/src/middleware/security.rs:207-251 | the block key exists exactly while such a block is in force; nothing lifts it early |
| `BlockList.BurstBound` | backend/src/middleware/security.rs:196-225 | the one-second counter is the number of arrivals in that second, and at most `burstThreshold` of them pass |
| `GuardVerdict.AnswerFollowsHistory` | backend/src/middleware/security.rs:157-299 | in every run each answer follows from the history before it: whitelist, block in force, arrivals in this second and window, streak of violations, body size |
| `GuardVerdict.LevelIsStreak` | backend/src/middleware/security.rs:355-370 | the violation level is the number of violations in a row, each within the backoff lifetime of the one before |
| `GuardVerdict.BlockedWait` | backend/src/middleware/security.rs:184-189 | a blocked request is told the time to the end of the block in force, to the nearest second and at least one |
| `FixedWindow.CounterIsArrivals` | backend/src/middleware/security.rs:227-238 | the counter of an aligned window is the number of arrivals in it, and its key never expires before the window ends |
| `FixedWindow.AtMostTwiceTheLimit` | backend/src/middleware/security.rs:227-279 | at most `limit` forwards per aligned window and at most twice that in any interval of its length |
| `IntervalPeak.PeakIsMost` | backend/src/middleware/security.rs:196-279 | the most forwards that any run has in any interval of the window's length, from burst detection and the aligned counter together, for every configuration |
| `IntervalPeak.TwiceTheLimitIff` | backend/src/middleware/security.rs:228 | twice the limit is that maximum if and only if half the clock seconds an interval touches are enough for burst detection to let the limit through |
| `IntervalPeak.BoundsEveryIntervalIff` | backend/src/middleware/security.rs:31-42 | every interval is within the limit, in every run, if and only if the limit is zero or burst detection alone enforces it: window seconds plus one times the burst threshold is at most the limit |
| `IntervalPeak.DefaultSettings` | backend/src/middleware/security.rs:54-69 | with the default settings levels stay within the threshold, and the most that an interval of 60 seconds forwards is 240 requests, not 120 |
| `FieldErrors.FlattenInto` | backend/src/api_error.rs:230-267 | the recursive walk with its shared output vector appends exactly the flattened tree |
| `FieldErrors.PushFailures` | backend/src/api_error.rs:243-256 | one entry per failure, in order, with the message or the fallback text |
| `FieldErrors.FallbackNamesRule` | backend/src/api_error.rs:245-255 | a given message is reported as it is, and the fallback text names the rule and only it |
| `FieldErrors.FlattenItemsInto` | backend/src/api_error.rs:260-264 | list items are walked in index order under `path[index]` |
| `FieldErrorSort.SortFields` | backend/src/api_error.rs:273-275 | the in-place sort orders lexicographically by field, then code, and keeps equal keys in order |
| `FieldErrorSort.SortedIsKeyOrder` | backend/src/api_error.rs:275 | sorted means lexicographic by field, then by code: a prefix first, otherwise the smaller character at the first difference |
| `FieldErrorSort.FromValidationErrors` | backend/src/api_error.rs:269-278 | the response is a stable sort of the walk, lexicographic by field and then by code |
| `FieldErrorSort.SortedGroupsDetermine` | backend/src/api_error.rs:275 | a stable sort has only one possible result |
| `FieldErrorOrder.SameTreeSameGroups` | backend/src/api_error.rs:230-267 | two walks of an unambiguous tree agree on the sequence of errors for each field and code, whatever the order at every node |
| `FieldErrorOrder.AmbiguousWalk` | backend/src/api_error.rs:230-267 | every ambiguous tree has another walk that yields a different sequence of errors for some field and code |
| `FieldErrorOrder.OrderIndependentIff` | backend/src/api_error.rs:269-278 | the response is the same for every hash-map order at every node, if and only if at every node the contributions of any two fields to a path and code can be swapped |
| `FieldIdentifiers.IdentifiersOrderIndependent` | backend/src/api_error.rs:269-278 | for field names that are identifiers the response never depends on the order |
| `FieldIdentifiers.SiblingsApart` | backend/src/api_error.rs:236-262 | no reported path lies below two different sibling fields |
| `FieldIdentifiers.SeparatorInNameBreaksOrder` | backend/src/api_error.rs:236-240 | a name with a separator next to the struct it collides with makes the response depend on the order, whenever the messages differ |
| `FieldPaths.WalkReportsLeaves` | backend/src/api_error.rs:224-267 | every leaf is reported exactly once, under the printed form of its position |
| `FieldPaths.PrintInjective` | backend/src/api_error.rs:8-10 | two positions print alike only if they are the same position |
| `Authorization.ExpandRoles` | backend/src/middleware/authorization.rs:210-227 | terminates on every hierarchy and returns the least set containing the roles and closed under inheritance |
| `Authorization.ClosureIsReachable` | backend/src/middleware/authorization.rs:209-227 | that set is exactly what inheritance chains reach |
| `Authorization.ExpansionLaws` | backend/src/middleware/authorization.rs:210-227 | expansion is idempotent, monotone, unique and distributes over union |
| `Authorization.UnspecificRequest` | backend/src/middleware/authorization.rs:54-67 | a request without an id is met by holding the permission for some id, and for all ids only by an untied permission |
| `Authorization.WideningKeepsMatches` | backend/src/middleware/authorization.rs:49-67 | opening parts of a held permission with wildcards never loses a request, and the fully open one meets all |
| `Authorization.MatchesOnlyItsOwn` | backend/src/middleware/authorization.rs:54-67 | a held permission meets one action, one resource and one id only, its own, unless that part is a wildcard |
| `Authorization.MatchesIffWidens` | backend/src/middleware/authorization.rs:49-67 | a request for one id is met exactly by the permissions that widen it |
| `Authorization.Engine.CheckAccess` | backend/src/middleware/authorization.rs:115-164 | grants exactly on an explicit permission or one templated for a reachable role, and records that decision |
| `Authorization.GrantsMonotone` | backend/src/middleware/authorization.rs:115-136 | more roles or permissions never remove access |
| `Authorization.InheritsGrants` | backend/src/middleware/authorization.rs:201-207 | a role is granted whatever a role it reaches is granted |
| `Authorization.GrantsThroughClosure` | backend/src/middleware/authorization.rs:115-136 | access is what the templates of the expanded roles offer |
| `DefaultRoles.DefaultAccess` | backend/src/middleware/authorization.rs:177-342 | with the shipped hierarchy and templates each role is granted exactly the actions and resources of one table, and unknown roles nothing |
| `Authorization.Engine.LogDecision` | backend/src/middleware/authorization.rs:451-456 | the log stays the most recent decisions up to its capacity |
| `Authorization.LogIsMostRecent` | backend/src/middleware/authorization.rs:407-457 | after any run the log is the last `capacity` decisions in order |
| `Transactions.ExecuteTransaction` | backend/src/transaction.rs:44-98 | the loop settles on the first attempt that is not a retryable serialization failure, or on the last allowed one, with exactly the effects of the retries before it |
| `Transactions.RetryableIff` | backend/src/transaction.rs:67-69 | an attempt may be retried exactly when its transaction began, its body failed and the error text carries 40001 or the words serialization failure |
| `Transactions.SettlesOnFirstError` | backend/src/transaction.rs:55-98 | an attempt that is not retried reports the error of its first failing step, and the body's value when none fails |
| `TransactionOrder.EffectsInOrder` | backend/src/transaction.rs:55-98 | begin, body, close, sleep: the effects of every run come in this order and leave nothing open |
| `Transactions.TransactionAccounts` | backend/src/transaction.rs:55-115 | at most `maxRetries + 1` bodies, at most one commit, Ok exactly when it succeeded, each begun transaction closed once, also when its isolation level cannot be set, and the fallback error never returned |
| `Transactions.RetriesTotal` | backend/src/transaction.rs:67-82 | what `k` retries begin, run, roll back and sleep in total |
| `Transactions.SleptIffWithinWord` | backend/src/transaction.rs:79-81 | the sleep is the documented geometric sum if and only if there were at most 32 retries or the delay is zero |

## Left out

- HTTP handlers, header formatting, Actix plumbing, logging, Prometheus metrics and the breaker registry: request wiring around the modelled decisions.
- Failing Redis and Postgres calls: the source fails open on them, and the run theorems are about runs whose stores answer.
- JSON encoding, JWT signatures, SHA-256, UUID generation, key rotation and the blacklist contents: foreign code; the blacklist answer is an input of `ValidateToken`.
- Device identifiers, IP addresses and user agents in session and refresh records: carried along unchanged.
- `refresh_token` as one call: it validates a session that refresh tokens never get, so rotation is modelled at the record layer (invalidate, then generate).
- Interleavings inside one Redis-backed method, such as a revocation between the read and the write of a session renewal: methods are atomic steps here.
- The lifetime totals (`total_failures`, `total_successes`, `total_rejected`) and `hit_rate`: statistics that decide nothing.
- BreakerHistory.ReplayMatches: success and trip counters are unbounded, because wrapping them takes four thousand million events in one open or closed period.
- Authorization.Engine.LogDecision: requires a capacity of at least 1, because dropping the oldest entry of an empty log panics in the source; entry ids, timestamps and reasons are left out.
- `Permission::parse`, `parse_duration_str`, IP lists, CSRF, anti-bot checks, idempotency, models, the frontend, the Node server and the Soroban contracts.
