# Gubernator: what its rate limits promise

Gubernator is a distributed rate limiting service written in Go. A node owns some of the keys, keeps
a token bucket or a leaky bucket for each in the cache of one of its workers, and forwards requests for
other keys to the peers that own them. A leaky bucket also books slots in the future: a request with
`max_wait` that does not fit now is answered SCHEDULED with a `retry_after`, and its hits are kept as
debt, a negative balance that leak repays.

This project models that machinery and proves what callers rely on. `dafny verify dfyconfig.toml`
checks all of it.

## How the modules fit together

- `LeakyBucket` is the leaky bucket as functions of one key's slot, branch by branch; balances are
  `real`. The code's two tolerances, 1e-9 of a token and 1e-6 of a millisecond, are a parameter:
  `CODE_TOLERANCE` is the code's, `EXACT` is none. Theorems over the parameter state the slack they
  leave. `LeakyTolerance` proves that with a duration under 1e9 ms and a limit under 1e6 the code
  answers exactly as without tolerances, so the `EXACT` theorems are about the code there.
- `LeakyEffects` states in plain arithmetic what one request does to a leaky bucket and to every field of its
  answer: on a key that owes, has repaid its debt, is not in debt or is unknown.
- `LeakyReconfig`, `LeakyCeiling`, `LeakyFixed`, `LeakyConformance`, `LeakyContinuous`, `LeakyExpiry`,
  `LeakyPolling`, `LeakyStatus` and `LeakyRetry` prove what one key's runs keep. A run either keeps the key
  for good or drops it once it has expired, as the source's cache does (`keep` is false).
- `TokenBucket` is the other algorithm, with its ledger, and `TokenWindow` what a window admits and how long
  it lasts.
- `Recency` says what an LRU cache is, `LeastRecent` why it is one, and `LruCache` is the cache as it
  runs: a map and a list of objects changed in place.
- `Serving` is one worker serving calls from its cache and a write-through store, and `WriteThrough` what the
  cache is given and the store is told. `Algorithms` is the
  same as it runs, methods that change buckets, items, cache and store in place, each proved to do
  what `Serving` says.
- `HashRange`, `Workers`, `Sharding`, `Snapshot` and `WorkerPool` are the worker pool. `EveryKey` and
  `EveryToken` carry what holds of one key over to every key of a pool.
- `Ring` is the consistent-hash ring, `Forwarding` the retries on the way to an owner and the batch of
  requests a client sends.
- `Interval`, `GlobalHits` and `GlobalManager` are the ticker and the loops that batch GLOBAL traffic.
  `SendBatch`, `PeerGate` and `PeerClient` are the client of a peer: callers, mutex, wait group, queue,
  batching loop, batches in flight and shutdown as one step machine over any number of callers.

## What the proofs found

Promises that are false of the code somewhere, with an input and the exact condition.

- A burst is said to refill in time if it takes no longer than the duration and one millisecond to leak
  back (`LeakyFixed.Refillable`), as every burst within the limit does. Exactly the configurations of which
  that is true always conform in the expiring cache (`LeakyConformance.ConformsIff`), never show that keys
  expire except as below (`LeakyExpiry.ExpiryIsInvisibleIff`), and let a refused caller who asks again always
  hear the rest of the wait (`LeakyRetry.CountsDownIff`). Any other is granted more than its burst and leak
  when the whole burst is taken each time the key has just expired.
- A plain DRAIN_OVER_LIMIT request on a repaid key leaves the expiry where it was, so the key can expire
  before it is full again, and the next caller finds a full bucket (`LeakyExpiry.DrainMakesExpiryVisible`;
  a run that gets there is `LeakyExpiry.DrainPastExpiryHappens`). A plain request over the burst empties a key
  that it does not find, and leaves a full one full (`LeakyExpiry.OverBurstMakesExpiryVisible`,
  `LeakyFixed.FirstRequestIff`). Where the burst refills in time, exactly these two requests break "expiry is
  invisible" (`LeakyExpiry.ExpiryShowsIff`). The note at the top of the algorithms file promises that
  a request over the limit leaves the rest to later ones; the first on a key does not, and the model
  follows the code.
- A status request is not always free of effects. In the expiring cache it changes some later answer if and
  only if it creates the key or finds a stored debt repaid (`LeakyStatus.QueryIsSeenIff`, for every burst and
  everything that may follow; an input is `LeakyStatus.QueryBeforeTooMuch`). If only requests within the burst
  follow, it does so if and only if it finds a stored debt repaid while there is still time for a drain past
  the expiry that debt left (`LeakyPolling.QueryIsSeenWithinBurstIff`; an input is `LeakyPolling.QueryIsSeen`).
  Apart from that, the code's tolerance snaps a balance that is nearer to zero than 1e-9 and not zero
  (`LeakyContinuous.QueryKeepsBalanceIff`): a key that takes more than 1e9 ms a token, spent and then polled
  every millisecond, stays empty until it expires, in a time that leaks a whole limit into it when left alone
  (`LeakyTolerance.PollingStarves`, `LeakyTolerance.UnpolledRefills`).
- A refused caller who asks again hears the rest of the wait if and only if the key is still cached or the
  wait is over (`LeakyRetry.RefusalCountsDownIff`). With a burst that refills in time that is always so, unless
  the key was drained past its expiry before (`LeakyRetry.RefusalCountsDown`); with a larger one the key can
  expire first and admit the caller early (`LeakyRetry.RefusalForgets`).
- A negative rate drains a key that owes nothing when it is credited, and a negative burst clamps it below
  zero: debt that nobody booked and no ceiling bounds (`LeakyCeiling.NegativeLimitSinks`). A request leaves
  such debt exactly when it sinks (`LeakyCeiling.UnbookedDebtIff`), and the ceiling holds of every run in
  which none does (`LeakyCeiling.DebtWithinCeiling`), so of all limits, durations and bursts that are not
  negative (`LeakyCeiling.NonnegativeRunsStayAfloat`).
- A token bucket call whose duration is no calendar code has already changed the limit when it fails, in the
  cache and not in the store. A later call can tell, after a restart or an eviction, exactly when the limit
  took more than remained (`Serving.HalfUpdatesIff`; a history is `Serving.HalfUpdateShows`).
- With a number of workers that is not a power of two, the top `2^63 mod workers` hashes have no worker
  and the index is out of range (`HashRange.HasWorkerIff`, `HashRange.EveryHashHasWorkerIff`).
- A loaded pool finds everything that was saved exactly when no worker is sent more than its cache
  holds (`Snapshot.LoadRestoresIff`).

## Model

| member | source | states |
|---|---|---|
| `LeakyEffects.PlainRequest` | algorithms.go:399-508 | on a key not in debt: what was there plus the leak since by the client's stamp, at the request's rate or the calendar's, shifted with the burst and between nothing and the burst, or all of it after a reset, is available; hits that fit its whole tokens are taken and refunds given up to the burst, others leave it or drain it; limit, duration, burst, expiry and all of the answer follow, reset_time being now plus the missing tokens times duration / limit in whole milliseconds |
| `LeakyEffects.WaitingRequest` | algorithms.go:567-616 | the same for max_wait, by the owner's clock: NEVER_FITS over the burst, UNDER_LIMIT if the hits fit, else the least wait after which leak covers them, SCHEDULED if it is within max_wait and the ceiling, with the millisecond the bucket is full again as reset_time and at least as expiry |
| `LeakyEffects.ResetRequest` | algorithms.go:426-444 | RESET_REMAINING on any key, in debt or not, at any tolerance and rate: the balance is the burst less the hits, the answer shows it, and the request's configuration is adopted |
| `LeakyEffects.PlainOnDebt` | algorithms.go:343-497 | a plain request on a debt takes nothing and pays nothing off; the debt keeps its time to go at the new rate, limit and duration are adopted if they give a rate and are not calendar time, the burst if it is positive; the answer shows 0 tokens and the first millisecond the bucket is full; a refund or a change keeps the key until then |
| `LeakyEffects.WaitingOnDebt` | algorithms.go:567-616 | a request with max_wait on a debt is booked behind it or refused with the least wait, under the same bounds |
| `LeakyEffects.PlainOnRepaid` | algorithms.go:390-508 | on a key whose stored debt has been repaid at the stored rate a plain request does as on one not in debt, by the owner's clock; the expiry moves only if tokens are taken or the configuration changes |
| `LeakyEffects.WaitingOnRepaid` | algorithms.go:567-616 | and so does one with max_wait |
| `LeakyEffects.FirstRequest` | algorithms.go:636-709 | every field of what a first request stores and answers |
| `LeakyEffects.FullAtIsFirst` | algorithms.go:533-536 | the moment called full is the first millisecond at which leak has brought the balance back to burst |
| `LeakyEffects.ZeroDurationFills` | algorithms.go:512-522 | a duration of zero and a positive limit fill the bucket at once |
| `LeakyEffects.NoRateNeverFills` | algorithms.go:512-548 | a limit of zero leaks nothing in, and a debt at it is over at the largest int64 |
| `LeakyEffects.NoRateKeepsExpiry` | algorithms.go:455-464 | a repaid key given a limit of zero keeps its expiry |
| `LeakyEffects.CalendarErrorChangesNothing` | algorithms.go:368-377 | a duration that is no calendar code changes nothing |
| `LeakyReconfig.PromisesSurvive` | algorithms.go:337-506 | on a key in debt any valid request but a reset, whatever its limit, duration, burst, sign, calendar flag or drain, leaves the moment the debt clears unchanged, or later by hits times rate exactly when it is SCHEDULED; with tolerances, or the debt was under 1e-9 of a token |
| `LeakyReconfig.SettlingKeepsClearAt` | algorithms.go:343-441 | crediting, rescaling to a new rate, keeping the stored rate and shifting the burst move no clearing moment of a debt that remains |
| `LeakyReconfig.CountingKeepsClearAt` | algorithms.go:467-616 | counting hits on a debt never admits at once, never pays off debt by refund or drain, and adds exactly the booked time |
| `LeakyReconfig.BookingOutcome` | algorithms.go:567-616 | a SCHEDULED answer leaves debt at a usable rate, waits at least 1 ms and at most the smaller of max_wait and the ceiling, names the millisecond the debt clears, and the key outlives it |
| `LeakyReconfig.PendingSurvives` | algorithms.go:322-507 | until a booked slot's moment every orderly request, expiry included, leaves the slot pending |
| `LeakyReconfig.StillPending` | algorithms.go:273-507 | over every run with reconfigurations a booked slot stays pending until its moment |
| `LeakyReconfig.NobodyJumpsAhead` | algorithms.go:471-497 | over every run, until a booked slot's moment no later request is admitted at once and a later booking clears its own hits after it |
| `LeakyReconfig.SlotsInOrder` | algorithms.go:590-616 | over every run slots come in the order they were booked, up to the tolerance |
| `LeakyReconfig.BookedInOrder` | algorithms.go:590-616 | without tolerances, callers are told to act in the order they were booked |
| `LeakyCeiling.StepStaysBounded` | algorithms.go:590-616 | every step that does not sink, whatever it reconfigures, keeps the clearing moment within the ceiling of now |
| `LeakyCeiling.DebtWithinCeiling` | algorithms.go:590-616 | in every run in which no request sinks, signs and reconfigurations otherwise free, the debt clears by now plus the ceiling; with tolerances, plus their slack and for requests not stamped ahead of the owner |
| `LeakyCeiling.UnbookedDebtIff` | algorithms.go:402-434 | on a key that owes nothing, not in debt or with its stored debt repaid, a request leaves unbooked debt if and only if its burst is negative or crediting its rate goes below zero |
| `LeakyCeiling.NonnegativeRunsStayAfloat` | algorithms.go:402-434 | no request of a run whose limits, durations and bursts are not negative sinks |
| `LeakyCeiling.NegativeLimitSinks` | algorithms.go:406-409 | a concrete run with a limit of -1000 ends in a debt that clears 5,940,000 ms ahead of a ceiling of 300,000 |
| `LeakyCeiling.EvictionLosesAtMostCeiling` | lrucache.go:146-178 | the debt an eviction drops takes at most the ceiling to leak |
| `LeakyConformance.Conformance` | algorithms.go:399-434 | over every run of a fixed configuration, mixing plain, max_wait and status requests, on a key kept cached or with a burst that refills in time, the hits from grant i to grant j, each at the time it may act, are at most a burst plus the leak in between with 1 ms of rounding and explicit slack for the tolerances |
| `LeakyConformance.ConformsIff` | algorithms.go:695-700 | with zero token tolerance, every run of a configuration in the expiring cache conforms if and only if its burst leaks back within the duration and 1 ms |
| `LeakyConformance.SlowRefillBreaks` | algorithms.go:695-700 | with any tolerances, a burst that takes longer by more than a token's tolerance, emptied again and again just after expiry, is in the end granted more than the bound |
| `LeakyConformance.ConformanceFrom` | algorithms.go:399-434 | the same from any bucket of the configuration the key holds at the start, in debt or not and whenever it expires |
| `LeakyConformance.RunConformsFrom` | algorithms.go:467-616 | the invariant behind it: what was granted is covered by what the bucket still owes or holds, kept across expiry |
| `LeakyConformance.RunConforms` | algorithms.go:467-616 | the same from an unknown key |
| `LeakyConformance.WindowBound` | algorithms.go:467-616 | grants that conform total at most a burst plus the leak over any stretch of time |
| `LeakyConformance.OneStateLoss` | algorithms.go:590-616 | with the key lost once, any stretch of time sees at most two bursts plus the leak over it and the ceiling |
| `LeakyFixed.WithinLimitIsRefillable` | algorithms.go:695-700 | a burst within the limit leaks back within the duration and 1 ms |
| `LeakyFixed.StepFromLevel` | algorithms.go:399-506 | with a fixed configuration a request sees the balance credited to now, capped at burst, and nothing else of the past |
| `LeakyFixed.NewLikeFull` | algorithms.go:636-709 | a first request that fits the burst or may wait is answered like one that finds the key full |
| `LeakyFixed.FirstRequestIff` | algorithms.go:684-693 | a first request leaves the balance it would leave on a full key unless it is plain, not draining and over the burst, and exactly then it does not |
| `LeakyContinuous.RefinesReference` | algorithms.go:399-616 | every answer is that of a continuously leaking bucket: status, remaining, least wait and new balance as a relation on the balance alone |
| `LeakyContinuous.AlikeSteps` | algorithms.go:512-522 | slots that represent the same balance give the same answer and again represent the same balance |
| `LeakyContinuous.QueryKeepsBalanceIff` | algorithms.go:466-469 | a zero-hit query leaves the balance a slot represents unchanged if and only if it is not within 1e-9 of zero, zero apart |
| `LeakyContinuous.KeptPollingChangesNothing` | algorithms.go:399-409 | on a key that is never dropped, leaving out any zero-hit queries anywhere in a run of requests within the burst changes no later answer |
| `LeakyExpiry.StepRefillsInTime` | algorithms.go:390-397 | where the burst refills in time, a step keeps the key cached until its balance is back at burst, if and only if it is not a drain that outlasts the expiry |
| `LeakyExpiry.ExpiryIsInvisible` | cache.go:43-57 | without such drains, and without plain requests over the burst on dropped keys, a cache that drops expired keys answers every run like one that never does |
| `LeakyExpiry.ExpiringStepIsAlike` | algorithms.go:684-693 | a step on an expiring key and on the kept one is answered alike if and only if it is not such a request over the burst, and then leaves the same balance |
| `LeakyExpiry.ExpiryShowsIff` | cache.go:43-57 | a request of a run shows in its own or some next answer that keys expire, if and only if it drains past the expiry or asks a dropped key for more than the burst |
| `LeakyExpiry.ExpiryIsInvisibleIff` | cache.go:43-57 | expiry is invisible in all such runs of a configuration if and only if its burst refills in time |
| `LeakyExpiry.OverBurstMakesExpiryVisible` | algorithms.go:684-693 | a concrete run: eleven hits refused on a key of ten a minute show ten remaining if it was kept and none if it was dropped |
| `LeakyExpiry.DrainMakesExpiryVisible` | algorithms.go:483-497 | after every such drain a request for the whole burst, just after expiry, is admitted where the kept key refuses it |
| `LeakyExpiry.DrainPastExpiryHappens` | algorithms.go:483-497 | a concrete run of three requests reaches such a drain |
| `LeakyExpiry.BookingsHappen` | algorithms.go:590-616 | a concrete run with two bookings, so the theorems about booked slots speak of something |
| `LeakyStatus.QueryIsSeenIff` | algorithms.go:276-397 | in the expiring cache, for every burst and whatever requests may follow, a query changes the answer to some later request if and only if it creates the key or finds a stored debt repaid |
| `LeakyStatus.CreatingShows` | algorithms.go:684-709 | after a query that creates the key, a request over the burst and then the whole burst tell |
| `LeakyStatus.RepaidShows` | algorithms.go:390-397 | after one that finds a debt repaid, a request over the burst at the expiry that debt left and what the key holds a millisecond later tell |
| `LeakyStatus.HiddenQuery` | algorithms.go:466-469 | no other query is ever seen |
| `LeakyStatus.QueryBeforeTooMuch` | algorithms.go:684-709 | a concrete run: ten hits after eleven refused ones are refused, and admitted if the status was asked for first |
| `LeakyStatus.HiddenPollingChangesNothing` | algorithms.go:399-409 | leaving out of any run queries that neither create the key nor find a debt repaid changes no later answer |
| `LeakyStatus.CodeHiddenPolling` | algorithms.go:399-409 | the same with the code's tolerances, for a duration under 1e9 ms and a limit under 1e6 |
| `LeakyStatus.CodeQueryIsSeenIff` | algorithms.go:276-397 | for such a duration and limit, after any run of the code with its own tolerances, a query changes the answer to some later request if and only if it creates the key or finds a stored debt repaid |
| `LeakyPolling.QueryIsSeenWithinBurstIff` | algorithms.go:390-397 | in the expiring cache, where the burst refills in time and only requests within it follow, a query changes the answer to some later request if and only if it finds a stored debt repaid with time left for a drain past the expiry |
| `LeakyPolling.TellingIff` | algorithms.go:390-397 | that is decided by the last millisecond before the key is full |
| `LeakyPolling.QueryIsSeen` | algorithms.go:390-397 | a concrete run: a whole burst is admitted, and refused if the status was asked for before |
| `LeakyPolling.DrainTellsQuery` | algorithms.go:393-397 | after any such query and drain a whole burst right after the old expiry tells the two runs apart |
| `LeakyPolling.RunIsSound` | algorithms.go:390-397 | every run of requests within the burst leaves a slot the above speaks of: not cached longer than a duration or its refill, and a debt cached until it is full |
| `LeakyPolling.PollingChangesNothing` | algorithms.go:399-409 | in the expiring cache, with any drains, leaving out of a run of requests within the burst queries that are not telling changes no later answer |
| `LeakyPolling.UndrainedPollingChangesNothing` | algorithms.go:399-409 | nor does leaving out any queries where neither run drains past an expiry |
| `LeakyPolling.CodePollingChangesNothing` | algorithms.go:399-409 | both with the code's tolerances, for a duration under 1e9 ms and a limit under 1e6 |
| `LeakyRetry.BookedUntilExactly` | algorithms.go:590-615 | a SCHEDULED caller finds the debt repaid after retry_after and not a millisecond before |
| `LeakyRetry.RefusalCountsDownIff` | algorithms.go:592-604 | in the expiring cache a refused caller is charged nothing, and asking again d ms later is told d ms less, or is admitted once the wait is over, if and only if the key is still cached or the wait is over |
| `LeakyRetry.RefusalCountsDown` | algorithms.go:592-604 | with a burst that refills in time that always holds of a key that is cached until it is full |
| `LeakyRetry.CountsDownIff` | algorithms.go:592-604 | over all runs without drains past the expiry, whatever else they ask for, it always holds if and only if the burst refills in time |
| `LeakyRetry.RefusalForgets` | algorithms.go:395-397 | a concrete refusal with 9999 ms to go on a key with a burst over its limit, admitted 1001 ms later |
| `LeakyRetry.LeastWaitIsUnique` | algorithms.go:592-592 | the wait is the one least whole number of milliseconds, at least 1, after which leak covers the hits |
| `LeakyTolerance.RunIsInert` | algorithms.go:618-633 | where the tolerances are finer than the grid balances live on, whole runs end in the same slot with and without them |
| `LeakyTolerance.RunFromIsInert` | algorithms.go:618-633 | the same from any key on that grid, and the key stays on it |
| `LeakyTolerance.CodeIsExact` | algorithms.go:590-633 | with a duration under 1e9 ms and a limit under 1e6 every answer of every run is the exact one |
| `LeakyTolerance.PollingStarves` | algorithms.go:621-626 | at over 1e9 ms a token, a key spent and then polled every millisecond in the expiring cache is empty for its whole duration and full one millisecond later |
| `LeakyTolerance.UnpolledRefills` | algorithms.go:512-522 | left alone the same key gains its leak, a whole limit over the duration |
| `TokenBucket.TokensAreConserved` | algorithms.go:112-263 | over every run with limits not negative: admitted plus drained plus remaining equals the limit plus what flooring at zero forgave, since the window began |
| `TokenBucket.NothingForgiven` | algorithms.go:160-212 | with one limit nothing is forgiven, so the ledger of a window admits at most the limit |
| `TokenWindow.RequestInWindow` | algorithms.go:112-263 | with one limit, duration and clock, a request is admitted if and only if its hits fit what is left of the window it falls into, or of a new one; what is left falls by exactly those hits, and the answer names the end, a duration after the window began |
| `TokenWindow.WindowAdmitsTheLimit` | algorithms.go:219-263 | over every run, from the request that opens a window through the end of its duration the hits admitted total at most the limit |
| `TokenWindow.AdmittedIff` | algorithms.go:112-263 | without drains a request is admitted if and only if its hits and those admitted since its window began are within the limit, and remaining is the difference |
| `TokenWindow.TwoWindows` | algorithms.go:219-263 | any stretch of one duration sees at most twice the limit |
| `TokenWindow.LimitChange` | algorithms.go:112-120 | with another limit what was spent stays spent, down to nothing left |
| `TokenWindow.DurationChange` | algorithms.go:129-152 | with another duration the window ends that long after it began, or with the calendar interval; if that is past, a full window begins |
| `TokenWindow.HitsAfterChange` | algorithms.go:160-212 | hits are counted against what such a change leaves, and refunds added |
| `TokenWindow.ResetForgets` | algorithms.go:76-99 | a reset shows a full bucket and the next request opens a window |
| `TokenWindow.CalendarWindow` | algorithms.go:220-263 | a first request in calendar time opens a window that ends with the interval |
| `TokenWindow.EmptyShowsLast` | algorithms.go:160-187 | a status request on an empty bucket shows whether the last request found it empty |
| `TokenBucket.RefusalStored` | algorithms.go:160-186 | a stored OVER_LIMIT is a refusal just made or one stored before, and the bucket is empty |
| `TokenBucket.RefusalMeansEmpty` | algorithms.go:160-212 | in every error-free run a stored OVER_LIMIT goes back to a refusal since which the bucket has stayed empty |
| `Recency.FindAdded` | lrucache.go:96-111 | adding an item changes no other key's lookup, unless that key is evicted |
| `Recency.FindGot` | lrucache.go:119-136 | a lookup returns the unexpired item or drops the expired one, and changes no other key's lookup |
| `LeastRecent.OrderedByLastUse` | lrucache.go:96-200 | over every run of adds, lookups, removals and expiry updates the items stand in the order of their last use, each key once and at most the capacity, so what is evicted was used longest ago |
| `LruCache.LRUCache.constructor` | lrucache.go:70-78 | an empty cache, of 50,000 items unless told otherwise |
| `LruCache.LRUCache.PushFront` | lrucache.go:104-105 | puts an item with a new key in front of the list and into the map |
| `LruCache.LRUCache.Add` | lrucache.go:96-111 | map and list stay in step and the cache becomes the recency sequence with the item first and the last one gone if over capacity |
| `LruCache.LRUCache.GetItem` | lrucache.go:119-136 | a hit moves to the front, an expired item is removed, nothing else changes |
| `LruCache.LRUCache.Remove` | lrucache.go:139-143 | removes exactly the key |
| `LruCache.LRUCache.RemoveOldest` | lrucache.go:146-162 | removes exactly the last of the recency sequence |
| `LruCache.LRUCache.RemoveElement` | lrucache.go:180-185 | removes exactly that element from map and list |
| `LruCache.LRUCache.UpdateExpiration` | lrucache.go:193-200 | changes one expiry in place and no position |
| `LruCache.LRUCache.Size` | lrucache.go:188-190 | the number of items, never more than the capacity |
| `WriteThrough.TokenServed` | algorithms.go:41-263 | serving a token call writes the bucket and expiry its step leaves, under its key, and reports it if the node owns it and the call did not fail |
| `WriteThrough.LeakyServed` | algorithms.go:273-510 | the same for a leaky call; one that fails leaves everything alone |
| `WriteThrough.SwitchStartsAnew` | algorithms.go:100-110 | a call that finds the other algorithm's bucket is answered as on an unknown key, and that bucket goes from cache and store |
| `WriteThrough.ResetErases` | algorithms.go:76-99 | a token reset shows a full bucket and removes the key from cache and store |
| `WriteThrough.OwnersSave` | store.go:49-65 | once an owner's call is answered cache and store hold the same item for its key, or neither one that lives |
| `WriteThrough.OthersSaveNothing` | store.go:49-65 | another node's call leaves the store alone, but for removing an item it discards |
| `WriteThrough.FetchedIsCached` | algorithms.go:287-293 | what a miss fetches is cached, with the store's stamp |
| `WriteThrough.StampDecides` | cache.go:43-57 | a cached item is served up to the moment the store stamped it with, and after it the store is asked again |
| `Serving.HandleMirrors` | algorithms.go:287-293 | a small cache with its store answers an owner's call that updates its item whole like an unbounded cache, and to every later call each cached item still shows the same as its stored copy |
| `Serving.StoreHidesTheCache` | store.go:49-65 | over every history of owners' calls with restarts and errors, but for half updates that show, a cache of any capacity with a write-through store answers any next call like one unbounded cache that is never lost |
| `Serving.HalfUpdatesIff` | algorithms.go:112-137 | what a failed token call leaves in the cache is told from the stored item by some later call if and only if its limit took more than remained |
| `Serving.HalfUpdateShows` | algorithms.go:112-137 | a concrete token history with a half update, after which the key shows 2 tokens from the store and 9 from the cache |
| `Algorithms.Settle` | algorithms.go:337-441 | in place: clock, rates, credit, rescale, burst shift, reset, clamp and configuration come to the settled bucket |
| `Algorithms.Credit` | algorithms.go:402-412 | in place: the leak is credited and remaining debt rescaled |
| `Algorithms.TrySchedule` | algorithms.go:569-616 | in place: admits, books or refuses as the schedule decides |
| `Algorithms.Charge` | algorithms.go:466-506 | in place: the bucket and the answer after counting the hits |
| `Algorithms.ExtendDebtExpiry` | algorithms.go:563-565 | in place: the expiry only grows, to when the balance is back at burst |
| `Algorithms.UpdateLeaky` | algorithms.go:337-507 | in place: an existing leaky key takes exactly one step, its expiry included |
| `Algorithms.UpdateToken` | algorithms.go:112-212 | in place: an existing token key takes exactly one step, also where a calendar error leaves it half updated |
| `Algorithms.Store.Get` | store.go:49-65 | returns a fresh copy of the last item the store was told of, while unexpired |
| `Algorithms.LeakyBucketCall` | algorithms.go:273-510 | a call on real objects, the owner's or not, with lookup, store, algorithm switch, deferred expiry and OnChange, is the worker's step and keeps the cache consistent |
| `Algorithms.TokenBucketCall` | algorithms.go:38-217 | the same for the token bucket |
| `HashRange.EqualRanges` | workers.go:185-189 | worker i serves the i-th of equal consecutive hash ranges, both directions |
| `HashRange.Monotone` | workers.go:185-189 | the worker's index grows with the hash |
| `HashRange.HasWorkerIff` | workers.go:130-139 | a 63-bit hash has a worker if and only if it is below workers times the step; the others are the top 2^63 mod workers |
| `HashRange.EveryHashHasWorkerIff` | workers.go:130-139 | every hash has a worker if and only if the number of workers is a power of two |
| `Workers.PowersOfTwoAreRouted` | workers.go:127-150 | such a pool finds a worker for every key, whatever the hash function |
| `Workers.WorkersAreIndependent` | workers.go:195-261 | in every interleaving a worker's cache, its answers and what the shared store holds for its keys are those of the worker alone with its own commands |
| `Workers.InterleavingIsInvisible` | workers.go:195-261 | two interleavings that agree on a worker's own order give it the same cache and its callers the same answers |
| `Workers.AddMeans` | workers.go:575-588 | adding an item says whether its key was cached and puts it in front |
| `Workers.GetMeans` | workers.go:621-635 | getting an item returns the live one and makes it the most recent, or drops what has expired; the store is not asked |
| `Workers.NoWorkerIff` | workers.go:185-193 | a command goes without a worker exactly if its index is out of range, and then changes nothing |
| `Workers.CapacityIsShared` | workers.go:127-150 | each worker gets an equal part of the configured cache size, and together they hold at most that and less than one item a worker short of it; with more workers than items each gets the default |
| `Sharding.KeysStayHome` | workers.go:264-289 | over every run, evictions included, each cached key is in its own worker's cache and there once |
| `Sharding.ShardingRefinesOneCache` | workers.go:195-331 | with room at each worker for that worker's own keys, a pool answers every command as one sequential cache would, and finds the same for every key |
| `Sharding.HousedRefines` | workers.go:336-453 | any pool whose keys are at home, a loaded one included, is one cache that holds what all its caches do |
| `Sharding.NewPoolRefines` | workers.go:127-150 | a new pool is an empty cache |
| `Snapshot.LoadRestoresIff` | workers.go:336-453 | saving a pool and loading another of any size preserves every lookup if and only if no worker is sent more than its cache holds |
| `Snapshot.LoadedFindsIff` | workers.go:424-453 | one worker finds all it was sent if and only if it has room for it |
| `WorkerPool.WorkerPool.constructor` | workers.go:127-150 | a pool of empty caches |
| `WorkerPool.WorkerPool.RateLimit` | workers.go:264-331 | changes one worker's cache and the store as dispatched, and keeps every key at home |
| `WorkerPool.WorkerPool.Add` | workers.go:537-574 | adds at the key's worker and says whether the key was there |
| `WorkerPool.WorkerPool.Get` | workers.go:577-610 | looks up at the key's worker |
| `WorkerPool.WorkerPool.Store` | workers.go:458-534 | whatever order workers and their maps give, every cached item is sent, and once |
| `WorkerPool.WorkerPool.Load` | workers.go:336-453 | each item is added at its worker, and every key stays at home |
| `WorkerPool.SaveAndLoad` | workers.go:336-534 | on real pools: the new one finds what the old one did if and only if there is room |
| `EveryToken.TokenCallIsStep` | algorithms.go:38-263 | serving a token call, cache and all, is one step of its key's bucket |
| `EveryToken.PoolServesTokensAlone` | workers.go:195-331 | in a pool without a store and with room at each worker for its keys, a token bucket key is answered as if alone whatever commands other keys get |
| `EveryToken.ServiceKeepsWindows` | workers.go:195-331 | so the service admits at most the limit in every window of a key and twice that in any stretch of one duration |
| `EveryKey.LeakyCallIsStep` | algorithms.go:273-510 | serving a call, cache and all, is one step of its key's slot |
| `EveryKey.PoolServesKeysAlone` | workers.go:195-331 | in a pool without a store, new or loaded, with room at each worker for that worker's keys, however commands of any kind on other keys interleave, a leaky key is answered as if alone from what it holds |
| `EveryKey.NewPoolIsReady` | workers.go:127-150 | a new pool is such a pool, and every key in it is unknown |
| `EveryKey.StoreLogsAlike` | store.go:49-65 | a worker with a store and a cache of any size gives the whole log of answers of an unbounded one |
| `EveryKey.StoredPoolServesKeysAlone` | workers.go:195-331 | over any write-through store and among any commands on other keys, peers' items and failed updates included, with caches of any size, whatever they evict and however often the node restarts with whatever pool, a leaky key its owner calls is answered as if alone from what the store holds for it |
| `EveryKey.OwnCallKeeps` | store.go:49-65 | a call finds its key's slot, cached or fetched, and leaves cache and store with the slot its step leaves |
| `EveryKey.OthersFoundOrLost` | lrucache.go:95-110 | a command leaves another key's cached item as it was, or evicts it |
| `EveryKey.PoolConforms` | workers.go:195-331 | so in a pool with room every leaky key's grants conform to its bucket, from an unknown key or any bucket of its configuration |
| `EveryKey.StoredPoolConforms` | workers.go:195-331 | and in a node with a store whatever is stored at the start of its configuration, evicted and restarted |
| `EveryKey.CodeConformsIff` | algorithms.go:399-616 | for a duration under 1e9 ms and a limit under 1e6 the code, with its own tolerances, always conforms with none to forgive if and only if the burst refills in time |
| `EveryKey.ServiceConforms` | algorithms.go:399-616 | with the code's own tolerances and an expiring cache, in a pool with room or a node with a store and restarts, from an unknown key or any bucket of the configuration, for a burst that refills in time: the hits from grant i to grant j are at most burst plus (g_j - g_i + 1 ms)/rate, with explicit slack, and none for a duration under 1e9 ms and a limit under 1e6 from an unknown key or one the code has left |
| `Ring.OneOwner` | replicated_hash.go:104-119 | a key has one owner, the peer of the next replica clockwise, while no two peers share a hash |
| `Ring.NewPeerTakesOnlyItsOwn` | replicated_hash.go:78-91 | adding a peer changes a key's owner only to that peer |
| `Ring.SortSlice` | replicated_hash.go:90-90 | sorted by hash and a permutation |
| `Ring.SearchSlice` | replicated_hash.go:111-111 | the split point between hashes below and at or above |
| `Ring.ReplicatedConsistentHash.Add` | replicated_hash.go:78-91 | the ring holds exactly the replicas of its peers, sorted |
| `Ring.ReplicatedConsistentHash.Get` | replicated_hash.go:104-119 | fails exactly when there are no peers, and otherwise returns an owner, wrapping around |
| `Ring.SetPeers` | gubernator.go:770-822 | a ring of exactly the listed peers, whatever their order |
| `Ring.AgreeOnOwner` | gubernator.go:770-822 | rings of the same peers agree on every key, and a ring with one peer more differs only in that peer's keys |
| `Forwarding.AsyncRequest` | gubernator.go:340-439 | terminates with one reply: the request went to the owner of the moment until the first call that ended it, for any answers and ring changes |
| `Forwarding.AtMostOnce` | gubernator.go:340-439 | at most six peer calls, at most one local charge and that last; with max_wait one peer call, unbatched, and no local charge |
| `Forwarding.ReplyMatchesTrace` | gubernator.go:340-439 | a peer's answer is the last call's and nothing was charged here; a local answer was charged here; no answered call is followed by another |
| `Forwarding.RetriesFollowTheRing` | gubernator.go:383-420 | every call goes to the owner the ring named after the one before, alone if max_wait is set, and is followed by another only if it was interrupted with the caller still there and the ring names another node |
| `Forwarding.ChargedHereIff` | gubernator.go:357-380 | the hits are charged here if and only if the last call was interrupted with the caller still there, fewer than six were made, and the ring by then named this node |
| `Forwarding.RepliesMean` | gubernator.go:340-439 | each reply and each error has exactly one cause |
| `Forwarding.ExplainedOnce` | gubernator.go:355-436 | the answers and the ring determine the reply and everything the request does |
| `Forwarding.GetRateLimits` | gubernator.go:201-324 | each request of a batch gets its own reply at its own index whatever order the forwarded ones return in; over 1000 requests are refused whole |
| `Interval.TicksIff` | interval.go:48-59 | within three steps the ticker has ticked if and only if a tick was asked for, sleeping, being delivered or unread |
| `Interval.TicksAreConserved` | interval.go:48-59 | the ticker neither loses nor makes up a tick: one that is due while the last is unread waits for it to be read |
| `Interval.ComingStays` | interval.go:48-72 | a tick on its way stays on its way until it is read, whatever is asked meanwhile |
| `Interval.Interval.Next` | interval.go:67-72 | asks for a tick; asking twice is asking once |
| `Interval.Interval.Run` | interval.go:48-59 | one step of the ticker, which blocks while its last tick is unread |
| `GlobalHits.AggregateMerges` | global.go:110-124 | merging requests one by one is merging the batch: each key's hits summed, in the first request's form, resetting if any of them did |
| `GlobalHits.MergedHits` | global.go:112-123 | a merged request carries the sum of its key's hits and the OR of their RESET_REMAINING |
| `GlobalHits.MergedIsFirst` | global.go:103-125 | a key's aggregate is its first request with the hits summed and the reset flag added if any had it; nothing else of it changes |
| `GlobalHits.HitsAreConserved` | global.go:103-152 | over every run, per key, hits queued equal hits flushed plus hits pending plus hits in the queue |
| `GlobalHits.SendHits` | global.go:156-180 | every hit whose owner lookup succeeds is in that owner's request, once, and in no other; nothing else is sent |
| `GlobalManager.AsyncHits.QueueHit` | global.go:85-90 | queues exactly the requests that have hits |
| `GlobalManager.AsyncHits.Take` | global.go:110-138 | aggregates one request and flushes exactly at the batch limit; a pending batch keeps a tick on its way, no flush exceeds the limit |
| `GlobalManager.AsyncHits.Tick` | global.go:140-145 | a tick flushes all that is pending, to its owners |
| `GlobalManager.AsyncHits.Conserved` | global.go:103-152 | conservation on the running loop |
| `GlobalManager.LatestIsLast` | global.go:212-213 | a broadcast carries exactly the keys updated since the last, each as updated last |
| `GlobalManager.Broadcasts.QueueUpdate` | global.go:92-96 | queues exactly the updates that have hits |
| `GlobalManager.Broadcasts.Take` | global.go:212-228 | collects one update and flushes at the limit; a pending batch keeps a tick on its way |
| `GlobalManager.Broadcasts.Tick` | global.go:230-236 | a tick flushes all that is pending |
| `SendBatch.Send` | peer_client.go:392-471 | everybody in a batch gets one more response: a context error if they left, else the peer's error, a size mismatch, or the rate limit at their own place among the live; the peer is called once, unless all left |
| `SendBatch.EveryoneGetsTheirOwn` | peer_client.go:467-470 | a peer that answers each request by itself answers every live caller with their own answer |
| `PeerGate.MoveKeepsGate` | peer_client.go:290-328 | every caller's step keeps mutex, wait group and flags in step with where callers stand |
| `PeerGate.ShutKeepsGate` | peer_client.go:475-511 | every step of the shutdown does |
| `PeerClient.StepKeepsInv` | peer_client.go:290-511 | every step of callers, loop, ticker, batches and shutdown keeps each request in exactly one place |
| `PeerClient.NoSendOnClosedQueue` | peer_client.go:309-312 | in every run nobody sends on the closed queue: once it is being closed no caller is between check and send |
| `PeerClient.AnsweredExactlyOnce` | peer_client.go:333-471 | in every run each request handed over is in one place, so it goes into one batch and gets at most one response, and all have theirs when nothing is under way |
| `PeerClient.NoLostWakeup` | peer_client.go:333-388 | in every run a pending batch has a tick on its way, a loop running to read it, and is below the limit |
| `PeerClient.NobodyGetsAnothers` | peer_client.go:392-471 | in every run, whatever batches requests travel in, no caller gets another's rate limit |
| `PeerClient.AnswerDelivers` | peer_client.go:392-471 | when a peer has answered every request it was sent, each caller of the batch still there is delivered their own rate limit, each that left a context error, and nobody else anything |
| `PeerClient.EveryoneIsServed` | peer_client.go:333-471 | in every run with such a peer, once nothing is under way everybody who handed over a request has their own rate limit, unless they had left |
| `PeerClient.BatchesFill` | peer_client.go:333-370 | a request taken from the queue waits for others until the batch has the size of the limit, and then the whole batch goes out |
| `PeerClient.QueueIsBounded` | peer_client.go:86-91 | no run puts more than 1000 requests into the queue |
| `PeerClient.NeverStuck` | peer_client.go:333-471 | while a request is unanswered the client itself can take a step |
| `PeerClient.WorkSettles` | peer_client.go:333-471 | the client's own steps cannot go on for ever, and when none is left every request is answered |
| `PeerGate.OpenGateLetsIn` | peer_client.go:290-328 | until the flag is set a caller that has not left gets to send and then waits; after that it is turned away |
| `PeerGate.CallersLeave` | peer_client.go:290-328 | while the shutdown holds the mutex no caller comes in, and every step of one inside brings it closer to leaving |
| `PeerClient.ShutdownNeverStuck` | peer_client.go:475-511 | until the shutdown is over some step is due, even if no caller gives up before it is answered |
| `PeerClient.ShutdownGetsThrough` | peer_client.go:475-511 | from the moment it has the mutex, however many callers arrive and whatever the others do, only so many steps can happen before the shutdown is over, and it is over when none is due |

## Left out

- Floating point: balances are real numbers, so rounding, NaN, infinities and int64 overflow of hits, times and products are not modelled. A rate with limit 0 is "no rate"; its whole part counts as 0, a balance on it is full at the largest int64, and a duration of 0 with a positive limit credits a full burst; with a negative one the source's balance becomes infinitely negative.
- LeakyEffects.PlainRequest: zero tolerances, as in all of LeakyEffects but ResetRequest; a burst that is not negative and a rate. What negative ones do is LeakyCeiling's, and what the tolerances do LeakyTolerance's.
- EveryToken.PoolServesTokensAlone: from an unknown key; with a store, StoreHidesTheCache covers token calls.
- The Gregorian calendar: the length and the rest of the interval are given with each request, or the code is invalid.
- LeakyConformance.Conformance: assumes requests stamped by the owner's clock, hits not negative and no reset.
- LeakyConformance.ConformsIff: with a token tolerance the two halves, RefillableConforms and SlowRefillBreaks, leave between them the bursts that refill in time but for that tolerance; CodeConformsIff is exact for the code where its tolerances show in no answer.
- LeakyExpiry.ExpiryIsInvisible: zero tolerances; the requests it excludes are exactly those that break it.
- LeakyStatus.QueryIsSeenIff: zero tolerances and a fixed configuration; CodeQueryIsSeenIff has the code's.
- EveryKey.PoolServesKeysAlone: what the key holds at the start is a leaky bucket no store wants to be asked about again.
- EveryKey.StoredPoolConforms: a bucket that the store holds for the key at the start has the configuration of the requests.
- EveryKey.StoredPoolServesKeysAlone: the key itself gets no items from peers, which are written to the cache and not to the store; the store answers with an item of the key it was asked for.
- The messages of validateMaxWait: requests reach the algorithm checked, as both entry points do.
- What UpdatePeerGlobals broadcasts: it overwrites local spending with a peer's answer; here it is any item added.
- LruCache.LRUCache.Add: a list element and its item are one object, where the source has an element pointing to an item.
- WorkerPool.WorkerPool.RateLimit: a worker's cache is its recency sequence, not the objects of LruCache; AddCacheItem is called with the item's own key, as its one caller does.
- Cancelled contexts in the pool: a caller that stops waiting changes nothing in its worker; a load or store cut short is not modelled.
- Ring.SortSlice: an insertion sort stands for the library's sort, of which only the result matters.
- Ring.OneOwner: hash functions are arbitrary; when two peers share a hash the source's sort may put either first, so a unique owner needs that no two do. The picker for other data centers is not modelled.
- Adding a peer twice to one ring, which doubles its replicas: the model's peers are a set and the ring's contents are stated as a set of replicas.
- GlobalHits.SendHits: what the owners answer; hits whose request fails, or that are pending at shutdown, are lost in the source too.
- Broadcasting: reading each key's status and sending it to the peers.
- Forwarding.AsyncRequest: what getLocalRateLimit and the peer do with the hits; they are oracles here.
- PeerClient.StepKeepsInv: a caller's id stands for its request, and a peer call always returns, by its timeout. Waiting for the wait group with a deadline is not modelled.
- GetPeerRateLimits on the owner's side, HealthCheck, last errors, discovery, configuration, tracing and metrics.
