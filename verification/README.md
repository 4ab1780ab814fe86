# redis-kit, verified

redis-kit is a toolkit of small protocols: locks with leases, rate limiters, a versioned repository, a
two-level cache and a reliable queue.  Each protocol is a handful of atomic Redis steps (a Lua script or a
single command) driven by Python code that keeps some state of its own.  This project models those steps
and proves what the protocols are for, over all inputs, runs and interleavings.

Protocols are modelled twice.

* Step by step: a class per object (`Redis.Server`, `LockScripts.Lock`, `SlidingWindow.Limiter`,
  `Lru.LRUCache`, `Tiered.TieredCache`, `EntityStore.Store`, ...) whose methods run the statements of the
  script or method in their order.  Their contracts give the whole new state, as a function of the old one.
* As a state machine over those same functions: the events are the atomic steps of any number of clients,
  the passing of time and the expiry of keys, and a run is any sequence of enabled events.  The theorems
  are about all runs.

| file | content |
|---|---|
| `redis.dfy` | the server: a map from keys to typed values with deadlines, its clock, and the commands used |
| `lock_scripts.dfy`, `watchdog.dfy`, `lock_protocol.dfy`, `reentrant.dfy`, `reentrant_watch.dfy` | the nine lock scripts, the renewing timers and their handle, and every interleaving of clients of one lock |
| `sliding_window.dfy`, `token_bucket.dfy` | the limiters, the ideal limiters that never forget, and their equality |
| `sliding_window_exact.dfy`, `token_bucket_exact.dfy` | what exactly they admit and report |
| `lru.dfy`, `lru_retention.dfy`, `lru_inclusion.dfy`, `lru_reference.dfy` | the local cache, how long it keeps a key, two sizes of it compared, and the plain map it stands for |
| `tiered.dfy`, `transparency.dfy` | the two-level cache, and for a sole user against the Redis cache alone |
| `staleness.dfy`, `tiered_runs.dfy` | the two-level cache among others, and its calls as runs among them |
| `cache_pipeline.dfy`, `cache_store.dfy` | the stored form of values, and the Redis cache under it |
| `decimal.dfy`, `hash_codec.dfy`, `repository.dfy`, `entity_store.dfy` | decimal text, typed hash fields, the optimistic-lock scripts and the client around them |
| `ttl.dfy`, `ttl_text.dfy` | the duration parser, and what texts say in seconds |
| `reliable_queue.dfy` | the queue with acknowledgement and recovery |

Modelling choices that matter:

* The server clock counts microseconds; deadlines are whole milliseconds.  A key is gone once the clock is
  strictly past its deadline.  Expiry is the clock event itself, so it can fall between any two other steps.
* Owner tokens and set members are fresh where the code draws a UUID.  Reentrant owners are arbitrary.
* Clock readings and coin flips of the Python side are arbitrary; the readings of one two-level cache come from a
  monotone clock, and its methods return, as ghost results, the local lookups and stores they made and when.
* The watchdog is a machine of its own (`Watchdog.Next`), embedded in the lock protocol: each timer thread
  is in one of eight phases, and `cancel` runs timer by timer among them.
* Floats of an entity stand for their bit patterns and datetimes for their instants; printing and parsing them
  is assumed to be an inverse pair.  Numbers of the token bucket are reals.  The flooring done by its script is kept.

Where the code does less than one may read into it, a lemma says exactly when it holds, or gives an input:

* All readers of a name share one deadline.  Exclusion needs equal timeouts and punctual readers:
  `LockProtocol.ExactStep` and `LockProtocol.CoverExact` give the conditions of one step, and
  `LockProtocol.ShorterTimeoutBreaks` and `LockProtocol.OverrunReaderBreaks` give runs that fail without them.
* The watchdog handle lists at most two timers exactly if each renewal, when it prunes, finds every other
  listed thread ended (`Watchdog.AtMostTwoExact`); otherwise it can list three (`Watchdog.ThreeListed`).
* A renewal chain of an inner reentrant block that escapes `cancel` goes on renewing while the owner holds an
  outer block: `ReentrantWatchdog.ChainEndsExact` says when it ends, `ReentrantWatchdog.LateRenewals` gives runs.
* A larger local cache need not hit whenever a smaller one does, because each cleanup samples by its own
  size: `LruInclusion.SweepExact` gives the condition, `LruInclusion.CleanupBreaksInclusion` a run.
* A negative cost can lift a token bucket above its capacity: `TokenBucket.StoredLevelExact`, and
  `TokenBucket.NegativeCostOverfills` for a run.
* The token bucket's `retry_after` is floored to a millisecond and so may be too early:
  `TokenBucket.HintIsExact`, and `TokenBucket.EarlyHint` for a run.
* An admission's `reset_at` of the token bucket is computed before its own cost is taken, so the bucket is not yet
  full then: `TokenBucketExact.ResetIsExact`, and `TokenBucketExact.EarlyReset` for an attempt.
* `delete_pattern` counts a key as often as SCAN yields it: `Tiered.CountExact`.
* A string equal to the None sentinel does not survive the hash encoding: `HashCodec.RoundTrip`, and
  `HashCodec.SentinelIsLost` for an entity.
* A value whose stored form is the None marker does not survive the cache encoding: `CachePipeline.RoundTrip`.
  That needs a custom serializer or compressor (`CachePipeline.MarkerIsLost`): no JSON, msgpack or pickle form
  of a value is the marker.
* Settling a handle twice, or after recovery, duplicates a message or counts it twice:
  `ReliableQueue.ConservedStep`, and `ReliableQueue.SettledTwice` for runs.  No unacknowledged message is ever
  lost: `ReliableQueue.NoLoss`.

## Model

| member | source | states |
|---|---|---|
| `LockScripts.Lock.SetNx` | redis_kit/lock/lock.py:70-73 | SET NX EX leaves a held key alone and answers 0, and otherwise stores the owner with its lease and answers 1 |
| `LockScripts.Lock.ReleaseLock` | redis_kit/lock/_lua.py:4-10 | the key is deleted exactly when the caller's token is stored; anybody else changes nothing and gets 0 |
| `LockScripts.Lock.ExtendLock` | redis_kit/lock/_lua.py:48-54 | only the stored owner moves the deadline; a timeout that is not positive deletes the key, as EXPIRE does |
| `LockScripts.Lock.ReentrantAcquire` | redis_kit/lock/_lua.py:13-29 | free: owner and count 1; own: count plus one; either way the deadline is renewed; foreign: refused, unchanged |
| `LockScripts.Lock.ReentrantRelease` | redis_kit/lock/_lua.py:32-45 | the owner's count drops by one, the key goes at zero, the deadline stays; a stranger changes nothing |
| `LockScripts.Lock.ExtendReentrantLock` | redis_kit/lock/_lua.py:56-63 | only the recorded owner moves the deadline |
| `LockScripts.Lock.ReadAcquire` | redis_kit/lock/_lua.py:67-78 | refused while a writer is stored; otherwise one more reader and a new shared deadline |
| `LockScripts.Lock.ReadRelease` | redis_kit/lock/_lua.py:80-87 | one reader less, the field removed at zero, also when the hash had expired; the deadline stays |
| `LockScripts.Lock.WriteAcquire` | redis_kit/lock/_lua.py:91-106 | refused while a writer or a positive reader count is stored; otherwise the writer is stored |
| `LockScripts.Lock.WriteRelease` | redis_kit/lock/_lua.py:110-119 | the writer key is deleted exactly when the caller's token is stored |
| `LockScripts.Lock.SpinAcquire` | redis_kit/lock/lock.py:39-48 | acquired if and only if some attempt succeeds in a round all of whose clock readings so far lie before the deadline; one attempt decides without a timeout |
| `Watchdog.InvStep` | redis_kit/lock/lock.py:18-33 | every step of timer threads, pruning and cancelling keeps the chain invariant: one timer can still renew, and cancel will reach it unless a renewal is under way |
| `Watchdog.OnePending` | redis_kit/lock/lock.py:118-138 | in every interleaving at most one timer of a chain can still renew |
| `Watchdog.RefusalEndsChain` | redis_kit/lock/lock.py:122-132 | after a refused renewal no timer of the chain is left that can renew |
| `Watchdog.DeadStays` | redis_kit/lock/lock.py:122-138 | and it stays so: nothing fires or renews in any later step |
| `Watchdog.CancelSilences` | redis_kit/lock/lock.py:29-33 | after a cancel that met no renewal under way no timer fires or renews again, in any continuation |
| `Watchdog.AtMostTwoExact` | redis_kit/lock/lock.py:126-131 | wherever a renewal happens, after its prune and spawn the handle lists at most two timers if and only if pruning found every other listed thread ended |
| `Watchdog.AtMostTwoListed` | redis_kit/lock/lock.py:126-131 | so if every prune finds the other listed threads ended, the handle never lists more than two timers in the whole run |
| `Watchdog.CancelReachesAll` | redis_kit/lock/lock.py:29-33 | however timer threads step in between, when cancel ends every listed timer carries the cancelled mark |
| `Watchdog.PruneExact` | redis_kit/lock/lock.py:126-128 | in every reachable state pruning leaves at most one listed timer if and only if every other listed thread has ended |
| `Watchdog.ThreeListed` | redis_kit/lock/lock.py:126-131 | a run of two slow rounds after which the handle lists three timers |
| `Watchdog.TimerThread.Cancel` | redis_kit/lock/lock.py:29-33 | cancelling marks a timer and leaves its phase alone |
| `Watchdog.Handle.Add` | redis_kit/lock/lock.py:25-27 | the new timer is listed last |
| `Watchdog.Handle.Cancel` | redis_kit/lock/lock.py:29-33 | with the timer threads moving through their phases between any two cancellations, every listed timer ends up cancelled and the list empty |
| `Watchdog.Handle.Prune` | redis_kit/lock/lock.py:127-128 | exactly the threads that are alive stay listed, in their order |
| `LockProtocol.LeaseSafety` | redis_kit/lock/lock.py:50-116 | in every run a block whose lease has not ended is the stored owner with exactly that lease, so there is at most one |
| `LockProtocol.VerdictsAreLeases` | redis_kit/lock/_lua.py:48-54 | in every run a release or renewal succeeds if and only if the caller is in its block and its lease has not ended |
| `LockProtocol.OnlyHolderChangesRecord` | redis_kit/lock/_lua.py:4-10 | the stored record changes only by its holder's release or renewal or by time passing its lease |
| `LockProtocol.NeverLapses` | redis_kit/lock/lock.py:118-138 | if every renewal lands before the lease in force ends, the block stays the stored owner through the whole run |
| `LockProtocol.NoLateRenewal` | redis_kit/lock/lock.py:96-101 | after a release no renewal succeeds, at most one is attempted, that one ends its chain, and none is attempted if cancel met no renewal under way |
| `LockProtocol.AlwaysInv` | redis_kit/lock/lock.py:50-201 | the lease and watchdog invariant holds after every run of any number of clients |
| `LockProtocol.EntersIff` | redis_kit/lock/lock.py:70-76 | in every run an attempt on a basic lock gets in if and only if it is free, a writer if and only if there is no writer and no reader, a reader if and only if there is no writer; a lease entered runs for its timeout from now |
| `LockProtocol.ReadWriteExclusion` | redis_kit/lock/lock.py:140-201 | with one reader timeout and punctual readers the count equals the readers inside in every reachable state, and while one is inside no writer is stored, nor is any writer in its block within its lease |
| `LockProtocol.ExactStep` | redis_kit/lock/_lua.py:67-119 | one step keeps count and exclusion exact if and only if time does not pass the shared deadline under a reader, and an admitted reader asks for a positive timeout |
| `LockProtocol.CoverExact` | redis_kit/lock/_lua.py:75-76 | a new reader keeps all leases covered by the shared deadline if and only if its own ends no earlier than the others |
| `LockProtocol.ShorterTimeoutBreaks` | redis_kit/lock/_lua.py:75-76 | a run with two reader timeouts in which a writer gets in beside a reader within its lease |
| `LockProtocol.OverrunReaderBreaks` | redis_kit/lock/_lua.py:80-87 | a run in which an overrun reader's release removes another reader's count and lets a writer in |
| `ReentrantProtocol.StrangersChangeNothing` | redis_kit/lock/_lua.py:13-63 | no acquire, renewal or release by anyone but the recorded owner changes the record, and its release is refused |
| `ReentrantProtocol.RecordIsSafe` | redis_kit/lock/lock.py:63-68 | in every run, lapses included, a stored record is of an owner inside and counts at most its depth, and strangers, stale releases among them, do not change it |
| `ReentrantProtocol.ExactStep` | redis_kit/lock/_lua.py:13-45 | one step keeps "key exists iff one owner is inside, count is its depth" if and only if no lease lapses in it |
| `ReentrantProtocol.AlwaysExact` | redis_kit/lock/lock.py:63-111 | while no lease lapses the count is the holder's nesting depth, the key exists iff that is positive, and nobody else is inside |
| `ReentrantProtocol.ReleasesSucceed` | redis_kit/lock/lock.py:108-111 | while no lease lapses every release of somebody inside succeeds |
| `ReentrantProtocol.RenewalMoves` | redis_kit/lock/_lua.py:22-59 | a renewal and a further enter by the owner move the deadline to now plus the timeout |
| `ReentrantProtocol.LeaseInForce` | redis_kit/lock/_lua.py:13-63 | in every run the stored deadline is the time of the owner's last successful enter or renewal plus its timeout, and has not passed |
| `ReentrantProtocol.NeverLapses` | redis_kit/lock/lock.py:118-138 | if every renewal lands before the lease in force ends, the record stays through the run, counting the blocks entered and left |
| `ReentrantWatchdog.DepthIsBlocks` | redis_kit/lock/lock.py:63-111 | in every run of blocks with their watchdogs an owner's depth is the number of blocks it is inside of |
| `ReentrantWatchdog.Projects` | redis_kit/lock/lock.py:118-138 | the record goes through a run of the protocol without watchdogs, so everything proved of those runs holds here |
| `ReentrantWatchdog.MayLeave` | redis_kit/lock/lock.py:96-101 | in every run a block can be left as soon as its cancel is done |
| `ReentrantWatchdog.ChainEndsExact` | redis_kit/lock/lock.py:122-132 | in every run a firing timer ends its chain if and only if its owner's record is gone by then, whether or not its own block was left |
| `ReentrantWatchdog.ChainEndsOutside` | redis_kit/lock/lock.py:122-132 | while no lease lapses that is if and only if the owner has left all its blocks |
| `ReentrantWatchdog.EndedForGood` | redis_kit/lock/lock.py:122-132 | in every continuation a chain that has ended stays so and renews nothing |
| `ReentrantWatchdog.LateOnlyIfEscaped` | redis_kit/lock/lock.py:96-99 | a renewal succeeds after the release of its block only if cancel met one under way |
| `ReentrantWatchdog.LateRenewals` | redis_kit/lock/lock.py:118-138 | for every n there is a run in which n renewals of an inner block succeed after it was left, its outer block being held |
| `ReentrantWatchdog.LeaseInForce` | redis_kit/lock/lock.py:118-138 | the same of blocks with watchdogs: the deadline follows the owner's last successful enter or renewal, whichever block it came from |
| `ReentrantWatchdog.NeverLapses` | redis_kit/lock/lock.py:118-138 | if time never passes the lease in force, the record stays the owner's with its exact count as long as any one of its blocks is not left |
| `SlidingWindow.Limiter.Create` | redis_kit/ratelimit/_base.py:19-22 | a limiter is built exactly when limit and window are positive |
| `SlidingWindow.Limiter.Acquire` | redis_kit/ratelimit/_lua.py:46-79 | prune, count, then add with a new deadline or name the retry time: new key and all five answers |
| `SlidingWindow.Limiter.Denial` | redis_kit/ratelimit/_lua.py:69-76 | a denial answers with the time at which the oldest admission that still counts leaves the window |
| `SlidingWindow.Limiter.Reset` | redis_kit/ratelimit/sliding_window.py:24-25 | resetting removes the key and nothing else |
| `SlidingWindow.SlidingWindowIsExact` | redis_kit/ratelimit/_lua.py:57-78 | over every run, pruning and expiry included, all answers equal those of a limiter that keeps every admission |
| `SlidingWindow.SameRun` | redis_kit/ratelimit/_lua.py:57-78 | the same from any pair of states that agree, so also for any stretch in the middle of a run |
| `SlidingWindow.EveryWindowWithinLimit` | redis_kit/ratelimit/_lua.py:57-68 | in every run every half-open window of the configured length holds at most `limit` admissions |
| `SlidingWindowExact.AtMostLimit` | redis_kit/ratelimit/_lua.py:57-68 | the same with the window written out: at most `limit` admissions after any instant and up to a window later |
| `SlidingWindowExact.AllowedIff` | redis_kit/ratelimit/_lua.py:57-68 | in every run an attempt is admitted if and only if fewer than `limit` admissions lie in the half-open window ending now, and the key then lives for the window and a second |
| `SlidingWindowExact.RemainingIsExact` | redis_kit/ratelimit/_lua.py:61-62 | in every run, right after an attempt exactly `remaining` more are admitted |
| `SlidingWindowExact.ResetIsExact` | redis_kit/ratelimit/_lua.py:64-75 | in every run, after an admission with no other since the window is empty exactly from `reset_at` on; after a denial `reset_at` ends `retry_after` |
| `SlidingWindow.RetryAfterIsExact` | redis_kit/ratelimit/_lua.py:69-76 | after any denial in any run, every attempt sooner than `retry_after` is denied, and the next other attempt is admitted if and only if it comes no sooner |
| `TokenBucket.Limiter.Create` | redis_kit/ratelimit/_base.py:43-46 | a limiter is built exactly when rate and capacity are positive |
| `TokenBucket.TtlIsLongEnough` | redis_kit/ratelimit/_base.py:52 | the keys live at least twice as long as an empty bucket needs to fill |
| `TokenBucket.Limiter.Acquire` | redis_kit/ratelimit/_lua.py:3-44 | both keys are rewritten with the new level, the time and the lifetime, and all five answers are those of the refilled level |
| `TokenBucket.Limiter.Decide` | redis_kit/ratelimit/_lua.py:25-43 | the arithmetic between reads and writes yields the level left and the answer whose meaning the rows on runs give |
| `TokenBucket.Limiter.Reset` | redis_kit/ratelimit/token_bucket.py:18-20 | resetting removes both keys and nothing else |
| `TokenBucket.ForgettingIsInvisible` | redis_kit/ratelimit/_lua.py:15-39 | over every run, whatever the costs, a bucket whose keys expire answers as one whose keys never do |
| `TokenBucket.SameRun` | redis_kit/ratelimit/_lua.py:15-39 | the same from any pair of states that agree, so also for any stretch in the middle of a run |
| `TokenBucket.RefillComposes` | redis_kit/ratelimit/_lua.py:25-26 | refilling in two steps is refilling in one: waiting adds rate times seconds up to the capacity |
| `TokenBucket.AdmissionBound` | redis_kit/ratelimit/_lua.py:25-39 | in any stretch of any run the admitted cost is at most capacity + rate * duration |
| `TokenBucketExact.Conservation` | redis_kit/ratelimit/_lua.py:25-39 | over any stretch of any run the level after plus the admitted cost equals the level before plus the refill minus what exceeded the capacity |
| `TokenBucketExact.BurstIsGreedy` | redis_kit/ratelimit/_lua.py:26-39 | at any point of any run, attempts without waiting are admitted exactly while the costs admitted so far plus their own stay within the level, and each reports the whole tokens left |
| `TokenBucketExact.RemainingIsExact` | redis_kit/ratelimit/_lua.py:43 | right after an attempt exactly `remaining` more of cost one are admitted |
| `TokenBucketExact.ResetIsExact` | redis_kit/ratelimit/_lua.py:30-42 | left alone the bucket is full exactly from an instant that a denial reports, floored to a millisecond, and an admission reports less the time its own cost takes to refill |
| `TokenBucketExact.EarlyReset` | redis_kit/ratelimit/_lua.py:30-33 | an admission from a full bucket reports that it is full now, with one token less in it |
| `TokenBucketExact.KeysLive` | redis_kit/ratelimit/_lua.py:38-39 | every attempt gives both keys twice the filling time, rounded up to whole seconds |
| `TokenBucket.StoredLevelInRange` | redis_kit/ratelimit/_lua.py:25-39 | without negative costs the stored level is always between zero and the capacity |
| `TokenBucket.StoredLevelExact` | redis_kit/ratelimit/_lua.py:32-36 | one attempt keeps the level in range if and only if it is denied or its cost does not lift the level above the capacity |
| `TokenBucket.NegativeCostOverfills` | redis_kit/ratelimit/_lua.py:32-38 | a run in which a negative cost on a full bucket stores more than the capacity |
| `TokenBucket.RetryIsExact` | redis_kit/ratelimit/_lua.py:25-43 | after a denial of an affordable cost, polling with it is denied before (cost - level)/rate seconds and admitted exactly from then on, however often it was polled |
| `TokenBucket.HintIsExact` | redis_kit/ratelimit/_lua.py:34-41 | after any denial of an affordable cost in any run, an attempt exactly `retry_after` later is admitted if and only if (cost - level) * 1000 / rate is whole, and one a millisecond later always is |
| `TokenBucket.EarlyHint` | redis_kit/ratelimit/_lua.py:41 | a run at three tokens a second in which an attempt after the hint of 333 ms is denied again |
| `TokenBucket.TooExpensive` | redis_kit/ratelimit/_lua.py:26-27 | a cost above the capacity is denied in every run |
| `Lru.LRUCache.Lookup` | redis_kit/cache/local.py:22-33 | an expired entry is dropped and missed, a live one becomes the newest and is returned, a missing one changes nothing |
| `Lru.LRUCache.Insert` | redis_kit/cache/local.py:35-47 | the entry becomes the newest, the oldest go until the size fits, and a lucky call cleans up; a negative size raises on the emptied cache |
| `Lru.LRUCache.EvictOldest` | redis_kit/cache/local.py:43-44 | exactly the newest `maxsize` entries stay, in order |
| `Lru.LRUCache.EvictExpiredSample` | redis_kit/cache/local.py:49-58 | exactly the expired entries among every `step`-th one are removed, and the order of the rest is kept |
| `Lru.LRUCache.Delete` | redis_kit/cache/local.py:60-62 | the key goes, everything else keeps its place |
| `Lru.LRUCache.Clear` | redis_kit/cache/local.py:64-66 | nothing stays |
| `LruRetention.Retention` | redis_kit/cache/local.py:22-44 | in every run without cleanup a key is held if and only if, since its last set or hit and without its removal or expiry, fewer than `maxsize` distinct other keys have been put or hit, those removed or expired not counted |
| `LruRetention.HitsIff` | redis_kit/cache/local.py:22-44 | so a lookup hits if and only if the key is held in that sense and the deadline of its last set has not passed |
| `LruRetention.LeastRecentlyUsed` | redis_kit/cache/local.py:32-44 | after a set or hit of a key and uses of other keys only, it is held if and only if fewer than `maxsize` distinct others were put or hit |
| `LruReference.LivesFor` | redis_kit/cache/local.py:29-42 | an entry set at t with lifetime d is hit until t + d and missed after |
| `LruReference.CleansFrom` | redis_kit/cache/local.py:46-58 | up to ten entries are never cleaned, up to nineteen of everything expired, more at least of an expired oldest one, and never without a lucky coin |
| `LruInclusion.GetIncluded` | redis_kit/cache/local.py:22-33 | a lookup in a smaller and a larger cache keeps the inclusion, and a hit in the smaller is the same hit in the larger |
| `LruInclusion.SetIncluded` | redis_kit/cache/local.py:35-44 | an insertion with eviction in both, before any cleanup, keeps the inclusion |
| `LruInclusion.SweepExact` | redis_kit/cache/local.py:45-58 | a cleanup, each cache with its own coin, keeps the inclusion if and only if the larger drops nothing the smaller keeps and does not fall behind in room |
| `LruInclusion.StepExact` | redis_kit/cache/local.py:22-66 | one operation keeps the inclusion if and only if its cleanups do, and a hit in the smaller is always the same hit in the larger |
| `LruInclusion.InclusionRun` | redis_kit/cache/local.py:22-66 | in every run of the same operations in which no cleanup violates that condition, the larger cache hits whenever the smaller does, with the same value, and the smaller stays a subsequence with as little room left |
| `LruInclusion.InclusionWithoutCleanup` | redis_kit/cache/local.py:22-44 | so in every run from empty caches in which the cleanup branch is not taken |
| `LruInclusion.CleanupBreaksInclusion` | redis_kit/cache/local.py:45-58 | a run with equal coins, sizes 19 and 20, at whose end only the smaller cache hits |
| `LruReference.HitsAreTrue` | redis_kit/cache/local.py:22-66 | in every run, cleanups included, for every size, each hit is what a plain map with deadlines answers: nothing removed, overwritten or expired is ever returned |
| `LruReference.ExactWhileItFits` | redis_kit/cache/local.py:22-66 | while that map never holds more than `maxsize` keys and the clock is monotone, the cache answers exactly as it does, hits and misses, whatever its cleanups took |
| `Tiered.TieredCache.Get` | redis_kit/cache/tiered.py:16-27 | a live local entry answers and becomes the newest; otherwise Redis answers, and its value is stored with the local lifetime or the marker with the negative one, at times within the call |
| `Tiered.TieredCache.Set` | redis_kit/cache/tiered.py:29-31 | the value is written to Redis and stored locally with the local lifetime, at a time within the call |
| `Tiered.TieredCache.Delete` | redis_kit/cache/tiered.py:33-35 | the key goes from both levels and nothing else changes |
| `Tiered.TieredCache.Remember` | redis_kit/cache/tiered.py:37-50 | a live local value answers; otherwise, also under a live marker, Redis answers, or the factory whose value is written to it, and the answer is stored with the local lifetime |
| `Tiered.TieredCache.GetMany` | redis_kit/cache/tiered.py:52-72 | all keys are looked up locally in order; those missing are answered by Redis and stored once each, in the order of first occurrence, values with the local lifetime and markers with the negative one |
| `Tiered.TieredCache.SetMany` | redis_kit/cache/tiered.py:74-77 | all pairs are written to Redis, then stored locally one after the other with the local lifetime |
| `Tiered.TieredCache.DeletePattern` | redis_kit/cache/tiered.py:79-81 | the local level is emptied, exactly the matching keys go, and the count is that of the keys SCAN yielded |
| `Tiered.OnceInOrder` | redis_kit/cache/cache.py:173-175 | the answers of a batch come without repetition in the order of first occurrence |
| `CacheStore.Cache.GetRaw` | redis_kit/cache/cache.py:54-71 | the answer is the decoded text under the prefixed key, a miss told apart from a cached None |
| `CacheStore.Cache.GetManyRaw` | redis_kit/cache/cache.py:158-176 | one such answer per distinct key |
| `CacheStore.Cache.Set` | redis_kit/cache/cache.py:77-93 | the encoded text is stored under the prefixed key, with a deadline exactly if the lifetime is positive; the key reads as the encoding decodes and every other key as before |
| `CacheStore.Cache.Delete` | redis_kit/cache/cache.py:95-105 | the key reads as a miss and every other key as before |
| `CacheStore.Cache.SetMany` | redis_kit/cache/cache.py:178-199 | each key holds the last value written to it, encoded, with the deadline of that write, and every other key is as before |
| `CacheStore.Cache.OwnCell` | redis_kit/cache/cache.py:185-192 | each key of a batch gets its own value and its own lifetime |
| `CacheStore.Cache.LivesFor` | redis_kit/cache/cache.py:84-87 | a stored key lives exactly the given seconds, or for good if they are absent or not positive |
| `CacheStore.Cache.ReadsAsMap` | redis_kit/cache/cache.py:178-199 | with a lossless pipeline that is what a map of values, as the two-level cache assumes it, would hold |
| `Tiered.Cache.DeletePattern` | redis_kit/cache/cache.py:210-231 | in batches of any size exactly the matching keys are deleted, and every key SCAN yields is counted |
| `Tiered.CountExact` | redis_kit/cache/cache.py:215-225 | that count is the number of keys deleted if and only if SCAN repeats none, and never less |
| `Transparency.Perform` | redis_kit/cache/tiered.py:16-81 | for a sole user each of the seven operations answers and leaves Redis as the Redis cache alone would, and the factory is asked if and only if Redis lacks the key |
| `Transparency.Replay` | redis_kit/cache/tiered.py:16-81 | transparency: so does every sequence of them, for all sizes, lifetimes, clock readings, evictions and cleanups |
| `Staleness.BoundedStaleness` | redis_kit/cache/tiered.py:16-77 | among concurrent threads and foreign writers, a local answer at time t was held by Redis no earlier than t - local_ttl - d, and a negative one means it lacked the key no earlier than t - negative_ttl - d |
| `Staleness.AlwaysInv` | redis_kit/cache/local.py:22-47 | in every run every local entry, and every one about to be stored, is justified by a recorded state of Redis recent enough for its deadline |
| `TieredRuns.GetIsRun` | redis_kit/cache/tiered.py:16-27 | what a get does to the local level is a sequence of steps of that machine |
| `TieredRuns.SetIsRun` | redis_kit/cache/tiered.py:29-31 | so is a set |
| `TieredRuns.DeleteIsRun` | redis_kit/cache/tiered.py:33-35 | so is a delete |
| `TieredRuns.RememberIsRun` | redis_kit/cache/tiered.py:37-50 | so is a remember |
| `TieredRuns.GetManyIsRun` | redis_kit/cache/tiered.py:52-72 | so is a get of many |
| `TieredRuns.SetManyIsRun` | redis_kit/cache/tiered.py:74-77 | so is a set of many |
| `TieredRuns.DeletePatternIsRun` | redis_kit/cache/tiered.py:79-81 | so is a delete by pattern |
| `TieredRuns.GetIsRecent` | redis_kit/cache/tiered.py:16-27 | after any such run, with anything others do in between, whatever get answers is held by Redis now or was no longer ago than the lifetime of its kind and the delay |
| `TieredRuns.RememberIsRecent` | redis_kit/cache/tiered.py:37-50 | the same of remember, which never answers from the marker |
| `TieredRuns.NewEntry` | redis_kit/cache/local.py:35-42 | every entry a call adds is one of its stores and lives from a moment of the call on for exactly the lifetime of that store |
| `TieredRuns.StoredDeadline` | redis_kit/cache/tiered.py:23-26 | what a get stores expires a lifetime of its kind after a moment of the call |
| `CachePipeline.RoundTrip` | redis_kit/cache/_logic.py:68-83 | a stored value comes back if and only if it is None or its stored form is not the None marker, and a miss is never a stored value |
| `CachePipeline.MarkerIsLost` | redis_kit/cache/_logic.py:68-83 | a serializer that stores text as it is loses the marker text: it comes back as a cached None |
| `CachePipeline.StoredText` | redis_kit/cache/_logic.py:68-74 | the marker for None, and otherwise the serialized value, compressed last |
| `Decimal.ParsePrint` | redis_kit/repository/_hash.py:51 | reading the decimal text of an int gives the int back |
| `Decimal.PrintIsInjective` | redis_kit/repository/_lua.py:24-25 | two versions have the same text if and only if they are equal, so comparing text compares versions |
| `Decimal.WhiteSpace` | redis_kit/cache/_logic.py:23 | exactly ten ASCII characters count as white space |
| `HashCodec.Encode` | redis_kit/repository/_hash.py:39-52 | the loop yields one text per field: the sentinel, "1" or "0", the ISO form, or the printed value |
| `HashCodec.Decode` | redis_kit/repository/_hash.py:55-99 | the loop reads every declared field by its type or default and raises for the first that cannot be read |
| `HashCodec.FromHashFields` | redis_kit/repository/_hash.py:70-99 | reading a hash yields an entity if and only if each declared field, and no other, reads as that entity has it |
| `HashCodec.StoredForms` | redis_kit/repository/_hash.py:44-51 | None is the sentinel, truth values are 1 and 0, strings are themselves, and what is not 1 reads as false |
| `HashCodec.LacksField` | redis_kit/repository/_hash.py:82-88 | a hash that lacks a declared field reads with its default, or reports the first such field without one |
| `HashCodec.Unparsable` | redis_kit/repository/_hash.py:89-96 | a text that its field's type cannot parse is reported, if every field before it can be read |
| `HashCodec.RoundTrip` | redis_kit/repository/_hash.py:39-99 | a typed entity comes back from its hash if and only if none of its strings is the sentinel |
| `HashCodec.PlainIsInverse` | redis_kit/repository/_hash.py:48-51 | printing and parsing as assumed for floats and datetimes exist |
| `HashCodec.SentinelIsLost` | redis_kit/repository/_hash.py:44-45 | an entity whose string is the sentinel comes back with None in its place |
| `Repository.Scripts.OptimisticLockSet` | redis_kit/repository/_lua.py:19-48 | refused exactly if a different version is stored; otherwise fields are merged, the replaced state is pushed and the history trimmed, together |
| `Repository.Scripts.OptimisticLockPartialSet` | redis_kit/repository/_lua.py:57-86 | refused also if no version is stored; otherwise the same |
| `Repository.Unversioned` | redis_kit/repository/_lua.py:24-26 | without a stored version the full write commits and the partial one is refused, and a first write leaves no history |
| `Repository.NoFields` | redis_kit/repository/_lua.py:34-46 | a write of no fields leaves the hash and still records it |
| `Repository.CommitGrows` | redis_kit/repository/_lua.py:37-46 | a commit puts the replaced state in front of the history, which keeps at most a positive bound |
| `Repository.Scripts.Arguments` | redis_kit/repository/_lua.py:29-33 | the loop gathers alternating names and values, the last one winning |
| `Repository.SucceedsIff` | redis_kit/repository/_lua.py:24-27 | in every reachable state a script commits if and only if it expects the number of states stored so far, and a refused one leaves hash and history untouched |
| `Repository.AlwaysInv` | redis_kit/repository/_lua.py:19-86 | in every interleaving the hash is the last stored state, versions count up from 1, and history is the rest |
| `Repository.HistoryIsThePast` | redis_kit/repository/repository.py:164-172 | in every run, at version v the history is the v - 1 earlier states, newest first, with versions v - 1, v - 2, ..., or the first max_history of them |
| `Repository.NoLostUpdate` | redis_kit/repository/repository.py:32-52 | committed operations expected 1, 2, 3, ... in turn, so no two that read the same version both commit |
| `Repository.VersionDetermines` | redis_kit/repository/repository.py:36-40 | among all states ever stored, the version names exactly one |
| `Repository.CommitsWhatItRead` | redis_kit/repository/repository.py:78-101 | in every interleaving a delete or restore commits if and only if the stored state is the very one it read |
| `Repository.PatchesWhatItRead` | redis_kit/repository/_lua.py:62-74 | in every interleaving a committed delete or restore stores the state its client read with exactly its patch merged in |
| `Repository.UndisturbedCommits` | redis_kit/repository/repository.py:78-101 | at any point of any run a delete or restore right after its read commits |
| `Repository.SaveCommitsIffNewest` | redis_kit/repository/repository.py:32-52 | a save commits if and only if the stored version is the one it was made from |
| `EntityStore.Store.Read` | redis_kit/repository/repository.py:71-76 | no hash is "not found"; otherwise the entity, deleted or not, or a failure to read it |
| `EntityStore.Store.Find` | redis_kit/repository/repository.py:61-69 | a missing or deleted entity is None, any other is returned |
| `EntityStore.Store.Save` | redis_kit/repository/repository.py:32-52 | on success the entity returned has the next version, the time of the save and else the fields given, and is what was written, with the history kept to the bound; otherwise nothing changes and a conflict is reported |
| `EntityStore.Store.Arguments` | redis_kit/repository/repository.py:42-46 | the argument list carries the expected version, the history bound, and every field of the entity once |
| `EntityStore.Store.CommitDelete` | redis_kit/repository/repository.py:85-101 | the four audit fields are patched against the version read, or a conflict is reported |
| `EntityStore.Store.CommitRestore` | redis_kit/repository/repository.py:118-137 | an entity that is not deleted is refused unchanged; otherwise as for delete, returning the restored entity |
| `EntityStore.PatchReads` | redis_kit/repository/_lua.py:66-74 | merging a patch into a hash changes what is read by exactly what the patch says |
| `EntityStore.SavedIsStored` | redis_kit/repository/repository.py:32-52 | in every interleaving what save runs is an event of the run, and if it commits, the hash stored right after reads as exactly the entity it returns if and only if no string is the sentinel; that entity has the next version, the time of the save, and else the fields given |
| `EntityStore.RestoredIsStored` | redis_kit/repository/repository.py:111-137 | in every interleaving, if the script run by restore commits, the hash stored right after it reads as exactly what restore returns, and is visible |
| `EntityStore.DeleteHides` | redis_kit/repository/repository.py:85-98 | after a delete the hash reads as the same entity marked deleted |
| `EntityStore.DeletedIsStored` | redis_kit/repository/repository.py:78-101 | in every interleaving, if the script run by delete commits, the hash stored right after it reads as the entity that delete read, marked deleted |
| `EntityStore.StoredCanBeRead` | redis_kit/repository/repository.py:61-101 | every typed entity free of the sentinel, stored in its first version, reads back as itself, and a delete or restore right after commits |
| `EntityStore.SomeEntity` | redis_kit/repository/model.py:7-24 | such an entity exists, with the version and deletion fields of the base model |
| `EntityStore.RestoreUndoesDelete` | redis_kit/repository/repository.py:78-137 | a delete and a restore leave everything but version and update time as it was |
| `EntityStore.ResultsDiffer` | redis_kit/repository/repository.py:36-137 | what save returns, delete leaves and restore returns differs from the entity in exactly the audit fields named, with these values |
| `EntityStore.Store.KeysDiffer` | redis_kit/repository/_base_repo.py:28-32 | different ids have different keys, and none is its own history's |
| `Ttl.ValidatorIsExact` | redis_kit/cache/_logic.py:23 | the automaton of the validating expression accepts a text if and only if it is a rendering of a non-empty list of segments |
| `Ttl.ScanIsExact` | redis_kit/cache/_logic.py:24 | on an accepted text the matches of the scan are exactly its segments, so their sum is the total |
| `Ttl.ParseTtl` | redis_kit/cache/_logic.py:27-46 | a number is truncated or, if negative, refused; a text in any case and spacing is accepted if and only if it renders segments, and yields their weighted sum |
| `Ttl.Scanned` | redis_kit/cache/_logic.py:41-45 | the loop sums number times unit over all matches |
| `TtlText.Units` | redis_kit/cache/_logic.py:22 | a number followed by d, h, m or s in either case says that many times 86400, 3600, 60 and 1 seconds |
| `TtlText.SaysBoth` | redis_kit/cache/_logic.py:41-45 | two such texts with any white space between them say the sum |
| `ReliableQueue.Queue.Put` | redis_kit/queue/reliable_queue.py:30-32 | the message enters at the front of the queue |
| `ReliableQueue.Queue.Get` | redis_kit/queue/reliable_queue.py:34-42 | the oldest message moves to the processing list and is handed out; an empty queue raises and changes nothing |
| `ReliableQueue.Queue.Ack` | redis_kit/queue/reliable_queue.py:44-46 | one copy leaves the processing list, if there is one |
| `ReliableQueue.Queue.Nack` | redis_kit/queue/_lua.py:8-12 | one copy leaves the processing list, if there is one, and the message enters the queue in any case |
| `ReliableQueue.Queue.RecoverStale` | redis_kit/queue/reliable_queue.py:61-79 | run alone it moves exactly min(max(0, max_items), processing) messages, the oldest ones, and keeps their order |
| `ReliableQueue.NoLoss` | redis_kit/queue/reliable_queue.py:30-79 | in every run with crashes, late and repeated settlements and recovery, a message never acked is on one of the lists |
| `ReliableQueue.ConservedStep` | redis_kit/queue/reliable_queue.py:44-53 | one step conserves messages if and only if a settlement finds its message on the processing list |
| `ReliableQueue.SettledTwice` | redis_kit/queue/reliable_queue.py:44-53 | runs with one message settled twice: two acks count it twice, two nacks queue it twice |
| `ReliableQueue.Conservation` | redis_kit/queue/reliable_queue.py:30-59 | if every handle is settled at most once and nothing is recovered, queue, processing and acked together are exactly what was put, and processing is exactly the open handles |
| `ReliableQueue.FirstInFirstOut` | redis_kit/queue/reliable_queue.py:30-42 | without nack and recovery the messages handed out, then those waiting, are exactly the messages put, in their order |
| `ReliableQueue.BackInLine` | redis_kit/queue/_lua.py:8-12 | a message handed back waits behind all others, and recovery takes the oldest one out |

## Left out

- The asyncio twins: they run the same scripts in the same order.
- Connections, topologies, Sentinel and Cluster, network failures and retries.
- Hooks, metrics, tracing and logging; only their absence of effect is assumed.
- Floating-point rounding in the token bucket, and the server's number formatting: levels are reals.
- Timeouts that are not positive for basic and writer locks: Redis refuses the command.  For reentrant and reader locks and for renewals they are modelled.
- Keys of the wrong Redis type, among them a basic and a reentrant lock under one name: Redis raises.
- Collisions of UUID tokens and of thread identities.
- Exceptions raised inside a renewal: the timer thread then ends as after a refusal.
- LockScripts.Lock.SpinAcquire: the 50 ms sleep is not modelled, and it is assumed that the clock reaches the deadline.
- Watchdog.Handle.Prune: `is_alive` of all listed threads is read at one moment.
- Watchdog.InvStep: the two locks of the handle's methods appear as enabling conditions, not as objects.
- LruInclusion.InclusionWithoutCleanup: the cleanup branch is not taken, since the property then fails; `LruInclusion.InclusionRun` has the exact condition.
- LockProtocol.ReadWriteExclusion: readers with differing timeouts or overrunning their own are excluded, since the property then fails.
- Resetting a limiter inside the run theorems, and a server clock that goes backwards.
- Transparency.Replay: expiry and prefixes of Redis keys, failing calls, side effects of a factory on the cache, and values that the pipeline does not give back equal (`CachePipeline.RoundTrip`) are not part of it; `Staleness` has foreign writes and expiry.
- Tiered.Cache.DeletePattern: how a pattern matches keys, and the key prefix; SCAN yields stored matching keys, each at least once.
- A negative `local_maxsize` in the tiered cache: the first fill raises (`Lru.LRUCache.Insert` has it).
- Fallback policies other than "raise", and how jitter is drawn: `CacheStore.Cache.SetMany` takes any lifetimes.
- Serializers, compressors, JSON, ISO dates and float printing: each is taken as an inverse pair; a float that is not a number, unequal to itself, is left out.
- Rejecting an entity constructor call, unresolvable type hints, and field types that are not scalar.
- The creating branch of save, the id index, find_all, get_history's decoding loop and hard_delete: an entity is followed from its first stored state on.
- Reading and committing in delete and restore are two methods, since other clients may run between them.
- Ttl.ParseTtl: arguments of another type (a TypeError), numbers that are not finite, texts outside ASCII, and Python's limit of 4300 digits for an int.
- ReliableQueue.NoLoss: the message that nack encodes again is taken to equal the one received.
- Waiting in a blocking get, the delay queue, pub/sub, streams, sessions, counters and Bloom filters.
- The order in which an OrderedDict yields keys while it is being changed: the code never does that.
