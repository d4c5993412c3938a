# Verified models of the toolkit's concurrent and transactional components

The toolkit is a set of small Go packages whose hard part is what happens when their steps interleave. This project
models thirteen of them in Dafny and proves what they promise, for every input, schedule and run.

Three kinds of model are used, following the form of the code.

* **Protocols** (event store, lock, queue, outbox, scheduler, pipeline, fan-out, fan-in, stream operators) are step
  systems. A `State` holds the shared data and where each transaction or goroutine stands; a `Step` is one atomic action
  (one SQL statement or Redis command, one channel operation, one critical section, one clock tick, one crash or abort).
  `Next` leaves the state alone when a step is not enabled, so *every* sequence of steps is a run and the theorems
  quantify over all of them: `Run(Init, steps)`. Each module proves one invariant step by step and derives its theorems
  from it.
* **Objects** (cache, limiters, breaker, saga, transactional DB) and the loops inside the protocols are classes and
  methods that update fields, maps, arrays or a linked list in place. Each is proved against a specification function,
  and the theorems are proved about that function.
* **Specifications** are functions and relations with no code behind them: a serial log, a recency list, a list program,
  a limiter that never evicts.

| file | models |
|---|---|
| `EventStore.dfy` | `pkg/eventstore`: Append, Load, snapshots over a table with a primary key |
| `Lock.dfy` | `pkg/lock`: token lease with expiry, renewal and compare-and-delete |
| `Queue.dfy` | `pkg/queue`: claiming, executing and retrying jobs; the backoff in 64-bit arithmetic |
| `Outbox.dfy` | `pkg/outbox`: Store in a business transaction, concurrent relays |
| `TxStore.dfy` | `pkg/store`: nested WithTx |
| `CacheSpec.dfy`, `CacheHeap.dfy` | `pkg/cache`: the recency list, and the linked list plus map that implement it |
| `RateLimit.dfy`, `KeyedLimit.dfy`, `KeyedSteps.dfy` | `pkg/ratelimit`: the token bucket, its per-key variant, and that with its two critical sections apart |
| `Breaker.dfy` | `pkg/circuitbreaker` |
| `Pipeline.dfy` | `pkg/pipeline`: Process |
| `FanStreams.dfy` | `pkg/async`: FanOut and Tee (module `FanOut`), FanIn (module `FanIn`) |
| `StreamNet.dfy` | `pkg/async`: chains of Map, Filter, Take, Batch from FromSlice to Collect |
| `Sched.dfy` | `pkg/sched`: semaphore plus wait group |
| `Saga.dfy` | `pkg/saga`: Run and compensate |

## Where the code differs from what is said about it

* Append's version read is described as locking the stream's rows (`pkg/eventstore/eventstore.go:268-269`); it takes no
  lock. `Serializable` and `KeyIsTheLock` show that the primary key alone is enough.
* FanOut is described as dropping items for a full receiver (`pkg/async/stream.go:257-259`); it waits for it.
  `SlowestReceiverHoldsAll` states the price: no output is ever more than 17 items ahead of the slowest receiver.
* Append is described as adding its events atomically (`pkg/eventstore/eventstore.go:123`). In a re-used
  transaction whose body swallows an Append error and commits, a marshal error after an insert leaves a part of the
  events (`SwallowedErrorSplitsAppend`); `CommittedAppend` says that this is the only way, and that an Append that
  returned nil is never affected.
* The breaker's HalfOpen state admits any number of callers, and successes recorded late by calls that were let through
  before the breaker tripped can close it, under every configuration (`StaleSuccessesExist`). `OwnProbesIff` says
  exactly when they cannot.
* A nested WithTx that fails does not undo its writes if the outer function swallows the error
  (`SwallowedInnerErrorKeepsItsWrites`).
* The lock excludes only as long as renewals reach Redis in time (`LateRenewalBreaksExclusion`); `ExclusionIff` says
  that an acquire beside a late holder is the only way to break it.
* AllowN with a negative count can lift the bucket above its burst; `BoundedIffNonnegative` says the bound is kept
  exactly for counts that are not negative.
* Eviction of idle keys is invisible exactly when a bucket can refill before it is evicted (`EvictionUnobservable`). A
  caller that is slow between finding its bucket and taking from it shortens the time there is for that by its delay
  (`UnobservableWithinIff`).
* A Take that ends early leaves the goroutines before it blocked for good, unless what they still have fits into its
  buffer (`NoneLeftBehindIff`).
* The retry backoff overflows from the 30th attempt on. `DelayExactIff` says for which attempts it is still what was
  intended; for the others the delay is zero or negative, so the job is due at once.
* The queue never stores the status `running`; a claimed row is protected by its row lock only.

## Model

| member | source | states |
|---|---|---|
| EventStore.Serializable | pkg/eventstore/eventstore.go:128-183 | in every interleaving of any number of transactions the committed table is that of their blocks appended one at a time in commit order, each with its version check (the one `RefusedIff` gives) passing at its turn; versions of a stream are exactly 0..n-1 |
| EventStore.CommittedAppend | pkg/eventstore/eventstore.go:133-183 | every committed block is a nonempty prefix of the list its Append was given, the whole list if and only if that Append returned nil, and always the whole list in a transaction that an Append error rolls back, such as the one Append opens itself |
| EventStore.AcknowledgedIsCommitted | pkg/eventstore/eventstore.go:128-183 | the Appends that returned nil in committed transactions are, in order, exactly the blocks that hold their whole list |
| EventStore.SwallowedErrorSplitsAppend | pkg/eventstore/eventstore.go:160-172 | a marshal error after an insert, swallowed by the body of a re-used transaction that then commits, leaves part of the Append in the table |
| EventStore.StepKeepsWhole | pkg/eventstore/eventstore.go:128-183 | every step keeps the tie between an Append's list, what it returned and what it wrote |
| EventStore.CommittedBlock | pkg/eventstore/eventstore.go:161-180 | each committed block is one contiguous run at what was the end of its stream at its turn, its expectation, as `ExpectationMet` gives it, held there, and its rows stay in the table |
| EventStore.ExpectationMet | pkg/eventstore/eventstore.go:144-159 | in every run a committed block with expected version v >= 0 starts at v + 1, one that expected a new stream starts at 0, and no other negative number than -1 and -2 ever passes |
| EventStore.RefusedIff | pkg/eventstore/eventstore.go:144-159 | the version read lets an Append through if and only if it expects any version (-2), or a new stream (-1) and there is none, or exactly the version read |
| EventStore.NoLostUpdate | pkg/eventstore/eventstore.go:140-160 | committed blocks of a stream never overlap, and of the Appends expecting the same version at most one commits, although the read is unlocked |
| EventStore.PendingIsBlockAtEnd | pkg/eventstore/eventstore.go:161-180 | what an open transaction has inserted into a stream is one run of versions from the stream's committed length |
| EventStore.KeyIsTheLock | migrations/000002_events.up.sql:9 | only one open transaction at a time has uncommitted rows in a stream |
| EventStore.RollbackReleases | pkg/eventstore/eventstore.go:128-135 | a rolled-back transaction leaves the rows as they were and nobody waiting for its keys |
| EventStore.OnlyFirstInsertCompetes | pkg/eventstore/eventstore.go:161-180 | after the first row of an Append is in, its other inserts neither wait nor fail |
| EventStore.ConflictIffStale | pkg/eventstore/eventstore.go:128-183 | the first insert hits an existing key if and only if the stream has moved since its version was read |
| EventStore.CurrentVersionIsLast | pkg/eventstore/eventstore.go:270-280 | on a gap-free table MAX(version) is the last index, -1 for a missing stream |
| EventStore.LoadReturnsSuffix | pkg/eventstore/eventstore.go:190-213 | Load returns exactly the events from the given version on, each with its version; a missing stream is reported exactly for a load from 0 that finds nothing |
| EventStore.LogGrows | pkg/eventstore/eventstore.go:128-183 | whatever runs, the events a stream had stay a prefix of those it has |
| EventStore.SnapshotReplay | pkg/eventstore/eventstore.go:232-263 | a snapshot right at its version plus Load(version+1) at any later time replays to the state of the whole stream at that time |
| EventStore.StepKeeps | pkg/eventstore/eventstore.go:128-183 | every statement, commit and rollback keeps the invariant behind the results above |
| EventStore.Conn.ReadVersion | pkg/eventstore/eventstore.go:270-280 | the version read is the largest in the rows the transaction sees, -1 if none |
| EventStore.Conn.Append | pkg/eventstore/eventstore.go:128-183 | on any table, with read, marshal and statement errors and other transactions committing between its statements, Append adds exactly the first n events from the version read on; n is the first insert that does not go through, the result says why, and it is nil exactly when all went through; the conflict is reported exactly when neither -2, nor -1 with no stream, nor the version read was expected |
| EventStore.Conn.Insert | pkg/eventstore/eventstore.go:173-180 | an insert fails exactly when the key is taken, and then adds nothing |
| EventStore.AppendGrowsLog | pkg/eventstore/eventstore.go:128-183 | on a gap-free table what Append added, all or part of its list, extends the stream by one run of versions |
| Lock.MutualExclusion | pkg/lock/lock.go:46-59 | at every point of every run at which each unreleased handle's last renewal reached Redis within its ttl, an unreleased handle's token is the one stored and no other unreleased handle has its key |
| Lock.NoTwoLive | pkg/lock/lock.go:151-170 | without any assumption on renewals, two handles of a key are never both within their deadlines |
| Lock.StoredIffInTime | pkg/lock/lock.go:46-59 | at every point of every run the token of an unreleased handle is stored if and only if its last acquire or renewal is less than its ttl ago; `LeaseLasts` fixes the length for the acquire |
| Lock.LeaseLasts | pkg/lock/lock.go:151-170 | after an acquire that finds the key free, and whatever anyone does, the token stays stored and no other acquire succeeds until the whole ttl asked for has passed, unless the holder releases it |
| Lock.BreaksIffSteals | pkg/lock/lock.go:105-170 | from an exclusive state a step breaks exclusion if and only if it is an acquire that finds the key free beside a late handle that is not released |
| Lock.ExclusionIff | pkg/lock/lock.go:105-170 | exclusion holds at every point of a run if and only if no acquire in it does that |
| Lock.LateRenewalBreaksExclusion | pkg/lock/lock.go:126-144 | a run of three steps in which a late renewal leaves two handles that both believe they hold the key |
| Lock.StrangerChangesNothing | pkg/lock/lock.go:46-59 | renewing or releasing with a token that is not the stored one changes no key |
| Lock.HolderKeepsKey | pkg/lock/lock.go:151-170 | until its expiry or its own release, nothing anyone does takes the key from the holder or shortens its expiry |
| Lock.ReleasedForGood | pkg/lock/lock.go:105-123 | a released handle never holds a key again |
| Lock.KeepaliveHolds | pkg/lock/lock.go:126-144 | a handle renewed often enough, by exact count of the time left, keeps its key through the run |
| Lock.StepKeeps | pkg/lock/lock.go:105-170 | acquire, renew, release, expiry, lost replies and clock steps keep the lease invariant |
| Lock.Locker.TryAcquireOnce | pkg/lock/lock.go:151-170 | with an answer from Redis, acquires if and only if no unexpired token is stored, with an expiry exactly ttl from now in the key and in the handle, and otherwise changes nothing; without one, reports an error and gives out no handle, though the command may have been carried out |
| Lock.Locker.Acquire | pkg/lock/lock.go:175-202 | tries until the key is free, at most max(1, n) times with a retry count; succeeds exactly when the last attempt got an answer and found the key free, and then with an expiry ttl after that attempt; a Redis error ends it at once; reports NotAcquired only after the full count |
| Queue.NoJobHeldTwice | pkg/queue/queue.go:244-273 | over all runs of concurrent workers no job is claimed by two open batches |
| Queue.ClaimedAreDue | pkg/queue/queue.go:244-266 | as long as a batch is open its rows are pending with a run time that has come, at most ten of them and the earliest first |
| Queue.EarliestAreClaimed | pkg/queue/queue.go:244-266 | a due row that nobody has locked is claimed by the next batch unless ten others are as early |
| Queue.RollbackReleases | pkg/queue/queue.go:244-273 | when a batch is rolled back its jobs are due again, with no row and no attempt count changed |
| Queue.RowFollowsHistory | pkg/queue/queue.go:275-312 | a row's status and attempts are what the committed handler outcomes say, and attempts stay within max(1, max_attempts) |
| Queue.FinalStaysFinal | pkg/queue/queue.go:244-312 | a job that is done, dead or failed is never changed again |
| Queue.ExecutionsRunOut | pkg/queue/queue.go:275-312 | the executions left, max(1, max_attempts) minus attempts while pending, go down by one with every committed execution and never up |
| Queue.RolledBackNeverAppears | pkg/queue/queue.go:170-198 | a job enqueued in a transaction that rolled back never appears in the table |
| Queue.JobIsAsEnqueued | pkg/queue/queue.go:170-198 | every committed job has the kind, payload and max_attempts of the Enqueue call that made it and, until its first committed execution, that call's time plus its delay as run time |
| Queue.CommitEffect | pkg/queue/queue.go:244-273 | committing a batch changes exactly the claimed rows, each by one execution, and no other |
| Queue.StepKeeps | pkg/queue/queue.go:170-312 | enqueue, claim, execute, abort and commit steps keep the row, batch and lock invariant |
| Queue.DelayExactIff | pkg/queue/queue.go:304-308 | the 64-bit delay is min(2^a x 10s, 1h) if and only if a <= 29 or a is one of the lucky overflows; otherwise it is not positive |
| Queue.RetryDelayExact | pkg/queue/queue.go:295-311 | with max_attempts <= 30 a failing job is dead at its last attempt and before that due exactly min(2^attempts x 10s, 1h) later |
| Queue.BatchTx.ExecuteJob | pkg/queue/queue.go:275-312 | the update written for a job is the one the outcome calls for: done, failed without handler, dead at the limit, or pending after the delay |
| Queue.BatchTx.ProcessBatch | pkg/queue/queue.go:268-270 | every claimed job is executed once and gets its own update, and no other row one |
| Outbox.PublishedWasDelivered | pkg/outbox/outbox.go:149-202 | a row marked published was delivered by a committed relay with its stored topic and payload |
| Outbox.DeliveredWasStored | pkg/outbox/outbox.go:68-202 | every delivery has the topic and payload that a Store call gave for its event, in a transaction that had committed |
| Outbox.ExtraDeliveriesAreUncommitted | pkg/outbox/outbox.go:149-202 | a row is delivered by committed relays once if published and never otherwise; all other deliveries are by relays that did not commit |
| Outbox.OneCommittedBatch | pkg/outbox/outbox.go:149-202 | no row is delivered twice by committed relays |
| Outbox.OldestAreClaimed | pkg/outbox/outbox.go:149-178 | a relay claims at most the batch size, the oldest first, and every unpublished row that nobody has locked unless as many others as the batch size are as old |
| Outbox.RollbackReleases | pkg/outbox/outbox.go:149-202 | when a relay is rolled back its rows are unpublished and can be claimed again |
| Outbox.RolledBackNeverDelivered | pkg/outbox/outbox.go:68-81 | an event stored in a transaction that rolled back is never delivered, whatever follows |
| Outbox.RowsAreStable | pkg/outbox/outbox.go:149-202 | a committed row keeps its topic and payload, and its mark once set |
| Outbox.CommitConserves | pkg/outbox/outbox.go:180-202 | committing a relay marks exactly the rows it claimed, each delivered by it exactly once |
| Outbox.StepKeeps | pkg/outbox/outbox.go:68-202 | store, fetch, publish, failed publish, mark, commit and rollback steps keep the delivery count of every row |
| Outbox.RelayTx.Relay | pkg/outbox/outbox.go:149-202 | publishes in order and stops at the first failure; marks all events exactly when all were published and the update worked, and none otherwise |
| TxStore.EvalIsApplyAll | pkg/store/store.go:140-183 | a body that ends with the transaction usable has applied all writes of its whole tree, in execution order, to the state at the start |
| TxStore.AbortedStays | pkg/store/store.go:140-183 | once a statement has failed no later write of the tree takes effect |
| TxStore.DB.WithTx | pkg/store/store.go:140-183 | the outermost call leaves the database unchanged or with all the tree's writes in order, and commits exactly when begin worked, the body returned nil on a usable transaction and commit worked; a nested call begins, commits and rolls back nothing; a panic is rolled back and passed on |
| TxStore.ContextWithTx | pkg/store/store.go:222-229 | the transaction put into a context is the one found in it |
| TxStore.DerivedKeepsTx | pkg/store/store.go:140-158 | a transaction put into a context is found in every context derived from it |
| TxStore.SwallowedInnerErrorKeepsItsWrites | pkg/store/store.go:140-150 | an inner failure whose error the outer body swallows keeps its writes in the commit |
| CacheSpec.LruInclusion | pkg/cache/cache.go:72-135 | for every trace the contents at capacity c are a subsequence, with values and expiries, of those at any larger capacity, and every hit stays a hit with the same value |
| CacheSpec.HitReturnsLastSet | pkg/cache/cache.go:72-95 | a hit returns the value last Set for the key, no later than its ttl after that Set |
| CacheSpec.HitIff | pkg/cache/cache.go:72-118 | in every trace a Get hits if and only if its key was Set, was not deleted or cleared since, no Get of it, no sweep and not this Get came later than the ttl after that Set, and it was not evicted since; and then it returns the value of that Set |
| CacheSpec.HitIfFewOthers | pkg/cache/cache.go:72-118 | a key that was Set, and not deleted or cleared since, is hit by a Get within the ttl if fewer than `capacity` other keys were got or set between any two uses of it since |
| CacheSpec.EvictionIsLru | pkg/cache/cache.go:211-216 | after every trace keys are distinct, the length is within capacity, and entries are ordered by last use, so the one evicted is the least recently used |
| CacheSpec.EvictedAfterManyUses | pkg/cache/cache.go:99-118 | a key is evicted only when at least `capacity` other keys, the one that evicts it included, have been got or set since it last was |
| CacheSpec.ContentsFromLastSet | pkg/cache/cache.go:99-118 | every entry ever present carries the value and expiry of its key's last Set |
| CacheSpec.UnexpiredMembers | pkg/cache/cache.go:183-209 | the sweep keeps exactly the entries with no expiry or with one that has not passed |
| CacheHeap.Cache.constructor | pkg/cache/cache.go:55-68 | a new cache is an empty ring with an empty index and zero counters |
| CacheHeap.Cache.Get | pkg/cache/cache.go:72-95 | on the linked list and map, Get is the recency list's Get, whose hits `HitIff` gives: a hit moves to the front, an expired entry is removed; one counter goes up |
| CacheHeap.Cache.Set | pkg/cache/cache.go:99-118 | on the linked list and map, Set is the recency list's Set: update in place at the front, or evict at capacity and push; evictions are counted exactly then |
| CacheHeap.Cache.Delete | pkg/cache/cache.go:121-127 | removes the key's entry from list and map and nothing else |
| CacheHeap.Cache.Clear | pkg/cache/cache.go:130-135 | empties list and map, keeps the counters |
| CacheHeap.Cache.DeleteExpired | pkg/cache/cache.go:183-196 | the back-to-front sweep with removal under way leaves exactly the entries that `UnexpiredMembers` keeps, in order |
| CacheHeap.Cache.EvictOldest | pkg/cache/cache.go:211-216 | drops the last entry of the list and counts it; nothing on an empty list |
| CacheHeap.Cache.RemoveElement | pkg/cache/cache.go:218-221 | unlinks one node and deletes its key, and map and list still hold the same nodes |
| RateLimit.TokensStayBounded | pkg/ratelimit/limiter.go:108-113 | after every run with counts that are not negative and a clock that does not go back, 0 <= tokens <= burst |
| RateLimit.WindowBound | pkg/ratelimit/limiter.go:58-83 | the tokens granted in any window of a run, AllowN and WaitN together, times 1e9 are at most burst x 1e9 + rate x its length in nanoseconds |
| RateLimit.GrantedIff | pkg/ratelimit/limiter.go:58-67 | n tokens are granted if and only if n <= burst and n x 1e9 <= tokens left x 1e9 + rate x nanoseconds since the last refill |
| RateLimit.BoundedIffNonnegative | pkg/ratelimit/limiter.go:58-67 | taking n keeps the bucket within bounds from every state if and only if n >= 0 |
| RateLimit.SleepLeavesUnderANanosecond | pkg/ratelimit/limiter.go:84-89 | despite truncation to whole nanoseconds, one sleep leaves a shortfall under one nanosecond of refill |
| RateLimit.SleepIsNoLonger | pkg/ratelimit/limiter.go:84-89 | a sleep is at least a millisecond, and if longer no longer than the missing tokens take to accrue |
| RateLimit.SleepMakesProgress | pkg/ratelimit/limiter.go:75-98 | after the first sleep the shortfall is under a nanosecond, after the second there is none |
| RateLimit.Limiter.Refill | pkg/ratelimit/limiter.go:108-113 | refilling adds rate x elapsed, capped at burst |
| RateLimit.Limiter.constructor | pkg/ratelimit/limiter.go:42-49 | a new limiter is full and dated now |
| RateLimit.Limiter.AllowN | pkg/ratelimit/limiter.go:58-67 | takes n tokens after refilling, or none |
| RateLimit.Limiter.WaitN | pkg/ratelimit/limiter.go:75-98 | with nobody else taking, granted after at most two sleeps at a positive rate if n <= burst, at once or never at rate zero, at once for n <= 0 and never if n > burst; a cancelled sleep is the only error; what it takes is n or nothing |
| KeyedLimit.EvictionUnobservable | pkg/ratelimit/keyed.go:67-79 | all answers of every call sequence equal those of a limiter that never evicts if and only if a bucket refills from empty before it can be evicted |
| KeyedLimit.AnswersAgree | pkg/ratelimit/keyed.go:49-56 | from any matching states the answers agree for every sequence of AllowN and Evict calls |
| KeyedLimit.ProbeTellsThemApart | pkg/ratelimit/keyed.go:67-79 | otherwise one explicit sequence of calls is answered differently |
| KeyedLimit.KeyedLimiter.LimiterFor | pkg/ratelimit/keyed.go:88-98 | finds the key's limiter object or makes a full one, shared with no other key, and stamps it as seen |
| KeyedLimit.KeyedLimiter.AllowN | pkg/ratelimit/keyed.go:54-56 | finds the key's limiter at one clock reading and asks it at another; no other key's limiter changes |
| KeyedLimit.KeyedLimiter.Evict | pkg/ratelimit/keyed.go:67-79 | the deleting loop removes exactly the entries idle for longer than the ttl and returns their number |
| KeyedLimit.KeysAreIndependent | pkg/ratelimit/keyed.go:54-98 | the answers for some keys depend on the buckets of those keys alone |
| KeyedLimit.DeleteForgets | pkg/ratelimit/keyed.go:59-63 | after Delete the key is answered like one never seen, and every other key as if there had been no Delete |
| KeyedSteps.UnobservableWithinIff | pkg/ratelimit/keyed.go:54-98 | with finding and taking as separate steps, interleaved with other calls and evictions in any way, and every take at most a given delay after its find, all answers equal those without evictions if and only if a bucket refills from empty in the ttl less that delay |
| KeyedSteps.AnswersStay | pkg/ratelimit/keyed.go:54-98 | from any related states the answers agree for every such schedule, deletions included |
| KeyedSteps.LateProbeTells | pkg/ratelimit/keyed.go:67-79 | otherwise one explicit schedule is answered differently |
| Breaker.StateIsFunctionOfLog | pkg/circuitbreaker/breaker.go:141-226 | after every interleaving of calls the fields are what the event log since the last change of state says |
| Breaker.TripsExactly | pkg/circuitbreaker/breaker.go:180-190 | from Closed the breaker opens if and only if this is the max(1, threshold)-th failure in a row recorded since it closed |
| Breaker.LeavesHalfOpenExactly | pkg/circuitbreaker/breaker.go:192-206 | from HalfOpen it opens if and only if a failure is recorded, and closes if and only if this is the max(1, threshold)-th success with no failure since entry, or Reset |
| Breaker.HalfOpenSawNoFailure | pkg/circuitbreaker/breaker.go:192-206 | while HalfOpen, no failure has been recorded since entering it |
| Breaker.NoGrantWithinTimeout | pkg/circuitbreaker/breaker.go:159-174 | after the failure that opened it and before the timeout, no calls whatever get a grant; the first moment of a grant is openedAt + openTimeout |
| Breaker.GrantedIff | pkg/circuitbreaker/breaker.go:159-174 | after every log of calls, allow is granted in Closed and in HalfOpen, and in Open if and only if openTimeout has passed since the failure that opened it |
| Breaker.OwnProbesIff | pkg/circuitbreaker/breaker.go:122-131 | for all thresholds and logs of Execute calls, every success counted in a HalfOpen phase is that of a call granted since it was entered, in every continuation, if and only if no call granted earlier was still unrecorded at entry |
| Breaker.ClosedByOwnProbes | pkg/circuitbreaker/breaker.go:192-206 | then the breaker closes, Reset aside, only after max(1, threshold) different calls granted since entry have succeeded |
| Breaker.StaleSuccessesClose | pkg/circuitbreaker/breaker.go:176-207 | otherwise any max(1, threshold) calls outstanding at entry close it between them, with no call granted in HalfOpen |
| Breaker.StaleSuccessesExist | pkg/circuitbreaker/breaker.go:159-207 | and for every configuration there is a run in which they do |
| Breaker.Breaker.Allow | pkg/circuitbreaker/breaker.go:159-174 | grants exactly when the state after the log so far does at this time |
| Breaker.Breaker.Record | pkg/circuitbreaker/breaker.go:176-207 | the updated fields are again those of the log with the outcome added |
| Breaker.Breaker.CurrentState | pkg/circuitbreaker/breaker.go:141-146 | reports, and itself makes, the move to HalfOpen that is due |
| Breaker.Breaker.MaybeTransitionFromOpen | pkg/circuitbreaker/breaker.go:211-215 | moves to HalfOpen exactly when open for the timeout or longer |
| Breaker.Breaker.Reset | pkg/circuitbreaker/breaker.go:149-155 | the fields are those of the log with a reset added |
| Breaker.Breaker.Transition | pkg/circuitbreaker/breaker.go:217-226 | changes the state and none of the counters or times |
| Pipeline.ProcessReturns | pkg/pipeline/pipeline.go:75-162 | for every worker count and schedule, when Process returns there is exactly one result per index; it succeeds if and only if fn returned a value for every item; ordered output is fn's values by index, unordered output the same multiset; `CancelledInTimeFails` says what a cancelled context does to that |
| Pipeline.ErrorIsFromFn | pkg/pipeline/pipeline.go:140-157 | if the parent context is not cancelled, the error kept is one fn returned for some item, never the internal cancellation |
| Pipeline.CancelledIff | pkg/pipeline/pipeline.go:136-153 | at every point of every run the context of the workers is cancelled if and only if the parent is or an error has been received |
| Pipeline.CancelledEntersNoMore | pkg/pipeline/pipeline.go:117-131 | once it is cancelled no further item is passed to fn, whatever steps follow |
| Pipeline.CancelledInTimeFails | pkg/pipeline/pipeline.go:117-157 | if it is cancelled, by the parent or by an error, while fn has not been called for some item, Process returns an error, and the cancellation's own if fn returned none |
| Pipeline.SendsNeverBlock | pkg/pipeline/pipeline.go:107-131 | in every reachable state a send on jobs or results finds room |
| Pipeline.ProcessProgresses | pkg/pipeline/pipeline.go:75-162 | until Process returns some goroutine can move |
| Pipeline.RunIsBounded | pkg/pipeline/pipeline.go:75-162 | no schedule does more than 7n + workers + 3 steps |
| Pipeline.StepKeeps | pkg/pipeline/pipeline.go:110-153 | every goroutine step keeps each taken item in exactly one place with a genuine outcome, and every skip after its cause |
| Pipeline.WorkerCount | pkg/pipeline/pipeline.go:85-91 | the last positive option, at most one worker per item, and one per item if there is none |
| Pipeline.CollectResults | pkg/pipeline/pipeline.go:136-153 | the collecting loop keeps the first error in arrival order, cancels exactly then, and on success has every value at its index or in arrival order |
| FanOut.OutputsAreCopies | pkg/async/stream.go:263-304 | at every step of FanOut and Tee each output is a prefix of the input, a later output a prefix of an earlier, and they differ by at most one item |
| FanOut.SlowestReceiverHoldsAll | pkg/async/stream.go:263-304 | nothing is dropped: no output gets more than 17 items, a buffer of 16 and one more, ahead of what the slowest receiver has taken |
| FanOut.ClosedOutputsAreComplete | pkg/async/stream.go:364-396 | after a close nothing is sent; without cancellation every output has then carried exactly the input; none is closed twice |
| FanOut.WaitsOnlyForPeers | pkg/async/stream.go:263-295 | the goroutine stops only for want of input or at an output with 16 items not taken |
| FanIn.OutputInterleaves | pkg/async/stream.go:317-354 | the output is always an order-preserving interleaving of prefixes of the inputs, each all that was read of it but at most one item |
| FanIn.WaitsOnlyForPeers | pkg/async/stream.go:317-340 | a forwarder stops only for want of input or when the output has 16 items not taken |
| FanIn.ClosedOutputIsComplete | pkg/async/stream.go:342-351 | closed at most once, after all forwarders have returned, never sent on after; without cancellation every input has been carried completely |
| FanIn.MergeConserves | pkg/async/stream.go:317-354 | without cancellation the merged output has exactly the items of all inputs, as a multiset |
| StreamNet.CollectReturns | pkg/async/stream.go:80-99 | for every schedule of channel steps and timer firings, what Collect has at any moment is a prefix of a result of the list program, and what it returns is one |
| StreamNet.CollectIsDeterministic | pkg/async/stream.go:132-170 | a chain of any number of Map, Filter and Take returns exactly the composed list functions of the slice, whatever the schedule |
| StreamNet.BatchOnlyGroups | pkg/async/stream.go:176-227 | with Batch at the end, batches are nonempty and of length at most max(1, size), their concatenation is what the stages before compute, and they are full as `BatchesAreFull` says |
| StreamNet.BatchesAreFull | pkg/async/stream.go:206-223 | in every run and wherever it stands in the chain, the batches a Batch has sent with fewer than max(1, size) items are at most one more than its timer steps; without any, every batch but the last has exactly max(1, size) |
| StreamNet.Partial | pkg/async/stream.go:132-248 | at any moment each operator has sent a prefix of a result for its whole upstream program, and all of one once it has left its loop |
| StreamNet.NeverStuck | pkg/async/stream.go:43-248 | until Collect returns some goroutine can move, whatever the buffers hold |
| StreamNet.RunIsBounded | pkg/async/stream.go:43-248 | k stages over n items do at most k(3n + 2) + n + 1 steps |
| StreamNet.AllEndIff | pkg/async/stream.go:230-248 | once Collect has returned and nothing can move, all goroutines have ended if and only if what the stage before each Take has made fits into what the Take reads, max(0, n) + 1 items, and the buffer between them |
| StreamNet.NoneLeftBehindIff | pkg/async/stream.go:230-248 | without Batch that depends on the slice, the functions and the capacities alone, not on the schedule |
| StreamNet.StepKeeps | pkg/async/stream.go:132-248 | every step of every operator keeps what it has made so far equal to its list function of what it has received |
| StreamNet.Capacity | pkg/async/stream.go:45-177 | the buffer of a stage is 4 if there is a Batch at or before it, and otherwise 16 |
| StreamNet.Batcher.Flush | pkg/async/stream.go:188-204 | sends a copy of the buffer if it holds anything; every array sent before still holds what it held |
| StreamNet.Batcher.Add | pkg/async/stream.go:216-219 | appends in place and sends the whole buffer exactly when it has reached the size, leaving all sent arrays as they were |
| StreamNet.Batcher.Loop | pkg/async/stream.go:206-223 | over any input and any timer firings, the arrays sent are nonempty batches within the size whose concatenation is the input; those with fewer than max(1, size) items are at most one more than the firings, and without firings only the last can be one |
| Sched.ConcurrencyIsBounded | pkg/sched/scheduler.go:146-211 | in every interleaving running jobs never exceed the slots taken nor those the workers, and the wait group is live loops plus live jobs |
| Sched.ReleasesAreMatched | pkg/sched/scheduler.go:179-211 | a slot is only given back when one is taken, and the wait group never goes below zero |
| Sched.AddNeverRacesWait | pkg/sched/scheduler.go:139-143 | the wait group is never raised from zero once Stop has been called |
| Sched.StopIsFinal | pkg/sched/scheduler.go:139-143 | after Stop returns no job runs, none can start, and all slots are free, whatever steps follow |
| Sched.PeriodicLoopGoesOn | pkg/sched/scheduler.go:146-163 | until the context is cancelled a periodic loop never returns, and it has spawned one job when launched and one for every tick, but for the dispatch it is in |
| Sched.OneShotRunsOnce | pkg/sched/scheduler.go:165-177 | a one-shot loop spawns at most one job, and none before its timer fired; without cancellation it returns exactly when it has spawned it |
| Sched.StopReturns | pkg/sched/scheduler.go:139-211 | from every reachable state in which Stop waits, a run in which no timer fires and no slot is taken reaches its return, in at most as many steps as there is left to do |
| Sched.StepsDrain | pkg/sched/scheduler.go:139-211 | while Stop waits every step but those two lowers what is left to do |
| Sched.StepKeeps | pkg/sched/scheduler.go:114-211 | every loop, job and Stop step keeps the accounting of slots and wait group |
| Sched.Scheduler.Start | pkg/sched/scheduler.go:114-136 | one loop per schedule, all counted before any runs, in a reachable state of their own; what an earlier Start launched is left alone |
| Saga.RollbackRestores | pkg/saga/saga.go:92-148 | if every completed step's compensation undoes it and the failing step changed nothing, the final world is the initial one and no compensation error is reported |
| Saga.RolledBackUnique | pkg/saga/saga.go:125-148 | the steps fix the compensations called and the errors reported, in content and order |
| Saga.Saga.Run | pkg/saga/saga.go:92-122 | succeeds exactly when no step fails, having run each once in order; otherwise the first failing step is reported, nothing after it ran, and the completed ones were rolled back |
| Saga.Saga.Compensate | pkg/saga/saga.go:125-148 | calls exactly the compensations of the completed steps that have one, in reverse, each once, and returns exactly the errors of the failing ones in that order |

## Left out

- pkg/rpc, api/product, pkg/middleware, pkg/otel, pkg/metrics, pkg/health, pkg/testutil, examples: HTTP and gRPC servers and middleware, telemetry exporters, health endpoints, test helpers and sample programs.
- pkg/rediscache, pkg/feature, pkg/auth, pkg/config, pkg/validation: thin wrappers over libraries, reflection and parsing.
- pkg/retry: its backoff is float power and conversion, which has no faithful model here.
- pkg/pool, pkg/pubsub, pkg/graceful, and the futures and semaphore of pkg/async: smaller versions of what is proved here.
- Chain, Compose and Map of pkg/pipeline, ForEach and OrDone of pkg/async, WithLock of pkg/lock: short folds and wrappers over modelled operations.
- Logging, tracing, JSON, SQL text and driver errors: payloads are opaque, and a statement, publish or commit succeeds or fails at will.
- Clocks, timers and random tokens: clock readings are inputs, timers fire at any step, tokens and row ids are fresh.
- Postgres and Redis: row locks, SKIP LOCKED, unique keys, read-committed visibility and key expiry are modelled as their documentation has them, not proved of the servers.
- Goroutines and transactions of the protocol modules are step systems over values; heap aliasing between goroutines is not modelled. Concurrency of a BatchTx or RelayTx with other transactions is in the step system, not in the class.
- float64 arithmetic of the token bucket is done over `real`, without rounding.
- RateLimit.Limiter.WaitN: the int64 overflow of very long waits is not modelled; at rate 0 the length of a sleep, which Go leaves to the platform, is an input.
- KeyedLimit.KeyedLimiter.AllowN: the method has the object to itself; what other callers and Evict do between its two critical sections is in KeyedSteps, on values.
- Lock: times are whole milliseconds, as Redis keeps them, and a ttl is at least 1 ms.
- EventStore.SnapshotReplay: the snapshot table's upsert is not modelled; the lemma holds for a snapshot taken and loaded at any points of the run.
- TxStore.DB.WithTx: nested calls use the context passed to the body; a body that opens a second, independent transaction from another context is not modelled.
- Pipeline.ProcessReturns: for an empty slice Process returns nil, nil before any goroutine starts; the runs are those with at least one item. A panic or a never-returning fn is not modelled.
- StreamNet.CollectReturns: no context is cancelled, and the error channels, on which nothing is ever sent, are left out. Batch sizes are not negative, since the source panics on a negative one.
- FanOut.ClosedOutputsAreComplete: outputs are closed in any order, which covers both FanOut's order and Tee's reverse one.
- Sched.Scheduler.Start: each Start has a semaphore, a context and loops of its own, and the results about runs are about one of them, with Stop called after it; that Stop cancels only the latest Start while it waits for all is not modelled.
