# go-kitsune, verified model

go-kitsune is an in-process stream engine for Go: pipelines of stages that run as goroutines connected by
channels. This project models the algorithms in it whose correctness is hard to see, and proves what they promise.

## How the code is modelled

* **Concurrent stages** (`Lane`, `OrderedMap`, `Routing`, `KeyedOrdered`, `KeyedConcurrent`, `Drain`, `Outbox`,
  `CombineLatest`, `Orphans`, `OutboxDrops`) are transition systems: one step per channel operation, lock region or atomic operation.
  Channels are bounded sequences, goroutines are program counters. Each module has `Enabled`, `Apply`, `Runs`,
  an inductive invariant `Inv`, and main results about every schedule. Where termination matters, a
  measure decreases on every step, so every schedule is finite.
* **Loops and objects of one goroutine or behind one mutex** are methods with loops and classes with fields
  (`Fusion`, `Handlers`, `ExpandMap`, `Reservoir` and `ReservoirSets`, `KeyedRefs`, `TtlDedup`, `Cache`, `Supervise`,
  `CircuitBreakers`, `Bloom`, `Dedupe`, `Batches`), proved against specification functions about which the
  main results are lemmas.
* Some modules say what a specification function of another one computes, in terms that do not mention it: `KeyedScans`
  (one key's items processed alone), `FusionLaws` (Map and Filter over whole lists), `Cooldowns` (the end of the rest
  after every opening), `BloomCoverage` (bit positions as numbers).
* `OrderedMap` stands for Map, FlatMap and ForEach with `Ordered()` (`operator_map.go:469-594`,
  `operator_flatmap.go:310-437`, `terminal.go:195-295`), which differ only in how many values an item yields; the keyed
  modules stand for MapWithKey and FlatMapWithKey in the same way. The slots and their drainer, which all ordered
  stages share, are `Lane`.
* `Outcomes` is the vocabulary (results, the serial run of a list of results), `Sums` and `Division` hold counting
  and arithmetic facts.

Assumptions: user functions are total and deterministic and do not look at the context; only the wait between two
retries notices cancellation inside a user call. Inputs are finite, what is downstream goes on receiving (a send that is not
cancelled gets through), `int` has 64 bits (except in
`Sharding`, which treats both widths), overflow is `Block` in the ordered and keyed stages, and clocks do not run
backwards. Errors are compared without the `StageError` wrapping. Clock readings, random choices, hash seeds and the
environment's choices in a `select` are parameters.

## Where the code differs from its comments

* **Orphan slots** (`state_withkey.go:410-421`). `mapWithKeyOrdered` queues a result slot before it hands the item
  to a worker. If the run is cancelled in between, nobody fills the slot, and the stage never returns when
  its drainer waits for it. `KeyedOrdered.QuietIffNoOrphan` says exactly when a stage that can take no more steps has shut
  down. Every run, cancelled or not, returns exactly when the input is empty (`Orphans.AlwaysReturnsIffEmpty`); a run that
  nobody outside cancels always returns, but some such run leaks a goroutine blocked on an orphan exactly when an item
  other than the last one fails (`Orphans.LeaksIffFailureBeforeLast`).
* **"Guaranteed space"** (`internal/outbox.go:112-113`). The comment says no other sender can fill the slot freed
  by an eviction. The first, lock-free attempt of another sender can, whatever the capacity and the shards, and then the
  evicting sender drops its own newer item (`Outbox.EvictingSenderLosesItsOwnItem`). The item is safe in every run exactly
  with one sender and room for at least one item: `Outbox.OwnItemIsSafeIff`.
* **Retries** (`config.go:793-798`). A retry handler whose fallback is again a retry never gives up, because the
  fallback is always asked about attempt 0: `Handlers.RetriesBoundedIff` is the exact condition.
* **Shard index** (`state_withkey.go:416`). With 32-bit `int` the converted hash can be negative and so can the
  index: `Sharding.ShardInRange` is the exact condition, and the empty key already violates it.
* **Supervision window** (`config.go:381`, `internal/hooks.go:108`). `Window` "resets the restart counter after this much
  time without a crash"; the code measures it from the first restart it counted. For all runs the two restart alike exactly
  when MaxRestarts is at most 1 (`Supervise.WindowIsQuietPeriodIff`). In particular a stage that crashes steadily, and is
  never quiet, is restarted for ever exactly when fewer than MaxRestarts periods fit in the window
  (`Supervise.SteadyCrashesRestartForever`).
* **Half-open probes** (`middleware.go:294-296`). "A limited number of items (HalfOpenProbes) are let through": with w
  workers the exact limit is HalfOpenProbes - 1 + w, so the documented one holds exactly for one worker
  (`CircuitBreakers.HalfOpenLimit`). "If all succeed, the circuit closes": successes are not told apart, so a call let through
  before the circuit opened can supply one; in every run the circuit closes by halfOpenProbes successes of its own probes
  exactly for one worker (`CircuitBreakers.ClosedByProbesIffOneWorker`).
* **Cooldown** (`middleware.go:291-293`). "The circuit stays open for CooldownDuration": the callers read the clock before
  they take the mutex (`middleware.go:321` and `328`), so a report can move the end of the cooldown back
  (`CircuitBreakers.LateReportShortensCooldown`). With readings up to `skew` old the rest that every run keeps is exactly the
  cooldown less the skew, hence the full one exactly when no reading is old (`CircuitBreakers.CooldownLessSkew`).
* **UpdateAndGet and StateTTL** (`state_ref.go:156-190`). `Get` treats an expired value as the initial one,
  `UpdateAndGet` starts from the expired value: `KeyedRefs.ExpiredUpdateKeepsTheOldValue`. The two agree on every update
  exactly when the value has not expired or is the initial one (`KeyedRefs.UpdateStartsFromGetIff`).
* **DedupeWindow** (`config.go:192-193`). "The last n items are remembered": the window holds the keys of the last n
  *emitted* items. The two agree on all inputs exactly when n is 1 (`Dedupe.WindowOfItemsIffOne`).
* **CombineLatest** (`fan_combine.go:209-216`) sends outside its mutex, so the last value it emits can be a superseded pair.
  Every run of two non-empty inputs ends with the pair of final values exactly when both inputs are constant
  (`CombineLatest.EndsCurrentIffConstant`); a single run does when its last emission comes from the side that made the last
  update (`CombineLatest.LastUpdaterSendsTheFinalPair`). That pair is always among the emissions.
* **Retry action without a backoff function** (`internal/process.go:144-149`). The item ends with its error instead of being
  tried again. A handler's requests to retry are followed exactly when it has a backoff of its own
  (`Handlers.RetryNeedsBackoff`); `Handlers.RetryWithoutBackoffHalts` is a handler that grants ten retries and makes none.

* **Odd step of the Bloom set** (`internal/bloom.go:88-89`). The comment says an odd h2 guarantees full coverage of the bit
  array. Whatever the hashes, the first m positions of a key are all different exactly when m is a power of two
  (`BloomCoverage.OddStepCoversIffPowerOfTwo`); m is chosen from the expected number of items and need not be.

## Model

| member | source | states |
|---|---|---|
| Outcomes.SerialStopsAtFirstFailure | operator_map.go:227-291 | the serial run delivers the values of the items before the first failing one, and that item's error |
| Lane.StepKeepsInv | operator_map.go:504-538 | every step of the drainer and of the goroutine that empties the slots after an error keeps: slots are consumed in order, nothing is emitted past a failure, the report is the verdict on the consumed prefix |
| Lane.OutputIsPrefix | operator_map.go:504-538 | what the drainer has sent is a prefix of the serial output |
| Lane.LaneProgress | operator_map.go:504-538 | unless finished or waiting for a slot nobody filled, the drainer or its helper can step |
| Lane.BlockedDrainer | operator_map.go:504-523 | a lane that can take no step although the queue is closed waits for an empty slot |
| Lane.StepDecreasesWork | operator_map.go:504-538 | every lane step uses up work |
| OrderedMap.StepKeepsInv | operator_map.go:494-590 | every step keeps: tokens = running + posted + held by the dispatcher, every queued slot that is still owed has a worker or a value, slots are closed only when all are filled |
| OrderedMap.EveryScheduleIsSerial | operator_map.go:494-590 | in every schedule the output is a prefix of the serial output; an undisturbed return has exactly the serial output and error, hence the lowest failing item's |
| OrderedMap.ParallelMapIsMap | operator_map.go:494-590 | a parallel ordered Map of a function that never fails is the pointwise map |
| OrderedMap.Bounds | operator_map.go:499-570 | at most `concurrency` calls in flight, at most 2*concurrency queued slots, and, until the drainer stops, at most 2*concurrency+2 items read but not emitted or skipped |
| OrderedMap.NeverStuck | operator_map.go:494-590 | no deadlock: until every goroutine has ended, the stage itself can step |
| OrderedMap.StepDecreasesWork | operator_map.go:494-590 | each step decreases a natural number |
| OrderedMap.SchedulesAreBounded | operator_map.go:494-590 | no schedule is longer than the initial work |
| OrderedMap.MaximalScheduleDelivers | operator_map.go:584-589 | a schedule the stage cannot extend has returned, everything has ended, and undisturbed it delivered the serial result |
| Sharding.HashOfA | state_with.go:18-25 | the published FNV-1a test vector of the one-byte input 'a' |
| Sharding.Fnv32 | state_with.go:18-25 | the loop computes the 32-bit FNV-1a hash with wrap-around |
| Sharding.ShardInRange | state_withkey.go:416-416 | the shard indexes the workers if and only if int has 64 bits, or the hash's top bit is clear, or n divides the negative int |
| Sharding.EmptyKeyOutOfRangeOn32Bits | state_withkey.go:259-259 | with 32-bit ints the empty key selects worker -1 of 2 |
| KeyedSpec.MapWithKeySerial | state_withkey.go:85-154 | the serial loop over one map of refs delivers the serial run of the per-key results and leaves every key the state its items give it, also when it stops at an error |
| KeyedSpec.ResultsAreScanned | state_withkey.go:123-128 | every item's result is the next outcome of one state threaded through its key's items, in input order |
| KeyedSpec.SerialIsScanned | state_withkey.go:85-154 | the results of the serial run are those of the keys' scans, and so are each key's state and its serial run, failures included |
| KeyedScans.OutputSplitsIntoScans | state_withkey.go:85-154 | when no item fails, the serial output is in input order and holds for every key exactly what its scan emits |
| KeyedSpec.SerialByKey | state_withkey.go:85-154 | when no item fails, the serial output restricted to one key is the serial run of that key alone |
| Routing.HandledRefs | state_withkey.go:376-384 | a worker that handles its next item computes the serial result and keeps all its keys at their serial states |
| Routing.PutKeepsOwner | state_withkey.go:416-421 | routing keeps each worker holding, in input order, exactly its unhandled items |
| KeyedOrdered.StepKeepsInv | state_withkey.go:321-428 | every step of dispatcher, workers and drainer keeps the invariant: the filled slots hold the serial results, and only the slot queued last can be without a worker |
| KeyedOrdered.EveryScheduleIsSerial | state_withkey.go:321-428 | in every schedule the output is a prefix of the serial output; an undisturbed return has the serial output and error, and without error the serial final state of every key |
| KeyedOrdered.NeverStuckWithoutOrphan | state_withkey.go:389-427 | without an orphan slot the stage can step until everything has ended |
| KeyedOrdered.QuietIffNoOrphan | state_withkey.go:410-421 | a stage that cannot step has ended everything if and only if no slot is orphaned, and fails to return exactly when the drainer waits for the orphan |
| KeyedOrdered.OrphanBlocksTheStage | state_withkey.go:410-421 | a five-step run, for every non-empty input, after which no continuation returns |
| KeyedOrdered.OrphanIsForever | state_withkey.go:410-421 | once the drainer waits for an orphan slot, the stage never returns |
| KeyedOrdered.MaximalScheduleDelivers | state_withkey.go:321-428 | undisturbed, a schedule the stage cannot extend has returned the serial result |
| Orphans.AlwaysReturnsIffEmpty | state_withkey.go:388-427 | every schedule the stage cannot extend, cancelled from outside or not, has returned if and only if the input is empty |
| Orphans.LeaksIffFailureBeforeLast | state_withkey.go:334-427 | some undisturbed schedule ends with a goroutine blocked on an orphan slot if and only if an item other than the last one fails |
| KeyedOrdered.SchedulesAreBounded | state_withkey.go:321-428 | no schedule is longer than the initial work |
| KeyedConcurrent.StepKeepsInv | state_withkey.go:184-276 | every step keeps: per key, sent values plus the values in hand are a prefix of that key's serial run and the ref is its serial state |
| KeyedConcurrent.EveryScheduleIsSerialPerKey | state_withkey.go:184-276 | in every schedule each key's output is a prefix of its serial run; an undisturbed return reports an error if and only if an item fails, and without one every key has its whole output and final state |
| KeyedScans.ConcurrentIsScans | state_withkey.go:184-276 | in every schedule each key's output is a prefix of its scan's serial run; an undisturbed return without error has for every key what its scan emits and the ref where it ends |
| KeyedScans.OrderedIsScans | state_withkey.go:321-428 | in every schedule the output is a prefix of the serial run of the scans' outcomes in input order; an undisturbed return is exactly that run, and without error leaves every ref where its key's scan ends |
| KeyedConcurrent.NeverStuck | state_withkey.go:184-276 | until the stage has returned it can step, whatever fails or is cancelled |
| KeyedConcurrent.SchedulesAreBounded | state_withkey.go:184-276 | no schedule is longer than the initial work, with any number of values per item |
| Fusion.FusedLoop | operator_map.go:152-221 | however the input falls into batches of at most 16, and whenever the loop is interrupted, it makes the sink calls of pushing the items it took one by one, up to the first failure |
| Fusion.StageLoop | operator_map.go:304-356 | the micro-batched loop of one separate stage sends what the stage makes of the items it took, for every batching, and stops at the first failing one |
| Fusion.FusedIsAnUnfusedRun | operator_map.go:141-222 | every fused run is a run of the separate stages on the items consumed, with the same sink calls, and the same single error |
| Fusion.FusedEqualsStages | operator_map.go:141-222 | on the whole input the fused loop makes the sink calls of the separate stages, and its error is the most downstream stage's |
| Fusion.StagesSealed | operator_filter.go:210-280 | after a failure more input changes neither the sink calls nor that error |
| FusionLaws.KeptCounts | operator_filter.go:259-263 | Filter keeps every accepted item as often as it comes and nothing else |
| FusionLaws.StageComputes | operator_filter.go:210-280 | a separate Map sends the pointwise map and a separate Filter the accepted items in order; at a failing item they do so for the items before it and end with its error |
| FusionLaws.ChainComputes | operator_filter.go:115-199 | with no failing call the sink, fused or not, is called on exactly what the composed stages make of the input |
| FusionLaws.StageBreaksChain | operator_filter.go:170-183 | when a stage fails on an item, the sink has had the results of the items before, and the error is that stage's |
| FusionLaws.FusedComputes | operator_map.go:141-222 | on every input: the sink calls of the fused loop are the results of the items before the first failing one, and the value the sink fails on if it is the sink; the error is the failing function's |
| Handlers.ProcessItem | internal/process.go:110-163 | the retry loop settles on the first attempt that is not retried, and how, or ends with the context's error in the first wait that is cut short |
| Handlers.ProcessFlatMapItem | internal/process.go:168-223 | the same for FlatMap; only values of an attempt without error are sent, all of them in order unless cancellation cuts them short; Return skips |
| Handlers.RetriesBoundedIff | config.go:787-798 | a failing item is given up if and only if the retry's fallback does not ask for a retry at attempt 0, and then after at most `max` retries |
| Handlers.RetriesIffSomeLevelWants | config.go:787-825 | an error is retried if and only if the outermost handler wants to at this attempt or some fallback at attempt 0; RetryIf wants to for exactly its errors at every attempt |
| Handlers.InnermostDecides | config.go:800-832 | once nobody wants to retry, the innermost fallback decides: Return's value comes out, Skip drops, Halt fails |
| Handlers.RetryIfThenReturn | config.go:811-832 | RetryIf over Return retries exactly the errors of its predicate, and any other error gives the value |
| Handlers.NestedRetryNeverGivesUp | config.go:787-798 | three tries falling back to two tries retry for ever |
| Handlers.RetryNeedsBackoff | internal/process.go:144-156 | a handler's requests to retry are followed if and only if it has a backoff of its own; without one the item ends with its error at once |
| Handlers.RetryWithoutBackoffHalts | internal/process.go:144-149 | ten retries granted, none made |
| Handlers.FastPathSkipsNothing | fastpath.go:18-56 | where a fast path or fusion is chosen, the error handler it leaves out would have called the function once and done nothing else |
| Fusion.FastPathIsSerialPath | operator_map.go:227-291 | where the fast path is chosen for a Map, the serial run under the resolved handler is the run of the stage's own loop, and there is no supervision to bypass |
| Supervise.PassThrough | internal/process.go:13-15 | without supervision the function runs once and how it ends is how the stage ends |
| Handlers.FusionNeedsDefaultCheck | terminal.go:341-349 | without the check of the pipeline default an eligible stage could have a Skip handler |
| Drain.StepKeepsInv | pipeline.go:251-297 | every step keeps: a drain entry's counter is the consumers registered minus the signals sent, and its channel is closed at most once |
| Drain.ClosedOnceAndOnTime | pipeline.go:281-288 | no drain channel is closed twice, and one whose consumers are all in the run is closed exactly when the last has signalled |
| Drain.NoLiveConsumerLosesItsProducer | pipeline.go:281-297 | while a consumer runs, its producer's drain channel is open |
| Drain.DrainReachesProducerIff | pipeline.go:251-288 | when all consumers in the run have exited, the channel is closed if and only if the consumers counted at construction are those of the run |
| Drain.LastStageCanExit | pipeline.go:281-297 | in reverse topological order the last stage still running can go on |
| Drain.DrainShutsEverythingDown | pipeline.go:251-297 | once every sink is on its way out, every run of drain's steps is bounded, and it can take no more steps if and only if every stage has ended |
| Drain.DrainFinishes | pipeline.go:251-297 | such a run exists |
| Drain.SharedEntryCountsEveryUse | pipeline.go:266-277 | a multi-output stage's shared counter starts at the number of signals it will get |
| ExpandMap.Expand | operator_filter.go:513-599 | the queue of pipelines emits the first MaxItems items of the unlimited exploration, or, with MaxItems, of any finite exploration that agrees with it down to that depth; and it terminates |
| ExpandMap.ReferenceExists | operator_filter.go:556-574 | with MaxItems there always is such an exploration, even over infinitely many keys |
| ExpandMap.RunPipeline | operator_filter.go:537-583 | draining one queued pipeline stays on the track of that exploration |
| ExpandMap.DepthCapIsFinite | operator_filter.go:567-574 | with MaxDepth the items within the cap have finitely many keys |
| ExpandMap.EmittedOnce | operator_filter.go:539-551 | no key is emitted twice, even where items with one key have different children |
| ExpandMap.DepthsNonDecreasing | operator_filter.go:529-577 | depths of emissions never decrease |
| ExpandMap.BreadthFirst | operator_filter.go:513-599 | emitted are exactly the keys at most n edges from the roots for MaxDepth(n), or at any distance without it, each once, at its shortest distance, in order of distance |
| Outbox.StepConserves | internal/outbox.go:149-192 | every step moves copies of an item between sender, buffer, receiver and drop reports, and loses or makes none |
| Outbox.StepKeepsInv | internal/outbox.go:149-192 | capacity respected, counter = drops reported, one sender per mutex |
| Outbox.Conservation | internal/outbox.go:226-241 | the same over every interleaving of any number of senders on any shards with a receiver |
| Outbox.SendersNeverBlock | internal/outbox.go:149-192 | while a sender has work some sender can step, without the receiver |
| Outbox.SingleSenderKeepsNewest | internal/outbox.go:80-124 | one sender, capacity >= 1: the buffer is always the run of items ending with the last one settled, and received plus dropped are exactly those before it |
| Outbox.EvictingSenderLosesItsOwnItem | internal/outbox.go:112-122 | for every capacity >= 1, items and shards: a run of two or more senders in which the evicting sender drops the newest item it offered |
| Outbox.OwnItemIsSafeIff | internal/outbox.go:80-124 | in every run of n senders the item an eviction made room for is sent if and only if n is 1 and the capacity at least 1 |
| OutboxDrops.DropsOnlyWhenFull | internal/outbox.go:149-192 | in every run, before each drop its sender, since it last took its mutex and still holding it, tried to send and met the buffer with cap items in it |
| OutboxDrops.NeverFullNeverDrops | internal/outbox.go:149-192 | a run in which no sender holding its mutex meets a full buffer reports no drop |
| OutboxDrops.FastPathIsLockFree | internal/outbox.go:80-87 | while every first attempt finds room no mutex is taken and nothing is dropped |
| Outbox.DropOldestOutbox.Send | internal/outbox.go:80-124 | without a receiver the channel holds the newest `cap` items offered, and the counter the number of others |
| Reservoir.TakeRandom | collect.go:430-452 | the loop computes the sample that the choices determine, for every n |
| Reservoir.Uniform | collect.go:444-452 | of all choice vectors for N items exactly the fraction n/N keeps position x, for every x |
| ReservoirSets.EverySetEquallyOften | collect.go:444-452 | every set of n of the N positions is the sample under equally many choice vectors, (N-n)! |
| Reservoir.VectorsCount | collect.go:448-448 | the choice vectors number the product of the ranges |
| Reservoir.DistinctPositions | collect.go:430-452 | the sample has min(n, N) items from different positions |
| Reservoir.SampleByPosition | collect.go:430-452 | which positions are kept does not depend on the items |
| KeyedRefs.KeyedRefMap.GetRef | state_withkey.go:37-79 | the key's old ref comes back untouched exactly when it was last accessed within keyTTL and its value has not expired, whatever was swept, else a fresh one; afterwards no entry is idle longer than keyTTL + keyTTL/8 |
| KeyedRefs.KeyedRefMap.Sweep | state_withkey.go:45-53 | exactly the entries last accessed before the cutoff go, except the key asked for |
| KeyedRefs.KeyedRefMap.IdleBound | state_withkey.go:45-53 | the idle bound follows from the sweep schedule |
| KeyedRefs.Ref.Get | state_ref.go:79-106 | an expired value reads as the initial one and is reset |
| KeyedRefs.Ref.Set | state_ref.go:109-126 | later reads see the value until it expires |
| KeyedRefs.Ref.UpdateAndGet | state_ref.go:156-190 | a failing update changes nothing; a successful one starts from the stored value |
| KeyedRefs.UpdateStartsFromGetIff | state_ref.go:156-190 | every update gives what it would give on the value Get returns if and only if the value has not expired or is the initial one |
| KeyedRefs.ExpiredUpdateKeepsTheOldValue | state_ref.go:156-190 | two refs with one history after expiry: Get gives the initial value, an update keeps the old one |
| TtlDedup.TtlDedupSet.Contains | internal/ttldedup.go:52-58 | true if and only if the key's latest Add plus ttl is after now, for every history; afterwards the dead prefix is zero or under half the queue |
| TtlDedup.TtlDedupSet.Add | internal/ttldedup.go:60-71 | the key's latest Add is now, no other key changes |
| TtlDedup.TtlDedupSet.Evict | internal/ttldedup.go:73-93 | exactly the remembered keys stay, through tombstones and compaction |
| Cache.MemoryCache.Get | internal/hooks.go:260-271 | a live entry's data, else nothing |
| Cache.MemoryCache.Set | internal/hooks.go:273-289 | order stays duplicate-free, matches the entries and stays within the size; a new key goes last and the oldest makes room; the entry is live for exactly ttl |
| Cache.MemoryCache.EvictOldest | internal/hooks.go:291-300 | keys already gone are skipped and the first one present is removed |
| Cache.Cached | operator_map.go:74-92 | the wrapped function answers from the cache if it can; with an honest codec and a function of the key it answers what fn would |
| Cache.MapCached | operator_map.go:59-94 | transparency: over any evictions, expiries and clock the cached stage is the serial run of the uncached one |
| Cache.CachedConcurrently | operator_map.go:74-92 | transparency for any number of workers: however their lookups and stores interleave, every lookup ends with the function's answer and the cache stays faithful |
| Cache.DishonestCodecShows | operator_map.go:78-82 | an answer that decodes to another value shows on the second lookup |
| CombineLatest.StepKeepsInv | fan_combine.go:192-258 | every step keeps: each side's emissions plus its pending one are the serial combine's emissions of that side |
| CombineLatest.EmitsTheSerialPairs | fan_combine.go:178-265 | an error-free run sends every pair exactly as often as the serial combine of its updates in lock order, and each side in the serial order |
| CombineLatest.FinalPairIsEmitted | fan_combine.go:178-265 | with both inputs non-empty the pair of both final values is emitted, by the side of the last update |
| CombineLatest.LastUpdaterSendsTheFinalPair | fan_combine.go:192-258 | the last emission is the pair of final values whenever it comes from the side that made the last update |
| CombineLatest.EndsCurrentIffConstant | fan_combine.go:192-258 | for non-empty inputs every finished run ends with the pair of final values if and only if both inputs are constant |
| CombineLatest.StaleLeft | fan_combine.go:204-216 | for every left value a finished run whose last emission carries it |
| Supervise.Supervise | internal/process.go:12-73 | restarts happen exactly after crashes within the limit of their window and are numbered within it; how and when the stage ends otherwise |
| Supervise.RestartsBoundedWithoutWindow | internal/process.go:44-51 | with Window 0 a restart is granted if and only if it is among the first MaxRestarts |
| Supervise.WindowStartsApart | internal/process.go:44-56 | starts of different windows are more than Window apart |
| Supervise.BurstsSpanTheWindow | internal/process.go:44-56 | any 2*MaxRestarts successive restarts span more than Window |
| Supervise.RestartRateBounded | internal/process.go:44-56 | any interval of length Window holds at most 2*MaxRestarts - 1 restarts |
| Supervise.GivesUpOnlyAfterABurst | internal/process.go:49-51 | it gives up only when the last MaxRestarts restarts and the crash fall within one Window |
| Supervise.WindowIsQuietPeriodIff | internal/process.go:44-56 | for all runs a crash is restarted exactly when a counter reset after Window without a crash would allow it, if and only if MaxRestarts is at most 1 |
| Supervise.SteadyCrashesRestartForever | internal/process.go:44-56 | evenly spaced crashes are restarted for ever if and only if fewer than MaxRestarts periods fit in Window |
| CircuitBreakers.Configure | middleware.go:165-204 | each field is the last positive setting of its kind, or the default; so every configuration is usable |
| CircuitBreakers.CircuitBreaker.Allow | middleware.go:223-255 | admission on the fields is admission in the three-phase breaker (closed, open until, probing): who is let through and the phase after |
| CircuitBreakers.CircuitBreaker.RecordSuccess | middleware.go:257-271 | a success resets the count of a closed breaker, uses up one needed success of a probing one, and closes it at the last |
| CircuitBreakers.CircuitBreaker.RecordFailure | middleware.go:273-283 | a failure counts towards the threshold and reopens a probing breaker at once |
| CircuitBreakers.CircuitBreaker.Guarded | middleware.go:320-333 | the wrapped call is admission followed by the report, and skips fn when refused |
| CircuitBreakers.CooldownUpToSkew | middleware.go:223-283 | in every interleaving of any number of workers, from the moment the circuit opens or its cooldown is moved nothing is admitted for the cooldown less the age of the clock readings |
| CircuitBreakers.CooldownLessSkew | middleware.go:320-333 | that bound is exact: the rest every run keeps is the cooldown less the skew (at least 0), and the full cooldown is kept by every run if and only if no reading is old when the mutex is taken |
| CircuitBreakers.LateReportShortensCooldown | middleware.go:273-283 | two calls from a closed circuit whose reports lock in the other order than they read the clock: an item is admitted before the end of the cooldown set first |
| Cooldowns.OpensForCooldown | middleware.go:243-283 | whatever opens the circuit or moves the end of its cooldown, the end is that operation's clock reading plus the cooldown |
| Cooldowns.FirstAdmissionAfterOpening | middleware.go:223-283 | in every interleaving the next item let through after such an operation is the first whose reading is that one's plus the cooldown or later |
| Cooldowns.LateFailuresMoveTheEnd | middleware.go:273-283 | failures reported while the circuit is open move the end if and only if they are threshold many in a row, and to the last one's reading plus the cooldown |
| Cooldowns.NextCallAfterOpening | middleware.go:320-333 | in every serial run, after a failed call or a half-open timeout opened the circuit, item j is called if and only if it comes a cooldown or more later |
| CircuitBreakers.HalfOpenLimit | middleware.go:235-270 | with w workers a half-open episode lets through at most halfOpenProbes - 1 + w items and that many in some run from the closed state; so the documented halfOpenProbes is the limit if and only if w is 1 |
| CircuitBreakers.ProbesBounded | middleware.go:243-270 | every run keeps: items let through while probing are outstanding or have used up a needed success |
| CircuitBreakers.ClosedCountsFailures | middleware.go:257-283 | in every serial run the closed breaker's count is the length of the failing tail, and below the threshold |
| CircuitBreakers.OpensAtThreshold | middleware.go:273-283 | in every serial run a closed circuit opens if and only if the last threshold calls all failed |
| CircuitBreakers.NoCallDuringCooldown | middleware.go:230-233 | in every serial run fn is not called before the cooldown ends |
| CircuitBreakers.HalfOpenEpisode | middleware.go:235-270 | a half-open episode calls fn at most halfOpenProbes times; it closes exactly at that many successes and reopens exactly on a failure or after the deadline |
| CircuitBreakers.ClosesOnlyAfterProbes | middleware.go:257-266 | in every serial run a tripped circuit closes only by halfOpenProbes successes in a row |
| CircuitBreakers.ClosedByProbesIffOneWorker | middleware.go:257-266 | in every run with w workers a half-open circuit closes by halfOpenProbes successes of items let through in that episode, if and only if w is 1 |
| Bloom.BloomDedupSet.Add | internal/bloom.go:64-73 | a bit is set if and only if it is a position of an added key; word indices are in range |
| Bloom.BloomDedupSet.Contains | internal/bloom.go:51-62 | true if and only if every position of the key belongs to an added key; so true for every added key |
| Bloom.AddedIsCovered | internal/bloom.go:51-73 | no false negatives |
| BloomCoverage.SlotsAreApart | internal/bloom.go:56-56 | the numbers behind the positions are h1 + i*h2 modulo 2^64, one h2 apart, and a position is that number modulo m |
| BloomCoverage.OddStepCoversIffPowerOfTwo | internal/bloom.go:75-91 | the first m positions are all different for every pair of hashes if and only if m is a power of two |
| Dedupe.DedupeBloom | aggregate.go:269-309 | the external-set loop emits what the keys emitted before do not block |
| Dedupe.DedupeGlobal | aggregate.go:311-345 | the in-memory loop does the same with exact membership |
| Dedupe.DedupeConsecutive | aggregate.go:347-383 | the last-key loop is the window of one |
| Dedupe.DedupeWindow | aggregate.go:385-433 | the window slice is the last n emitted keys |
| Dedupe.BloomNeverRepeats | aggregate.go:269-309 | an item is emitted if and only if its key is new and no false positive: no key is emitted twice |
| Dedupe.GlobalEmitsFirsts | aggregate.go:311-345 | exactly the first item of each key is emitted |
| Dedupe.WindowOneDropsRepeats | aggregate.go:347-383 | an item is dropped if and only if its key is the previous item's |
| Dedupe.WindowKeepsDistinct | aggregate.go:385-433 | any n+1 successive emissions have different keys |
| Dedupe.WindowOfItemsIffOne | aggregate.go:385-433 | dropping exactly the items whose key is among those of the n items before, as documented, is what the loop does for all inputs if and only if n is 1 |
| Dedupe.LongWindowIsGlobal | aggregate.go:385-433 | a window as long as the input drops what the global set drops |
| Dedupe.DedupeTtl | aggregate.go:269-309 | the external-set loop over a TTL set, whatever it already holds |
| Dedupe.TtlDropsRecentTwins | aggregate.go:269-309 | an item is dropped if and only if one with its key was emitted, or added before the run, less than ttl before |
| Batches.Batch | batch.go:67-158 | the loop with its running measure cuts the events as the specification does |
| Batches.CutConserves | batch.go:73-128 | for every mix of items and ticks, batches followed by the buffer are the input |
| Batches.CutIsPrompt | batch.go:89-97 | no batch is empty, no proper non-empty prefix of a batch or of the buffer meets a trigger, and without ticks every batch does |
| Batches.BatchesByCount | batch.go:89-123 | with a count trigger no batch is longer than count; when it is the only trigger every flushed batch has exactly count items, and they number the input's length divided by count |
| Batches.BatchesByMeasure | batch.go:89-123 | with a measure trigger a batch without its last item measures less than the limit, and without ticks a flushed batch reaches the limit or the count |
| Batches.UnbatchUndoesBatch | batch.go:311-321 | Unbatch(Batch(s)) = s without DropPartial |
| Batches.DropPartialLosesTheTail | batch.go:82-87 | with DropPartial exactly the unflushed tail is lost |
| Batches.BatchIsTheGreedyCut | batch.go:99-123 | without ticks Batch is the only way to cut its input greedily |
| Batches.Unbatch | batch.go:311-321 | the nested loops concatenate |
| Batches.SlidingWindow | batch.go:385-403 | window k is input[k*step .. k*step+size], and there are (n-size)/step+1 of them when n >= size |

## Left out

- `RateLimit`: depends on golang.org/x/time/rate, which is not part of this model.
- Store-backed refs and codecs in `Ref`: only the memory-backed path is modelled.
- Hooks, metrics, inspector, tails, context carriers and mappers: they do not change the streams of values.
- Checkpoints, the dev store and segment capture: file I/O and JSON.
- Supervise restarts around the concurrent stages: a stage is modelled for one run of its inner function, `Supervise` on its own.
- Cooperative drain and fusion together: a fused chain registers a fresh drain entry for a producer that holds its own already; `Drain` is about unfused graphs.
- The error returned by a drained or cancelled concurrent stage: in-flight sends may report context.Canceled, so results about returned errors exclude outside interference.
- Handlers.FastPathSkipsNothing: compares the error handler; timeouts, hooks and context mappers have no effect in the model, and overflow is always Block.
- Fusion.FusedLoop: the values in a chain share one type, because a list of stages of different types cannot be written down.
- Time-to-live of state in concurrent keyed stages: `KeyedOrdered` and `KeyedConcurrent` have refs that never expire; expiry is in `KeyedRefs`.
- ExpandMap without VisitedBy, and with child pipelines that fail: the first need not terminate, the second ends with the child's error.
- CombineLatest after an error or drain: it closes its output while the other goroutine may still send.
- The unordered concurrent Map, FlatMap and ForEach: they promise no order.
- Floating-point code (`optimalBloomParams`, `Percentile`, `ExponentialBackoff`): the Bloom set takes m >= 1 and k >= 1 as parameters.
- Bloom.BloomDedupSet.Add: the false-positive rate is not modelled.
- SwitchMap: a cancelled sub-stream's send can still win its select, so "latest only" is not a property of the code.
- One-pass operators such as Take, Drop, Scan, Reduce, ChunkBy and BufferWith: they add little.
- Overflow of Go's 64-bit int in counters and in the running batch measure.
