# Verified model of the time series store's concurrent and numeric core

This project models, in Dafny, the parts of the time series database whose correctness is hardest to
see from the code, and proves properties of them for all inputs, all interleavings and all reachable
states:

* **The bounded lock-free queue.** `QueueProtocol` is the multi-producer multi-consumer protocol as a
  transition system: any number of threads, one step per access to shared memory, weak compare-exchange
  that may fail spuriously. `LockFreeQueue` is the same algorithm used by one thread at a time, as a
  class over its slot array.
* **The quantile sketches.** `DDSketch`, `DDQuantile`, `DDValues` and `DDSketchObject` model `DDSketchImpl`;
  `FixedBucket`, `FixedQuantile`, `FixedValues`, `FixedRange` and `FixedBucketObject` model
  `FixedBucketHistogramImpl`; `Sums` is about both. Doubles are
  reals, and the logarithmic bucket index is defined by (1 + alpha)^i <= v < (1 + alpha)^(i + 1).
* **The asynchronous write-ahead log shard.** `AsyncWal` is a transition system of producers, worker,
  flush and destructor with explicit sleeping, notifications and spurious wakeups; `AsyncWalShard` is
  the code of its critical sections and of the worker loop, each proved to be the protocol's transition.
* **Reference counting.** `RefCount` is `AtomicRefCounted` over all interleavings of its atomic steps.
* **Ingestion.** `Batching` is one simple specification: group by label set, keep the order, write each
  group once, in label order. `OtelConvert`, `OtelRequest`, `BridgeImpl` and `FlightServer` are the four
  ingestion paths, each proved against it, with the storage's success or failure of every write chosen
  by an arbitrary environment; `OtelLaws`, `FlightLaws` and `FlightRows` say
  what is stored in terms of the incoming message or record batch.

In the object models a ghost `history` or `contents` field records what was done, every method says how
it changes, and `Valid()` ties the real fields to it, so the results about histories hold of the objects
at all times.

Findings where the code does less than its documentation or a first reading suggests; in each case the
code is modelled as it is and the exact condition is proved:

* `TimeSeries::add_sample` throws unless time strictly advances. The bridge therefore writes nothing for
  a metric that has two points of one series in the same millisecond (`Spacing.SameMillisecondThrows`),
  and histogram points need a gap, because each occupies 2 + bucket-count milliseconds
  (`Spacing.HistogramsInOrderIff`). Flight ingestion only notices this within a run of equal tags
  (`Runs.SteadyNotInOrder`), so a series can reach the storage out of order
  (`FlightLaws.StoredInOrderIff`), and when it does notice, it loses the run in progress and all rows after it
  (`FlightLaws.ClashLaw`).
* With one slot the queue accepts a second push over an unread item (`QueueProtocol.CapacityOneOverwrites`);
  it is bounded exactly when it has at least two (`QueueProtocol.BoundedIffTwoSlots`).
* `flush()` of the log shard can return before the last batch is durable (`AsyncWal.FlushCanReturnEarly`).
  While the worker lives, it promises durability of what was accepted before the call only if all of it
  was durable already (`AsyncWal.FlushPromiseIff`).
  A `log` call that overlaps destruction can be accepted and lost (`AsyncWal.OverlappingLogIsLost`),
  exactly when it takes the lock after the worker has exited (`AsyncWal.WrittenIffBeforeExit`). A queue limit of zero accepts nothing (`AsyncWal.AdmissionIff`).
* An `add` of count zero moves min and max without adding a value. This breaks DDSketch's error bound
  (`DDQuantile.ZeroCountBreaksAccuracy`), exactly for single-value sketches whose minimum came from such
  a call (`DDQuantile.QuantileAccuracy`).
* The fixed-bucket quantile is monotone on (0, 1], but quantile(0.5) can be below quantile(0)
  (`FixedRange.HalfBelowZero`); whether q = 0 fits in is decided by the first counted bucket
  (`FixedQuantile.MonotoneAtZeroIff`). It can also exceed max (`FixedRange.TopAboveMax`), which is decided
  by the last counted bucket (`FixedRange.AtMostMaxIff`).

`dafny verify dfyconfig.toml` checks the whole project.

## Model

| member | source | states |
|---|---|---|
| `QueueProtocol.Safety` | include/tsdb/storage/lock_free_queue.h:135-206 | in every interleaving of any number of threads with capacity >= 2: head <= tail <= head + capacity, every slot is in a phase fixed by its ticket, every thread's local view is consistent, no thread ever reads an empty slot |
| `QueueProtocol.StepKeeps` | include/tsdb/storage/lock_free_queue.h:135-206 | each atomic step of push or pop, with or without spurious failure, keeps the protocol invariant |
| `QueueProtocol.OnePhase` | include/tsdb/storage/lock_free_queue.h:139-156 | a slot is claimed, published, being consumed or free exactly according to its sequence number and the head, so in exactly one phase |
| `QueueProtocol.ExclusiveOwnership` | include/tsdb/storage/lock_free_queue.h:143-147 | between winning the compare-exchange and storing seq, no two threads own the same slot |
| `QueueProtocol.PopsArePrefixOfPushes` | include/tsdb/storage/lock_free_queue.h:192-199 | the pop holding ticket p yields exactly the item of the push that won ticket p; claimed pops are a prefix of claimed pushes |
| `QueueProtocol.RunGrows` | include/tsdb/storage/lock_free_queue.h:135-206 | over whole runs histories only grow and a returned item is never changed |
| `QueueProtocol.RefinesBoundedFifo` | include/tsdb/storage/lock_free_queue.h:135-206 | every step is a step of a bounded FIFO: an append with room, a removal of the front, or nothing, and which one is decided by the winning compare-exchange |
| `QueueProtocol.PushReturnsIff` | include/tsdb/storage/lock_free_queue.h:137-157 | a step of push ends the call if and only if it publishes the item, or its seq load finds, at the tail, that the ticket one lap behind has not released the slot; otherwise the thread goes on pushing the same item |
| `QueueProtocol.PopReturnsIff` | include/tsdb/storage/lock_free_queue.h:187-205 | a step of pop ends the call if and only if it releases the slot, with the pushed item of its ticket handed back, or its seq load finds, at the head, that the ticket is unpublished |
| `QueueProtocol.Starts` | include/tsdb/storage/lock_free_queue.h:135-137 | a call begins only in an idle thread, with the item given |
| `QueueProtocol.FullIsTruthful` | include/tsdb/storage/lock_free_queue.h:148-156 | push returns at its seq load if and only if it stands at the tail and the ticket one lap behind has not released the slot |
| `QueueProtocol.EmptyIsTruthful` | include/tsdb/storage/lock_free_queue.h:200-204 | pop returns at its seq load if and only if it stands at the head and that ticket is unpublished |
| `QueueProtocol.FullWithRoomIff` | include/tsdb/storage/lock_free_queue.h:148-156 | when push reports full, the abstract queue has room if and only if a pop has claimed the item one lap behind and not released its slot |
| `QueueProtocol.EmptyWithItemsIff` | include/tsdb/storage/lock_free_queue.h:200-204 | when pop reports empty, the abstract queue holds items if and only if a push has claimed the front ticket and not published it |
| `QueueProtocol.RetryMeansProgress` | include/tsdb/storage/lock_free_queue.h:142-156 | a reload, and a compare-exchange lost for another reason than a spurious failure, mean another thread has moved the counter past the ticket |
| `QueueProtocol.SoloTermination` | include/tsdb/storage/lock_free_queue.h:135-206 | wherever the other threads have stopped, a push or pop that runs alone returns within six steps unless an exchange fails spuriously |
| `QueueProtocol.QuietAnswers` | include/tsdb/storage/lock_free_queue.h:148-156 | with no other operation in flight the failure answers mean exactly full and empty |
| `QueueProtocol.QuiescentConservation` | include/tsdb/storage/lock_free_queue.h:135-206 | when every operation has returned, the returned items are the first head pushed ones and the rest sit in their slots in order |
| `QueueProtocol.CapacityOneOverwrites` | include/tsdb/storage/lock_free_queue.h:119-147 | with one slot, two pushes both succeed and the second destroys the first item |
| `QueueProtocol.BoundedIffTwoSlots` | include/tsdb/storage/lock_free_queue.h:119-206 | all runs stay within capacity if and only if capacity >= 2 |
| `LockFreeQueue.Queue.constructor` | include/tsdb/storage/lock_free_queue.h:119-126 | for any capacity, every slot is numbered with its own index and empty; from two slots on, the queue is valid and empty |
| `LockFreeQueue.Queue.Push` | include/tsdb/storage/lock_free_queue.h:135-158 | appends the item, or reports full exactly when the contents fill the capacity, across any number of laps |
| `LockFreeQueue.Queue.Pop` | include/tsdb/storage/lock_free_queue.h:185-206 | removes and returns the front, or reports empty exactly when there is nothing |
| `LockFreeQueue.Queue.Empty` | include/tsdb/storage/lock_free_queue.h:208-214 | agrees with the abstract contents |
| `LockFreeQueue.Queue.Full` | include/tsdb/storage/lock_free_queue.h:216-222 | agrees with the abstract contents |
| `LockFreeQueue.Queue.Size` | include/tsdb/storage/lock_free_queue.h:224-229 | the length of the abstract contents |
| `LockFreeQueue.Queue.Drain` | include/tsdb/storage/lock_free_queue.h:128-133 | the destructor's loop terminates, drops the contents in order and leaves no live object in any slot |
| `RealPower.BucketIndex` | src/tsdb/histogram/histogram.cpp:282-284 | for every v > 0 and alpha > 0 there is an integer i with (1+alpha)^i <= v < (1+alpha)^(i+1) |
| `RealPower.BucketIndexUnique` | src/tsdb/histogram/histogram.cpp:282-284 | and it is the only one, so buckets are disjoint |
| `RealPower.PowUnit` | src/tsdb/histogram/histogram.cpp:360-361 | the power function has g^0 = 1 and g^1 = g |
| `RealPower.PowStep` | src/tsdb/histogram/histogram.cpp:360-361 | and g^(i+1) = g * g^i for every integer i |
| `DDSketch.Mergeability` | src/tsdb/histogram/histogram.cpp:299-327 | merging the sketches of two histories gives the whole state of one sketch fed all values in any order |
| `DDSketch.Totals` | src/tsdb/histogram/histogram.cpp:286-289 | the total count is the number of added values, and counts and sums keep equal key sets |
| `DDSketch.Extremes` | src/tsdb/histogram/histogram.cpp:291-296 | min and max are the least and the greatest value of any add call, whatever its count |
| `DDSketch.BuildStops` | src/tsdb/histogram/histogram.cpp:340-355 | the bucket scan never runs off the end and stops in a non-empty bucket whose counts enclose the rank, so the division is never by zero |
| `DDQuantile.BucketCountIsIntervalCount` | src/tsdb/histogram/histogram.cpp:282-287 | each bucket counts exactly the added values in its interval |
| `DDQuantile.QuantileAccuracy` | src/tsdb/histogram/histogram.cpp:329-365 | for the rank t with t <= q*(n-1) < t+1, the answer is within relative error alpha of the element of rank t if and only if n >= 2 or no zero-count add carried a value below (1-alpha) times it |
| `DDQuantile.TargetIsRank` | src/tsdb/histogram/histogram.cpp:345-345 | the code's target is the one t with t <= q*(n-1) < t+1 |
| `DDValues.QuantileValue` | src/tsdb/histogram/histogram.cpp:345-364 | with two or more values the answer is lo + ((t - below) / count) * (hi - lo), where [lo, hi) is the power interval of the element of rank t, and below and count are the numbers of added values under and in it |
| `DDValues.OneAnswer` | src/tsdb/histogram/histogram.cpp:340-343 | with one value the answer is the least value of any add call |
| `DDValues.QuantileFails` | src/tsdb/histogram/histogram.cpp:332-338 | the quantile fails if and only if q is outside [0, 1] or, otherwise, nothing was added, each with its own error |
| `Sums.TotalSumMeaning` | src/tsdb/histogram/histogram.cpp:288-289 | the total sum is the sum of all added values, each as often as it was added |
| `Sums.BucketSumMeaning` | src/tsdb/histogram/histogram.cpp:286-287 | each bucket's sum is the sum of the added values in its interval |
| `DDQuantile.ZeroCountBreaksAccuracy` | src/tsdb/histogram/histogram.cpp:340-343 | after add(10) and add(1, 0) every quantile is 1, outside the error bound around the only value 10 |
| `DDQuantile.ManyAccurate` | src/tsdb/histogram/histogram.cpp:340-364 | with two or more values the error bound holds at the rank t with t <= q*(n-1) < t+1, without any condition, for every ranking of the values |
| `DDQuantile.QuantileMonotone` | src/tsdb/histogram/histogram.cpp:340-364 | quantiles never decrease on all of [0, 1] |
| `DDSketchObject.DDSketchImpl.Create` | src/tsdb/histogram/histogram.cpp:254-265 | fails exactly when alpha is outside (0, 1) |
| `DDSketchObject.DDSketchImpl.Add` | src/tsdb/histogram/histogram.cpp:271-297 | rejects exactly non-positive values and otherwise keeps the fields equal to the sketch of the longer history |
| `DDSketchObject.DDSketchImpl.Merge` | src/tsdb/histogram/histogram.cpp:299-327 | rejects exactly different alphas; otherwise the state is the sketch of both histories, also when merging with itself |
| `DDSketchObject.MergeBuckets` | src/tsdb/histogram/histogram.cpp:311-314 | the loop adds counts and sums bucket by bucket, with `sums_.at` defined because the key sets agree |
| `DDSketchObject.DDSketchImpl.Quantile` | src/tsdb/histogram/histogram.cpp:329-365 | computes the quantile function the accuracy and monotonicity results are about |
| `DDSketchObject.DDSketchImpl.Buckets` | src/tsdb/histogram/histogram.cpp:387-399 | the exported buckets are intervals between neighbouring powers of 1 + alpha, disjoint and in order, count exactly the added values in them, and together hold every added value |
| `DDSketchObject.DDSketchImpl.Clear` | src/tsdb/histogram/histogram.cpp:401-409 | leaves the sketch of the empty history |
| `FixedBucket.Mergeability` | src/tsdb/histogram/histogram.cpp:117-144 | merging two histograms gives the whole state of one histogram fed all values in any order |
| `FixedBucket.Extremes` | src/tsdb/histogram/histogram.cpp:109-114 | min and max are values of add calls and enclose the values of all add calls |
| `FixedQuantile.PositionIsBucket` | src/tsdb/histogram/histogram.cpp:100-103 | the linear search finds the one bucket that contains the value |
| `FixedQuantile.QuantileInRankBucket` | src/tsdb/histogram/histogram.cpp:177-198 | for 0 < q <= 1 the scan stops in a non-empty bucket that contains the true element of rank ceil(q*n), and the answer lies in that closed bucket, the last one closed by max |
| `FixedValues.QuantileValue` | src/tsdb/histogram/histogram.cpp:177-198 | for 0 < q <= 1 and the rank r with r < q*n <= r+1, the answer is min if the element of rank r is in the lowest bucket, otherwise lo + (hi - lo) * ((q*n - below) / count) for its bucket, with below and count the numbers of added values under and in it and the last bucket ended by max |
| `FixedValues.QuantileFails` | src/tsdb/histogram/histogram.cpp:169-189 | the quantile fails if and only if q is outside [0, 1] or, otherwise, nothing was added; at zero it is min |
| `Sums.FixedSumMeaning` | src/tsdb/histogram/histogram.cpp:105-107 | the sum is the sum of all added values, each as often as it was added |
| `FixedQuantile.QuantileMonotone` | src/tsdb/histogram/histogram.cpp:177-198 | quantiles never decrease on (0, 1] |
| `FixedQuantile.MonotoneAtZeroIff` | src/tsdb/histogram/histogram.cpp:181-193 | monotonicity extends to q = 0 if and only if the first counted bucket is the lowest one or starts at or above min |
| `FixedRange.HalfBelowZero` | src/tsdb/histogram/histogram.cpp:181-198 | with the boundary 0 and the single value 5, quantile(0) is 5 and quantile(0.5) is 2.5 |
| `FixedRange.AtMostMaxIff` | src/tsdb/histogram/histogram.cpp:190-198 | no quantile exceeds max if and only if the last counted bucket is the lowest one, the one closed by max, or ends at or below max |
| `FixedRange.TopAboveMax` | src/tsdb/histogram/histogram.cpp:190-198 | with the boundaries 0 and 10 and the single value 5, quantile(1) is 10 |
| `FixedRange.InRangeIff` | src/tsdb/histogram/histogram.cpp:177-198 | all quantiles lie between min and max if and only if the first counted bucket meets the condition at the low end and the last the one at the high end |
| `FixedBucketObject.FixedBucketHistogramImpl.Create` | src/tsdb/histogram/histogram.cpp:73-87 | fails exactly for empty or unsorted bounds |
| `FixedBucketObject.IsSorted` | src/tsdb/histogram/histogram.cpp:83-86 | the check of neighbours decides sortedness |
| `FixedBucketObject.FixedBucketHistogramImpl.Add` | src/tsdb/histogram/histogram.cpp:93-115 | keeps the array and totals equal to the histogram of the longer history |
| `FixedBucketObject.FixedBucketHistogramImpl.Merge` | src/tsdb/histogram/histogram.cpp:117-144 | rejects exactly different bounds; otherwise the state is the histogram of both histories |
| `FixedBucketObject.FixedBucketHistogramImpl.Quantile` | src/tsdb/histogram/histogram.cpp:166-199 | computes the quantile function the results are about |
| `FixedBucketObject.FixedBucketHistogramImpl.Buckets` | src/tsdb/histogram/histogram.cpp:201-214 | each exported bucket has the right ends and counts exactly the added values between them |
| `FixedBucketObject.FixedBucketHistogramImpl.Clear` | src/tsdb/histogram/histogram.cpp:216-223 | leaves the histogram of the empty history |
| `AsyncWal.Safety` | src/tsdb/storage/async_wal_shard.cpp:25-112 | in every run, written ++ rest of the batch ++ queue is the series in lock-acquisition order of log, the queue stays within its limit, the batch within 1000, and no wakeup is lost |
| `AsyncWal.StepKeeps` | src/tsdb/storage/async_wal_shard.cpp:14-112 | each critical section, sleep, notification or spurious wakeup keeps that invariant |
| `AsyncWal.AcceptedIff` | src/tsdb/storage/async_wal_shard.cpp:25-32 | a series is accepted exactly by a thread in log that takes the lock while there is room, at the end of the history; without room the thread sleeps |
| `AsyncWal.WorkerDecides` | src/tsdb/storage/async_wal_shard.cpp:75-80 | the worker goes to sleep exactly with nothing to write and no stop request, and exits exactly with nothing to write and one |
| `AsyncWal.NotifyWakes` | src/tsdb/storage/async_wal_shard.cpp:19-47 | the notifications of the destructor, log and flush leave no sleeping worker |
| `AsyncWal.CallsBegin` | src/tsdb/storage/async_wal_shard.cpp:14-27 | calls begin in idle threads with the series given; destruction begins with the stop request and ends only after the worker |
| `AsyncWal.NoDeadlock` | src/tsdb/storage/async_wal_shard.cpp:25-89 | with limit >= 1 and a living worker, a sleeping producer, a queued series or a stop request implies that a step other than a spurious wakeup is available |
| `AsyncWal.SleeperIsWoken` | src/tsdb/storage/async_wal_shard.cpp:25-89 | from every such state, notifying the worker and letting it run wakes a sleeping producer within a bounded number of steps |
| `AsyncWal.ZeroLimitAcceptsNothing` | src/tsdb/storage/async_wal_shard.cpp:25-31 | with limit zero no run ever accepts a series |
| `AsyncWal.AdmissionIff` | src/tsdb/storage/async_wal_shard.cpp:25-31 | while the worker lives, a log call at any point of its wait can be brought to acceptance if and only if the limit is not zero |
| `AsyncWal.FlushGuarantee` | src/tsdb/storage/async_wal_shard.cpp:45-57 | when flush returns, at most one batch of what was accepted up to its last emptiness check is not durable, namely the batch the worker holds, and what is durable is a prefix of it |
| `AsyncWal.FlushPromiseIff` | src/tsdb/storage/async_wal_shard.cpp:45-57 | at the call: in every run flush returns only with everything accepted before the call durable, if and only if all of it was durable already or the worker has exited |
| `AsyncWal.FlushCanReturnEarly` | src/tsdb/storage/async_wal_shard.cpp:45-57 | a run in which flush is called after log has returned and itself returns while the series is not durable |
| `AsyncWal.ShutdownAdvances` | src/tsdb/storage/async_wal_shard.cpp:78-110 | after a stop request no step except an accepted push moves the worker's exit further away, and its own steps bring it nearer |
| `AsyncWal.ShutdownCompletes` | src/tsdb/storage/async_wal_shard.cpp:14-20 | after a stop request the worker can exit within a bounded number of steps, and then everything accepted is written and durable |
| `AsyncWal.DestructorLosesNothing` | src/tsdb/storage/async_wal_shard.cpp:14-23 | with no overlapping log call the destructor returns only after every accepted series is written and flushed |
| `AsyncWal.WrittenIffBeforeExit` | src/tsdb/storage/async_wal_shard.cpp:25-80 | the series of a log call is in the log and durable after the worker's exit, in every later state of every run, if and only if the worker had not exited when the call took the lock |
| `AsyncWal.OverlappingLogIsLost` | src/tsdb/storage/async_wal_shard.cpp:14-35 | a run in which a log call that began before destruction is accepted before the destructor returns and never written |
| `AsyncWalShard.Shard.TryPush` | src/tsdb/storage/async_wal_shard.cpp:27-31 | pushes exactly when there is room, and is the protocol's step of a producer that takes the lock |
| `AsyncWalShard.Shard.Drain` | src/tsdb/storage/async_wal_shard.cpp:82-86 | takes the front of the queue, in order, up to the batch size, and is the protocol's step of a ready worker |
| `AsyncWalShard.Shard.Process` | src/tsdb/storage/async_wal_shard.cpp:101-110 | appends the batch in order and leaves the whole log durable, by the protocol's steps of a writing worker |
| `AsyncWalShard.Shard.DrainUntilExit` | src/tsdb/storage/async_wal_shard.cpp:73-111 | the worker loop after a stop request terminates with everything written in order and durable, by worker steps of the protocol that end in its exit |
| `AsyncWalShard.WorkerStepsAreRun` | src/tsdb/storage/async_wal_shard.cpp:73-111 | the worker steps that the loop takes are a run of the protocol, so what holds of all runs holds of the loop |
| `RefCount.DestroyedExactlyOnce` | include/tsdb/storage/atomic_ref_counted.h:144-163 | in every run the object is deleted at most once, and exactly when all references are released |
| `RefCount.LastReleaseDeletes` | include/tsdb/storage/atomic_ref_counted.h:144-163 | a release deletes if and only if it drops the only reference left, and then no thread is inside addRef |
| `RefCount.NothingAfterDeletion` | include/tsdb/storage/atomic_ref_counted.h:144-163 | no step changes anything after deletion |
| `RefCount.PeakIsExact` | include/tsdb/storage/atomic_ref_counted.h:117-138 | with tracking on, once every addRef has returned, the recorded peak is the maximum of the counter over all moments of the run |
| `RefCount.StepKeeps` | include/tsdb/storage/atomic_ref_counted.h:258-266 | every step, including each iteration of the compare-exchange loop, keeps the count equal to the held references and the maximum either recorded or about to be |
| `TimeSeries.AddAllMeaning` | src/tsdb/core/internal/types.cpp:99-106 | adding samples one by one succeeds exactly when the whole stays strictly increasing in time |
| `TimeSeries.LabelsOrder` | src/tsdb/core/internal/types.cpp:46-48 | the comparison of label maps is a strict total order whose only ties are equal label sets |
| `TimeSeries.LabelsLessMeaning` | src/tsdb/core/internal/types.cpp:46-48 | label sets are compared by the first different entry in name order, by name and then by value, a prefix being smaller |
| `TimeSeries.StringLessMeaning` | src/tsdb/core/internal/types.cpp:46-48 | strings are compared by their first different character, a proper prefix being smaller |
| `OtelTypes.OverlayLast` | src/tsdb/otel/bridge.cpp:25-49 | the last supported attribute with a key decides that label |
| `OtelTypes.OverlayOther` | src/tsdb/otel/bridge.cpp:25-49 | labels that no supported attribute names stay as they were |
| `OtelTypes.RenderedMeaning` | src/tsdb/otel/bridge.cpp:31-47 | strings, truth values and numbers become labels with their text, and only other values are skipped |
| `OtelTypes.Precedence` | src/tsdb/otel/bridge.cpp:201-205 | every effective label is decided by, in this order, the point's last supported attribute, the metric name, the resource, the scope, and exists only if one of them sets it |
| `OtelConvert.AppendAttributes` | src/tsdb/otel/bridge.cpp:25-49 | the loop computes the overlay |
| `Batching.GroupedComplete` | src/tsdb/otel/bridge.cpp:284-313 | every label set is written, with all its samples in point order, and nothing else |
| `Batching.GroupedOrdered` | src/tsdb/otel/bridge.cpp:305-313 | writes come in increasing label order, each label set once |
| `Batching.GroupedConserves` | src/tsdb/otel/bridge.cpp:284-313 | as many samples are written as came in |
| `OtelBridge.BatchIsGrouped` | src/tsdb/otel/bridge.cpp:280-313 | the batch map without its empty series is the grouping, so the pre-created base series is not observable |
| `OtelBridge.WriteBatch` | src/tsdb/otel/bridge.cpp:305-313 | writes the non-empty series in order up to the first failure and reports it |
| `StorageModel.AttemptedMeaning` | src/tsdb/otel/bridge.cpp:305-313 | the write calls are the series in order, all of them or up to and including the first failure |
| `OtelConvert.PrePass` | src/tsdb/otel/bridge.cpp:245-276 | for every assignment of points to tasks and every execution order, each point gets its own labels and sample, whatever a task's reused map held before |
| `OtelConvert.ConvertGauge` | src/tsdb/otel/bridge.cpp:223-316 | for every schedule: writes and outcome are those of the grouping specification, hence those of the sum path |
| `OtelConvert.ConvertSum` | src/tsdb/otel/bridge.cpp:319-376 | writes and outcome are those of the grouping specification: nothing if some series goes back in time, otherwise the groups up to the first failed write |
| `OtelConvert.ConvertHistogram` | src/tsdb/otel/bridge.cpp:379-447 | the same for histogram points expanded into count, sum and bucket counts |
| `OtelLaws.NumberPointStored` | src/tsdb/otel/bridge.cpp:336-339 | a gauge or sum point at nanoseconds within millisecond ms is stored as the single sample (ms, value), under the base labels overlaid with its attributes |
| `OtelLaws.HistogramPointSamples` | src/tsdb/otel/bridge.cpp:395-431 | a histogram point stands for (ms, count), (ms+1, sum) and (ms+2+i, bucket count i), under the base labels overlaid with its attributes |
| `OtelLaws.HistogramPointStored` | src/tsdb/otel/bridge.cpp:395-444 | these samples are what is written for it, as one series |
| `Spacing.InOrderIff` | src/tsdb/core/internal/types.cpp:99-106 | batching succeeds if and only if, for items of one series, each ends before any later one begins |
| `Spacing.NumbersInOrderIff` | src/tsdb/otel/bridge.cpp:334-362 | gauge and sum points convert if and only if points with equal effective labels have strictly increasing milliseconds |
| `Spacing.HistogramsInOrderIff` | src/tsdb/otel/bridge.cpp:394-432 | histogram points convert if and only if each starts after the 2 + bucket-count milliseconds of every earlier point of its series |
| `Spacing.SameMillisecondThrows` | src/tsdb/otel/bridge.cpp:286-291 | two plain points in one millisecond make the whole metric fail with nothing written |
| `OtelRequest.OTELMetricsBridge.ConvertMetrics` | src/tsdb/otel/bridge.cpp:117-178 | a request is the fold of its metrics in order, with failed and unsupported metrics counted as dropped and an exception ending it |
| `OtelLaws.FlattenAt` | src/tsdb/otel/bridge.cpp:131-166 | the metrics of a request are visited in order, each exactly once, with its own data and the labels of its own resource and scope |
| `OtelLaws.MetricLabels` | src/tsdb/otel/bridge.cpp:201-205 | in a request, a metric's label __name__ is its name, and any other label is set by its resource's last supported attribute, failing that by its scope's, or not at all |
| `OtelRequest.CountersAddUp` | src/tsdb/otel/bridge.cpp:165-175 | without an exception processed plus dropped grows by exactly the number of metrics |
| `OtelLaws.CountersMeaning` | src/tsdb/otel/bridge.cpp:165-175 | processed counts the metrics in order whose writes all succeed, dropped the unsupported ones and those with a failed write |
| `OtelLaws.ThrownIff` | src/tsdb/otel/bridge.cpp:131-175 | a request ends with an exception if and only if one of its metrics has a series that goes back in time |
| `BridgeImpl.ConvertMetrics` | src/tsdb/otel/bridge_impl.cpp:78-207 | the second bridge is the fold of the same metrics, one series each, ended by the first failure |
| `BridgeImpl.AttributesIgnored` | src/tsdb/otel/bridge_impl.cpp:145-198 | the second bridge does the same whatever the attributes of the data points |
| `BridgeImpl.PlainMetric` | src/tsdb/otel/bridge_impl.cpp:128-198 | for a metric without point attributes, whatever the storage answers, the batching bridge attempts exactly the series the second bridge attempts, throws exactly when add_sample does and fails exactly when the write does |
| `BridgeImpl.BridgesCompared` | src/tsdb/otel/bridge_impl.cpp:81-200 | without point attributes, whatever the storage answers, the second bridge's write calls are a prefix of the batching bridge's, and the same calls unless it stopped at a failed write |
| `BridgeImpl.BridgesPart` | src/tsdb/otel/bridge_impl.cpp:193-198 | after a failed write the second bridge stops while the batching bridge goes on to write the next metric |
| `BridgeImpl.BridgesAgree` | src/tsdb/otel/bridge_impl.cpp:81-200 | when no point carries attributes and the writes succeed, both bridges make the same writes for every request and fail on the same requests |
| `FlightTypes.CollectMeaning` | src/tsdb/arrow/flight_server.cpp:107-122 | a tag has a value if and only if the last complete entry with its key says so |
| `FlightTypes.TagsMeaning` | src/tsdb/arrow/flight_server.cpp:104-129 | a row's tags are exactly its last entries plus, only if the row names none, the descriptor's name |
| `FlightTypes.GetTags` | src/tsdb/arrow/flight_server.cpp:104-129 | the loops over map entries or string columns compute those tags |
| `Runs.RunsUnpack` | src/tsdb/arrow/flight_server.cpp:133-158 | flattening the runs gives back exactly the rows in order |
| `Runs.RunsDiffer` | src/tsdb/arrow/flight_server.cpp:138-157 | neighbouring runs have different labels |
| `Runs.RunsAgreeWithGroups` | src/tsdb/arrow/flight_server.cpp:133-158 | per label set the runs hold the samples of the bridge's grouping in the same order |
| `Runs.InOrderIsSteady` | src/tsdb/arrow/flight_server.cpp:138-140 | whatever the bridge's grouping accepts, run grouping accepts |
| `Runs.SteadyNotInOrder` | src/tsdb/arrow/flight_server.cpp:138-140 | but not conversely: alternating series may go back in time unnoticed |
| `FlightServer.MetricsFlightServer.PutRows` | src/tsdb/arrow/flight_server.cpp:131-171 | the row loop and the final flush write the runs in order, whatever fails, and update the counters accordingly, or stop at the first row that does not advance its run |
| `FlightServer.MetricsFlightServer.DoPut` | src/tsdb/arrow/flight_server.cpp:30-173 | a stream is the fold of its batches under the descriptor's name: empty ones skipped, a wrong schema, an exception or a read failure ending it |
| `FlightRows.InvalidIff` | src/tsdb/arrow/flight_server.cpp:41-57 | a batch is refused as invalid if and only if it has rows and fewer than two columns, or does not begin with an int64 and a float64 column |
| `FlightRows.RowItemMeaning` | src/tsdb/arrow/flight_server.cpp:134-140 | a row counts if and only if neither its time nor its value is null, and is then the sample of just these |
| `FlightRows.RowTags` | src/tsdb/arrow/flight_server.cpp:58-129 | a row's tags are what its cell in the single column called tags sets, or without such a column its string columns after the first two, the last one deciding, plus the descriptor's name if it sets no __name__ |
| `FlightRows.FallbackMeaning` | src/tsdb/arrow/flight_server.cpp:95-101 | the descriptor's name is the first element of a non-empty path and otherwise "unknown" |
| `FlightRows.KeptRowsMeaning` | src/tsdb/arrow/flight_server.cpp:133-158 | the j-th row written for a batch is the time and value of its j-th complete row, under that row's tags |
| `FlightRows.AllRowsKept` | src/tsdb/arrow/flight_server.cpp:133-170 | an accepted batch keeps all its complete rows |
| `FlightLaws.WritesConserve` | src/tsdb/arrow/flight_server.cpp:143-151 | every run is attempted once in order; ingested samples plus samples of failed writes are all samples; errors count the failed writes |
| `FlightLaws.KeptMeaning` | src/tsdb/arrow/flight_server.cpp:133-140 | the rows kept are all rows if and only if no run goes back in time, and otherwise those before the run that the first clash ends |
| `FlightLaws.BatchLaw` | src/tsdb/arrow/flight_server.cpp:36-171 | a batch is accepted if and only if its schema is right and no run goes back in time; accepted or not, the rows kept were written in order, each once, and are accounted for, and an accepted batch keeps all its non-null rows |
| `FlightLaws.CallsLaw` | src/tsdb/arrow/flight_server.cpp:138-170 | neighbouring writes of a batch differ in labels and each label set gets the samples of the bridge's grouping of the rows kept |
| `FlightLaws.RowsInOrderIff` | src/tsdb/arrow/flight_server.cpp:138-140 | the bridge's grouping would accept the rows if and only if rows with equal tags have strictly increasing timestamps |
| `FlightLaws.StoredInOrderIff` | src/tsdb/arrow/flight_server.cpp:133-170 | every series reaches the storage in order, across all write calls of a batch, if and only if the rows kept with equal tags have strictly increasing timestamps |
| `FlightLaws.ClashLaw` | src/tsdb/arrow/flight_server.cpp:138-140 | a batch that goes back in time stops at the first such row: all rows before the run it ends are written and accounted for, and nothing from the start of that run on is written |
| `FlightLaws.StreamLaw` | src/tsdb/arrow/flight_server.cpp:30-173 | DoPut answers OK if and only if the stream ends cleanly and every batch is acceptable; whatever it answers, the rows kept up to the first unacceptable batch are accounted for and the completed batches counted |
| `FlightRows.StreamAnswer` | src/tsdb/arrow/flight_server.cpp:35-173 | the answer is decided by the first unacceptable batch: Invalid for a wrong schema, otherwise the exception; without one it is OK or the read error |

## Left out

- Persistence hooks of the queue (`persist_item` and its relatives): they count items and drop contents; the full branch is modelled with persistence disabled.
- Weak memory orders: all interleavings are of sequentially consistent steps.
- Wraparound of `size_t` tickets, `uint64_t` counters and `uint32_t` reference counts: integers are unbounded; so is the bucket index that DDSketch casts to `int`.
- A queue of capacity zero, whose `pos % capacity_` divides by zero.
- A sequential queue of one slot beyond its construction: it is not a bounded FIFO, as `QueueProtocol.BoundedIffTwoSlots` proves, so the methods of `LockFreeQueue.Queue` work on valid queues, which have at least two slots.
- LockFreeQueue.Queue.Push: models the copying overload; the moving overload differs only in how the item is constructed. The number of spurious failures is a parameter.
- Rounding, NaN and infinities in the histograms: doubles are reals, the NaN checks have no counterpart, and the logarithm and its floor are replaced by the bucket they determine.
- Merging histograms of different classes (a failed `dynamic_cast`), the accessors, `relative_error`, `size_bytes`, `ComputeExponentialBucket` and `BucketImpl`'s own operations.
- Results of `wal_->log` and `wal_->flush`, which the worker ignores: the log accepts every record. Replay, checkpoints and segment files are not modelled, nor is the worker delay used for testing.
- AsyncWal.NoDeadlock: says that a useful step is always available and AsyncWal.SleeperIsWoken that a bounded number of them suffices; that the scheduler eventually takes them is its fairness, which is not modelled.
- Statistics that `release` updates after its decrement, and the contention counters: only the count, the peak and who deletes are modelled.
- Text of numeric attribute values (`std::to_string`): taken as given in the message.
- Protobuf, Arrow and gRPC types beyond what the code reads; timers, logging and instrumentation.
- Concurrent requests to one bridge or Flight server: each call is modelled on its own, with the parallel loop inside the gauge converter.
- Index, caches, block manager, compressors, query service, rule manager and the rest of the storage engine: the storage is a recorder of write calls whose answers are arbitrary.
