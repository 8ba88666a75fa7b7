# Verified model of the infrastructure agent's data structures and small machines

A Dafny model of the parts of the agent whose correctness is not visible from one function body: the quantile sketch
with its two bucket stores and its binary format, the indexed process heap and the sampler built on it, the two-queue
event pipeline, the process-scan differ, the circuit breaker, the identity cache and the fixed-point load average.
`dafny verify dfyconfig.toml` checks everything.

## How the model is built

* **Sketch** (`LogMapping`, `Buckets`, `Collapse`, `StoreSpec`, `SparseStore`, `DenseStore`, `Stores`, `SketchSpec`,
  `SketchAnswers`, `DDSketch`, `RankDrift`, `SketchRuns`). Values are exact reals. With offset 0 and multiplier
  1/ln(1+gamma), the index of a value `v` is the integer `i` with `(1+gamma)^(i-1) < v <= (1+gamma)^i`; `ValueToIndex`
  computes it by exact steps. The sparse store is a class over a map, the dense store a class over a growable offset
  array, and a sketch holds either behind the datatype `Store` that stands for the Go interface. `Sketch` is the
  abstract value of a sketch; `Represents` relates it to the stream of (clamped) values it was fed. Loops over Go maps
  take the keys in any order (`Ranging`). `Configured` is what config validation demands of gamma and the bounds
  (without gamma < 1), plus bucket indices strictly inside int32; `DDSketches.DefaultConfigured` shows that the
  default configuration meets it.
* **Serialisation** (`ByteFormat`, `Serialization`). Bytes, widths, two's complement and flags are modelled exactly;
  the bit pattern of a float64 is a parameter (`Float64`), assumed to give back the numbers a sketch holds.
* **Sampler** (`HeapOrder`, `TopScores`, `ProcessHeap`, `ScoreSort`, `SamplerSpec`, `TopNSampler`). `up` and `down` of
  Go's container/heap are written out. The heapsort works in place on an array.
* **Pipeline** (`EventPipeline`, `EventGrouping`). One step per atomic action of a caller, of the accumulator or of the
  sender; a run is any interleaving. Stop is not atomic: goroutines go on until they notice the closed channel.
* **Scan differ, breaker, cache, load** (`ProcessScanner`, `CircuitBreaker`, `KnownIds`, `LoadAverage`). Clock readings
  are arguments. The classes take the steps of pure functions, and the theorems are about all runs of those functions.

Counts are unbounded naturals; the 32-bit arithmetic of the load average is explicit.

## What the code does that its comments do not say

* The sort behind `TopN` is ascending (its comments say descending), so `TopN(n)` returns the lowest scores.
  `TopNPromise` gives the exact condition under which they are also the highest.
* The sampler is meant to keep the processes with the highest scores (docs/runbook.md:34). It does so for the first
  scan. Later, a tracked process whose score falls keeps its place against processes already turned away, and a place
  freed by clean-up stays empty until the next scan. `UpdateKeepsTopIff` and `CleanKeepsTopIff` are the exact
  conditions, `LaterScanKeepsTop` puts them together for a scan, and `SecondScanMissesTop` is an example.
* Clean-up looks at the PIDs of the last scan only. So the time a PID was seen is forgotten if and only if the scan
  right behind the last one with the PID comes more than a minute later; otherwise it is kept for good
  (`RememberedIff`, `KeptForGood`, `KeptForADay`).
* Memory is weighed against the total of the scan before. So a new sampler scores its first scan by CPU alone
  (`FirstScanByCpu`).
* Configuration does not demand a positive churn threshold. Without one, the breaker of the sampler never closes again
  once it is open, as one new PID makes it (`OpenForever`, `OnePidOpensForGood`); with one, quiet updates close it
  (`QuietCloses`).
* `GetValueAtQuantile` answers with the upper end of a bucket, but with max itself for q = 1. So an answer for q < 1 can
  exceed the one for q = 1 (`WithinMaxIff`, `AnswerAboveMax`).
* With `HalfOpenSuccessThreshold` above 1, which is the default, one successful probe through `Export` leaves the
  breaker rejecting every later request, as long as requests come one at a time: it never closes again
  (`ClosesAgainIff`, `NeverClosesAgain`, `StuckForever`, `DefaultNeverRecovers`). Probes admitted together before the
  first success can still close it, if and only if enough of them are in flight (`ClosesIffEnoughInFlight`,
  `StarvedForever`).
* Collapsing sparse buckets rounds shares down, so the bins of a sparse store may sum to less than its total: by one for
  each removal that needs rounding (`ExactLoss`, `LossyCollapse`). `GetValueAtQuantile` then falls back to max for ranks
  beyond the sum. Answers drift by at most as many ranks as counts were in removed buckets, however adds, merges and
  collapses follow each other (`QuantileOfDrifted`); as long as no value comes to an index across which counts were
  moved, the remaining buckets bracket them more sharply (`QuantileAfterCollapse`, `AddKeepsRanksIff`).
* `GetQuantileAtValue` of an answer in the highest bucket is 1, but 0 if all values are clamped to one bound or equal
  the answer, because min is looked at before max (`QuantileInverse`).
* The 32-bit load average is exact from zero up to 1024 queued processes, and no further (`SafeIff`).
* Three operations take a lock that they already hold, and Go's locks are not re-entrant, so as written they block:
  `FromBytes` on data of at least 38 bytes (sketch/serialization.go:115-119 calls `Reset`, sketch/ddsketch.go:376),
  heap `Update` and `Remove` wherever they reach container/heap, which calls `Len` (sampler/heap.go:29, 74, 107), and a
  sketch merged into itself (sketch/ddsketch.go:303-306). The model leaves locks out, so its theorems about the first
  two are about what the bodies compute once that lock is not taken twice.
* sketch/ddsketch.go:390-400 declares `Bytes` and `FromBytes` a second time, as stubs. The model follows
  sketch/serialization.go.
* sampler/topn.go:239 and 249 read `MaxSamplerCPU` off the Top-N configuration, which has no such field (it is one of
  `Config`, sampler/config.go:18-19), so that file does not compile as written. The model takes the field as meant.
* A `FromBytes` that fails on magic or version has already emptied the sketch.
* `Copy` of a dense sketch does not keep its collapse threshold: the copy has 10.
* `Reset` of a closed breaker keeps its failure counter.
* `Get` of an expired identity leaves the entry in the cache (its comment says it is removed); `CleaningIsInvisible`
  shows that no answer depends on it.

## Model

| member | source | states |
|---|---|---|
| `LogMapping.ValueInBucket` | sketch/ddsketch.go:420-429 | every positive value lies between the two consecutive powers of 1+gamma that its index names |
| `LogMapping.IndexMonotone` | sketch/ddsketch.go:425-428 | larger values never get a lower index |
| `LogMapping.IndexUnique` | sketch/config.go:124-132 | no other index has the value between its powers |
| `LogMapping.RelativeError` | sketch/ddsketch.go:432-435 | the representative of a value's bucket is at least the value and less than 1+gamma times it |
| `LogMapping.IndexRoundTrip` | sketch/ddsketch.go:431-435 | the index of a bucket's representative is that bucket |
| `Collapse.SharesBalance` | sketch/store.go:271-282 | the two shares of a removed count sum to the count or one less, and balance about the removed index: a swap of the shares would not |
| `Collapse.SharesExactIff` | sketch/store.go:278-282 | a removal loses nothing exactly when the inverse-distance share divides evenly |
| `Collapse.RemoveAllSound` | sketch/store.go:255-294 | for every order of removals: exactly those buckets go, no other count drops, the sum never rises and loses at most one per removal |
| `Collapse.ExactLoss` | sketch/store.go:255-294 | for every order of removals the sum drops by exactly the number of removals that need rounding, so nothing is lost if and only if none does |
| `Collapse.RemoveAllRanks` | sketch/store.go:255-294 | for every order of removals, as seen from every bucket that stays: the counts below it do not grow, and the counts up to it shrink by no more than what is lost in all |
| `Collapse.AddKeepsRanksIff` | sketch/store.go:67-88 | adding afterwards keeps the ranks if and only if they are kept as seen from the index added to, as they are from every remaining bucket |
| `Collapse.RanksCrossed` | sketch/store.go:67-88 | a value that comes to an index across which a removal moved a count finds the ranks not kept |
| `Collapse.CollapseSound` | sketch/store.go:240-298 | every outcome of a collapse keeps lowest and highest index, removes exactly the low-count buckets between them when there are ten or more buckets in all (otherwise none), and bounds the loss by their number |
| `Collapse.CollapseReduces` | sketch/store.go:240-298 | a collapse changes nothing if and only if no bucket strictly between the extremes has a low count; otherwise fewer buckets are left, none with a lower count, and their ranks are kept |
| `Collapse.LossyCollapse` | sketch/store.go:240-298 | ten buckets with threshold 10, one of them with a single count: the collapse loses it |
| `SparseStores.SparseStore.constructor` | sketch/store.go:57-64 | an empty valid store |
| `SparseStores.SparseStore.Add` | sketch/store.go:67-88 | one index changes by the count; above 1000 buckets the result is an outcome of a collapse, which differs if and only if there is a low bucket between the extremes; bins never sum to more than the total; min and max are the exact extremes |
| `SparseStores.SparseStore.Merge` | sketch/store.go:152-183 | pointwise addition in any order of the other buckets, collapsed exactly when there are more than 100 of them, which differs if and only if the sum has a low bucket between the extremes |
| `SparseStores.SparseStore.CollapseBuckets` | sketch/store.go:240-298 | an outcome of a collapse for every iteration order; min, max and total stay |
| `SparseStores.SparseStore.RemoveOne` | sketch/store.go:256-294 | one bucket's current count goes to its nearest neighbours; the fallback branches are unreachable |
| `SparseStores.SparseStore.FindNeighbours` | sketch/store.go:260-269 | finds the nearest bucket on both sides |
| `SparseStores.SparseStore.RecalculateMinMax` | sketch/store.go:301-322 | min and max become the extremes of the keys |
| `SparseStores.SparseStore.Clear` | sketch/store.go:98-107 | the store is empty |
| `SparseStores.SparseStore.Copy` | sketch/store.go:186-202 | a new object with the same contents |
| `SparseStores.FullIffContiguous` | sketch/store.go:207-220 | the density of a sparse store lies in (0,1], and is 1 if and only if every index from lowest to highest has a bucket |
| `DenseStores.DenseStore.constructor` | sketch/store.go:337-344 | an empty valid store of the given capacity |
| `DenseStores.DenseStore.EnsureCapacity` | sketch/store.go:554-579 | growth left or right covers the index, to the exact length, and changes no count at any index |
| `DenseStores.DenseStore.Add` | sketch/store.go:347-370 | exactly one index changes; min and max are the exact extremes of the non-zero indices; what the bins sum to less than the count does not change |
| `DenseStores.DenseStore.Get` | sketch/store.go:373-384 | the count of the abstract map, 0 outside the array |
| `DenseStores.DenseStore.Clear` | sketch/store.go:387-400 | no count is left and the array stays |
| `DenseStores.DenseStore.GetNonEmptyBuckets` | sketch/store.go:403-414 | exactly the non-zero counts |
| `DenseStores.DenseStore.Merge` | sketch/store.go:446-494 | pointwise addition in any order; the bounds guard never fails; the bins go on summing to the count exactly as far as the other store's do |
| `DenseStores.DenseStore.Copy` | sketch/store.go:497-514 | a new object over a new array with the same contents |
| `DenseStores.DenseStore.Density` | sketch/store.go:518-534 | the number of non-empty buckets over the length of the array |
| `DenseStores.DensityIsShare` | sketch/store.go:518-534 | times the length of the array it is the number of non-empty buckets, and it lies in [0,1] |
| `DenseStores.GrownCovers` | sketch/store.go:554-579 | growth covers the index and what was covered before, and no more than that needs |
| `Stores.Store.GetBounds` | sketch/store.go:24-29 | through the interface, the exact lowest and highest index in use, or none |
| `Stores.Store.Merge` | sketch/store.go:31-32 | through the interface, pointwise addition, exactly unless a sparse store takes more than 100 buckets and the sum has low ones; then some buckets strictly between the extremes go, at most one count is lost for each, no other count drops, and ranks are kept as seen from the others; the density afterwards is known before |
| `SketchSpec.AddRepresents` | sketch/ddsketch.go:92-127 | adding a value c times is appending c copies of its clamped value to the stream |
| `SketchSpec.MergeRepresents` | sketch/ddsketch.go:291-322 | between sketches of the same gamma, whatever their bounds, a merge represents the two streams one after the other |
| `SketchSpec.MergeIsFeedingBoth` | sketch/ddsketch.go:291-322 | merging the sketches of two streams equals the sketch of both: same count at every index, count, sum, min and max |
| `SketchSpec.StreamExtremes` | sketch/ddsketch.go:121-127 | min and max are values of the stream and bound all of it |
| `SketchSpec.AverageInside` | sketch/ddsketch.go:119-119 | the sum lies between count times min and count times max |
| `SketchSpec.ClampNearest` | sketch/ddsketch.go:101-106 | clamping goes to the nearest value within the bounds, so a value within them stays itself |
| `SketchAnswers.RankBucket` | sketch/ddsketch.go:171-179 | the bucket at which the running sum reaches rank k is the bucket of the k-th smallest value |
| `SketchAnswers.RankIsHeld` | sketch/ddsketch.go:160-182 | without a collapse every rank has a bucket, so the fallback is not used |
| `SketchAnswers.QuantileRelativeError` | sketch/ddsketch.go:138-183 | for every stream and q in (0,1) the answer e satisfies x <= e < (1+gamma)x for the ceil(qn)-th smallest clamped value x |
| `SketchAnswers.StreamQuantile` | sketch/ddsketch.go:86-183 | the same for any positive values added one by one to an empty sketch |
| `SketchAnswers.AnswersAtEnds` | sketch/ddsketch.go:152-157 | for q = 0 and q = 1 the answers are exactly the lowest and the highest value of the stream |
| `SketchAnswers.AnswerFails` | sketch/ddsketch.go:138-151 | there is an error exactly for a quantile outside [0,1], and then for an empty sketch, and which |
| `SketchAnswers.AnswerUnique` | sketch/ddsketch.go:138-183 | the contract of GetValueAtQuantile leaves one answer, also after a collapse, so stores with the same counts answer alike |
| `SketchAnswers.QuantileMonotone` | sketch/ddsketch.go:160-179 | strictly between 0 and 1 a larger quantile never gets a lower answer |
| `SketchAnswers.WithinMaxIff` | sketch/ddsketch.go:152-179 | an answer for q < 1 does not exceed the one for q = 1 if and only if its rank lies below the bucket of max or max is its bucket's representative |
| `SketchAnswers.AnswerAboveMax` | sketch/ddsketch.go:152-179 | one value 1.2 at gamma 0.5: the median is answered with 1.5, above the maximum |
| `SketchAnswers.CollapsedHolder` | sketch/ddsketch.go:171-179 | after collapses the answering bucket lies between the nearest remaining bucket at or below the true one and the nearest at or above the true one of the rank increased by the lost counts |
| `SketchAnswers.QuantileAfterCollapse` | sketch/ddsketch.go:138-183 | the same for the answer and the order statistics of the stream, for every q in (0,1); max if the increased rank is beyond the stream |
| `RankDrift.ReducedShifts` | sketch/store.go:240-298 | a collapse changes the counts below any index by at most the counts of the buckets it removes |
| `RankDrift.CollapseDisplaces` | sketch/store.go:240-298 | these are at most the threshold for each removed bucket |
| `RankDrift.ShiftedHolder` | sketch/ddsketch.go:171-179 | with a drift of w the bucket that answers rank k lies between the true buckets of the ranks k-w and k+w |
| `RankDrift.AddTracks` | sketch/ddsketch.go:92-127 | an add after any collapses, at any index, keeps the drift and adds what it displaces |
| `RankDrift.MergeTracks` | sketch/ddsketch.go:291-322 | a merge adds up the drifts of both sketches and what it displaces |
| `RankDrift.QuantileOfDrifted` | sketch/ddsketch.go:138-183 | over every interleaving of adds, merges and collapses with drift w: for every q in (0,1) the answer is at least the value w ranks below the ceil(qn)-th smallest one, and less than 1+gamma times the value w ranks above it |
| `RankDrift.EndsOfDrifted` | sketch/ddsketch.go:152-157 | the answers for q = 0 and q = 1 stay exact over every interleaving |
| `RankDrift.ShareOfDrifted` | sketch/ddsketch.go:186-233 | with drift w GetQuantileAtValue is off by at most w over n |
| `SketchAnswers.QuantileOfMonotone` | sketch/ddsketch.go:186-233 | GetQuantileAtValue is monotone and within [0,1], also after a collapse |
| `SketchAnswers.QuantileInverse` | sketch/ddsketch.go:138-233 | applied to the answer for q it gives r with r < q <= r plus the share of the answering bucket; for the highest bucket it gives 1, or 0 if the answer is clamped to min |
| `SketchAnswers.QuantileOfValue` | sketch/ddsketch.go:186-233 | over the stream, GetQuantileAtValue is 0 up to the lowest value, 1 from the highest on, and between them the share of the values up to the power of 1+gamma below the value |
| `SketchAnswers.QuantileOfBounds` | sketch/ddsketch.go:186-233 | so it lies between the share of the values below the value and the share of those more than a factor 1+gamma below it |
| `SketchAnswers.QuantileOfFails` | sketch/ddsketch.go:186-200 | there is an error exactly for a value that is not positive, and then for an empty sketch, and which |
| `DDSketches.DefaultConfigured` | sketch/config.go:46-60 | the default bounds have bucket indices far inside int32 |
| `DDSketches.DDSketch.constructor` | sketch/ddsketch.go:51-84 | for any configuration an empty sketch over its own three stores, valid if the configuration is fine |
| `DDSketches.DDSketch.CheckAndSwitchStores` | sketch/ddsketch.go:438-466 | switches exactly when due and the density asks for it; no count or total changes unless more than 100 buckets, with low ones among them, go to a sparse store |
| `DDSketches.SwitchBand` | sketch/ddsketch.go:447-462 | stores of either kind stay exactly between half the threshold and the threshold; a higher density only makes sparse ones leave, a lower one only dense ones |
| `DDSketches.DDSketch.SwitchToDense` | sketch/ddsketch.go:449-454 | moving to the dense store changes no count |
| `DDSketches.DDSketch.SwitchToSparse` | sketch/ddsketch.go:457-462 | moving buckets to the sparse store changes no count if and only if they are at most 100 or none between the extremes is low; otherwise they are collapsed |
| `DDSketches.DDSketch.AddWithCount` | sketch/ddsketch.go:92-135 | errors and zero counts change nothing; otherwise the store kind changes exactly when a check is due and the density asks for it, and the result is exactly the abstract add if and only if no low bucket is collapsed, by a sparse store of more than 1000 buckets or by a switch of more than 100 to one: all in terms of the state before the call; otherwise reduced as by a collapse |
| `DDSketches.DDSketch.Merge` | sketch/ddsketch.go:291-330 | another gamma is refused without a change; otherwise the same for the abstract merge, for all four pairs of store kinds: exactly if and only if no low bucket is collapsed, by a sparse receiver of more than 100 buckets or by a switch, known before, of more than 100 to a sparse store |
| `DDSketches.DDSketch.Copy` | sketch/ddsketch.go:333-372 | the same value over new objects, with the active store also kept for switching; the collapse threshold is kept by a sparse sketch, and 10 for a dense one |
| `DDSketches.DDSketch.Reset` | sketch/ddsketch.go:375-388 | the empty sketch, with all three stores emptied |
| `DDSketches.DDSketch.GetValueAtQuantile` | sketch/ddsketch.go:138-183 | the errors, min and max at the ends, the representative of the first bucket that reaches the rank, and max exactly when the bins do not reach it |
| `DDSketches.DDSketch.GetQuantileAtValue` | sketch/ddsketch.go:186-233 | the errors, 0 and 1 at the ends, and otherwise the share of counts below the value's bucket |
| `SketchRuns.FeedAll` | sketch/ddsketch.go:86-135 | adding any positive values one by one takes the object through a run of such adds, whatever switches and collapses happen |
| `SketchRuns.RunTracks` | sketch/ddsketch.go:92-135 | every run of adds follows the abstract run, with ranks that drift by at most the counts of the buckets it collapses |
| `SketchRuns.KeptRun` | sketch/ddsketch.go:92-135 | a run is the abstract run if no low bucket is collapsed by more than 1000 in a sparse store or by a check that sends more than 100 to one |
| `SketchRuns.NeverCollapsesExact` | sketch/ddsketch.go:92-135 | known before the run: few buckets in the end, or no check due, or a density that never rises above the threshold, make every run exact |
| `SketchRuns.SwitchesSpaced` | sketch/ddsketch.go:438-466 | over every run any two switches of the store are at least a second apart |
| `SketchRuns.QuantileOfStream` | sketch/ddsketch.go:86-183 | an empty sketch object fed any positive values answers every q in (0,1) within a factor 1+gamma of values around the ceil(qn)-th smallest clamped one, at most as many ranks away as counts were collapsed; of that value itself if nothing can collapse, which is known before |
| `SketchRuns.EndsOfStream` | sketch/ddsketch.go:86-157 | an empty sketch object fed any positive values answers q = 0 and q = 1 with the lowest and highest clamped value exactly |
| `SketchRuns.ShareInStream` | sketch/ddsketch.go:86-233 | its answer to GetQuantileAtValue is off from the share of the stream by at most the share of what was collapsed |
| `SketchRuns.QuantileOfMerge` | sketch/ddsketch.go:138-330 | after a merge of two objects of any store kinds: within that factor for both streams together if the merge is exact, which is known before it; and in any case bracketed by the remaining buckets |
| `SketchRuns.QuantileOfDriftedMerge` | sketch/ddsketch.go:138-330 | after a merge of two objects that may both have collapsed before, the drifts add up with what the merge displaces, and the answer is within that many ranks and the factor 1+gamma for both streams together |
| `ByteFormat.Int32RoundTrip` | sketch/serialization.go:100-103 | the 4-byte index gives back an index exactly when it is an int32 |
| `ByteFormat.TwosComplement` | sketch/serialization.go:101-101 | an index is written as itself, or plus 2^32 if it is negative |
| `ByteFormat.PutFour` | sketch/serialization.go:99-101 | four-byte numbers are little-endian |
| `ByteFormat.PutEight` | sketch/serialization.go:74-102 | eight-byte numbers are the low four bytes and then the high four |
| `ByteFormat.FlagsLayout` | sketch/serialization.go:11-71 | the first bytes are DDSK and version 1, and the bits of the next one say whether the store is sparse and whether there are a min, a max and a sum |
| `ByteFormat.ParametersLayout` | sketch/serialization.go:74-79 | gamma, the bounds and the count stand at bytes 6, 14, 22 and 30 |
| `ByteFormat.BodyLayout` | sketch/serialization.go:81-103 | then min, max and sum as far as there are any, the number of buckets, and the buckets |
| `ByteFormat.ExtWidth` | sketch/serialization.go:81-89 | a min, max or sum that is there takes eight bytes, another one none |
| `ByteFormat.ItemLayout` | sketch/serialization.go:100-103 | bucket i stands at byte 12 i of them: index, then count |
| `ByteFormat.RefusedIff` | sketch/serialization.go:109-130 | data is refused if and only if it has fewer than 38 bytes or does not start with DDSK and version 1 |
| `ByteFormat.EncodeRoundTrip` | sketch/serialization.go:108-200 | decoding gives back every written field and bucket, for every order of the buckets |
| `ByteFormat.SliceRoundTrip` | sketch/serialization.go:217-279 | the length-prefixed form gives back any list of encodings |
| `ByteFormat.SliceLayout` | sketch/serialization.go:217-243 | the number of sketches stands first, and each behind the earlier ones with its length in front |
| `Serialization.Bytes` | sketch/serialization.go:48-106 | the bytes are the encoding of the value and store kind, each bucket once in some order |
| `Serialization.FromBytes` | sketch/serialization.go:109-200 | short data changes nothing, bad magic or version empties the sketch, other data replaces value and store kind, exactly unless more than 1000 buckets go to a sparse store |
| `Serialization.BytesRoundTrip` | sketch/serialization.go:48-200 | for a sketch whose numbers fit their fields, what Bytes wrote is accepted and stands for the same gamma, bounds, count, sum, min, max, store kind and count at every index |
| `Serialization.WriteAndRead` | sketch/serialization.go:48-200 | Bytes of one object and FromBytes into another give it the same value and store kind, if the store is dense or has at most 1000 buckets |
| `Serialization.SerializeSlice` | sketch/serialization.go:217-243 | the number of sketches, then the encoding of each with its length in front, in order |
| `Serialization.DeserializeSlice` | sketch/serialization.go:246-279 | fails if and only if the header or some part is refused; otherwise a list of new sketches over new objects, each holding what its part decodes to |
| `Serialization.SketchSliceRoundTrip` | sketch/serialization.go:217-279 | what SerializeSlice wrote of any list of such sketches, DeserializeSlice can read, and each part decodes to the value and store kind that were written |
| `Serialization.WriteAndReadSlice` | sketch/serialization.go:217-279 | SerializeSlice and DeserializeSlice of any list of sketch objects give new objects of the same values and store kinds in order, if each is dense or has at most 1000 buckets |
| `Serialization.MergeBytes` | sketch/serialization.go:203-214 | refused data or another gamma changes nothing; otherwise the merge with the sketch that was read |
| `ProcessHeaps.ProcessHeap.constructor` | sampler/heap.go:19-25 | an empty valid heap |
| `ProcessHeaps.ProcessHeap.Swap` | sampler/heap.go:41-45 | positions change places and the PID index stays exactly inverse to them |
| `ProcessHeaps.ProcessHeap.PushBack` | sampler/heap.go:48-52 | appends and indexes a new PID |
| `ProcessHeaps.ProcessHeap.PopBack` | sampler/heap.go:55-62 | removes the last element and its index entry |
| `ProcessHeaps.ProcessHeap.Contains` | sampler/heap.go:65-70 | true exactly for tracked PIDs |
| `ProcessHeaps.ProcessHeap.Up` | sampler/heap.go:82-82 | restores heap order from a low element by swaps that keep the index inverse and the elements the same |
| `ProcessHeaps.ProcessHeap.Down` | sampler/heap.go:101-101 | restores heap order from a high element, or reports that nothing moved |
| `ProcessHeaps.ProcessHeap.HeapPush` | sampler/heap.go:88-88 | adds one process to a heap |
| `ProcessHeaps.ProcessHeap.HeapPop` | sampler/heap.go:87-87 | removes the root of a heap |
| `ProcessHeaps.ProcessHeap.HeapRemove` | sampler/heap.go:115-115 | removes the element at a position of a heap |
| `ProcessHeaps.ProcessHeap.Update` | sampler/heap.go:73-103 | refreshes a known PID, fills a free place, replaces a lowest process by a strictly higher one, or ignores; heap order, distinct PIDs, size bound and inverse index hold |
| `ProcessHeaps.ProcessHeap.UpdateAt` | sampler/heap.go:95-102 | rewrites one entry, keeping its start time, and restores the heap |
| `ProcessHeaps.ProcessHeap.Remove` | sampler/heap.go:106-117 | removes exactly the entry of the PID, if any, and keeps the heap valid |
| `TopScores.FeedKeepsTop` | sampler/heap.go:73-103 | feeding any processes with distinct PIDs leaves maxSize of them, or all if there are fewer, such that no dropped one scores above a kept one |
| `TopScores.TopScoresExact` | sampler/heap.go:73-103 | at every threshold the kept scores are as many as all scores, up to maxSize: the multiset of the highest scores, ties included |
| `TopScores.UpdateKeepsTopIff` | sampler/heap.go:73-103 | for any PID, new or seen before: tracked processes that are the highest of all newest records stay so if and only if the call does not refresh a tracked one to a score below an untracked one |
| `TopScores.RunKeepsTop` | sampler/heap.go:73-103 | over every run of Update with repeated PIDs, from any such heap, under that condition |
| `TopScores.RefreshedIs` | sampler/heap.go:95-102 | a refreshed entry is the newer record of the PID with the start time of the older |
| `TopScores.FeedsNewest` | sampler/heap.go:73-103 | over every run a tracked process carries the last record fed of its PID, but for the start time |
| `TopScores.RisingStaysOnTop` | sampler/heap.go:95-102 | a score that does not fall meets the condition |
| `TopScores.RemoveKeepsTopIff` | sampler/heap.go:106-117 | removing a tracked PID keeps the rest at the top if and only if no process had been left out |
| `TopScores.CleanKeepsTopIff` | sampler/topn.go:124-137 | removing all entries of some PIDs keeps the tracked at the top of the rest if and only if every untracked one is of these PIDs, or all places were taken and no tracked one is |
| `ScoreSort.Heapify` | sampler/heap.go:170-187 | the in-place sift computes the function HeapifySound is about |
| `ScoreSort.HeapifySound` | sampler/heap.go:170-187 | a sift restores max-heap order, permutes the first n elements and leaves the rest |
| `ScoreSort.Sort` | sampler/heap.go:158-168 | ends with a permutation of the input in non-decreasing score order |
| `TopNSamplers.TopN` | sampler/heap.go:121-138 | the first n of that order, with the heap unchanged |
| `TopNSamplers.TopNPromise` | sampler/heap.go:119-138 | the result holds the n highest scores if and only if n is 0, or at least the number tracked, or all scores are equal |
| `TopNSamplers.TopNReturnsTheLowest` | sampler/heap.go:119-138 | two scores, n = 1: the lower one is returned |
| `TopNSamplers.TopNSampler.Update` | sampler/topn.go:64-144 | with churn handling every tracked PID is in the scan, even when the breaker truncates it; at most MaxProcesses are tracked; a new sampler given distinct PIDs tracks the top scores of what it processed; any sampler makes a run of heap updates and then drops exactly the PIDs that left; totals, churn, breaker and seen times are exact |
| `TopNSamplers.LaterScanKeepsTop` | sampler/topn.go:109-137 | for any scan of a running sampler whose fed processes stay on top: the tracked processes are at the top of the newest records of the PIDs not gone if and only if, before clean-up, every untracked record is of a gone PID, or all places are taken by PIDs that are not gone |
| `TopNSamplers.SecondScanMissesTop` | sampler/topn.go:109-137 | default weights, one place, two scans: the second leaves the lower process tracked |
| `TopNSamplers.TopNSampler.Feed` | sampler/topn.go:104-122 | a run of heap updates with the scored processes in order, and their totals |
| `TopNSamplers.TopNSampler.CleanUp` | sampler/topn.go:124-137 | exactly the entries of PIDs that left the scans go, in any order, and of them exactly those not seen for a minute are forgotten |
| `TopNSamplers.PidsFrom` | sampler/topn.go:74-79 | every PID of a scan is that of some process in it |
| `TopNSamplers.SampleSizeIs` | sampler/topn.go:96-102 | an open breaker leaves the most processes that are no more than ten or no more than a tenth |
| `SamplerSpec.ScoredAt` | sampler/topn.go:109-112 | each process of a scan is fed with its own score |
| `SamplerSpec.ScoreCutOff` | sampler/topn.go:226-229 | no score lies strictly between 0 and the minimum, and scores from it on are as without it |
| `SamplerSpec.MoreMemoryScoresHigher` | sampler/topn.go:215-224 | of two processes with equal CPU the one with more memory scores higher, as soon as the other scores |
| `SamplerSpec.MoreCpuScoresHigher` | sampler/topn.go:215-224 | and with equal memory the one with more CPU does |
| `SamplerSpec.ScoresAddUp` | sampler/topn.go:215-224 | without a minimum the scores of a scan add up to the weighted CPU in all and the weighted memory in all, in percent of the total |
| `SamplerSpec.MemoryMakesUp` | sampler/topn.go:215-224 | if that total is the scan's own, memory makes up exactly 100 times its weight |
| `SamplerSpec.FirstScanByCpu` | sampler/topn.go:219-221 | while there is no total, as in the first scan, memory plays no part |
| `SamplerSpec.ForgottenIff` | sampler/topn.go:74-136 | a scan forgets the time of a PID if and only if churn handling is on, the PID was in the scan before and is not in this one, and more than a minute lies between the two |
| `SamplerSpec.RememberedIff` | sampler/topn.go:74-140 | over every sequence of scans, the time of a PID is kept if and only if the scan right behind the last one with it came within a minute |
| `SamplerSpec.KeptForGood` | sampler/topn.go:74-140 | a time that survives one scan without its PID survives all later ones without it |
| `SamplerSpec.KeptForADay` | sampler/topn.go:74-140 | three scans, 15 seconds and a day apart: a PID of the first only is still kept |
| `SamplerSpec.KeptForAMinute` | sampler/topn.go:74-140 | with a scan without it right behind, a PID is kept if and only if that comes within 60 seconds |
| `SamplerSpec.ChurnWithinRates` | sampler/topn.go:81-90 | over every run the churn rate stays within the highest rate of new PIDs per second |
| `SamplerSpec.ChurnFalls` | sampler/topn.go:81-90 | without new PIDs the churn rate falls below any positive level in a bounded number of updates |
| `SamplerSpec.ChurnRises` | sampler/topn.go:81-90 | with new PIDs at a rate or faster the churn rate reaches any lower level in a bounded number of updates, and stays above it |
| `SamplerSpec.NeverOpens` | sampler/topn.go:235-246 | over every run of short updates with new PIDs no faster than the threshold, a closed breaker stays closed |
| `SamplerSpec.BusyOpens` | sampler/topn.go:235-246 | new PIDs that keep coming faster than the threshold open the breaker in a bounded number of updates, and keep it open |
| `SamplerSpec.SlowOpens` | sampler/topn.go:235-246 | an update that takes longer than the limit opens the breaker for the next one |
| `SamplerSpec.QuietCloses` | sampler/topn.go:247-257 | after a bounded number of short updates without new PIDs the breaker is closed, whatever it was |
| `SamplerSpec.OpenForever` | sampler/topn.go:247-257 | without a positive churn threshold an open breaker stays open over every run |
| `SamplerSpec.OnePidOpensForGood` | sampler/topn.go:235-257 | threshold 0: one new PID a second after the start opens the breaker, and it stays open over every further run |
| `EventPipeline.RunKeepsInv` | internal/agent/event_sender.go:130-275 | over every interleaving: accepted events are exactly accounted for in order, queued and posted batches are the events not lost in order, and all bounds hold |
| `EventPipeline.NothingLostWithoutStop` | internal/agent/event_sender.go:174-275 | without Stop, accepted = posted ++ batch queue ++ batch in progress ++ event in hand ++ event queue |
| `EventPipeline.AcceptedAsAsked` | internal/agent/event_sender.go:174-205 | over every run the accepted events are exactly those of the calls that fit and find room, in order, each with the data and the key of its call, or the key of the agent if it has none |
| `EventPipeline.ReceivedAsStamped` | internal/agent/event_sender.go:235-260 | event i that the accumulator took over has the agent id of receive i if it is of the agent's own entity and connect is enabled, and none otherwise |
| `EventPipeline.DeliveredAsAsked` | internal/agent/event_sender.go:174-275 | end to end, without Stop: event i posted, queued for posting, in the batch or in hand is what accepted call i asked for, with the id of receive i |
| `EventPipeline.HeldBackFromFull` | internal/agent/event_sender.go:245-262 | over every run an event is held back only from a batch that is full: by bytes with it, or by 500 events |
| `EventPipeline.CanDrain` | internal/agent/event_sender.go:225-275 | from every reachable running state the accumulator and the sender alone can drain both queues |
| `EventPipeline.EverythingCanBePosted` | internal/agent/event_sender.go:174-275 | after every run without Stop, what was accepted can be posted: all of it, in order and nothing else |
| `EventPipeline.RunBounds` | internal/agent/event_sender.go:230-275 | every batch posted or queued has 1 to 500 events within the byte limit, and at most 501 events are lost per Stop |
| `EventPipeline.EmptyBatchNeverOverflows` | internal/agent/event_sender.go:187-254 | an accepted event fits an empty batch, so no empty batch is queued |
| `EventPipeline.StepConserves` | internal/agent/event_sender.go:230-275 | every single step keeps the account of accepted events |
| `EventGrouping.Group` | internal/agent/event_sender.go:350-369 | exactly the entities of the batch get a post, made from their first event, with all their events in order |
| `EventGrouping.EventPosition` | internal/agent/event_sender.go:359-365 | each event stands in its entity's post right behind the earlier ones |
| `EventGrouping.DataIndices` | internal/agent/event_sender.go:359-365 | the events of a post are those of its entity, each once, in the order of the batch |
| `EventGrouping.PostDescribes` | internal/agent/event_sender.go:291-306 | each post says from the first event of its entity whether it is the agent, and its id, or its key if it has none |
| `EventGrouping.LastAgentKeyIs` | internal/agent/event_sender.go:366-368 | a batch is posted under the last agent key that is not empty |
| `ProcessScanner.Equal` | collector/process_info.go:141-181 | true exactly when both are nil, or both are set and all fields but the update time agree |
| `ProcessScanner.SameMeans` | collector/process_info.go:141-181 | processes that are the same and were updated at the same time are equal, and the time makes no difference |
| `ProcessScanner.SameLabels` | collector/process_info.go:169-178 | equal sizes and one-sided inclusion decide equality of the labels |
| `ProcessScanner.Scanner.QueueEvent` | collector/process_scanner.go:410-420 | an event is delivered or counted as dropped |
| `ProcessScanner.Scanner.ProcessNewScan` | collector/process_scanner.go:345-407 | the cache has exactly the processes of the scan afterwards; every difference to the cache before is reported by one event of the right kind, and nothing else; the events replay to the new cache, and the four counts are exact |
| `ProcessScanner.Scanner.RemoveMissing` | collector/process_scanner.go:359-373 | exactly the cached PIDs missing from the scan terminate, each once |
| `ProcessScanner.Scanner.AddNew` | collector/process_scanner.go:375-404 | exactly the new or changed processes are reported and cached, each once |
| `ProcessScanner.ReplaySize` | collector/process_scanner.go:355-406 | the cache size changes by created less terminated |
| `ProcessScanner.LatestHas` | collector/process_scanner.go:349-353 | every process of a scan is filed under its PID, unless the PID comes again |
| `ProcessScanner.LatestFrom` | collector/process_scanner.go:349-353 | and nothing else is |
| `ProcessScanner.ReplayRebuildsCache` | collector/process_scanner.go:345-407 | for every sequence of scans, replaying all events from nothing rebuilds the cache exactly |
| `ProcessScanner.CacheMatchesLastScan` | collector/process_scanner.go:345-407 | after any sequence of scans the cache has exactly the processes of the last one, of a repeated PID the last |
| `ProcessScanner.ScanAll` | collector/process_scanner.go:345-420 | a new scanner object over any sequence of scans: if no event was dropped, the delivered events replay to its cache, and the cache has exactly the processes of the last scan |
| `LoadAverage.NoOverflow` | pkg/metrics/load_windows.go:75-84 | from a load below 1024 and with at most 1024 queued, the 32-bit computation is the exact weighted mean, and the load stays within the limit and below 1024 |
| `LoadAverage.ExactIff` | pkg/metrics/load_windows.go:75-84 | for all inputs, calcLoad is the weighted mean if and only if the weighted sum is below 2^32 |
| `LoadAverage.FullLoadWraps` | pkg/metrics/load_windows.go:75-84 | a load of 1024, which no run gets to with shorter queues, wraps to 0 with 1024 queued, whatever the weight |
| `LoadAverage.RunNeverOverflows` | pkg/metrics/load_windows.go:75-93 | no run from zero over queue lengths up to N <= 1024 overflows at any step, and the load stays at most 2048 N |
| `LoadAverage.LongQueueOverflows` | pkg/metrics/load_windows.go:75-93 | a constant queue of 1025 or more overflows after finitely many steps from zero, for every weight between 0 and 1 |
| `LoadAverage.SafeIff` | pkg/metrics/load_windows.go:75-93 | all runs from zero over queue lengths up to N are exact if and only if N <= 1024, for the three weights and every other one between 0 and 1 |
| `LoadAverage.RestIsFixed` | pkg/metrics/load_windows.go:75-84 | a load is a fixed point exactly when its gap g below the target has g*(2048-exp) < 2048 |
| `LoadAverage.Converges` | pkg/metrics/load_windows.go:75-84 | under a constant queue length the mean comes to rest in finitely many steps, exactly on target from above |
| `LoadAverage.RestsForever` | pkg/metrics/load_windows.go:75-84 | and then never moves |
| `LoadAverage.LoadConverges` | pkg/metrics/load_windows.go:75-84 | the same for calcLoad itself, from a load below 1024 with at most 1024 queued |
| `LoadAverage.IdleDecays` | pkg/metrics/load_windows.go:75-84 | with nothing queued a load falls to the power of its weight, up to one unit per sample |
| `LoadAverage.WeightsAreMinutes` | pkg/metrics/load_windows.go:22-29 | the weights are those of one, five and fifteen minutes at a sample every five seconds: after so many idle minutes between 36 and 39 percent of the load are left |
| `LoadAverage.Loads.CalcAllLoads` | pkg/metrics/load_windows.go:85-93 | a failed query changes nothing; otherwise all three loads take their step |
| `LoadAverage.Idle` | pkg/metrics/load_windows.go:85-93 | on the three loads, each falls by its own weight and has about a third left after 12, 60 or 180 idle samples |
| `CircuitBreakers.CircuitBreaker.AllowRequest` | export/circuit_breaker.go:62-86 | admits exactly as `Admits` says and takes the step the run lemmas below are about; a disabled breaker admits everything and does not change |
| `CircuitBreakers.CircuitBreaker.RecordSuccess` | export/circuit_breaker.go:89-106 | takes the step the run lemmas below are about: ends a failure streak, or counts towards closing |
| `CircuitBreakers.CircuitBreaker.RecordFailure` | export/circuit_breaker.go:109-126 | takes the step the run lemmas below are about: lengthens the streak, and opens at the threshold or at once when half-open |
| `CircuitBreakers.CircuitBreaker.Reset` | export/circuit_breaker.go:129-133 | closes the breaker also when it is disabled; a closed one does not change |
| `CircuitBreakers.CircuitBreaker.Become` | export/circuit_breaker.go:136-164 | the three transitions, which do nothing in their own state |
| `CircuitBreakers.ClosedCountsStreak` | export/circuit_breaker.go:97-122 | in every run, while closed the counter is the trailing run of failures since the breaker last closed, and below the threshold |
| `CircuitBreakers.StreakCounts` | export/circuit_breaker.go:97-122 | that run is the number of failures since the start, the last success or the last step of a breaker that was not closed, with the breaker closed ever since |
| `CircuitBreakers.OpensAtThreshold` | export/circuit_breaker.go:118-122 | a closed breaker opens exactly with the failure that makes that run reach the threshold |
| `CircuitBreakers.StaysOpen` | export/circuit_breaker.go:73-79 | until the time-out nothing but Reset changes an open breaker |
| `CircuitBreakers.RejectsUntilTimeout` | export/circuit_breaker.go:73-79 | without Reset no request is admitted until ResetTimeout has passed since opening |
| `CircuitBreakers.AdmitsAgainIff` | export/circuit_breaker.go:73-79 | as long as nothing happens after the time-out, a request is admitted if and only if ResetTimeout has passed since opening |
| `CircuitBreakers.DisabledAdmits` | export/circuit_breaker.go:62-66 | a disabled breaker admits everything and, without Reset, never changes over any run |
| `CircuitBreakers.ResetAdmits` | export/circuit_breaker.go:129-133 | after a Reset at any point of a run requests are admitted |
| `CircuitBreakers.StuckForever` | export/circuit_breaker.go:80-82 | a half-open breaker with some but too few successes rejects every later Export, whatever its time and outcome |
| `CircuitBreakers.RecoversIff` | export/exporter.go:100-125 | with no other request in flight, a successful probe closes the breaker if and only if one success is enough |
| `CircuitBreakers.NeverClosesAgain` | export/exporter.go:100-125 | with a threshold above 1 an open breaker is open or stuck after every sequence of Exports, failures included |
| `CircuitBreakers.ClosesAgainIff` | export/exporter.go:100-125 | some sequence of Exports closes an open breaker if and only if one success is enough |
| `CircuitBreakers.DefaultNeverRecovers` | export/config.go:153-158 | with the default configuration that one success makes every later Export be rejected |
| `CircuitBreakers.StarvedForever` | export/circuit_breaker.go:80-104 | with Exports overlapping in any way: half-open, a success on record and too few requests in flight to reach the threshold, the breaker stays so and admits nothing until some request fails |
| `CircuitBreakers.ClosesIffEnoughInFlight` | export/circuit_breaker.go:99-104 | succeeding requests in flight close a half-open breaker if and only if there are enough of them to reach the threshold |
| `KnownIds.KnownIDs.Put` | pkg/entity/known_ids.go:56-61 | a fresh entry with the default TTL replaces any earlier one of the key |
| `KnownIds.KnownIDs.PutType` | pkg/entity/known_ids.go:66-74 | the same with the TTL registered for the type at that moment, or the default |
| `KnownIds.KnownIDs.Get` | pkg/entity/known_ids.go:86-102 | answers as `GetSucceedsIff` characterises, and refreshes the access time on success only |
| `KnownIds.KnownIDs.SetTTL` | pkg/entity/known_ids.go:105-110 | changes the TTL of later entries of the type, none of the present ones |
| `KnownIds.KnownIDs.CleanOld` | pkg/entity/known_ids.go:113-121 | exactly the outdated entries go, in any order of deletion |
| `KnownIds.CleaningIsInvisible` | pkg/entity/known_ids.go:86-121 | with a monotone clock, CleanOld calls anywhere in a run change no answer of Get |
| `KnownIds.GetSucceedsIff` | pkg/entity/known_ids.go:33-102 | Get succeeds if and only if the key was put and every gap between successive accesses since is within the TTL it was put with |
| `KnownIds.KnownForADay` | pkg/entity/known_ids.go:56-61 | an id that was put without a type is known for 24 hours exactly, if nobody asks in between |
| `KnownIds.KnownForItsTtl` | pkg/entity/known_ids.go:66-74 | with a TTL set for its type before, for that long exactly |

## Left out

- Mutexes and goroutine scheduling inside one call: locked sections are atomic, and locks taken twice are listed above.
- IEEE rounding in logarithms, exponentials, sums, scores and collapse portions, and NaN: exact reals and integer
  division stand in.
- 64-bit wrap-around of counts, and infinite or NaN arguments to the sketch.
- SparseStores.SparseStore.Add: requires a positive count and an index strictly inside int32. The source also takes a
  zero count, which leaves a bucket without a count, and other indices, which clash with its sentinels; the sketch
  makes no such call, because a zero count returns early and values are clamped.
- DenseStores.DenseStore.Add: has the same limit for the same reason.
- Serialization.FromBytes: requires data that the header checks refuse or that holds a complete sketch. The source
  accepts truncated or inconsistent data behind a good header without an error and leaves a sketch that breaks its own
  invariants; `Decode` says which values it reads then, the object model stops there.
- Serialization.MergeBytes: has the same limit, since it reads by FromBytes.
- Serialization.DeserializeSlice: has the same limit for every part.
- Serialization.SerializeSlice: sketches that are not DDSketches, which the source refuses.
- SketchAnswers.QuantileAfterCollapse: needs the ranks kept. Collapses keep them, and adds do under the exact
  condition of `AddKeepsRanksIff`; outside it (`RanksCrossed`) `QuantileOfDrifted` holds instead.
- A sketch merged into itself, and Merge with a Sketch that is not a DDSketch.
- Density and memory reports, GetMin, GetMax, GetSum, GetAvg and Resources of the sketch.
- Pointer sharing of process records between scans, heap and callers: process records are values.
- The metrics map, capture ratio and start-up of the sampler; GetTopN beyond TopN.
- HTTP, JSON, compression, retry and back-off of the event sender: a post is one step, and a failed post is not
  repeated, as in the source. Queue gauges are not modelled.
- Filters, adaptive interval, consumers and start/stop of the process scanner; event timestamps.
- Subscribers of the circuit breaker and the time of its last state change.
- The other exporters, the watchdog, inventory, configuration loading, plugins and platform samplers.
