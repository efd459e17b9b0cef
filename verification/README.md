# Filter-and-reduce kernels over a `u64` column

A Dafny model of three "filter-and-reduce" kernels from `rust_arrow_benches`.
Each kernel takes a column `values: &[u64]` and a list of row ids
`row_ids: &[u32]`, and comes in two versions: a scalar baseline and a 4-lane
AVX2 version.

- **materialise** (`src/filter.rs`) copies `values[id]` for every row id, in
  row-id order, into a caller-supplied buffer that it clears first.
- **sum** (`src/filter_sum.rs`) adds the selected values with checked `+=`.
  The vector version keeps four lane accumulators with `_mm256_add_epi64`,
  which wraps. It then adds the four lanes and a scalar sum of the remainder
  with checked `+`.
- **max** (`src/filter_max.rs`) returns the unsigned maximum of the selected
  values and panics on an empty selection. Below four row ids the vector
  version falls back to the scalar one. Otherwise it seeds four lanes from the
  first chunk and replaces a lane when a signed 64-bit compare says the new
  value is greater. It finishes with an unsigned max over the lanes and the
  0-3 remaining values.

All three vector versions share one shape. `m / 4` full chunks are gathered
four at a time. The 0-3 row ids from `rem = m - m % 4` on take the scalar
path.

The model is functional:

- A kernel's panic is the `Panic` case of an `Outcome` (`outcome.dfy`).
  The fault names why: an index outside the column, an overflow, or an empty
  selection.
- Fixed-width words are bounded naturals (`words.dfy`). Wrapping, checked and
  two's-complement signed readings are written out.
- Each intrinsic is a function on four `u64` lanes (`avx2.dfy`).
- The selection `values[row_ids[i]]`, its unbounded sum, and the chunk and
  remainder split are shared (`selection.dfy`).
- Each kernel has its own module: `filter.dfy`, `filter_sum.dfy` and
  `filter_max.dfy`.

Each kernel is modelled twice. A recursive function states what the kernel
returns. A method runs the loops the source runs, with loop invariants, and is
proved to return the same outcome, panics and their faults included
(`Materialise.MaterialiseLoop`, `Materialise.MaterialiseSimdLoop`,
`SumReduce.SumLoop`, `SumReduce.SumSimdLoop`, `MaxReduce.FilterMaxLoop`,
`MaxReduce.MaxSimdLoop`).

The scalar versions serve as reference oracles. When every row id is in
range, each vector version is proved to return exactly what its scalar version
returns, or the results are proved to differ in exactly the way stated. When a
remaining row id is out of range, both versions of each kernel panic. For
materialise and max the fault is the same, an out-of-bounds index. For the
sum, the vector version's fault is the one its remainder loop raises, because
the wrapping lane adds before it cannot fail. The scalar version may instead
overflow first, on an earlier row id (`SumReduce.OutOfRangeSimdSumIsRemainderPanic`,
`SumReduce.OutOfRangeFaultsDifferExample`).

## Model

| member | source | states |
|---|---|---|
| Words.WrappingAdd | src/filter_sum.rs:60 | one lane of `_mm256_add_epi64`: the true sum below 2^64, otherwise the true sum less 2^64 |
| Words.CheckedAdd | src/filter_sum.rs:28 | Rust's checked `+`: succeeds exactly when the sum is at most `u64::MAX` (then it is the true sum), otherwise panics with an overflow |
| Words.Max | src/filter_max.rs:85 | `Ord::max` on `u64`: at least both arguments and equal to one of them |
| Words.AsSigned | src/filter_max.rs:43-45 | the two's-complement reading the SIMD compare uses: lies in [-2^63, 2^63), equals the value or the value less 2^64, and is negative exactly when the high bit is set |
| Words.FlipSignBit | src/filter_max.rs:47-49 | flipping the high bit shifts the signed reading to `x - 2^63` and moves the value across 2^63 |
| Words.SignedOrderBelowSignBit | src/filter_max.rs:43-45 | below 2^63 the signed and unsigned orders agree |
| Words.SignedOrderMisordersSignBit | src/filter_max.rs:43-45 | once the high bit is set a value reads as negative: 2^63 compares below 1 |
| Words.FlippedSignedOrderIsUnsigned | src/filter_max.rs:47-49 | after unsetting (flipping) the high bit of both operands, the signed compare is the unsigned compare for all 64-bit values |
| Words.WrapStep | src/filter_sum.rs:57-61 | adding to an accumulator already reduced modulo 2^64, with wrap-around, gives the whole sum reduced modulo 2^64 |
| Avx2.SetZero | src/filter_sum.rs:55 | `_mm256_setzero_si256`: all four lanes are 0 |
| Avx2.GatherOffsetI32 | src/filter.rs:62 | the offset `_mm256_i32gather_epi64` derives from a `u32` row id: the id itself, or the id less 2^32 when its top bit is set |
| Avx2.GatherI32 | src/filter.rs:62 | `_mm256_i32gather_epi64(base, idx, 8)` as issued: lane `j` reads the element at the signed offset of `idx[j]` |
| Avx2.GatherI32MisreadsHighRowIds | src/filter.rs:13-14 | a row id of 2^31 is a valid row of any column longer than 2^31, yet the gather reads it at a negative offset |
| Avx2.Gather | src/filter.rs:60-62 | the gather of four row ids: lane `j` holds `values[idx[j]]` for every in-range `u32` row id |
| Avx2.GatherAgreesBelow2To31 | src/filter.rs:62 | for row ids below 2^31 the issued gather stays inside the column and reads the same lanes as `Gather` |
| Avx2.AddEpi64 | src/filter_sum.rs:60 | `_mm256_add_epi64`: lane-wise wrapping addition |
| Avx2.CmpGtEpi64 | src/filter_max.rs:69 | `_mm256_cmpgt_epi64`: lane `j` is set exactly when `a[j] > b[j]` in the signed reading |
| Avx2.BlendvEpi8 | src/filter_max.rs:70 | `_mm256_blendv_epi8` under a whole-lane mask: lane `j` comes from the second operand exactly when the mask lane is set |
| Avx2.XorSignBit | src/filter_max.rs:47-49 | xor with 2^63 in every lane: flips each lane's high bit |
| Selection.InRangeSplit | src/filter.rs:70-73 | the row ids are all in range exactly when both the chunked part and the remainder are |
| Selection.Selected | src/filter.rs:26-28 | the reference selection: one value per row id, `values[row_ids[i]]` at position `i` |
| Selection.SelectedSlice | src/filter.rs:71 | selecting a slice of the row ids gives the same slice of the selection |
| Selection.TotalAppend | src/filter_sum.rs:72-73 | the unbounded sum of two concatenated sequences is the sum of their sums |
| Selection.TotalOfFour | src/filter_sum.rs:73 | the sum of a four-element sequence is the sum of its elements |
| Selection.RemStart | src/filter.rs:70 | `m - m % 4` is four times the number of full chunks, at most `m`, and leaves fewer than four row ids; it equals `m` exactly when `m` is a multiple of 4 |
| Selection.LaneColumn | src/filter_sum.rs:57-61 | lane `j` of the first `k` chunks sees `values[row_ids[4c + j]]` for each chunk `c < k`, and nothing else |
| Selection.GatherChunk | src/filter.rs:60-62 | the gather of chunk `c`: lane `j` holds `values[row_ids[4c + j]]` |
| Selection.LaneColumnStep | src/filter_sum.rs:57-61 | one more chunk appends one value to each lane column |
| Selection.LaneColumnSelected | src/filter_max.rs:59-71 | every value a lane sees is a selected value |
| Selection.ChunkedPosition | src/filter_max.rs:65-71 | position `i` of the chunked selection is element `i / 4` of lane column `i % 4` |
| Selection.LaneTotalsStep | src/filter_sum.rs:57-61 | one more chunk adds its lane-`j` value to lane column `j`'s sum |
| Selection.ChunkSelectionStep | src/filter.rs:60-66 | one more chunk appends its gathered register to the selection of the chunked part |
| Selection.ChunkTotalStep | src/filter_sum.rs:57-61 | one more chunk adds its four values to the sum of the chunked part |
| Selection.ChunkedTotal | src/filter_sum.rs:57-61 | the sum of the first `k` chunks is the sum of the four lane-column sums |
| Selection.SelectedSplit | src/filter.rs:60-73 | the selection, and its sum, split into the chunked part followed by the remainder from any split point |
| Selection.SelectedSnoc | src/filter.rs:26-28 | one more row id appends its value to the selection and its sum, and is in range exactly when the shorter ids and the new id are |
| Selection.SelectedSliceSnoc | src/filter.rs:71-73 | one more in-range row id after a slice `a..i` of the row ids appends its value to the selection of that slice and adds it to its sum |
| Selection.SelectedPrefixSnoc | src/filter_max.rs:78-82 | one more in-range row id after the first `i` appends its value to the selection of the prefix |
| Selection.Range | src/filter.rs:144 | `(lo..hi).collect()`: `hi - lo` values counting up from `lo` |
| Selection.TotalOfRange | src/filter_sum.rs:127 | twice the sum of `lo..hi` is its length times `lo + hi - 1` |
| Selection.TotalOfTwo | src/filter_sum.rs:117 | the sum of a two-element sequence is the sum of its elements |
| Materialise.PushRows | src/filter.rs:26-28 | the push loop appends the selection to the buffer when every row id is in range, and otherwise panics with an index error |
| Materialise.FilterMaterialiseValues | src/filter.rs:22-32 | the scalar kernel succeeds exactly when every row id is in range; the result holds one value per row id (the length assert) and `values[row_ids[i]]` at position `i`; the old buffer contents never appear |
| Materialise.StoreChunks | src/filter.rs:60-66 | the chunk loop appends to the buffer the selection of the first `k` chunks, in order |
| Materialise.FilterMaterialiseValuesSimd | src/filter.rs:49-77 | the vector kernel succeeds exactly when every row id is in range, with the same length and values as the scalar kernel; a remaining row id outside the column panics |
| Materialise.SimdPushesRemainder | src/filter.rs:70-73 | pushing the remainder after the stored chunks completes the selection exactly when every row id is in range |
| Materialise.SimdIsChunksThenRemainder | src/filter.rs:60-73 | the vector result is the gathered chunks followed by the scalar pushes of the fewer-than-four row ids from `m - m % 4` on |
| Materialise.SimdMatchesScalar | src/filter.rs:75 | for every input the vector kernel accepts, whatever either buffer held, it returns the scalar kernel's result, including the same panic |
| Materialise.SameSelection | src/filter.rs:26-28 | two sequences that hold the value of each row id in turn are equal |
| Materialise.KernelsReturnTheSelection | src/filter.rs:22-32 | both kernels return a given sequence if and only if every row id is in range and the sequence holds `values[row_ids[i]]` at every `i` and nothing more; for the vector kernel this holds whenever every gathered row id is in range |
| Materialise.MaterialiseLoop | src/filter.rs:22-32 | the clear-then-push loop returns a buffer exactly when every row id is in range, that buffer is the selection with one value per row id, and the outcome, panic included, is that of the scalar kernel |
| Materialise.MaterialiseSimdLoop | src/filter.rs:49-77 | the chunk loop followed by the remainder push loop returns a buffer exactly when every row id is in range, that buffer is the selection, and the outcome is that of the scalar kernel on the same input |
| Materialise.RemainderPanics | src/filter.rs:26-28 | one row id outside the column, at any position, makes the scalar kernel panic with an out-of-bounds index |
| Materialise.ScalarExample | src/filter.rs:82-90 | `0..10` with `[0, 1, 2, 3]` gives `[0, 1, 2, 3]` |
| Materialise.SimdOneChunkExample | src/filter.rs:118-122 | `100..110` with `[0, 1, 2, 3]` gives `[100, 101, 102, 103]` |
| Materialise.SimdTwoRowExample | src/filter.rs:123-127 | `100..113` with `[0, 12]` gives `[100, 112]` |
| Materialise.SimdOneChunkMaxExample | src/filter.rs:128-132 | four `u64::MAX` rows are copied unchanged |
| Materialise.SimdOneRowMaxExample | src/filter.rs:133-137 | one `u64::MAX` row is copied unchanged |
| Materialise.SimdOneRowLastExample | src/filter.rs:138-142 | the last row alone gives `[29]` |
| Materialise.SimdManyChunksExample | src/filter.rs:143-147 | `100..1234` with `2..653` gives `102..753` |
| Materialise.OutOfRangeRemainderExample | src/filter.rs:72 | a remaining row id past the column panics in both kernels |
| SumReduce.FilterSum | src/filter_sum.rs:25-31 | the scalar sum succeeds exactly when every row id is in range and the true sum is below 2^64, and returns that sum (0 for no row ids); with every row id in range each failure is an overflow |
| SumReduce.LaneColumnsStep | src/filter_sum.rs:57-61 | one more chunk grows each lane sum by its new value, and if no lane column overflows now none did before |
| SumReduce.LaneSums | src/filter_sum.rs:55-61 | after `k` chunks, lane `j` holds the sum of lane column `j` modulo 2^64: lane additions wrap and nothing checks them |
| SumReduce.LaneSumsStep | src/filter_sum.rs:60 | one wrapping lane addition keeps every lane equal to its column sum modulo 2^64 |
| SumReduce.CombineLanes | src/filter_sum.rs:72-73 | `r.0 + r.1 + r.2 + r.3 + rem_sum` with checked `+` succeeds exactly when the true five-term sum is below 2^64, and returns it |
| SumReduce.FilterSumSimd | src/filter_sum.rs:52-75 | the vector sum succeeds exactly when every row id is in range and the lane sums reduced modulo 2^64, plus the remainder sum, are below 2^64, and returns that figure; with every row id in range each failure is an overflow |
| SumReduce.TotalByLanes | src/filter_sum.rs:57-73 | the true sum is the four lane-column sums plus the sum of the row ids from `m - m % 4` on |
| SumReduce.SimdMatchesScalarWithoutLaneWrap | src/filter_sum.rs:52-75 | where no lane column reaches 2^64, the vector sum returns what the scalar sum returns, the true sum or an overflow panic |
| SumReduce.SimdMatchesScalarWhenTotalFits | src/filter_sum.rs:72-73 | whenever the true sum fits in 64 bits, both sums return it |
| SumReduce.SimdResultIsTotalModulo2To64 | src/filter_sum.rs:60 | any result the vector sum returns is at most the true sum and differs from it by a multiple of 2^64 |
| SumReduce.ReducedLanesDiffer | src/filter_sum.rs:72-73 | reducing the four lane sums modulo 2^64 lowers the total by a whole number of 2^64s |
| SumReduce.SimdMissesLaneOverflow | src/filter_sum.rs:16-18 | `[u64::MAX, 0, 0, 0, 1, 0, 0, 0]` with ids `0..8`: the scalar sum panics with an overflow, the vector sum returns 0 |
| SumReduce.LaneWrapHidesOverflow | src/filter_sum.rs:57-61 | for any two chunks with `u64::MAX` and 1 in lane 0 and zeros elsewhere, the scalar sum overflows and the vector sum returns 0 |
| SumReduce.AddEpi64Checked | src/filter_sum.rs:60 | a lane-wise add built from `_mm256_add_epi64`, xor and `_mm256_cmpgt_epi64` that fails exactly when some lane's true sum reaches 2^64, and otherwise returns the true lane sums |
| SumReduce.CheckedLaneSums | src/filter_sum.rs:57-61 | the chunk loop with checked lane adds fails exactly when some lane column's sum reaches 2^64; otherwise each lane holds its column's true sum |
| SumReduce.CheckedLaneSumsStep | src/filter_sum.rs:60 | one checked lane addition succeeds exactly when no lane column overflows after the new chunk, and then gives the true lane sums |
| SumReduce.FilterSumSimdChecked | src/filter_sum.rs:52-75 | the vector sum with checked lanes returns only for in-range row ids, and with every row id in range each failure is an overflow |
| SumReduce.SimdCheckedMatchesScalar | src/filter_sum.rs:16-18 | with checked lanes, the vector sum returns exactly what the scalar sum returns on every in-range input: the true sum, or an overflow panic |
| SumReduce.PartsFitWhenTotalFits | src/filter_sum.rs:65-73 | when the true sum fits in 64 bits, so does every lane-column sum and the remainder sum |
| SumReduce.SimdCheckedCombinesFittingParts | src/filter_sum.rs:72-73 | with no lane or remainder overflow, the checked vector sum is the checked combination of the lane sums and the remainder sum |
| SumReduce.SimdCheckedWhenTotalFits | src/filter_sum.rs:72-73 | with checked lanes, a true sum below 2^64 is returned |
| SumReduce.SimdCheckedWhenTotalOverflows | src/filter_sum.rs:72-73 | with checked lanes, a true sum of 2^64 or more panics with an overflow |
| SumReduce.SumLoop | src/filter_sum.rs:25-31 | the `+=` loop returns exactly when every row id is in range and the true sum is below 2^64, and then returns the true sum; with every row id in range it can only fail by overflow; its outcome, fault included, is that of the scalar kernel, so an out-of-range row id panics with an out-of-bounds index |
| SumReduce.PanicCarriesThrough | src/filter_sum.rs:27-28 | once the loop panics on a prefix of the row ids, the kernel's outcome is that panic, whatever follows |
| SumReduce.OutOfRangeSimdSumIsRemainderPanic | src/filter_sum.rs:66-70 | with every gathered row id in range but some remaining one out of range, both sum kernels panic, and the vector kernel's outcome is exactly the scalar loop's outcome on the remainder alone, whatever the lane adds wrapped |
| SumReduce.OutOfRangeFaultsDifferExample | src/filter_sum.rs:57-70 | on values `[u64::MAX, 1, 0, 0]` and row ids `[0, 1, 2, 3, 9]` the scalar kernel panics with an overflow at the second row id while the vector kernel panics with an out-of-bounds index at row id 9 |
| SumReduce.LaneSumsLoop | src/filter_sum.rs:55-61 | after the chunk loop lane `j` holds the sum of lane column `j` modulo 2^64 |
| SumReduce.LaneSumsNext | src/filter_sum.rs:57-60 | while chunks remain, the next chunk is inside the checked prefix and one `_mm256_add_epi64` of its gather advances the lane sums by one chunk |
| SumReduce.RemainderFitsWhenSimdFits | src/filter_sum.rs:65-73 | with every row id in range the remainder is in range, and when the vector result fits in 64 bits so does the remainder sum |
| SumReduce.CombineLoopResults | src/filter_sum.rs:72-73 | adding the four lanes and the remainder sum, each `+` checked, gives exactly the vector sum of the whole input |
| SumReduce.SumSimdLoop | src/filter_sum.rs:52-75 | the chunk loop, the remainder loop and the final additions return exactly when every row id is in range and the lane sums reduced modulo 2^64 plus the remainder sum stay below 2^64, return that value, and with every row id in range fail only by overflow; its outcome, fault included, is that of the vector kernel's definition |
| SumReduce.ScalarExample | src/filter_sum.rs:80-84 | `0..10` with `[0, 1, 2, 3]` sums to 6 |
| SumReduce.OverflowExamples | src/filter_sum.rs:136-154 | `[u64::MAX, 1]` with `[0, 1]` panics with an overflow in both sums |
| SumReduce.SimdOneChunkExample | src/filter_sum.rs:109-113 | `100..110` with `[0, 1, 2, 3]` sums to 406 |
| SumReduce.SimdTwoRowExample | src/filter_sum.rs:114-118 | `100..113` with `[0, 12]` sums to 212 |
| SumReduce.SimdLargeValueExample | src/filter_sum.rs:119-123 | a chunk holding `u32::MAX` sums without loss |
| SumReduce.SimdManyChunksExample | src/filter_sum.rs:124-128 | `100..1234` with `2..653` sums to 277977, the sum of `102..753`, in both sums |
| MaxReduce.MaxIsUnique | src/filter_max.rs:20-22 | a sequence has at most one maximum |
| MaxReduce.IterMax | src/filter_max.rs:78-82 | `iter().map(..).max()` gives `None` exactly for no row ids, otherwise the unsigned maximum of the selected values; it panics at a row id outside the column |
| MaxReduce.FilterMax | src/filter_max.rs:20-22 | the scalar max succeeds exactly when every row id is in range and there is at least one, and returns a selected value no selected value exceeds; otherwise it panics on the empty selection or the bad index |
| MaxReduce.OrderKeyMonotone | src/filter_max.rs:43-49 | the biased lane order agrees with the unsigned order everywhere, the signed one below 2^63 |
| MaxReduce.LaneGt | src/filter_max.rs:69 | the lane greater-than mask is set exactly when the new value is greater in the lane order |
| MaxReduce.MaxStep | src/filter_max.rs:69-70 | a lane is replaced by the gathered value exactly when that value is greater in the lane order (signed, as written), and otherwise keeps its value |
| MaxReduce.MaxLanes | src/filter_max.rs:59-71 | after `k` chunks each lane holds a value of its own lane column, the greatest in the lane order |
| MaxReduce.MaxLanesSeed | src/filter_max.rs:59-63 | the seed gather is the maximum of each one-element lane column |
| MaxReduce.MaxLanesStep | src/filter_max.rs:65-71 | one blend step keeps each lane the lane-order maximum of its extended column |
| MaxReduce.OrderMaxSnoc | src/filter_max.rs:69-70 | keeping the greater of the running maximum and a new value gives the maximum of the extended column |
| MaxReduce.LanesMax | src/filter_max.rs:73-86 | `result.iter().max().unwrap()` is the unsigned maximum of the four lanes |
| MaxReduce.MaxSimdWith | src/filter_max.rs:51-88 | under either lane order the vector max succeeds exactly when the scalar max does, with the same fault, and its result is always a selected value |
| MaxReduce.LanesMaxSelected | src/filter_max.rs:84-87 | the maximum of the lanes is a selected value, whatever the values |
| MaxReduce.FilterMaxSimd | src/filter_max.rs:51-88 | below four row ids it is the scalar max; it succeeds and fails where the scalar max does, and it always returns a selected value, even at 2^63 and above |
| MaxReduce.FilterMaxSimdBiased | src/filter_max.rs:47-49 | the vector max with both compare operands' high bit flipped succeeds exactly when the scalar max does and returns a selected value |
| MaxReduce.BelowSignBitElement | src/filter_max.rs:43-45 | a selected value of a selection below 2^63 is below 2^63 |
| MaxReduce.ChunksBelowLanesMax | src/filter_max.rs:65-73 | when the lane order agrees with the unsigned order, no value of the full chunks exceeds the unsigned maximum of the lanes |
| MaxReduce.MaxSimdUnfold | src/filter_max.rs:77-87 | from four row ids on, the vector kernel panics exactly when the remainder maximum does, and otherwise returns the unsigned max of the lane maximum and the remainder maximum, or the lane maximum alone when there is no remainder |
| MaxReduce.MaxSimdWithShape | src/filter_max.rs:77-87 | from four row ids on, the result is the unsigned max of the lane maximum and, when there is a remainder, of the remainder maximum |
| MaxReduce.RemainderBelowRemainderMax | src/filter_max.rs:77-82 | the remainder maximum covers exactly the positions from `rem` on |
| MaxReduce.MaxSimdIsMaxWhenOrderAgrees | src/filter_max.rs:51-88 | when the lane order agrees with the unsigned order on the selection, the vector max is the unsigned maximum |
| MaxReduce.SimdMaxMatchesScalarBelowSignBit | src/filter_max.rs:43-45 | when every selected value is below 2^63, the vector max returns exactly what the scalar max returns |
| MaxReduce.SimdMaxBiasedMatchesScalar | src/filter_max.rs:47-49 | with the high bit flipped before comparing, the vector max returns exactly what the scalar max returns for every input it accepts |
| MaxReduce.SimdMaxMisordersSignBit | src/filter_max.rs:43-45 | `[2^63, 0, 0, 0, 1, 0, 0, 0]` with ids `0..8`: the scalar max is 2^63, the vector max is 1 |
| MaxReduce.SignedCompareMisordersLaneZero | src/filter_max.rs:65-71 | for any two chunks with 2^63 and then 1 in lane 0 and zeros elsewhere, the scalar max is 2^63 and the vector max is 1 |
| MaxReduce.SignedLanesKeepOne | src/filter_max.rs:69-70 | in that case the signed blend replaces 2^63 by 1 in lane 0, so the lane maximum is 1 |
| MaxReduce.KernelsReturnTheMaximum | src/filter_max.rs:20-22 | the scalar kernel returns a given value if and only if every row id is in range and the value is selected and no selected value exceeds it; the vector kernel does the same whenever every gathered row id is in range and no selected value reaches 2^63 |
| MaxReduce.IterMaxLoop | src/filter_max.rs:78-82 | the fold of `Iterator::max` returns exactly when every row id is in range, returns `None` exactly for no row ids and otherwise the unsigned maximum of the selection, and agrees with `IterMax` |
| MaxReduce.IterMaxTurn | src/filter_max.rs:81-82 | one fold step on an in-range row id extends the running maximum to the maximum of the longer prefix |
| MaxReduce.RunningMaxStep | src/filter_max.rs:82 | starting with the first value, or taking the unsigned max with each later one, keeps the maximum of the values seen |
| MaxReduce.IsMaxOfSnoc | src/filter_max.rs:85 | the unsigned max of a maximum and a new value is the maximum of the extended sequence |
| MaxReduce.IterMaxIsDetermined | src/filter_max.rs:78-82 | any outcome meeting the contract of `Iterator::max` over the selection is the outcome of `IterMax` |
| MaxReduce.FilterMaxLoop | src/filter_max.rs:20-22 | `max().unwrap()` over the loop returns exactly when every row id is in range and there is one, returns the unsigned maximum, and agrees with `FilterMax` |
| MaxReduce.MaxLanesFirst | src/filter_max.rs:59-63 | from four row ids on, the first chunk is in range and its gather is the seed of the lanes |
| MaxReduce.SignedStepKeepsMaxima | src/filter_max.rs:69-70 | one signed compare-and-blend of a new chunk keeps every lane the signed maximum of its lane column, extended by one chunk |
| MaxReduce.MaxLanesTurn | src/filter_max.rs:65-71 | one turn of the chunk loop, gather, `_mm256_cmpgt_epi64` and `_mm256_blendv_epi8`, keeps every lane the signed maximum of its lane column |
| MaxReduce.SignedMaxIsUnique | src/filter_max.rs:69 | a column has at most one signed maximum, since the signed reading is one-to-one on `u64` |
| MaxReduce.LaneMaximaAreMaxLanes | src/filter_max.rs:59-71 | lanes that hold the signed maxima of their lane columns are the lanes of the vector loop |
| MaxReduce.MaxLanesLoop | src/filter_max.rs:59-71 | after the chunk loop every lane holds the signed maximum of its own lane column, and the lanes are those of the vector loop |
| MaxReduce.MaxSimdLoop | src/filter_max.rs:51-88 | the vector max as loops returns exactly when every row id is in range and there is one, returns a selected value, and agrees with `FilterMaxSimd` |
| MaxReduce.ScalarExample | src/filter_max.rs:94-99 | `12..39` with `[0, 1, 2, 6, 8]` gives 20 |
| MaxReduce.SimdOneChunkExample | src/filter_max.rs:123 | `100..110` with `[0, 1, 2, 3]` gives 103 |
| MaxReduce.SimdTwoRowExample | src/filter_max.rs:124 | `100..113` with `[0, 12]` gives 112 |
| MaxReduce.SimdOneRowExample | src/filter_max.rs:125 | `[20]` with `[0]` gives 20 |
| MaxReduce.SimdSkipsUnselectedExample | src/filter_max.rs:126 | `[20, 10, 20, 3]` with `[1, 3]` gives 10: unselected rows do not count |
| MaxReduce.SimdRemainderMaxExample | src/filter_max.rs:127-131 | a chunk and one remaining row holding `u32::MAX` give `u32::MAX` |
| MaxReduce.SimdTwoRowLargeExample | src/filter_max.rs:132-136 | two rows of a longer column give `u32::MAX` |
| MaxReduce.SimdUnorderedExample | src/filter_max.rs:137-141 | repeated and unordered row ids `[3, 2, 5, 10, 10, 11, 21]` over `100..1234` give 121 |
| MaxReduce.SimdMixedExample | src/filter_max.rs:142-150 | three chunks and one remaining row give 78251 |
| MaxReduce.OutOfRangeRemainderExample | src/filter_max.rs:81 | a remaining row id past the column panics in both max kernels |

## Left out

- The `*_arrow` functions (`src/filter.rs:37-42`, `src/filter_sum.rs:36-45`, `src/filter_max.rs:27-36`) and their tests. They are thin wrappers over the Arrow library, which is not part of this model.
- `benches/filter_max.rs`. It is benchmarking plumbing with random data generation.
- Pointer mechanics: `reserve`, `as_mut_ptr().add`, `set_len`, `_mm_loadu_si128` and `transmute`. A gather is a read of four indexed elements. A store is a sequence concatenation. Lane extraction is sequence indexing. The capacity of `dst` has no observable effect, so it is not modelled.
- The debug/release split of Rust integer overflow. Checked `+`, `+=` and `sum` are modelled as an overflow panic, as the `should_panic` tests assume.
- CPU feature detection (AVX2 availability), performance and concurrency.
- Materialise.FilterMaterialiseValuesSimd: requires every gathered row id (positions below `m - m % 4`) to be in range. An out-of-range gather reads outside the column, which has no defined behaviour to model. Remaining row ids outside the column are modelled as the panic they cause.
- SumReduce.FilterSumSimd: the same requirement on gathered row ids, for the same reason.
- MaxReduce.FilterMaxSimd: the same requirement on gathered row ids, for the same reason.
- Materialise.MaterialiseSimdLoop: the same requirement on gathered row ids, for the same reason.
- SumReduce.SumSimdLoop: the same requirement on gathered row ids, for the same reason.
- MaxReduce.MaxSimdLoop: the same requirement on gathered row ids, for the same reason.
- `_mm256_blendv_epi8` selects per byte. It is modelled per 64-bit lane, which is exact for the all-ones or all-zeros lane masks `_mm256_cmpgt_epi64` produces.
- The kernels are modelled with `Avx2.Gather`, which zero-extends each row id, rather than with the gather as issued (`Avx2.GatherI32`). The two agree on every row id below 2^31 (`Avx2.GatherAgreesBelow2To31`). Columns longer than 2^31 rows are covered only by the finding below.
- SumReduce.FilterSumSimdChecked: its own contract states only when it may succeed and the kind of its faults. Its full behaviour is stated by `SumReduce.SimdCheckedMatchesScalar`.
- MaxReduce.FilterMaxSimdBiased: its own contract does not name its fault. Its full behaviour is stated by `MaxReduce.SimdMaxBiasedMatchesScalar`.

## Findings

| source | as written | input that shows it | evidently intended | confidence | as-written member | corrected member |
|---|---|---|---|---|---|---|
| src/filter_sum.rs:60 | each lane accumulates with `_mm256_add_epi64`, which wraps modulo 2^64 unchecked, so a lane overflow is lost before the checked combination | values `[u64::MAX, 0, 0, 0, 1, 0, 0, 0]`, row ids `0..8`: `filter_sum` panics with an overflow, `filter_sum_simd` returns 0 | every implementation fails on overflow in the same way, as the note at `src/filter_sum.rs:16-18` says | high; not executed | SumReduce.SimdMissesLaneOverflow | SumReduce.SimdCheckedMatchesScalar |
| src/filter_max.rs:69 | the lane compare `_mm256_cmpgt_epi64` is signed, so a value of 2^63 or more loses to any smaller value below 2^63 (documented in the note at lines 43-49) | values `[2^63, 0, 0, 0, 1, 0, 0, 0]`, row ids `0..8`: `filter_max` returns 2^63, `filter_max_simd` returns 1 | the unsigned maximum, as `filter_max` returns; flipping the high bit of both operands before the compare gives it | high; not executed | MaxReduce.SimdMaxMisordersSignBit | MaxReduce.SimdMaxBiasedMatchesScalar |
| src/filter.rs:62 | `_mm256_i32gather_epi64` reads each index lane as a signed 32-bit offset, so a `u32` row id of 2^31 or more addresses memory before the column (the same gather is at `src/filter_sum.rs:59` and `src/filter_max.rs:59-67`) | a column of 2^31 + 1 rows and a chunk of row ids `[2^31, 0, 0, 0]`: row 2^31 exists, but the gather offset is -2^31 | any row id up to `u32::MAX` indexes the column, as the row limit note at lines 13-14 says; zero-extending the ids and using a 64-bit-index gather gives it | medium; not executed | Avx2.GatherI32MisreadsHighRowIds | Avx2.Gather |
