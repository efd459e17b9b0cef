/** The sum kernel: the sum of `values[row_ids[i]]` over all `i`, as a `u64`
    whose additions are checked for overflow, except inside the vector lanes. */
module SumReduce {
  import opened Outcomes
  import opened Words
  import opened Avx2
  import opened Selection

  /** `filter_sum`: `result += values[id]` for every row id in order, each
      `+=` checked. It returns the true sum of the selected values when that
      fits in 64 bits; otherwise it panics, with an overflow when every row id
      is in range. */
  function FilterSum(values: seq<u64>, ids: seq<u32>): (r: Outcome<u64>)
    ensures r.Ok? <==> InRange(values, ids) && Total(Selected(values, ids)) < TWO_64
    ensures r.Ok? ==> r.value == Total(Selected(values, ids))
    ensures r.Panic? && InRange(values, ids) ==> r.fault == Overflow
    decreases |ids|
  {
    if |ids| == 0 then Ok(0)
    else
      SelectedSnoc(values, ids);
      var acc :- FilterSum(values, ids[..|ids| - 1]);
      var id := ids[|ids| - 1];
      if id < |values| then CheckedAdd(acc, values[id]) else Panic(IndexOutOfBounds)
  }

  /** No lane column of the first `k` chunks sums to 2^64 or more. */
  predicate LanesFit(values: seq<u64>, ids: seq<u32>, k: nat)
    requires PrefixInRange(values, ids, LANES * k)
  {
    forall j :: 0 <= j < LANES ==> Total(LaneColumn(values, ids, k, j)) < TWO_64
  }

  /** One chunk more: lane totals grow by the new chunk, and if no lane
      column overflows now, none did before. */
  lemma LaneColumnsStep(values: seq<u64>, ids: seq<u32>, k: nat)
    requires PrefixInRange(values, ids, LANES * k) && k > 0
    ensures forall j :: 0 <= j < LANES ==>
      Total(LaneColumn(values, ids, k, j))
      == Total(LaneColumn(values, ids, k - 1, j)) + values[ids[LANES * (k - 1) + j]]
    ensures LanesFit(values, ids, k) ==> LanesFit(values, ids, k - 1)
  {
    LaneTotalsStep(values, ids, k);
    if LanesFit(values, ids, k) {
      var previous := k - 1;
      forall j | 0 <= j < LANES
        ensures Total(LaneColumn(values, ids, previous, j)) < TWO_64
      {
        assert Total(LaneColumn(values, ids, k, j)) < TWO_64;
      }
    }
  }

  /** The vector loop: `k` rounds of `sum_lanes = _mm256_add_epi64(sum_lanes,
      gather(chunk))`. Lane `j` ends up holding the sum of its lane column
      modulo 2^64: the lane additions wrap and nothing checks them. */
  function LaneSums(values: seq<u64>, ids: seq<u32>, k: nat): (lanes: U64x4)
    requires PrefixInRange(values, ids, LANES * k)
    ensures forall j :: 0 <= j < LANES ==>
      lanes[j] == Total(LaneColumn(values, ids, k, j)) % TWO_64
  {
    if k == 0 then SetZero()
    else
      var prev := LaneSums(values, ids, k - 1);
      var next := GatherChunk(values, ids, k - 1);
      LaneSumsStep(values, ids, k, prev, next);
      AddEpi64(prev, next)
  }

  lemma LaneSumsStep(values: seq<u64>, ids: seq<u32>, k: nat, prev: U64x4, next: U64x4)
    requires PrefixInRange(values, ids, LANES * k) && k > 0
    requires forall j :: 0 <= j < LANES ==>
      prev[j] == Total(LaneColumn(values, ids, k - 1, j)) % TWO_64
    requires forall j :: 0 <= j < LANES ==> next[j] == values[ids[LANES * (k - 1) + j]]
    ensures forall j :: 0 <= j < LANES ==>
      AddEpi64(prev, next)[j] == Total(LaneColumn(values, ids, k, j)) % TWO_64
  {
    LaneTotalsStep(values, ids, k);
    var sums := AddEpi64(prev, next);
    forall j | 0 <= j < LANES
      ensures sums[j] == Total(LaneColumn(values, ids, k, j)) % TWO_64
    {
      var before := Total(LaneColumn(values, ids, k - 1, j));
      assert Total(LaneColumn(values, ids, k, j)) == before + next[j];
      assert sums[j] == WrappingAdd((before % TWO_64) as u64, next[j]);
      WrapStep(before, next[j]);
    }
  }

  /** `result.0 + result.1 + result.2 + result.3 + rem_sum`, each `+` checked
      from the left: it fails exactly when the true sum of the five terms
      does not fit in 64 bits. */
  function CombineLanes(lanes: U64x4, remSum: u64): (r: Outcome<u64>)
    ensures r.Ok? <==> lanes[0] as int + lanes[1] + lanes[2] + lanes[3] + remSum < TWO_64
    ensures r.Ok? ==> r.value == lanes[0] as int + lanes[1] + lanes[2] + lanes[3] + remSum
    ensures r.Panic? ==> r.fault == Overflow
  {
    var s1 :- CheckedAdd(lanes[0], lanes[1]);
    var s2 :- CheckedAdd(s1, lanes[2]);
    var s3 :- CheckedAdd(s2, lanes[3]);
    CheckedAdd(s3, remSum)
  }

  /** What the vector sum adds up: each lane column's sum reduced modulo
      2^64, plus the unreduced sum of the remainder. */
  function WrappedTotal(values: seq<u64>, ids: seq<u32>): nat
    requires InRange(values, ids)
  {
    var k := ChunkCount(|ids|);
    var rem := RemStart(|ids|);
    SelectedSlice(values, ids, rem, |ids|);
    Total(LaneColumn(values, ids, k, 0)) % TWO_64 + Total(LaneColumn(values, ids, k, 1)) % TWO_64
      + Total(LaneColumn(values, ids, k, 2)) % TWO_64 + Total(LaneColumn(values, ids, k, 3)) % TWO_64
      + Total(Selected(values, ids[rem..]))
  }

  /** `filter_sum_simd`: wrapping lane sums over the full chunks, a checked
      sum of the 0-3 remaining values, then a checked combination. It
      succeeds exactly when every row id is in range and the lane sums taken
      modulo 2^64 plus the remainder fit in 64 bits, and returns that sum;
      with every row id in range, every failure is an overflow. A gathered
      row id outside the column is undefined behaviour, so the caller must
      rule it out; a remaining one panics. */
  function FilterSumSimd(values: seq<u64>, ids: seq<u32>): (r: Outcome<u64>)
    requires PrefixInRange(values, ids, RemStart(|ids|))
    ensures r.Ok? <==> InRange(values, ids) && WrappedTotal(values, ids) < TWO_64
    ensures r.Ok? ==> r.value == WrappedTotal(values, ids)
    ensures r.Panic? && InRange(values, ids) ==> r.fault == Overflow
  {
    var lanes := LaneSums(values, ids, ChunkCount(|ids|));
    var rem := RemStart(|ids|);
    InRangeSplit(values, ids, rem);
    var remSum :- FilterSum(values, ids[rem..]);
    CombineLanes(lanes, remSum)
  }

  /** The sum of the selection, split as the vector kernel splits it. */
  lemma TotalByLanes(values: seq<u64>, ids: seq<u32>)
    requires InRange(values, ids)
    ensures var k := ChunkCount(|ids|);
      && InRange(values, ids[RemStart(|ids|)..])
      && Total(Selected(values, ids))
         == Total(LaneColumn(values, ids, k, 0)) + Total(LaneColumn(values, ids, k, 1))
          + Total(LaneColumn(values, ids, k, 2)) + Total(LaneColumn(values, ids, k, 3))
          + Total(Selected(values, ids[RemStart(|ids|)..]))
  {
    var rem := RemStart(|ids|);
    SelectedSplit(values, ids, rem);
    ChunkedTotal(values, ids, ChunkCount(|ids|));
  }

  /** Where the vector sum does detect overflow: as long as no single lane
      column reaches 2^64, it returns exactly what the scalar sum returns,
      the true sum or an overflow panic. */
  lemma SimdMatchesScalarWithoutLaneWrap(values: seq<u64>, ids: seq<u32>)
    requires InRange(values, ids)
    requires LanesFit(values, ids, ChunkCount(|ids|))
    ensures FilterSumSimd(values, ids) == FilterSum(values, ids)
  {
    TotalByLanes(values, ids);
    var k := ChunkCount(|ids|);
    var t0 := Total(LaneColumn(values, ids, k, 0));
    var t1 := Total(LaneColumn(values, ids, k, 1));
    var t2 := Total(LaneColumn(values, ids, k, 2));
    var t3 := Total(LaneColumn(values, ids, k, 3));
    ModOfSmall(t0);
    ModOfSmall(t1);
    ModOfSmall(t2);
    ModOfSmall(t3);
    assert WrappedTotal(values, ids) == Total(Selected(values, ids));
    var simd := FilterSumSimd(values, ids);
    var scalar := FilterSum(values, ids);
    if simd.Ok? {
      assert scalar == Ok(simd.value);
    } else {
      assert scalar == Panic(Overflow);
    }
  }

  /** Whenever the true sum fits in 64 bits, the vector and scalar sums both
      return it. */
  lemma SimdMatchesScalarWhenTotalFits(values: seq<u64>, ids: seq<u32>)
    requires InRange(values, ids) && Total(Selected(values, ids)) < TWO_64
    ensures FilterSumSimd(values, ids) == FilterSum(values, ids)
    ensures FilterSum(values, ids) == Ok(Total(Selected(values, ids)))
  {
    TotalByLanes(values, ids);
    var k := ChunkCount(|ids|);
    var t0 := Total(LaneColumn(values, ids, k, 0));
    var t1 := Total(LaneColumn(values, ids, k, 1));
    var t2 := Total(LaneColumn(values, ids, k, 2));
    var t3 := Total(LaneColumn(values, ids, k, 3));
    var r := Total(Selected(values, ids[RemStart(|ids|)..]));
    assert Total(Selected(values, ids)) == t0 + t1 + t2 + t3 + r;
    forall j | 0 <= j < LANES
      ensures Total(LaneColumn(values, ids, k, j)) < TWO_64
    {
      assert j == 0 || j == 1 || j == 2 || j == 3;
    }
    SimdMatchesScalarWithoutLaneWrap(values, ids);
  }

  /** A result the vector sum does return is never too large, and differs
      from the true sum by a multiple of 2^64: when the true sum overflows,
      the answer is silently wrong rather than a panic. */
  lemma SimdResultIsTotalModulo2To64(values: seq<u64>, ids: seq<u32>)
    requires InRange(values, ids) && FilterSumSimd(values, ids).Ok?
    ensures FilterSumSimd(values, ids).value <= Total(Selected(values, ids))
    ensures (Total(Selected(values, ids)) - FilterSumSimd(values, ids).value) % TWO_64 == 0
  {
    TotalByLanes(values, ids);
    var k := ChunkCount(|ids|);
    var t0 := Total(LaneColumn(values, ids, k, 0));
    var t1 := Total(LaneColumn(values, ids, k, 1));
    var t2 := Total(LaneColumn(values, ids, k, 2));
    var t3 := Total(LaneColumn(values, ids, k, 3));
    var r := Total(Selected(values, ids[RemStart(|ids|)..]));
    assert Total(Selected(values, ids)) == t0 + t1 + t2 + t3 + r;
    assert FilterSumSimd(values, ids).value == WrappedTotal(values, ids);
    ReducedLanesDiffer(t0, t1, t2, t3, r);
  }

  /** Reducing four lane sums modulo 2^64 lowers their total by a whole
      number of 2^64s. */
  lemma ReducedLanesDiffer(t0: nat, t1: nat, t2: nat, t3: nat, r: nat)
    ensures var reduced := t0 % TWO_64 + t1 % TWO_64 + t2 % TWO_64 + t3 % TWO_64 + r;
      && reduced <= t0 + t1 + t2 + t3 + r
      && (t0 + t1 + t2 + t3 + r - reduced) % TWO_64 == 0
  {
    ModRemovesMultiple(t0);
    ModRemovesMultiple(t1);
    ModRemovesMultiple(t2);
    ModRemovesMultiple(t3);
    var q := t0 / TWO_64 + t1 / TWO_64 + t2 / TWO_64 + t3 / TWO_64;
    var reduced := t0 % TWO_64 + t1 % TWO_64 + t2 % TWO_64 + t3 % TWO_64 + r;
    assert t0 + t1 + t2 + t3 + r - reduced == q * TWO_64;
    ModAddMultiple(0, q);
  }

  /** Where it does not: `u64::MAX` and `1` in the same lane of two chunks
      wrap to 0 in the lane, so the vector sum returns 0 where the scalar sum
      panics with an overflow. */
  lemma SimdMissesLaneOverflow()
    ensures var values: seq<u64> := [U64_MAX, 0, 0, 0, 1, 0, 0, 0];
      && FilterSum(values, [0, 1, 2, 3, 4, 5, 6, 7]) == Panic(Overflow)
      && FilterSumSimd(values, [0, 1, 2, 3, 4, 5, 6, 7]) == Ok(0)
  {
    var values: seq<u64> := [U64_MAX, 0, 0, 0, 1, 0, 0, 0];
    var ids: seq<u32> := [0, 1, 2, 3, 4, 5, 6, 7];
    assert InRange(values, ids);
    assert forall i :: 0 <= i < 8 && i != 0 && i != 4 ==> values[ids[i]] == 0;
    LaneWrapHidesOverflow(values, ids);
  }

  /** Eight rows, two chunks and no remainder: `u64::MAX` in lane 0 of the
      first chunk, 1 in lane 0 of the second, zeros elsewhere. The true sum
      is 2^64, which the scalar kernel rejects and lane 0 wraps to 0. */
  lemma LaneWrapHidesOverflow(values: seq<u64>, ids: seq<u32>)
    requires InRange(values, ids) && |ids| == 8
    requires values[ids[0]] == U64_MAX && values[ids[4]] == 1
    requires forall i :: 0 <= i < 8 && i != 0 && i != 4 ==> values[ids[i]] == 0
    ensures FilterSum(values, ids) == Panic(Overflow)
    ensures FilterSumSimd(values, ids) == Ok(0)
  {
    TotalByLanes(values, ids);
    forall j | 0 <= j < LANES
      ensures Total(LaneColumn(values, ids, 2, j)) == if j == 0 then TWO_64 else 0
    {
      var col := LaneColumn(values, ids, 2, j);
      TotalOfTwo(col);
      assert col[0] == values[ids[j]] && col[1] == values[ids[LANES + j]];
    }
    assert ids[RemStart(|ids|)..] == [];
    assert Total(Selected(values, ids)) == TWO_64;
    assert WrappedTotal(values, ids) == 0;
  }

  /** A lane-wise add that detects wrap-around: a lane wrapped exactly when
      its sum is below its first operand in the unsigned order, which
      `_mm256_cmpgt_epi64` decides once both sign bits are flipped. It fails
      exactly when some lane's true sum does not fit in 64 bits. */
  function AddEpi64Checked(a: U64x4, b: U64x4): (r: Outcome<U64x4>)
    ensures r.Ok? <==> forall j :: 0 <= j < LANES ==> a[j] as int + b[j] < TWO_64
    ensures r.Ok? ==> forall j :: 0 <= j < LANES ==> r.value[j] == a[j] as int + b[j]
    ensures r.Panic? ==> r.fault == Overflow
  {
    var sum := AddEpi64(a, b);
    var wrapped := CmpGtEpi64(XorSignBit(a), XorSignBit(sum));
    if wrapped[0] || wrapped[1] || wrapped[2] || wrapped[3] then Panic(Overflow) else Ok(sum)
  }

  /** The vector loop with `AddEpi64Checked` in place of `_mm256_add_epi64`:
      it fails exactly when some lane column's sum reaches 2^64, and
      otherwise lane `j` holds that column's true sum. */
  function CheckedLaneSums(values: seq<u64>, ids: seq<u32>, k: nat): (r: Outcome<U64x4>)
    requires PrefixInRange(values, ids, LANES * k)
    ensures r.Ok? <==> LanesFit(values, ids, k)
    ensures r.Ok? ==> forall j :: 0 <= j < LANES ==> r.value[j] == Total(LaneColumn(values, ids, k, j))
    ensures r.Panic? ==> r.fault == Overflow
  {
    if k == 0 then Ok(SetZero())
    else
      LaneColumnsStep(values, ids, k);
      var prev :- CheckedLaneSums(values, ids, k - 1);
      var next := GatherChunk(values, ids, k - 1);
      CheckedLaneSumsStep(values, ids, k, prev, next);
      AddEpi64Checked(prev, next)
  }

  lemma CheckedLaneSumsStep(values: seq<u64>, ids: seq<u32>, k: nat, prev: U64x4, next: U64x4)
    requires PrefixInRange(values, ids, LANES * k) && k > 0
    requires forall j :: 0 <= j < LANES ==> prev[j] == Total(LaneColumn(values, ids, k - 1, j))
    requires forall j :: 0 <= j < LANES ==> next[j] == values[ids[LANES * (k - 1) + j]]
    ensures AddEpi64Checked(prev, next).Ok? <==> LanesFit(values, ids, k)
    ensures AddEpi64Checked(prev, next).Ok? ==>
      forall j :: 0 <= j < LANES ==> AddEpi64Checked(prev, next).value[j] == Total(LaneColumn(values, ids, k, j))
  {
    LaneColumnsStep(values, ids, k);
    assert forall j :: 0 <= j < LANES ==> prev[j] as int + next[j] == Total(LaneColumn(values, ids, k, j));
  }

  /** `filter_sum_simd` with checked lane additions, so that no lane can wrap
      before the combination. */
  function FilterSumSimdChecked(values: seq<u64>, ids: seq<u32>): (r: Outcome<u64>)
    requires PrefixInRange(values, ids, RemStart(|ids|))
    ensures r.Ok? ==> InRange(values, ids)
    ensures r.Panic? && InRange(values, ids) ==> r.fault == Overflow
  {
    var lanes :- CheckedLaneSums(values, ids, ChunkCount(|ids|));
    var rem := RemStart(|ids|);
    InRangeSplit(values, ids, rem);
    var remSum :- FilterSum(values, ids[rem..]);
    CombineLanes(lanes, remSum)
  }

  /** With checked lanes the vector sum agrees with the scalar sum on every
      in-range input: the same true sum when it fits in 64 bits, the same
      overflow panic when it does not. */
  lemma SimdCheckedMatchesScalar(values: seq<u64>, ids: seq<u32>)
    requires InRange(values, ids)
    ensures FilterSumSimdChecked(values, ids) == FilterSum(values, ids)
  {
    if Total(Selected(values, ids)) < TWO_64 {
      SimdCheckedWhenTotalFits(values, ids);
    } else {
      SimdCheckedWhenTotalOverflows(values, ids);
    }
  }

  /** A selection whose sum fits in 64 bits has no lane column that does
      not, nor a remainder that does not. */
  lemma PartsFitWhenTotalFits(values: seq<u64>, ids: seq<u32>)
    requires InRange(values, ids) && Total(Selected(values, ids)) < TWO_64
    ensures LanesFit(values, ids, ChunkCount(|ids|))
    ensures InRange(values, ids[RemStart(|ids|)..])
    ensures Total(Selected(values, ids[RemStart(|ids|)..])) < TWO_64
  {
    TotalByLanes(values, ids);
    var k := ChunkCount(|ids|);
    forall j | 0 <= j < LANES
      ensures Total(LaneColumn(values, ids, k, j)) < TWO_64
    {
      assert j == 0 || j == 1 || j == 2 || j == 3;
    }
  }

  /** With no lane column and no remainder overflowing, the checked vector
      sum is the checked combination of the lane totals and the remainder
      total. */
  lemma SimdCheckedCombinesFittingParts(values: seq<u64>, ids: seq<u32>)
    requires InRange(values, ids) && LanesFit(values, ids, ChunkCount(|ids|))
    requires InRange(values, ids[RemStart(|ids|)..])
    requires Total(Selected(values, ids[RemStart(|ids|)..])) < TWO_64
    ensures CheckedLaneSums(values, ids, ChunkCount(|ids|)).Ok?
    ensures FilterSumSimdChecked(values, ids)
         == CombineLanes(CheckedLaneSums(values, ids, ChunkCount(|ids|)).value,
                         Total(Selected(values, ids[RemStart(|ids|)..])))
  {
  }

  lemma SimdCheckedWhenTotalFits(values: seq<u64>, ids: seq<u32>)
    requires InRange(values, ids) && Total(Selected(values, ids)) < TWO_64
    ensures FilterSumSimdChecked(values, ids) == Ok(Total(Selected(values, ids)))
  {
    var k := ChunkCount(|ids|);
    var rem := RemStart(|ids|);
    PartsFitWhenTotalFits(values, ids);
    SimdCheckedCombinesFittingParts(values, ids);
    var lanes := CheckedLaneSums(values, ids, k).value;
    TotalByLanes(values, ids);
    var t0 := Total(LaneColumn(values, ids, k, 0));
    var t1 := Total(LaneColumn(values, ids, k, 1));
    var t2 := Total(LaneColumn(values, ids, k, 2));
    var t3 := Total(LaneColumn(values, ids, k, 3));
    var r := Total(Selected(values, ids[rem..]));
    assert lanes[0] == t0 && lanes[1] == t1 && lanes[2] == t2 && lanes[3] == t3;
    assert lanes[0] as int + lanes[1] + lanes[2] + lanes[3] + r == Total(Selected(values, ids));
    var combined := CombineLanes(lanes, r);
    assert combined.Ok? && combined.value == Total(Selected(values, ids));
  }

  lemma SimdCheckedWhenTotalOverflows(values: seq<u64>, ids: seq<u32>)
    requires InRange(values, ids) && Total(Selected(values, ids)) >= TWO_64
    ensures FilterSumSimdChecked(values, ids) == Panic(Overflow)
  {
    TotalByLanes(values, ids);
    var k := ChunkCount(|ids|);
    var rem := RemStart(|ids|);
    var lanes := CheckedLaneSums(values, ids, k);
    var remSum := FilterSum(values, ids[rem..]);
    if lanes.Ok? && remSum.Ok? {
      var t0 := Total(LaneColumn(values, ids, k, 0));
      var t1 := Total(LaneColumn(values, ids, k, 1));
      var t2 := Total(LaneColumn(values, ids, k, 2));
      var t3 := Total(LaneColumn(values, ids, k, 3));
      var r := Total(Selected(values, ids[rem..]));
      assert Total(Selected(values, ids)) == t0 + t1 + t2 + t3 + r;
      assert lanes.value[0] == t0 && lanes.value[1] == t1 && lanes.value[2] == t2 && lanes.value[3] == t3;
      assert remSum.value == r;
      assert FilterSumSimdChecked(values, ids) == CombineLanes(lanes.value, remSum.value);
    }
  }

  /** `filter_sum_simd` as the loops the source runs: one wrapping lane add
      per full chunk, a checked sum of the remaining values, then the checked
      combination. It meets the contract of `FilterSumSimd`. */
  method SumSimdLoop(values: seq<u64>, ids: seq<u32>) returns (r: Outcome<u64>)
    requires PrefixInRange(values, ids, RemStart(|ids|))
    ensures r.Ok? <==> InRange(values, ids) && WrappedTotal(values, ids) < TWO_64
    ensures r.Ok? ==> r.value == WrappedTotal(values, ids)
    ensures r.Panic? && InRange(values, ids) ==> r.fault == Overflow
    ensures r == FilterSumSimd(values, ids)
  {
    var rem := RemStart(|ids|);
    var lanes := LaneSumsLoop(values, ids);
    var remOut := SumLoop(values, ids[rem..]);
    RemainderFitsWhenSimdFits(values, ids);
    if remOut.Panic? {
      return Panic(remOut.fault);
    }
    r := CombineLoopResults(values, ids, lanes, remOut.value);
  }

  /** When the vector sum's figure fits in 64 bits, so does the remainder
      sum, whose checked loop therefore cannot fail. */
  lemma RemainderFitsWhenSimdFits(values: seq<u64>, ids: seq<u32>)
    requires PrefixInRange(values, ids, RemStart(|ids|))
    ensures InRange(values, ids) ==> InRange(values, ids[RemStart(|ids|)..])
    ensures InRange(values, ids) && WrappedTotal(values, ids) < TWO_64
        ==> Total(Selected(values, ids[RemStart(|ids|)..])) < TWO_64
  {
    InRangeSplit(values, ids, RemStart(|ids|));
  }

  /** The chunk loop of `filter_sum_simd`: `sum_lanes` starts at zero and
      takes one wrapping `_mm256_add_epi64` of each gathered chunk. */
  method LaneSumsLoop(values: seq<u64>, ids: seq<u32>) returns (lanes: U64x4)
    requires PrefixInRange(values, ids, RemStart(|ids|))
    ensures forall j :: 0 <= j < LANES ==>
      lanes[j] == Total(LaneColumn(values, ids, ChunkCount(|ids|), j)) % TWO_64
    ensures lanes == LaneSums(values, ids, ChunkCount(|ids|))
  {
    var k := ChunkCount(|ids|);
    lanes := SetZero();
    var c := 0;
    while c < k
      invariant c <= k
      invariant PrefixInRange(values, ids, LANES * c) && lanes == LaneSums(values, ids, c)
    {
      LaneSumsNext(values, ids, c);
      lanes := AddEpi64(lanes, GatherChunk(values, ids, c));
      c := c + 1;
    }
  }

  /** One more turn of the chunk loop, while chunks remain. */
  lemma LaneSumsNext(values: seq<u64>, ids: seq<u32>, c: nat)
    requires PrefixInRange(values, ids, RemStart(|ids|)) && c < ChunkCount(|ids|)
    ensures PrefixInRange(values, ids, LANES * (c + 1))
    ensures LaneSums(values, ids, c + 1) == AddEpi64(LaneSums(values, ids, c), GatherChunk(values, ids, c))
  {
  }

  /** `filter_sum` as the loop the source runs, `result += values[id]` with
      each `+=` checked; the vector kernel runs the same loop over its
      remainder. It meets the contract of `FilterSum`. */
  method SumLoop(values: seq<u64>, ids: seq<u32>) returns (r: Outcome<u64>)
    ensures r.Ok? <==> InRange(values, ids) && Total(Selected(values, ids)) < TWO_64
    ensures r.Ok? ==> r.value == Total(Selected(values, ids))
    ensures r.Panic? && InRange(values, ids) ==> r.fault == Overflow
    ensures r == FilterSum(values, ids)
  {
    var result := 0;
    var i := 0;
    while i < |ids|
      invariant i <= |ids|
      invariant FilterSum(values, ids[..i]) == Ok(result)
    {
      var id := ids[i];
      assert ids[..i + 1][..i] == ids[..i];
      if id >= |values| {
        PanicCarriesThrough(values, ids, i + 1);
        return Panic(IndexOutOfBounds);
      }
      var acc := CheckedAdd(result, values[id]);
      if acc.Panic? {
        PanicCarriesThrough(values, ids, i + 1);
        return Panic(Overflow);
      }
      result := acc.value;
      i := i + 1;
    }
    assert ids[..|ids|] == ids;
    r := Ok(result);
  }

  /** Once a prefix of the row ids panics, the whole kernel panics the same
      way: nothing after the failing `+=` runs. */
  lemma {:induction false} PanicCarriesThrough(values: seq<u64>, ids: seq<u32>, n: nat)
    requires n <= |ids| && FilterSum(values, ids[..n]).Panic?
    ensures FilterSum(values, ids) == FilterSum(values, ids[..n])
    decreases |ids|
  {
    if n < |ids| {
      var init := ids[..|ids| - 1];
      assert init[..n] == ids[..n];
      PanicCarriesThrough(values, init, n);
    } else {
      assert ids[..n] == ids;
    }
  }

  /** `result.0 + result.1 + result.2 + result.3 + rem_sum` after the loops:
      the checked combination, which is what `FilterSumSimd` returns. */
  method CombineLoopResults(values: seq<u64>, ids: seq<u32>, lanes: U64x4, remSum: u64) returns (r: Outcome<u64>)
    requires PrefixInRange(values, ids, RemStart(|ids|))
    requires lanes == LaneSums(values, ids, ChunkCount(|ids|))
    requires InRange(values, ids[RemStart(|ids|)..])
    requires remSum == Total(Selected(values, ids[RemStart(|ids|)..]))
    ensures r == FilterSumSimd(values, ids)
  {
    assert FilterSum(values, ids[RemStart(|ids|)..]) == Ok(remSum);
    r := CombineLanes(lanes, remSum);
  }

  /** The test `filter_sum`: rows 0..3 of the column 0..10 sum to 6. */
  lemma ScalarExample()
    ensures FilterSum(Range(0, 10), [0, 1, 2, 3]) == Ok(6)
  {
    var values := Range(0, 10);
    var ids: seq<u32> := [0, 1, 2, 3];
    assert InRange(values, ids);
    assert Selected(values, ids) == [0, 1, 2, 3];
    TotalOfFour([0, 1, 2, 3]);
  }

  /** The tests `filter_sum_overflow` and `filter_sum_simd_overflow`:
      `u64::MAX + 1` panics in both kernels; with two row ids the vector
      kernel never gathers, and the remainder's checked sum fails. */
  lemma OverflowExamples()
    ensures FilterSum([U64_MAX, 1], [0, 1]) == Panic(Overflow)
    ensures FilterSumSimd([U64_MAX, 1], [0, 1]) == Panic(Overflow)
  {
    var values: seq<u64> := [U64_MAX, 1];
    var ids: seq<u32> := [0, 1];
    assert InRange(values, ids);
    assert Selected(values, ids) == [U64_MAX, 1];
    TotalOfTwo([U64_MAX, 1]);
    assert ids[RemStart(|ids|)..] == ids;
    assert WrappedTotal(values, ids) == TWO_64;
  }

  /** With a remaining row id outside the column both kernels panic, but the
      vector kernel's fault is the one the remainder loop alone raises: the
      wrapping lane adds before it never fail, so an overflow among the
      gathered values goes unreported. */
  lemma OutOfRangeSimdSumIsRemainderPanic(values: seq<u64>, ids: seq<u32>)
    requires PrefixInRange(values, ids, RemStart(|ids|)) && !InRange(values, ids)
    ensures FilterSum(values, ids).Panic?
    ensures FilterSumSimd(values, ids) == FilterSum(values, ids[RemStart(|ids|)..])
    ensures FilterSumSimd(values, ids).Panic?
  {
    InRangeSplit(values, ids, RemStart(|ids|));
  }

  /** The two kernels can report different faults on the same input:
      `u64::MAX + 1` overflows the scalar loop at the second row id, while
      the vector kernel wraps it in a lane and then meets row id 9. */
  lemma OutOfRangeFaultsDifferExample()
    ensures FilterSum([U64_MAX, 1, 0, 0], [0, 1, 2, 3, 9]) == Panic(Overflow)
    ensures FilterSumSimd([U64_MAX, 1, 0, 0], [0, 1, 2, 3, 9]) == Panic(IndexOutOfBounds)
  {
    var values: seq<u64> := [U64_MAX, 1, 0, 0];
    var ids: seq<u32> := [0, 1, 2, 3, 9];
    OverflowExamples();
    assert ids[..2] == [0, 1];
    PanicCarriesThrough(values, ids, 2);
    assert ids[RemStart(|ids|)..] == [9];
    OutOfRangeSimdSumIsRemainderPanic(values, ids);
  }

  /** A one-chunk case of the test `filter_sum_values_simd`. */
  lemma SimdOneChunkExample()
    ensures FilterSumSimd(Range(100, 110), [0, 1, 2, 3]) == Ok(406)
  {
    var ids: seq<u32> := [0, 1, 2, 3];
    assert InRange(Range(100, 110), ids);
    assert Selected(Range(100, 110), ids) == Range(100, 104);
    TotalOfRange(100, 104);
    SimdMatchesScalarWhenTotalFits(Range(100, 110), ids);
  }

  /** A remainder-only case of the same test: two row ids, no chunk. */
  lemma SimdTwoRowExample()
    ensures FilterSumSimd(Range(100, 113), [0, 12]) == Ok(212)
  {
    var ids: seq<u32> := [0, 12];
    assert InRange(Range(100, 113), ids);
    assert Selected(Range(100, 113), ids) == [100, 112];
    TotalOfTwo([100, 112]);
    SimdMatchesScalarWhenTotalFits(Range(100, 113), ids);
  }

  /** A one-chunk case of the same test with `u32::MAX` among the values. */
  lemma SimdLargeValueExample()
    ensures FilterSumSimd([1020, 1023, 100, 3498, TWO_32 - 1], [1, 2, 3, 4])
         == Ok(1023 + 100 + 3498 + (TWO_32 - 1))
  {
    var values: seq<u64> := [1020, 1023, 100, 3498, TWO_32 - 1];
    var ids: seq<u32> := [1, 2, 3, 4];
    assert InRange(values, ids);
    assert Selected(values, ids) == [1023, 100, 3498, TWO_32 - 1];
    TotalOfFour([1023, 100, 3498, TWO_32 - 1]);
    SimdMatchesScalarWhenTotalFits(values, ids);
  }

  /** The large case of the same test: rows 2..653 of the column 100..1234
      sum to 102 + ... + 752 = 277977 in both kernels. */
  lemma SimdManyChunksExample()
    ensures var ids := seq(651, i requires 0 <= i < 651 => (2 + i) as u32);
      && FilterSumSimd(Range(100, 1234), ids) == Ok(277977)
      && FilterSum(Range(100, 1234), ids) == Ok(277977)
  {
    var ids := seq(651, i requires 0 <= i < 651 => (2 + i) as u32);
    var values := Range(100, 1234);
    assert InRange(values, ids);
    assert Selected(values, ids) == Range(102, 753);
    TotalOfRange(102, 753);
    SimdMatchesScalarWhenTotalFits(values, ids);
  }
}
