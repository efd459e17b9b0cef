/** The max kernel: the largest of `values[row_ids[i]]` under the unsigned
    order, with the vector version's lane compare done on signed lanes. */
module MaxReduce {
  import opened Outcomes
  import opened Words
  import opened Avx2
  import opened Selection

  /** `m` is one of `xs` and no element of `xs` exceeds it (unsigned). */
  predicate IsMaxOf(m: u64, xs: seq<u64>) {
    m in xs && forall i :: 0 <= i < |xs| ==> xs[i] <= m
  }

  lemma MaxIsUnique(a: u64, b: u64, xs: seq<u64>)
    requires IsMaxOf(a, xs) && IsMaxOf(b, xs)
    ensures a == b
  {
  }

  /** `row_ids.iter().map(|&id| values[id as usize]).max()`: `None` for no
      row ids, otherwise the unsigned maximum of the selected values; it
      panics at the first row id outside the column. */
  function IterMax(values: seq<u64>, ids: seq<u32>): (r: Outcome<Option<u64>>)
    ensures r.Ok? <==> InRange(values, ids)
    ensures r.Ok? ==> (r.value.None? <==> |ids| == 0)
    ensures r.Ok? && r.value.Some? ==> IsMaxOf(r.value.value, Selected(values, ids))
    ensures r.Panic? ==> r.fault == IndexOutOfBounds
    decreases |ids|
  {
    if |ids| == 0 then Ok(None)
    else
      SelectedSnoc(values, ids);
      var m :- IterMax(values, ids[..|ids| - 1]);
      var id := ids[|ids| - 1];
      if id >= |values| then Panic(IndexOutOfBounds)
      else
        match m
        case None => Ok(Some(values[id]))
        case Some(x) => Ok(Some(Max(x, values[id])))
  }

  /** `filter_max`: the unsigned maximum of the selected values. It panics
      on an empty selection (`unwrap` of `None`) and at a row id outside the
      column. */
  function FilterMax(values: seq<u64>, ids: seq<u32>): (r: Outcome<u64>)
    ensures r.Ok? <==> InRange(values, ids) && |ids| > 0
    ensures r.Ok? ==> IsMaxOf(r.value, Selected(values, ids))
    ensures r.Panic? ==> r.fault == if InRange(values, ids) then EmptySelection else IndexOutOfBounds
  {
    var m :- IterMax(values, ids);
    match m
    case None => Panic(EmptySelection)
    case Some(x) => Ok(x)
  }

  /** How the vector lane update compares a gathered value with the running
      lane maximum: as the kernel does it, on the signed reading of the bits,
      or with both sign bits flipped first. */
  datatype LaneOrder = SignedCompare | BiasedCompare

  /** The number each lane order compares. */
  function OrderKey(order: LaneOrder, x: u64): int {
    match order
    case SignedCompare => AsSigned(x)
    case BiasedCompare => x - TWO_63
  }

  /** Where a lane order agrees with the unsigned order: everywhere for the
      biased compare, below 2^63 for the signed one. */
  lemma OrderKeyMonotone(order: LaneOrder, x: u64, y: u64)
    requires order == BiasedCompare || (x < TWO_63 && y < TWO_63)
    ensures OrderKey(order, x) <= OrderKey(order, y) <==> x <= y
  {
  }

  /** The greater-than mask of a lane order, built from `_mm256_cmpgt_epi64`
      (and `_mm256_xor_si256` with the sign bit for the biased order). */
  function LaneGt(order: LaneOrder, a: U64x4, b: U64x4): (m: Mask4)
    ensures forall j :: 0 <= j < LANES ==> (m[j] <==> OrderKey(order, a[j]) > OrderKey(order, b[j]))
  {
    match order
    case SignedCompare => CmpGtEpi64(a, b)
    case BiasedCompare => CmpGtEpi64(XorSignBit(a), XorSignBit(b))
  }

  /** One lane update, `blendv(max_lanes, row_values, cmpgt(row_values,
      max_lanes))`: a lane takes the gathered value exactly when that value
      is greater in the lane order, and otherwise keeps its value. */
  function MaxStep(order: LaneOrder, cur: U64x4, next: U64x4): (r: U64x4)
    ensures forall j :: 0 <= j < LANES ==>
      r[j] == if OrderKey(order, next[j]) > OrderKey(order, cur[j]) then next[j] else cur[j]
  {
    BlendvEpi8(cur, next, LaneGt(order, next, cur))
  }

  /** `x` is an element of `col` and no element of `col` is greater in the
      lane order. */
  predicate IsOrderMaxOf(order: LaneOrder, x: u64, col: seq<u64>) {
    x in col && forall c :: 0 <= c < |col| ==> OrderKey(order, col[c]) <= OrderKey(order, x)
  }

  /** The vector loop over the first `k` chunks: seeded with the gather of
      chunk 0, then one `MaxStep` per later chunk. Each lane holds a value of
      its own lane column, the greatest one in the lane order. */
  function MaxLanes(order: LaneOrder, values: seq<u64>, ids: seq<u32>, k: nat): (lanes: U64x4)
    requires PrefixInRange(values, ids, LANES * k) && 1 <= k
    ensures forall j :: 0 <= j < LANES ==>
      IsOrderMaxOf(order, lanes[j], LaneColumn(values, ids, k, j))
  {
    if k == 1 then
      var seed := GatherChunk(values, ids, 0);
      MaxLanesSeed(order, values, ids, seed);
      seed
    else
      var cur := MaxLanes(order, values, ids, k - 1);
      var next := GatherChunk(values, ids, k - 1);
      MaxLanesStep(order, values, ids, k, cur, next);
      MaxStep(order, cur, next)
  }

  lemma MaxLanesSeed(order: LaneOrder, values: seq<u64>, ids: seq<u32>, seed: U64x4)
    requires PrefixInRange(values, ids, LANES)
    requires forall j :: 0 <= j < LANES ==> seed[j] == values[ids[j]]
    ensures forall j :: 0 <= j < LANES ==>
      IsOrderMaxOf(order, seed[j], LaneColumn(values, ids, 1, j))
  {
    forall j | 0 <= j < LANES
      ensures IsOrderMaxOf(order, seed[j], LaneColumn(values, ids, 1, j))
    {
      assert LaneColumn(values, ids, 1, j) == [seed[j]];
    }
  }

  lemma MaxLanesStep(order: LaneOrder, values: seq<u64>, ids: seq<u32>, k: nat, cur: U64x4, next: U64x4)
    requires PrefixInRange(values, ids, LANES * k) && 2 <= k
    requires forall j :: 0 <= j < LANES ==>
      IsOrderMaxOf(order, cur[j], LaneColumn(values, ids, k - 1, j))
    requires forall j :: 0 <= j < LANES ==> next[j] == values[ids[LANES * (k - 1) + j]]
    ensures forall j :: 0 <= j < LANES ==>
      IsOrderMaxOf(order, MaxStep(order, cur, next)[j], LaneColumn(values, ids, k, j))
  {
    var stepped := MaxStep(order, cur, next);
    forall j | 0 <= j < LANES
      ensures IsOrderMaxOf(order, stepped[j], LaneColumn(values, ids, k, j))
    {
      LaneColumnStep(values, ids, k, j);
      OrderMaxSnoc(order, cur[j], LaneColumn(values, ids, k - 1, j), next[j]);
    }
  }

  /** Keeping the greater of the running maximum and a new value, in the lane
      order, gives the maximum of the extended column. */
  lemma OrderMaxSnoc(order: LaneOrder, x: u64, col: seq<u64>, y: u64)
    requires IsOrderMaxOf(order, x, col)
    ensures IsOrderMaxOf(order, if OrderKey(order, y) > OrderKey(order, x) then y else x, col + [y])
  {
    var ext := col + [y];
    assert forall c :: 0 <= c < |col| ==> ext[c] == col[c];
    assert ext[|col|] == y;
  }

  /** `result.iter().max().unwrap()` over the four lanes. */
  function LanesMax(lanes: U64x4): (r: u64)
    ensures IsMaxOf(r, lanes)
  {
    Max(Max(Max(lanes[0], lanes[1]), lanes[2]), lanes[3])
  }

  /** `filter_max_simd` with the lane compare given by `order`: the scalar
      kernel below four row ids; otherwise the lane maxima over the full
      chunks, reduced with an unsigned max, folded with the unsigned max of
      the 0-3 remaining values. A gathered row id outside the column is
      undefined behaviour, so the caller must rule it out; a remaining one
      panics. Whatever the lane order, a result is always a selected value. */
  function MaxSimdWith(order: LaneOrder, values: seq<u64>, ids: seq<u32>): (r: Outcome<u64>)
    requires PrefixInRange(values, ids, RemStart(|ids|))
    ensures r.Ok? <==> InRange(values, ids) && |ids| > 0
    ensures r.Panic? ==> r.fault == if InRange(values, ids) then EmptySelection else IndexOutOfBounds
    ensures r.Ok? ==> r.value in Selected(values, ids)
  {
    if |ids| < LANES then FilterMax(values, ids)
    else
      var k := ChunkCount(|ids|);
      var lanes := MaxLanes(order, values, ids, k);
      var top := LanesMax(lanes);
      var rem := RemStart(|ids|);
      InRangeSplit(values, ids, rem);
      var remMax :- IterMax(values, ids[rem..]);
      SelectedSplit(values, ids, rem);
      LanesMaxSelected(order, values, ids, lanes);
      match remMax
      case Some(rm) => Ok(Max(rm, top))
      case None => Ok(top)
  }

  /** Every lane of the vector loop holds a selected value. */
  lemma LanesMaxSelected(order: LaneOrder, values: seq<u64>, ids: seq<u32>, lanes: U64x4)
    requires InRange(values, ids) && LANES <= |ids|
    requires lanes == MaxLanes(order, values, ids, ChunkCount(|ids|))
    ensures LanesMax(lanes) in Selected(values, ids)
  {
    var k := ChunkCount(|ids|);
    var j :| 0 <= j < LANES && lanes[j] == LanesMax(lanes);
    LaneColumnSelected(values, ids, k, j, lanes[j]);
  }

  /** `filter_max_simd` as written: the lane compare is signed. Below four
      row ids it is the scalar kernel; otherwise it fails exactly where the
      scalar kernel does, and always returns one of the selected values,
      whatever their size. */
  function FilterMaxSimd(values: seq<u64>, ids: seq<u32>): (r: Outcome<u64>)
    requires PrefixInRange(values, ids, RemStart(|ids|))
    ensures |ids| < LANES ==> r == FilterMax(values, ids)
    ensures r.Ok? <==> InRange(values, ids) && |ids| > 0
    ensures r.Panic? ==> r.fault == if InRange(values, ids) then EmptySelection else IndexOutOfBounds
    ensures r.Ok? ==> r.value in Selected(values, ids)
  {
    MaxSimdWith(SignedCompare, values, ids)
  }

  /** `filter_max_simd` with the sign bit of both compare operands flipped,
      which turns the signed lane compare into an unsigned one. */
  function FilterMaxSimdBiased(values: seq<u64>, ids: seq<u32>): (r: Outcome<u64>)
    requires PrefixInRange(values, ids, RemStart(|ids|))
    ensures r.Ok? <==> InRange(values, ids) && |ids| > 0
    ensures r.Ok? ==> r.value in Selected(values, ids)
  {
    MaxSimdWith(BiasedCompare, values, ids)
  }

  /** Every selected value inside the column is below 2^63. */
  predicate BelowSignBit(values: seq<u64>, ids: seq<u32>) {
    forall i :: 0 <= i < |ids| && ids[i] < |values| ==> values[ids[i]] < TWO_63
  }

  lemma BelowSignBitElement(values: seq<u64>, ids: seq<u32>, x: u64)
    requires InRange(values, ids) && BelowSignBit(values, ids)
    requires x in Selected(values, ids)
    ensures x < TWO_63
  {
    var i :| 0 <= i < |ids| && Selected(values, ids)[i] == x;
  }

  /** When the lane order agrees with the unsigned order on the selected
      values, every value of the first `k` chunks is at most the unsigned
      maximum of the lanes. */
  lemma ChunksBelowLanesMax(order: LaneOrder, values: seq<u64>, ids: seq<u32>, k: nat)
    requires InRange(values, ids) && 1 <= k && LANES * k <= |ids|
    requires order == BiasedCompare || BelowSignBit(values, ids)
    ensures forall i :: 0 <= i < LANES * k ==>
      Selected(values, ids)[i] <= LanesMax(MaxLanes(order, values, ids, k))
  {
    var sel := Selected(values, ids);
    var lanes := MaxLanes(order, values, ids, k);
    forall i | 0 <= i < LANES * k
      ensures sel[i] <= LanesMax(lanes)
    {
      ChunkedPosition(values, ids, k, i);
      var j := i % LANES;
      var col := LaneColumn(values, ids, k, j);
      assert sel[i] == col[i / LANES];
      assert OrderKey(order, sel[i]) <= OrderKey(order, lanes[j]);
      LaneColumnSelected(values, ids, k, j, lanes[j]);
      if order == SignedCompare {
        BelowSignBitElement(values, ids, lanes[j]);
        assert sel[i] in sel;
        BelowSignBitElement(values, ids, sel[i]);
      }
      OrderKeyMonotone(order, sel[i], lanes[j]);
    }
  }

  /** The vector kernel from four row ids on: the unsigned max of the lane
      maxima and, when there is a remainder, of its maximum. */
  lemma MaxSimdWithShape(order: LaneOrder, values: seq<u64>, ids: seq<u32>)
    requires InRange(values, ids) && LANES <= |ids|
    ensures InRange(values, ids[RemStart(|ids|)..])
    ensures var top := LanesMax(MaxLanes(order, values, ids, ChunkCount(|ids|)));
      var remMax := IterMax(values, ids[RemStart(|ids|)..]).value;
      MaxSimdWith(order, values, ids).value
      == if remMax.Some? then Max(remMax.value, top) else top
  {
    SelectedSplit(values, ids, RemStart(|ids|));
  }

  /** Every remainder value is at most the remainder maximum. */
  lemma RemainderBelowRemainderMax(values: seq<u64>, ids: seq<u32>, rem: nat)
    requires InRange(values, ids) && rem < |ids|
    ensures InRange(values, ids[rem..])
    ensures forall i :: rem <= i < |ids| ==>
      Selected(values, ids)[i] <= IterMax(values, ids[rem..]).value.value
  {
    SelectedSlice(values, ids, rem, |ids|);
    assert ids[rem..|ids|] == ids[rem..];
    var sel := Selected(values, ids);
    var m := IterMax(values, ids[rem..]).value.value;
    forall i | rem <= i < |ids|
      ensures sel[i] <= m
    {
      assert sel[i] == Selected(values, ids[rem..])[i - rem];
    }
  }

  /** When the lane order agrees with the unsigned order on the selected
      values, the vector kernel returns the unsigned maximum. */
  lemma MaxSimdIsMaxWhenOrderAgrees(order: LaneOrder, values: seq<u64>, ids: seq<u32>)
    requires InRange(values, ids) && LANES <= |ids|
    requires order == BiasedCompare || BelowSignBit(values, ids)
    ensures IsMaxOf(MaxSimdWith(order, values, ids).value, Selected(values, ids))
  {
    var k := ChunkCount(|ids|);
    var rem := RemStart(|ids|);
    var sel := Selected(values, ids);
    var top := LanesMax(MaxLanes(order, values, ids, k));
    var r := MaxSimdWith(order, values, ids).value;
    MaxSimdWithShape(order, values, ids);
    ChunksBelowLanesMax(order, values, ids, k);
    assert top <= r;
    if rem < |ids| {
      RemainderBelowRemainderMax(values, ids, rem);
      assert IterMax(values, ids[rem..]).value.value <= r;
    }
    assert forall i :: 0 <= i < |ids| ==> sel[i] <= r;
  }

  /** Below 2^63 the signed lane compare is harmless: the vector kernel
      returns exactly what the scalar kernel returns, the maximum or the same
      panic. */
  lemma SimdMaxMatchesScalarBelowSignBit(values: seq<u64>, ids: seq<u32>)
    requires PrefixInRange(values, ids, RemStart(|ids|)) && BelowSignBit(values, ids)
    ensures FilterMaxSimd(values, ids) == FilterMax(values, ids)
  {
    if LANES <= |ids| && InRange(values, ids) {
      MaxSimdIsMaxWhenOrderAgrees(SignedCompare, values, ids);
      MaxIsUnique(FilterMaxSimd(values, ids).value, FilterMax(values, ids).value, Selected(values, ids));
    }
  }

  /** With the sign-bit bias the vector kernel returns exactly what the
      scalar kernel returns, for every input it accepts. */
  lemma SimdMaxBiasedMatchesScalar(values: seq<u64>, ids: seq<u32>)
    requires PrefixInRange(values, ids, RemStart(|ids|))
    ensures FilterMaxSimdBiased(values, ids) == FilterMax(values, ids)
  {
    if LANES <= |ids| && InRange(values, ids) {
      MaxSimdIsMaxWhenOrderAgrees(BiasedCompare, values, ids);
      MaxIsUnique(FilterMaxSimdBiased(values, ids).value, FilterMax(values, ids).value, Selected(values, ids));
    }
  }

  /** At 2^63 and above the signed lane compare goes wrong: 2^63 in lane 0
      of the first chunk is replaced by the 1 of the second chunk, since 1 is
      greater in the signed reading, and the kernel returns 1 where the
      maximum is 2^63. */
  lemma SimdMaxMisordersSignBit()
    ensures var values: seq<u64> := [TWO_63, 0, 0, 0, 1, 0, 0, 0];
      && FilterMax(values, [0, 1, 2, 3, 4, 5, 6, 7]) == Ok(TWO_63)
      && FilterMaxSimd(values, [0, 1, 2, 3, 4, 5, 6, 7]) == Ok(1)
  {
    var values: seq<u64> := [TWO_63, 0, 0, 0, 1, 0, 0, 0];
    var ids: seq<u32> := [0, 1, 2, 3, 4, 5, 6, 7];
    assert InRange(values, ids);
    assert forall i :: 0 <= i < 8 && i != 0 && i != 4 ==> values[ids[i]] == 0;
    SignedCompareMisordersLaneZero(values, ids);
  }

  /** Eight rows, two chunks and no remainder: 2^63 in lane 0 of the first
      chunk, 1 in lane 0 of the second, zeros elsewhere. Lane 0 keeps the 1,
      the other lanes hold 0, and the kernel returns 1 where the maximum is
      2^63. */
  lemma SignedCompareMisordersLaneZero(values: seq<u64>, ids: seq<u32>)
    requires InRange(values, ids) && |ids| == 8
    requires values[ids[0]] == TWO_63 && values[ids[4]] == 1
    requires forall i :: 0 <= i < 8 && i != 0 && i != 4 ==> values[ids[i]] == 0
    ensures FilterMax(values, ids) == Ok(TWO_63)
    ensures FilterMaxSimd(values, ids) == Ok(1)
  {
    var sel := Selected(values, ids);
    assert IsMaxOf(TWO_63, sel);
    MaxIsUnique(FilterMax(values, ids).value, TWO_63, sel);
    SignedLanesKeepOne(values, ids);
    MaxSimdWithShape(SignedCompare, values, ids);
    assert ids[RemStart(|ids|)..] == [];
  }

  lemma SignedLanesKeepOne(values: seq<u64>, ids: seq<u32>)
    requires InRange(values, ids) && |ids| == 8
    requires values[ids[0]] == TWO_63 && values[ids[4]] == 1
    requires forall i :: 0 <= i < 8 && i != 0 && i != 4 ==> values[ids[i]] == 0
    ensures LanesMax(MaxLanes(SignedCompare, values, ids, 2)) == 1
  {
    var lanes := MaxLanes(SignedCompare, values, ids, 2);
    var col0 := LaneColumn(values, ids, 2, 0);
    assert col0[0] == TWO_63 && col0[1] == 1;
    SignedOrderMisordersSignBit();
    assert lanes[0] == 1;
    forall j | 1 <= j < LANES
      ensures lanes[j] == 0
    {
      var col := LaneColumn(values, ids, 2, j);
      assert col[0] == values[ids[j]] && col[1] == values[ids[LANES + j]];
    }
  }

  /** Both kernels return a given value exactly when it is the maximum of the
      selection, the vector kernel whenever its gathers are defined and no
      selected value reaches 2^63. */
  lemma KernelsReturnTheMaximum(values: seq<u64>, ids: seq<u32>, m: u64)
    ensures FilterMax(values, ids) == Ok(m) <==> InRange(values, ids) && IsMaxOf(m, Selected(values, ids))
    ensures PrefixInRange(values, ids, RemStart(|ids|)) && BelowSignBit(values, ids) ==>
      (FilterMaxSimd(values, ids) == Ok(m) <==> InRange(values, ids) && IsMaxOf(m, Selected(values, ids)))
  {
    if InRange(values, ids) && IsMaxOf(m, Selected(values, ids)) {
      MaxIsUnique(FilterMax(values, ids).value, m, Selected(values, ids));
    }
    if PrefixInRange(values, ids, RemStart(|ids|)) && BelowSignBit(values, ids) {
      SimdMaxMatchesScalarBelowSignBit(values, ids);
    }
  }

  /** A selected value below 2^63 that no selected value exceeds is the
      maximum, and the selection stays below the sign bit. */
  lemma WitnessedMaximum(values: seq<u64>, ids: seq<u32>, m: u64, at: nat)
    requires InRange(values, ids) && m < TWO_63
    requires at < |ids| && values[ids[at]] == m
    requires forall i :: 0 <= i < |ids| ==> values[ids[i]] <= m
    ensures PrefixInRange(values, ids, RemStart(|ids|))
    ensures IsMaxOf(m, Selected(values, ids)) && BelowSignBit(values, ids)
  {
    assert Selected(values, ids)[at] == m;
  }

  /** `row_ids.iter().map(|&id| values[id as usize]).max()` as a loop: the
      running maximum starts empty and takes the unsigned max with each
      selected value. */
  method IterMaxLoop(values: seq<u64>, ids: seq<u32>) returns (r: Outcome<Option<u64>>)
    ensures r.Ok? <==> InRange(values, ids)
    ensures r.Ok? ==> (r.value.None? <==> |ids| == 0)
    ensures r.Ok? && r.value.Some? ==> IsMaxOf(r.value.value, Selected(values, ids))
    ensures r == IterMax(values, ids)
  {
    var m: Option<u64> := None;
    var i := 0;
    while i < |ids|
      invariant i <= |ids| && InRange(values, ids[..i])
      invariant m.None? <==> i == 0
      invariant m.Some? ==> IsMaxOf(m.value, Selected(values, ids[..i]))
    {
      if ids[i] >= |values| {
        return Panic(IndexOutOfBounds);
      }
      m := IterMaxTurn(values, ids, m, i);
      i := i + 1;
    }
    assert ids[..|ids|] == ids;
    r := Ok(m);
    IterMaxIsDetermined(values, ids, r);
  }

  /** The body of the iterator's fold for an in-range row id `ids[i]`: the
      first value starts the running maximum, later ones take the unsigned
      max with it. */
  method IterMaxTurn(values: seq<u64>, ids: seq<u32>, m: Option<u64>, i: nat) returns (next: Option<u64>)
    requires i < |ids| && InRange(values, ids[..i]) && ids[i] < |values|
    requires m.None? <==> i == 0
    requires m.Some? ==> IsMaxOf(m.value, Selected(values, ids[..i]))
    ensures InRange(values, ids[..i + 1]) && next.Some?
    ensures IsMaxOf(next.value, Selected(values, ids[..i + 1]))
  {
    var y := values[ids[i]];
    SelectedPrefixSnoc(values, ids, i);
    RunningMaxStep(m, Selected(values, ids[..i]), y);
    match m {
      case None => next := Some(y);
      case Some(x) => next := Some(Max(x, y));
    }
  }

  /** One step of the fold of `Iterator::max`, on plain sequences. */
  lemma RunningMaxStep(m: Option<u64>, xs: seq<u64>, y: u64)
    requires m.None? <==> |xs| == 0
    requires m.Some? ==> IsMaxOf(m.value, xs)
    ensures IsMaxOf(if m.None? then y else Max(m.value, y), xs + [y])
  {
    if m.None? {
      assert xs + [y] == [y];
    } else {
      IsMaxOfSnoc(m.value, xs, y);
    }
  }

  /** The unsigned max of a maximum and a new value is the maximum of the
      extended sequence. */
  lemma IsMaxOfSnoc(x: u64, xs: seq<u64>, y: u64)
    requires IsMaxOf(x, xs)
    ensures IsMaxOf(Max(x, y), xs + [y])
  {
    var ext := xs + [y];
    assert forall i :: 0 <= i < |xs| ==> ext[i] == xs[i];
    assert ext[|xs|] == y;
  }

  /** The contract of `IterMax` has one answer. */
  lemma IterMaxIsDetermined(values: seq<u64>, ids: seq<u32>, r: Outcome<Option<u64>>)
    requires r.Ok? <==> InRange(values, ids)
    requires r.Ok? ==> (r.value.None? <==> |ids| == 0)
    requires r.Ok? && r.value.Some? ==> IsMaxOf(r.value.value, Selected(values, ids))
    requires r.Panic? ==> r.fault == IndexOutOfBounds
    ensures r == IterMax(values, ids)
  {
    var s := IterMax(values, ids);
    if r.Ok? && r.value.Some? {
      MaxIsUnique(r.value.value, s.value.value, Selected(values, ids));
    }
  }

  /** `filter_max` as a loop: the running maximum, unwrapped. */
  method FilterMaxLoop(values: seq<u64>, ids: seq<u32>) returns (r: Outcome<u64>)
    ensures r.Ok? <==> InRange(values, ids) && |ids| > 0
    ensures r.Ok? ==> IsMaxOf(r.value, Selected(values, ids))
    ensures r == FilterMax(values, ids)
  {
    var m := IterMaxLoop(values, ids);
    if m.Panic? {
      return Panic(m.fault);
    }
    match m.value
    case None => r := Panic(EmptySelection);
    case Some(x) => r := Ok(x);
  }

  /** The chunk loop of `filter_max_simd`: seeded with the gather of chunk 0,
      then one signed compare and blend per later chunk. */
  method MaxLanesLoop(values: seq<u64>, ids: seq<u32>) returns (lanes: U64x4)
    requires PrefixInRange(values, ids, RemStart(|ids|)) && LANES <= |ids|
    ensures forall j :: 0 <= j < LANES ==>
      IsOrderMaxOf(SignedCompare, lanes[j], LaneColumn(values, ids, ChunkCount(|ids|), j))
    ensures lanes == MaxLanes(SignedCompare, values, ids, ChunkCount(|ids|))
  {
    var k := ChunkCount(|ids|);
    MaxLanesFirst(values, ids);
    lanes := GatherChunk(values, ids, 0);
    var c := 1;
    while c < k
      invariant 1 <= c <= k && PrefixInRange(values, ids, LANES * c)
      invariant SignedLaneMaxima(values, ids, lanes, c)
    {
      lanes := MaxLanesTurn(values, ids, lanes, c);
      c := c + 1;
    }
    LaneMaximaAreMaxLanes(values, ids, lanes, k);
  }

  /** Every lane holds the signed maximum of its lane column over the first
      `c` chunks. */
  predicate SignedLaneMaxima(values: seq<u64>, ids: seq<u32>, lanes: U64x4, c: nat)
    requires PrefixInRange(values, ids, LANES * c)
  {
    forall j :: 0 <= j < LANES ==> IsOrderMaxOf(SignedCompare, lanes[j], LaneColumn(values, ids, c, j))
  }

  /** The body of the chunk loop for chunk `c`: gather the chunk, compare it
      signed against the running lanes and blend the larger in. */
  method MaxLanesTurn(values: seq<u64>, ids: seq<u32>, lanes: U64x4, c: nat) returns (next: U64x4)
    requires PrefixInRange(values, ids, RemStart(|ids|)) && 1 <= c < ChunkCount(|ids|)
    requires PrefixInRange(values, ids, LANES * c) && SignedLaneMaxima(values, ids, lanes, c)
    ensures PrefixInRange(values, ids, LANES * (c + 1)) && SignedLaneMaxima(values, ids, next, c + 1)
  {
    assert PrefixInRange(values, ids, LANES * (c + 1));
    SignedStepKeepsMaxima(values, ids, lanes, c);
    var rowValues := GatherChunk(values, ids, c);
    next := BlendvEpi8(lanes, rowValues, CmpGtEpi64(rowValues, lanes));
  }

  /** A signed compare-and-blend of chunk `c` extends the lane maxima by one
      chunk. */
  lemma SignedStepKeepsMaxima(values: seq<u64>, ids: seq<u32>, lanes: U64x4, c: nat)
    requires PrefixInRange(values, ids, LANES * (c + 1)) && 1 <= c
    requires SignedLaneMaxima(values, ids, lanes, c)
    ensures SignedLaneMaxima(values, ids, MaxStep(SignedCompare, lanes, GatherChunk(values, ids, c)), c + 1)
  {
    MaxLanesStep(SignedCompare, values, ids, c + 1, lanes, GatherChunk(values, ids, c));
  }

  /** The signed order is total on `u64`, so a column has one signed maximum. */
  lemma SignedMaxIsUnique(a: u64, b: u64, col: seq<u64>)
    requires IsOrderMaxOf(SignedCompare, a, col) && IsOrderMaxOf(SignedCompare, b, col)
    ensures a == b
  {
  }

  /** Lanes holding the signed lane maxima are the lanes of the vector loop. */
  lemma LaneMaximaAreMaxLanes(values: seq<u64>, ids: seq<u32>, lanes: U64x4, k: nat)
    requires PrefixInRange(values, ids, LANES * k) && 1 <= k
    requires SignedLaneMaxima(values, ids, lanes, k)
    ensures lanes == MaxLanes(SignedCompare, values, ids, k)
  {
    var m := MaxLanes(SignedCompare, values, ids, k);
    forall j | 0 <= j < LANES
      ensures lanes[j] == m[j]
    {
      SignedMaxIsUnique(lanes[j], m[j], LaneColumn(values, ids, k, j));
    }
  }

  /** The seed of the chunk loop. */
  lemma MaxLanesFirst(values: seq<u64>, ids: seq<u32>)
    requires PrefixInRange(values, ids, RemStart(|ids|)) && LANES <= |ids|
    ensures 1 <= ChunkCount(|ids|) && PrefixInRange(values, ids, LANES)
    ensures MaxLanes(SignedCompare, values, ids, 1) == GatherChunk(values, ids, 0)
  {
  }

  /** `filter_max_simd` as the loops the source runs: the scalar loop below
      four row ids; otherwise the chunk loop, the remainder loop, and the
      unsigned max of the four lanes and the remainder maximum. */
  method MaxSimdLoop(values: seq<u64>, ids: seq<u32>) returns (r: Outcome<u64>)
    requires PrefixInRange(values, ids, RemStart(|ids|))
    ensures r.Ok? <==> InRange(values, ids) && |ids| > 0
    ensures r.Ok? ==> r.value in Selected(values, ids)
    ensures r == FilterMaxSimd(values, ids)
  {
    if |ids| < LANES {
      r := FilterMaxLoop(values, ids);
      return;
    }
    var lanes := MaxLanesLoop(values, ids);
    var remMax := IterMaxLoop(values, ids[RemStart(|ids|)..]);
    MaxSimdUnfold(values, ids);
    if remMax.Panic? {
      return Panic(IndexOutOfBounds);
    }
    var top := LanesMax(lanes);
    match remMax.value
    case Some(rm) => r := Ok(Max(rm, top));
    case None => r := Ok(top);
  }

  /** The vector kernel from four row ids on, unfolded: the remainder
      maximum's panic, or the unsigned max of the lanes and the remainder
      maximum. */
  lemma MaxSimdUnfold(values: seq<u64>, ids: seq<u32>)
    requires PrefixInRange(values, ids, RemStart(|ids|)) && LANES <= |ids|
    ensures var remMax := IterMax(values, ids[RemStart(|ids|)..]);
      var top := LanesMax(MaxLanes(SignedCompare, values, ids, ChunkCount(|ids|)));
      FilterMaxSimd(values, ids)
      == if remMax.Panic? then Panic(IndexOutOfBounds)
         else if remMax.value.Some? then Ok(Max(remMax.value.value, top))
         else Ok(top)
  {
  }

  /** The test `filter_max`. */
  lemma ScalarExample()
    ensures FilterMax(Range(12, 39), [0, 1, 2, 6, 8]) == Ok(20)
  {
    WitnessedMaximum(Range(12, 39), [0, 1, 2, 6, 8], 20, 4);
    KernelsReturnTheMaximum(Range(12, 39), [0, 1, 2, 6, 8], 20);
  }

  /** The one-chunk case of the test `filter_max_simd`. */
  lemma SimdOneChunkExample()
    ensures FilterMaxSimd(Range(100, 110), [0, 1, 2, 3]) == Ok(103)
  {
    WitnessedMaximum(Range(100, 110), [0, 1, 2, 3], 103, 3);
    KernelsReturnTheMaximum(Range(100, 110), [0, 1, 2, 3], 103);
  }

  /** A two-row case of the same test, handled by the scalar kernel. */
  lemma SimdTwoRowExample()
    ensures FilterMaxSimd(Range(100, 113), [0, 12]) == Ok(112)
  {
    WitnessedMaximum(Range(100, 113), [0, 12], 112, 1);
    KernelsReturnTheMaximum(Range(100, 113), [0, 12], 112);
  }

  /** A one-row case of the same test. */
  lemma SimdOneRowExample()
    ensures FilterMaxSimd([20], [0]) == Ok(20)
  {
    WitnessedMaximum([20], [0], 20, 0);
    KernelsReturnTheMaximum([20], [0], 20);
  }

  /** A case of the same test whose maximum is not the column's maximum. */
  lemma SimdSkipsUnselectedExample()
    ensures FilterMaxSimd([20, 10, 20, 3], [1, 3]) == Ok(10)
  {
    WitnessedMaximum([20, 10, 20, 3], [1, 3], 10, 0);
    KernelsReturnTheMaximum([20, 10, 20, 3], [1, 3], 10);
  }

  /** A chunk plus one remainder row, whose value `u32::MAX` is the maximum. */
  lemma SimdRemainderMaxExample()
    ensures FilterMaxSimd([1020, 1023, 100, 3498, TWO_32 - 1], [0, 1, 2, 3, 4]) == Ok(TWO_32 - 1)
  {
    WitnessedMaximum([1020, 1023, 100, 3498, TWO_32 - 1], [0, 1, 2, 3, 4], TWO_32 - 1, 4);
    KernelsReturnTheMaximum([1020, 1023, 100, 3498, TWO_32 - 1], [0, 1, 2, 3, 4], TWO_32 - 1);
  }

  /** Two rows of a longer column, handled by the scalar kernel. */
  lemma SimdTwoRowLargeExample()
    ensures FilterMaxSimd([1021, 1023, 100, 3498, TWO_32 - 1, 1020], [3, 4]) == Ok(TWO_32 - 1)
  {
    WitnessedMaximum([1021, 1023, 100, 3498, TWO_32 - 1, 1020], [3, 4], TWO_32 - 1, 1);
    KernelsReturnTheMaximum([1021, 1023, 100, 3498, TWO_32 - 1, 1020], [3, 4], TWO_32 - 1);
  }

  /** Repeated and unordered row ids: a chunk and a remainder of three. */
  lemma SimdUnorderedExample()
    ensures FilterMaxSimd(Range(100, 1234), [3, 2, 5, 10, 10, 11, 21]) == Ok(121)
  {
    WitnessedMaximum(Range(100, 1234), [3, 2, 5, 10, 10, 11, 21], 121, 6);
    KernelsReturnTheMaximum(Range(100, 1234), [3, 2, 5, 10, 10, 11, 21], 121);
  }

  /** Three chunks and a remainder of one, the maximum in the middle. */
  lemma SimdMixedExample()
    ensures var values: seq<u64> := [
        21915, 99007, 8047, 46274, 90428, 11590, 24439, 44017, 80634, 73623, 28791,
        34440, 35442, 70, 53834, 19529, 74056, 6737, 42825, 4378, 78251, 39440, 45815,
        199, 200];
      FilterMaxSimd(values, [11, 12, 13, 14, 15, 16, 17, 18, 19, 20, 21, 22, 24]) == Ok(78251)
  {
    var values: seq<u64> := [
      21915, 99007, 8047, 46274, 90428, 11590, 24439, 44017, 80634, 73623, 28791,
      34440, 35442, 70, 53834, 19529, 74056, 6737, 42825, 4378, 78251, 39440, 45815,
      199, 200];
    WitnessedMaximum(values, [11, 12, 13, 14, 15, 16, 17, 18, 19, 20, 21, 22, 24], 78251, 9);
    KernelsReturnTheMaximum(values, [11, 12, 13, 14, 15, 16, 17, 18, 19, 20, 21, 22, 24], 78251);
  }

  /** A remaining row id outside the column panics in both kernels, as the
      indexing `values[id as usize]` does. */
  lemma OutOfRangeRemainderExample()
    ensures FilterMax(Range(0, 4), [0, 1, 2, 3, 4]) == Panic(IndexOutOfBounds)
    ensures FilterMaxSimd(Range(0, 4), [0, 1, 2, 3, 4]) == Panic(IndexOutOfBounds)
  {
    var ids: seq<u32> := [0, 1, 2, 3, 4];
    assert ids[4] == 4;
    assert !InRange(Range(0, 4), ids);
    assert PrefixInRange(Range(0, 4), ids, RemStart(|ids|));
  }
}
