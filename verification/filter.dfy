/** The materialise kernel: copy `values[row_ids[i]]` for every `i`, in
    row-id order, into a caller-supplied buffer that is cleared first. */
module Materialise {
  import opened Outcomes
  import opened Words
  import opened Selection

  /** The scalar push loop: appends the value of each row id to `dst`, in
      row-id order, and panics at the first row id outside the column. */
  function PushRows(values: seq<u64>, ids: seq<u32>, dst: seq<u64>): (r: Outcome<seq<u64>>)
    ensures r.Ok? <==> InRange(values, ids)
    ensures r.Ok? ==> r.value == dst + Selected(values, ids)
    ensures r.Panic? ==> r.fault == IndexOutOfBounds
    decreases |ids|
  {
    if |ids| == 0 then Ok(dst)
    else
      SelectedSnoc(values, ids);
      var pushed :- PushRows(values, ids[..|ids| - 1], dst);
      var id := ids[|ids| - 1];
      if id < |values| then Ok(pushed + [values[id]]) else Panic(IndexOutOfBounds)
  }

  /** `filter_materialise_values`: clears `dst`, then pushes the value of
      every row id. The result holds one value per row id, the value of that
      row, in row-id order; nothing of the old `dst` survives. */
  function FilterMaterialiseValues(values: seq<u64>, ids: seq<u32>, dst: seq<u64>)
    : (r: Outcome<seq<u64>>)
    ensures r.Ok? <==> InRange(values, ids)
    ensures r.Ok? ==> |r.value| == |ids|
    ensures r.Ok? ==> forall i :: 0 <= i < |ids| ==> r.value[i] == values[ids[i]]
    ensures r.Panic? ==> r.fault == IndexOutOfBounds
  {
    PushRows(values, ids, dst[..0])
  }

  /** The vector loop over `chunks_exact(4)`: the first `k` chunks, each
      gathered into one register and stored after the previous ones. The
      stores append to what `dst` already holds. */
  function StoreChunks(values: seq<u64>, ids: seq<u32>, k: nat, dst: seq<u64>): (out: seq<u64>)
    requires PrefixInRange(values, ids, LANES * k)
    ensures InRange(values, ids[..LANES * k])
    ensures out == dst + Selected(values, ids[..LANES * k])
  {
    InRangeSplit(values, ids, LANES * k);
    if k == 0 then dst
    else
      ChunkSelectionStep(values, ids, k);
      StoreChunks(values, ids, k - 1, dst) + GatherChunk(values, ids, k - 1)
  }

  /** `filter_materialise_values_simd`: clears `dst`, stores one gathered
      register per full chunk, then pushes the 0-3 remaining row ids from
      `m - m % 4` on. A gathered row id outside the column is undefined
      behaviour, so the caller must rule it out; a remaining one panics, as
      in the scalar kernel. */
  function FilterMaterialiseValuesSimd(values: seq<u64>, ids: seq<u32>, dst: seq<u64>)
    : (r: Outcome<seq<u64>>)
    requires PrefixInRange(values, ids, RemStart(|ids|))
    ensures r.Ok? <==> InRange(values, ids)
    ensures r.Ok? ==> |r.value| == |ids|
    ensures r.Ok? ==> forall i :: 0 <= i < |ids| ==> r.value[i] == values[ids[i]]
    ensures r.Panic? ==> r.fault == IndexOutOfBounds
  {
    var rem := RemStart(|ids|);
    var stored := StoreChunks(values, ids, ChunkCount(|ids|), dst[..0]);
    var r := PushRows(values, ids[rem..], stored);
    SimdPushesRemainder(values, ids, stored, r);
    r
  }

  lemma SimdPushesRemainder(values: seq<u64>, ids: seq<u32>, stored: seq<u64>, r: Outcome<seq<u64>>)
    requires PrefixInRange(values, ids, RemStart(|ids|))
    requires stored == Selected(values, ids[..RemStart(|ids|)])
    requires r == PushRows(values, ids[RemStart(|ids|)..], stored)
    ensures r.Ok? <==> InRange(values, ids)
    ensures r.Ok? ==> r.value == Selected(values, ids)
  {
    var rem := RemStart(|ids|);
    InRangeSplit(values, ids, rem);
    if InRange(values, ids) {
      SelectedSplit(values, ids, rem);
    }
  }

  /** The vector path is the chunked selection followed by the remainder
      selection: exactly the 4-wide gathers of `row_ids[4c..4c + 4]`, then
      the scalar pushes of `row_ids[m - m % 4..]`, of which there are at
      most three. */
  lemma {:induction false} SimdIsChunksThenRemainder(values: seq<u64>, ids: seq<u32>, dst: seq<u64>)
    requires InRange(values, ids)
    ensures var rem := RemStart(|ids|);
      && InRange(values, ids[rem..])
      && FilterMaterialiseValuesSimd(values, ids, dst)
         == Ok(StoreChunks(values, ids, ChunkCount(|ids|), []) + Selected(values, ids[rem..]))
      && |ids| - rem < LANES
  {
    var rem := RemStart(|ids|);
    SelectedSplit(values, ids, rem);
  }

  /** The vector kernel returns exactly what the scalar kernel returns, for
      every input it accepts, whatever either buffer held before: the same
      values, or the same panic at a remaining row id outside the column. */
  lemma SimdMatchesScalar(values: seq<u64>, ids: seq<u32>, dst1: seq<u64>, dst2: seq<u64>)
    requires PrefixInRange(values, ids, RemStart(|ids|))
    ensures FilterMaterialiseValues(values, ids, dst1) == FilterMaterialiseValuesSimd(values, ids, dst2)
  {
    var scalar := FilterMaterialiseValues(values, ids, dst1);
    var simd := FilterMaterialiseValuesSimd(values, ids, dst2);
    if InRange(values, ids) {
      SameSelection(values, ids, scalar.value, simd.value);
    } else {
      assert scalar == Panic(IndexOutOfBounds) && simd == Panic(IndexOutOfBounds);
    }
  }

  /** Two sequences that both hold the value of each row id in turn are
      equal. */
  lemma SameSelection(values: seq<u64>, ids: seq<u32>, a: seq<u64>, b: seq<u64>)
    requires InRange(values, ids) && |a| == |ids| && |b| == |ids|
    requires forall i :: 0 <= i < |ids| ==> a[i] == values[ids[i]]
    requires forall i :: 0 <= i < |ids| ==> b[i] == values[ids[i]]
    ensures a == b
  {
    assert forall i :: 0 <= i < |a| ==> a[i] == b[i];
  }

  /** `out` holds the value of each row id in turn, every row id in range. */
  predicate IsSelectionOf(values: seq<u64>, ids: seq<u32>, out: seq<u64>)
  {
    InRange(values, ids) && |out| == |ids|
    && forall i :: 0 <= i < |ids| ==> out[i] == values[ids[i]]
  }

  /** Both kernels return a given sequence exactly when it holds the value of
      each row id in turn, the vector kernel whenever its gathers are defined. */
  lemma KernelsReturnTheSelection(values: seq<u64>, ids: seq<u32>, out: seq<u64>, dst: seq<u64>)
    ensures FilterMaterialiseValues(values, ids, dst) == Ok(out) <==> IsSelectionOf(values, ids, out)
    ensures PrefixInRange(values, ids, RemStart(|ids|)) ==>
      (FilterMaterialiseValuesSimd(values, ids, dst) == Ok(out) <==> IsSelectionOf(values, ids, out))
  {
    if IsSelectionOf(values, ids, out) {
      SameSelection(values, ids, FilterMaterialiseValues(values, ids, dst).value, out);
    }
    if PrefixInRange(values, ids, RemStart(|ids|)) {
      SimdMatchesScalar(values, ids, dst, dst);
    }
  }

  /** `filter_materialise_values` as the loop the source runs: `dst` cleared,
      then one push per row id, stopping at the first row id outside the
      column. It returns exactly what `FilterMaterialiseValues` returns. */
  method MaterialiseLoop(values: seq<u64>, ids: seq<u32>, dst: seq<u64>) returns (r: Outcome<seq<u64>>)
    ensures r.Ok? <==> InRange(values, ids)
    ensures r.Ok? ==> r.value == Selected(values, ids) && |r.value| == |ids|
    ensures r == FilterMaterialiseValues(values, ids, dst)
  {
    var out := dst[..0];
    var i := 0;
    while i < |ids|
      invariant i <= |ids|
      invariant InRange(values, ids[..i]) && out == Selected(values, ids[..i])
    {
      var id := ids[i];
      if id >= |values| {
        RemainderPanics(values, ids, dst, i);
        return Panic(IndexOutOfBounds);
      }
      SelectedPrefixSnoc(values, ids, i);
      out := out + [values[id]];
      i := i + 1;
    }
    assert ids[..|ids|] == ids;
    r := Ok(out);
    KernelsReturnTheSelection(values, ids, out, dst);
  }

  /** `filter_materialise_values_simd` as the loops the source runs: one
      store per full chunk, then one push per remaining row id, stopping at
      the first remaining row id outside the column. It returns exactly what
      the scalar kernel returns. */
  method MaterialiseSimdLoop(values: seq<u64>, ids: seq<u32>, dst: seq<u64>) returns (r: Outcome<seq<u64>>)
    requires PrefixInRange(values, ids, RemStart(|ids|))
    ensures r.Ok? <==> InRange(values, ids)
    ensures r.Ok? ==> r.value == Selected(values, ids)
    ensures r == FilterMaterialiseValues(values, ids, dst)
  {
    var rem := RemStart(|ids|);
    var k := ChunkCount(|ids|);
    var out: seq<u64> := [];
    var c := 0;
    while c < k
      invariant c <= k && LANES * c <= rem
      invariant InRange(values, ids[..LANES * c]) && out == Selected(values, ids[..LANES * c])
    {
      assert LANES * (c + 1) <= rem;
      ChunkSelectionStep(values, ids, c + 1);
      out := out + GatherChunk(values, ids, c);
      c := c + 1;
    }
    var i := rem;
    while i < |ids|
      invariant rem <= i <= |ids|
      invariant InRange(values, ids[..i]) && out == Selected(values, ids[..i])
    {
      var id := ids[i];
      if id >= |values| {
        InRangeSplit(values, ids, i + 1);
        RemainderPanics(values, ids, dst, i);
        return Panic(IndexOutOfBounds);
      }
      out := out + [values[id]];
      SelectedSliceSnoc(values, ids, 0, i);
      assert ids[0..i] == ids[..i] && ids[0..i + 1] == ids[..i + 1];
      i := i + 1;
    }
    assert ids[..|ids|] == ids;
    r := Ok(out);
    KernelsReturnTheSelection(values, ids, out, dst);
  }

  /** A row id outside the column makes the scalar kernel panic. */
  lemma RemainderPanics(values: seq<u64>, ids: seq<u32>, dst: seq<u64>, i: nat)
    requires i < |ids| && ids[i] >= |values|
    ensures FilterMaterialiseValues(values, ids, dst) == Panic(IndexOutOfBounds)
  {
  }

  /** The test `filter_materialise_values`. */
  lemma ScalarExample()
    ensures FilterMaterialiseValues(Range(0, 10), [0, 1, 2, 3], []) == Ok([0, 1, 2, 3])
  {
    KernelsReturnTheSelection(Range(0, 10), [0, 1, 2, 3], [0, 1, 2, 3], []);
  }

  /** A one-chunk case of the test `filter_materialise_values_simd`. */
  lemma SimdOneChunkExample()
    ensures FilterMaterialiseValuesSimd(Range(100, 110), [0, 1, 2, 3], []) == Ok([100, 101, 102, 103])
  {
    KernelsReturnTheSelection(Range(100, 110), [0, 1, 2, 3], [100, 101, 102, 103], []);
  }

  /** A one-chunk case of the same test whose values are all `u64::MAX`. */
  lemma SimdOneChunkMaxExample()
    ensures FilterMaterialiseValuesSimd([1020, U64_MAX, U64_MAX, U64_MAX, U64_MAX], [1, 2, 3, 4], [])
         == Ok([U64_MAX, U64_MAX, U64_MAX, U64_MAX])
  {
    KernelsReturnTheSelection([1020, U64_MAX, U64_MAX, U64_MAX, U64_MAX], [1, 2, 3, 4],
                              [U64_MAX, U64_MAX, U64_MAX, U64_MAX], []);
  }

  /** A remainder-only case of the same test: two row ids, no chunk. */
  lemma SimdTwoRowExample()
    ensures FilterMaterialiseValuesSimd(Range(100, 113), [0, 12], []) == Ok([100, 112])
  {
    KernelsReturnTheSelection(Range(100, 113), [0, 12], [100, 112], []);
  }

  /** A single-row case of the same test: a row whose value is `u64::MAX`. */
  lemma SimdOneRowMaxExample()
    ensures FilterMaterialiseValuesSimd([1020, U64_MAX, U64_MAX, U64_MAX, U64_MAX], [2], [])
         == Ok([U64_MAX])
  {
    KernelsReturnTheSelection([1020, U64_MAX, U64_MAX, U64_MAX, U64_MAX], [2], [U64_MAX], []);
  }

  /** A single-row case of the same test: the last row, past a run of
      `u64::MAX` values. */
  lemma SimdOneRowLastExample()
    ensures FilterMaterialiseValuesSimd([1020, U64_MAX, U64_MAX, U64_MAX, 29], [4], []) == Ok([29])
  {
    KernelsReturnTheSelection([1020, U64_MAX, U64_MAX, U64_MAX, 29], [4], [29], []);
  }

  /** The large case of the same test: rows 2..653 of the column 100..1234,
      162 full chunks and a remainder of three, give 102..753. */
  lemma SimdManyChunksExample()
    ensures var ids := seq(651, i requires 0 <= i < 651 => (2 + i) as u32);
      FilterMaterialiseValuesSimd(Range(100, 1234), ids, []) == Ok(Range(102, 753))
  {
    var ids := seq(651, i requires 0 <= i < 651 => (2 + i) as u32);
    KernelsReturnTheSelection(Range(100, 1234), ids, Range(102, 753), []);
  }

  /** A remaining row id outside the column panics in both kernels, as the
      indexing `values[id as usize]` does. */
  lemma OutOfRangeRemainderExample()
    ensures FilterMaterialiseValues(Range(0, 4), [0, 1, 2, 3, 4], []) == Panic(IndexOutOfBounds)
    ensures FilterMaterialiseValuesSimd(Range(0, 4), [0, 1, 2, 3, 4], []) == Panic(IndexOutOfBounds)
  {
    var ids: seq<u32> := [0, 1, 2, 3, 4];
    assert ids[4] == 4;
    assert !InRange(Range(0, 4), ids);
    assert PrefixInRange(Range(0, 4), ids, RemStart(|ids|));
  }
}
