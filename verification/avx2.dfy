/** The AVX2 intrinsics the kernels call, as operations on four 64-bit lanes.
    Registers are values, not memory: a gather reads four indexed elements of
    the column, a store is a sequence concatenation. */
module Avx2 {
  import opened Words

  /** An `__m256i` read as four `u64` lanes. */
  type U64x4 = s: seq<u64> | |s| == 4 witness [0, 0, 0, 0]

  /** A comparison mask: lane `j` is all ones when `m[j]`, else all zeros. */
  type Mask4 = s: seq<bool> | |s| == 4 witness [false, false, false, false]

  /** `_mm256_setzero_si256`. */
  function SetZero(): (r: U64x4)
    ensures forall j :: 0 <= j < 4 ==> r[j] == 0
  {
    [0, 0, 0, 0]
  }

  /** The memory offset `_mm256_i32gather_epi64` derives from one index lane:
      the lane is a signed 32-bit integer, so the bit pattern of a `u32` row
      id is read in two's complement. */
  function GatherOffsetI32(id: u32): (off: int)
    ensures -(TWO_31 as int) <= off < TWO_31
    ensures off == id || off == id - TWO_32
  {
    if id < TWO_31 then id else id - TWO_32
  }

  /** Every index of `idx` addresses an element of `values` once read as a
      signed 32-bit offset. */
  predicate GatherI32InBounds(values: seq<u64>, idx: seq<u32>)
    requires |idx| == 4
  {
    forall j :: 0 <= j < 4 ==> 0 <= GatherOffsetI32(idx[j]) < |values|
  }

  /** `_mm256_i32gather_epi64(values, idx, 8)` exactly as the kernels issue it:
      signed 32-bit offsets, scaled by the 8-byte element width. */
  function GatherI32(values: seq<u64>, idx: seq<u32>): (r: U64x4)
    requires |idx| == 4 && GatherI32InBounds(values, idx)
    ensures forall j :: 0 <= j < 4 ==> r[j] == values[GatherOffsetI32(idx[j])]
  {
    [values[GatherOffsetI32(idx[0])], values[GatherOffsetI32(idx[1])],
     values[GatherOffsetI32(idx[2])], values[GatherOffsetI32(idx[3])]]
  }

  /** A row id of 2^31 is a valid `u32` and a valid row of any column longer
      than 2^31, yet the signed offset the gather derives from it is negative:
      the gather would read before the start of the column. */
  lemma GatherI32MisreadsHighRowIds(values: seq<u64>)
    requires |values| > TWO_31
    ensures var id: u32 := TWO_31; id < |values| && GatherOffsetI32(id) < 0
    ensures !GatherI32InBounds(values, [TWO_31 as u32, 0, 0, 0])
  {
    var idx: seq<u32> := [TWO_31 as u32, 0, 0, 0];
    assert GatherOffsetI32(idx[0]) < 0;
  }

  /** The gather with zero-extended row ids (as `_mm256_i64gather_epi64` on
      `_mm256_cvtepu32_epi64` of the ids would issue it): lane `j` is
      `values[idx[j]]` for every `u32` row id inside the column. */
  function Gather(values: seq<u64>, idx: seq<u32>): (r: U64x4)
    requires |idx| == 4 && forall j :: 0 <= j < 4 ==> idx[j] < |values|
    ensures forall j :: 0 <= j < 4 ==> r[j] == values[idx[j]]
  {
    [values[idx[0]], values[idx[1]], values[idx[2]], values[idx[3]]]
  }

  /** On row ids below 2^31 the two gathers read the same elements, so on
      columns of at most 2^31 rows the kernels' gather is `Gather`. */
  lemma GatherAgreesBelow2To31(values: seq<u64>, idx: seq<u32>)
    requires |idx| == 4 && forall j :: 0 <= j < 4 ==> idx[j] < |values| && idx[j] < TWO_31
    ensures GatherI32InBounds(values, idx)
    ensures GatherI32(values, idx) == Gather(values, idx)
  {
  }

  /** `_mm256_add_epi64`: lane-wise addition modulo 2^64. */
  function AddEpi64(a: U64x4, b: U64x4): (r: U64x4)
    ensures forall j :: 0 <= j < 4 ==> r[j] == WrappingAdd(a[j], b[j])
  {
    [WrappingAdd(a[0], b[0]), WrappingAdd(a[1], b[1]),
     WrappingAdd(a[2], b[2]), WrappingAdd(a[3], b[3])]
  }

  /** `_mm256_cmpgt_epi64`: lane-wise signed greater-than. */
  function CmpGtEpi64(a: U64x4, b: U64x4): (m: Mask4)
    ensures forall j :: 0 <= j < 4 ==> (m[j] <==> AsSigned(a[j]) > AsSigned(b[j]))
  {
    [AsSigned(a[0]) > AsSigned(b[0]), AsSigned(a[1]) > AsSigned(b[1]),
     AsSigned(a[2]) > AsSigned(b[2]), AsSigned(a[3]) > AsSigned(b[3])]
  }

  /** `_mm256_blendv_epi8(a, b, m)` for a mask whose lanes are all ones or all
      zeros, as `CmpGtEpi64` produces: lane `j` comes from `b` when `m[j]`. */
  function BlendvEpi8(a: U64x4, b: U64x4, m: Mask4): (r: U64x4)
    ensures forall j :: 0 <= j < 4 ==> r[j] == if m[j] then b[j] else a[j]
  {
    [if m[0] then b[0] else a[0], if m[1] then b[1] else a[1],
     if m[2] then b[2] else a[2], if m[3] then b[3] else a[3]]
  }

  /** `_mm256_xor_si256` with 2^63 in every lane. */
  function XorSignBit(a: U64x4): (r: U64x4)
    ensures forall j :: 0 <= j < 4 ==> r[j] == FlipSignBit(a[j])
  {
    [FlipSignBit(a[0]), FlipSignBit(a[1]), FlipSignBit(a[2]), FlipSignBit(a[3])]
  }
}
