/** Fixed-width integers of the kernels: `u32` row ids, `u64` values, and the
    three readings of 64-bit arithmetic they rely on (checked, wrapping and
    two's-complement signed). */
module Words {
  import opened Outcomes

  const TWO_31: nat := 0x8000_0000
  const TWO_32: nat := 0x1_0000_0000
  const TWO_63: nat := 0x8000_0000_0000_0000
  const TWO_64: nat := 0x1_0000_0000_0000_0000
  const U64_MAX: nat := TWO_64 - 1

  type u32 = x: nat | x < TWO_32
  type u64 = x: nat | x < TWO_64

  /** Addition of one `_mm256_add_epi64` lane: the carry out of bit 63 is lost. */
  function WrappingAdd(a: u64, b: u64): (r: u64)
    ensures a + b < TWO_64 ==> r == a + b
    ensures a + b >= TWO_64 ==> r == a + b - TWO_64
  {
    (a + b) % TWO_64
  }

  /** Rust's `+` on `u64` with overflow checks: panics rather than wraps. */
  function CheckedAdd(a: u64, b: u64): (r: Outcome<u64>)
    ensures r.Ok? <==> a + b <= U64_MAX
    ensures r.Ok? ==> r.value == a + b == WrappingAdd(a, b)
    ensures r.Panic? ==> r.fault == Overflow
  {
    if a + b < TWO_64 then Ok(a + b) else Panic(Overflow)
  }

  /** `Ord::max` on `u64`: the unsigned maximum. */
  function Max(a: u64, b: u64): (r: u64)
    ensures r >= a && r >= b
    ensures r == a || r == b
  {
    if a <= b then b else a
  }

  /** The two's-complement reading of a 64-bit pattern, which is what
      `_mm256_cmpgt_epi64` compares: the one number in [-2^63, 2^63) that
      equals `x` modulo 2^64. */
  function AsSigned(x: u64): (s: int)
    ensures -(TWO_63 as int) <= s < TWO_63
    ensures s == x || s == x - TWO_64
    ensures s < 0 <==> x >= TWO_63
  {
    if x < TWO_63 then x else x - TWO_64
  }

  /** Exclusive-or with 2^63: flips the sign bit of the pattern. */
  function FlipSignBit(x: u64): (r: u64)
    ensures AsSigned(r) == x - TWO_63
    ensures (r < TWO_63) != (x < TWO_63)
  {
    if x < TWO_63 then x + TWO_63 else x - TWO_63
  }

  /** Below 2^63 the signed reading is the unsigned value itself, so the two
      orders agree there. */
  lemma SignedOrderBelowSignBit(a: u64, b: u64)
    requires a < TWO_63 && b < TWO_63
    ensures AsSigned(a) < AsSigned(b) <==> a < b
  {
  }

  /** From 2^63 up the signed reading is negative: 2^63 compares below 1. */
  lemma SignedOrderMisordersSignBit()
    ensures AsSigned(TWO_63) < AsSigned(1) && TWO_63 > 1
  {
  }

  /** Flipping the sign bit turns signed comparison into unsigned comparison,
      for every pair of 64-bit values. */
  lemma FlippedSignedOrderIsUnsigned(a: u64, b: u64)
    ensures AsSigned(FlipSignBit(a)) < AsSigned(FlipSignBit(b)) <==> a < b
  {
  }

  lemma ModAddMultiple(a: nat, q: nat)
    ensures (a + q * TWO_64) % TWO_64 == a % TWO_64
    decreases q
  {
    if q > 0 {
      ModAddMultiple(a, q - 1);
      assert a + q * TWO_64 == (a + (q - 1) * TWO_64) + TWO_64;
    }
  }

  /** Adding to a sum already reduced modulo 2^64 with wrap-around gives the
      whole sum reduced modulo 2^64. */
  lemma WrapStep(t: nat, v: u64)
    ensures WrappingAdd((t % TWO_64) as u64, v) == (t + v) % TWO_64
  {
    var q := t / TWO_64;
    assert t == q * TWO_64 + t % TWO_64;
    ModAddMultiple(t % TWO_64 + v, q);
  }

  lemma ModOfSmall(t: nat)
    requires t < TWO_64
    ensures t % TWO_64 == t
  {
  }

  /** Reducing modulo 2^64 removes a whole number of 2^64s. */
  lemma ModRemovesMultiple(t: nat)
    ensures t % TWO_64 <= t
    ensures t - t % TWO_64 == (t / TWO_64) * TWO_64
  {
  }
}
