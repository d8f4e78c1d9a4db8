/** 32-bit words. A Rust `u32`, a Rust `i32` and a C# `int` are all modelled by
    their two's-complement bit pattern, so masks, shifts and ors are exactly
    the source's operators. Signed comparisons and the sign-propagating shift
    of `i32`/`int` are spelled out here. */
module Bits {

  type Word = bv32

  const SIGN_BIT: Word := 0x8000_0000

  /** The word read as an `i32` is negative. */
  predicate IsNegative(w: Word) {
    w & SIGN_BIT != 0
  }

  /** `a < b` where both words are read as `i32`. Flipping the sign bit maps
      the signed order onto the unsigned one. */
  predicate SignedLess(a: Word, b: Word) {
    (a ^ SIGN_BIT) < (b ^ SIGN_BIT)
  }

  /** The signed order: every negative word is below every non-negative one. */
  lemma NegativeBelowNonNegative(a: Word, b: Word)
    requires IsNegative(a) && !IsNegative(b)
    ensures SignedLess(a, b) && !SignedLess(b, a)
  {
  }

  /** Words of the same sign compare as their unsigned values. */
  lemma SameSignIsUnsignedOrder(a: Word, b: Word)
    requires IsNegative(a) == IsNegative(b)
    ensures SignedLess(a, b) <==> a < b
  {
  }

  /** `w >> n` on an `i32` (Rust) or `int` (C#): an arithmetic shift that
      copies the sign bit into the vacated high bits. */
  function ArithShiftRight(w: Word, n: nat): Word
    requires n < 32
  {
    if IsNegative(w) then (w >> n) | !(0xFFFF_FFFF >> n) else w >> n
  }

  /** The integer value of a word read as an `i32`: the low 31 bits count
      upwards and the sign bit counts `-2^31`. */
  function ToInt(w: Word): (r: int)
    ensures InI32(r)
    ensures r < 0 <==> IsNegative(w)
  {
    (w & 0x7FFF_FFFF) as bv31 as int - (if IsNegative(w) then 0x8000_0000 else 0)
  }

  const I32_MAX: int := 0x7FFF_FFFF
  const I32_MIN: int := -0x8000_0000

  predicate InI32(x: int) {
    I32_MIN <= x <= I32_MAX
  }
}
