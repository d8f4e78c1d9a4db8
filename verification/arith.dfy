/** Integer facts the solver does not find by itself, and the integer
    operations of Rust and C++ that differ from Dafny's: division truncated
    toward zero and conversion to a 32-bit signed integer. */
module Arith {
  import opened Bits

  const TWO_32: int := 0x1_0000_0000
  const TWO_64: int := 0x1_0000_0000_0000_0000

  /** `a <= b` scales to `a * c <= b * c` for a non-negative `c`. */
  lemma MulMonotone(a: int, b: int, c: nat)
    requires a <= b
    ensures a * c <= b * c
  {
    assert b * c - a * c == (b - a) * c;
  }

  /** Dafny's division by a positive divisor: quotient and remainder. */
  lemma DivModSpec(a: int, b: int)
    requires b > 0
    ensures a == (a / b) * b + a % b && 0 <= a % b < b
  {
  }

  /** A quotient and remainder in range are the quotient and remainder. */
  lemma DivUnique(a: int, b: int, q: int, r: int)
    requires b > 0 && a == q * b + r && 0 <= r < b
    ensures a / b == q && a % b == r
  {
    DivModSpec(a, b);
    var d := a / b - q;
    assert d * b == r - a % b;
    if d >= 1 {
      MulMonotone(1, d, b);
    } else if d <= -1 {
      MulMonotone(d, -1, b);
    }
  }

  /** Rust's `/` on integers with a positive divisor: the quotient truncated
      toward zero, which is the one multiple of `b` between zero and `a`
      that is less than `b` away from `a`. */
  function TruncDiv(a: int, b: int): (q: int)
    requires b > 0
    ensures a >= 0 ==> 0 <= q * b <= a < q * b + b
    ensures a < 0 ==> q * b - b < a <= q * b <= 0
  {
    var n := if a >= 0 then a else -a;
    DivModSpec(n, b);
    MulMonotone(0, n / b, b);
    if a >= 0 then a / b else -(n / b)
  }

  /** `(a * b) / b` truncated toward zero is `a` again. */
  lemma TruncDivCancels(a: int, b: int)
    requires b > 0
    ensures TruncDiv(a * b, b) == a
  {
    if a >= 0 {
      MulMonotone(0, a, b);
      DivUnique(a * b, b, a, 0);
    } else {
      assert -(a * b) == (-a) * b;
      MulMonotone(0, -a, b);
      DivUnique((-a) * b, b, -a, 0);
    }
  }

  /** A multiple of `b` leaves no remainder. */
  lemma MultipleHasNoRemainder(q: int, b: int)
    requires b > 0
    ensures (q * b) % b == 0
  {
    DivUnique(q * b, b, q, 0);
  }

  /** A non-negative quotient is at most the dividend. */
  lemma DivAtMost(a: nat, b: int)
    requires b > 0
    ensures 0 <= a / b <= a
  {
    DivModSpec(a, b);
    MulMonotone(0, a / b, b);
    MulMonotone(1, b, a / b);
  }

  /** The conversion of an integer to `int32_t`/`i32`: the value modulo 2^32
      read in two's complement. */
  function WrapI32(x: int): (r: int)
    ensures InI32(r)
    ensures (x - r) % TWO_32 == 0
    ensures InI32(x) ==> r == x
  {
    (x + 0x8000_0000) % TWO_32 - 0x8000_0000
  }
}
