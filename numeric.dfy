/** The C numeric conversions the slider relies on: uint16_t arithmetic
    and the truncating conversion of a quotient to an integer, with the
    facts about products and quotients the geometry proofs need. */
module Numeric {

  /** The C type uint16_t, used for min, max, value and delta. */
  type U16 = x: int | 0 <= x < 0x1_0000

  /** Conversion of an int to uint16_t: reduction modulo 2^16. */
  function Wrap16(x: int): (r: U16)
    ensures 0 <= x < 0x1_0000 ==> r == x
    ensures (x - r) % 0x1_0000 == 0
  {
    x % 0x1_0000
  }

  /** The quotient p / d (d > 0) converted to an integer the way C
      converts a floating-point number: truncation toward zero. */
  function TruncDiv(p: int, d: int): (q: int)
    requires d > 0
    ensures p >= 0 ==> q == p / d
    ensures p < 0 ==> q * d - d < p <= q * d
  {
    if p >= 0 then p / d else -((-p) / d)
  }

  lemma MulMono(n: nat, a: int, b: int)
    ensures a <= b ==> n * a <= n * b
  {
    assert n * b - n * a == n * (b - a);
  }

  lemma DivMono(x: int, y: int, d: int)
    requires x <= y && d > 0
    ensures x / d <= y / d
  {
    var q1, q2 := x / d, y / d;
    assert d * q1 <= x;
    assert y < d * q2 + d;
    assert d * (q2 + 1) == d * q2 + d;
    MulMono(d, q2 + 1, q1);
  }

  lemma MulDivCancel(k: int, d: int)
    requires d > 0
    ensures k * d / d == k
  {
    var q := k * d / d;
    assert q * d <= k * d < q * d + d;
    assert d * (q + 1) == q * d + d;
    assert d * (k + 1) == k * d + d;
    MulMono(d, q + 1, k);
    MulMono(d, k + 1, q);
  }

  /** Scaling a length n by a fraction a / d in [0, 1] and truncating
      stays within [0, n]. */
  lemma ScaledBounds(n: nat, a: int, d: int)
    requires 0 <= a <= d && d > 0
    ensures 0 <= n * a <= n * d
    ensures 0 <= n * a / d <= n
  {
    MulMono(n, 0, a);
    MulMono(n, a, d);
    DivMono(0, n * a, d);
    DivMono(n * a, n * d, d);
    MulDivCancel(n, d);
  }

  /** Scaling a length by a larger fraction with the same denominator
      never gives less. */
  lemma ScaledMono(n: nat, a: int, b: int, d: int)
    requires 0 <= a <= b && d > 0
    ensures 0 <= n * a / d <= n * b / d
  {
    MulMono(n, 0, a);
    MulMono(n, a, b);
    DivMono(0, n * a, d);
    DivMono(n * a, n * b, d);
  }
}
