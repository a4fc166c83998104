/**
 * Facts about integer multiplication and Euclidean division that the digit
 * strings and the decimal amounts rely on.
 */
module Arithmetic {

  /** Uniqueness of Euclidean division by a positive divisor. */
  lemma DivModUnique(x: int, p: int, q: int, r: int)
    requires p > 0 && 0 <= r < p && x == q * p + r
    ensures x / p == q && x % p == r
  {
    var q', r' := x / p, x % p;
    assert (q - q') * p == r' - r;
    if q > q' {
      MulAtLeast(q - q', p);
    } else if q < q' {
      MulAtLeast(q' - q, p);
    }
  }

  lemma MulAtLeast(a: int, p: int)
    requires a >= 1 && p > 0
    ensures a * p >= p
  {
    assert a * p == (a - 1) * p + p;
  }

  /** Euclidean division by a positive divisor brackets the dividend. */
  lemma DivBounds(x: int, p: int)
    requires p > 0
    ensures (x / p) * p <= x < (x / p + 1) * p
    ensures x >= 0 ==> x / p >= 0
  {
    assert x == (x / p) * p + x % p;
  }

  lemma MulNonNegative(a: nat, b: nat)
    ensures a * b >= 0
  {
  }
}
