/** Facts about integer multiplication and Euclidean division used across the model. */
module Arith {

  lemma MulAtLeast(d: int, m: int)
    requires d >= 1 && m > 0
    ensures d * m >= m
  {
    assert d * m - m == (d - 1) * m;
  }

  lemma MulMonotone(a: int, b: int, c: int)
    requires 0 <= a <= b && c >= 0
    ensures a * c <= b * c
  {
    assert b * c - a * c == (b - a) * c;
  }

  lemma MulSmallIsZero(d: int, m: int, e: int)
    requires m > 0 && -m < e < m && d * m == e
    ensures d == 0
  {
    if d > 0 {
      MulAtLeast(d, m);
      assert false;
    } else if d < 0 {
      MulAtLeast(-d, m);
      assert false;
    }
  }

  /** Euclidean division is determined by its quotient and remainder. */
  lemma DivModUnique(i: int, m: int, q: int, r: int)
    requires m > 0 && 0 <= r < m && i == q * m + r
    ensures i / m == q && i % m == r
  {
    var q', r' := i / m, i % m;
    assert i == q' * m + r';
    assert (q - q') * m == q * m - q' * m;
    MulSmallIsZero(q - q', m, r' - r);
  }

  /** A multiple of `m` leaves no remainder. */
  lemma MultipleMod(k: int, m: int)
    requires m > 0
    ensures (k * m) % m == 0
  {
    DivModUnique(k * m, m, k, 0);
  }
}
