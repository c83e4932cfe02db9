/**
 * Pseudo-random draws. `Math.random()` and the generator returned by
 * `seededRandom(seed)` both yield values in [0, 1); the sources scale such a value
 * and round it down to pick an index. The generators themselves (`Math.sin`
 * arithmetic, the browser's entropy) are not modelled: a generator is the
 * sequence of values it returns, draw 0 first.
 */
module Randomness {

  /** The values a generator returns, in call order. */
  type Draws = nat -> real

  /** Every draw lies in [0, 1). */
  ghost predicate UnitDraws(draws: Draws) {
    forall k :: 0.0 <= draws(k) < 1.0
  }

  /** `Math.floor(r * n)` for a draw `r`: always an index below `n`. */
  function ScaledIndex(r: real, n: nat): (j: nat)
    requires 0.0 <= r < 1.0 && n >= 1
    ensures j < n
    ensures j as real <= r * n as real < j as real + 1.0
  {
    var x := r * n as real;
    assert n as real - x == (1.0 - r) * n as real > 0.0;
    x.Floor
  }
}
