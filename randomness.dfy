/**
 * The game's calls to `Math.random()` as explicit inputs.  A draw `u` stands
 * for the number `u / RAND_SCALE` in `[0, 1)`; a run of the game sees a stream
 * of draws `random: nat -> Draw` and keeps a cursor into it.  With this
 * reading, `Math.floor(Math.random() * n)` is `u * n / RAND_SCALE` and a
 * threshold test `Math.random() > a / b` is `b * u > a * RAND_SCALE`, both in
 * exact integer arithmetic.
 */
module Randomness {

  /** The resolution of a draw: 2^53 distinct values. */
  const RAND_SCALE: nat := 0x20_0000_0000_0000

  type Draw = u: nat | u < RAND_SCALE

  /** `Math.floor(Math.random() * n)`: an index below `n`. */
  function Below(u: Draw, n: nat): (r: nat)
    requires n > 0
    ensures r < n
  {
    u * n / RAND_SCALE
  }

  /** `u * n / RAND_SCALE` is the floor of `(u / RAND_SCALE) * n`, so it lies in `[0, n)`. */
  lemma BelowIsFloor(u: Draw, n: nat)
    requires n > 0
    ensures var r := u * n / RAND_SCALE;
      r * RAND_SCALE <= u * n < (r + 1) * RAND_SCALE && r < n
  {
    var r := u * n / RAND_SCALE;
    assert u * n < RAND_SCALE * n by {
      assert u < RAND_SCALE;
    }
  }
}
