/**
 * `Math.random()` is injected: every draw is a real in [0, 1) supplied by the
 * caller, and `Math.floor(Math.random() * n)` picks an index below n.
 */
module Random {
  /** `Math.floor(r * n)` for an injected `Math.random()` value r in [0, 1). */
  function RandomIndex(r: real, n: nat): (j: int)
    requires 0.0 <= r < 1.0 && n > 0
    ensures 0 <= j < n
  {
    assert r * (n as real) < n as real by { LessThanN(r, n as real); }
    (r * (n as real)).Floor
  }

  lemma LessThanN(r: real, n: real)
    requires 0.0 <= r < 1.0 && n > 0.0
    ensures 0.0 <= r * n < n
  {
    assert (1.0 - r) * n > 0.0;
  }
}
