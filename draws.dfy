/** Random draws. Every call of `Math.random()` in the game is replaced by a
    parameter `u` with `0 <= u < 1`, the value that call returned. */
module Draws {
  predicate IsDraw(u: real) { 0.0 <= u < 1.0 }

  /** Phaser's `Math.Between(min, max)`: `floor(u * (max - min + 1) + min)`,
      an integer chosen uniformly from the closed range. */
  function Between(min: int, max: int, u: real): (r: int)
    requires min <= max && IsDraw(u)
    ensures min <= r <= max
  {
    var n := (max - min + 1) as real;
    assert 0.0 <= u * n < n by {
      assert 0.0 < (1.0 - u) * n;
    }
    (u * n + min as real).Floor
  }

  /** Every value of the range is drawn by some `u`: the draw is onto. */
  lemma BetweenOnto(min: int, max: int, k: int)
    requires min <= k <= max
    ensures exists u :: IsDraw(u) && Between(min, max, u) == k
  {
    var n := (max - min + 1) as real;
    var u := (k - min) as real / n;
    assert u * n == (k - min) as real;
    assert u < 1.0 by {
      assert (k - min) as real < n;
    }
    assert (u * n + min as real) == k as real;
    assert Between(min, max, u) == k;
  }
}
