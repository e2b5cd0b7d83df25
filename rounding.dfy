/** Integer arithmetic behind `Math.round` of a ratio and the `reduce` sums. */
module Rounding {

  /**
   * `Math.round(a / b)` for non-negative `a` and positive `b`: the nearest
   * integer to a/b, with halves rounded up.
   */
  function Round(a: nat, b: nat): (r: nat)
    requires b > 0
    ensures 2 * b * r <= 2 * a + b < 2 * b * r + 2 * b
  {
    DivBounds(2 * a + b, 2 * b);
    (2 * a + b) / (2 * b)
  }

  lemma DivBounds(x: nat, y: nat)
    requires y > 0
    ensures y * (x / y) <= x < y * (x / y) + y
  {
  }

  lemma MulStrict(b: nat, x: int, y: int)
    requires b > 0 && b * x < b * y
    ensures x < y
  {
  }

  /** A rounded ratio stays between any bounds the ratio itself obeys. */
  lemma {:induction false} RoundBetween(a: nat, b: nat, lo: nat, hi: nat)
    requires b > 0
    requires b * lo <= a <= b * hi
    ensures lo <= Round(a, b) <= hi
  {
    var r := Round(a, b);
    assert 2 * b * lo < 2 * b * r + 2 * b by {
      assert 2 * b * lo <= 2 * a;
    }
    assert 2 * b * lo < 2 * b * (r + 1);
    MulStrict(2 * b, lo, r + 1);
    assert 2 * b * r < 2 * b * (hi + 1) by {
      assert 2 * a + b <= 2 * b * hi + b;
    }
    MulStrict(2 * b, r, hi + 1);
  }

  /** Rounding an exact quotient gives that quotient back. */
  lemma {:induction false} RoundExact(q: nat, b: nat)
    requires b > 0
    ensures Round(b * q, b) == q
  {
    RoundBetween(b * q, b, q, q);
  }

  /** The sum of a sequence of naturals. */
  function Sum(s: seq<nat>): nat
  {
    if s == [] then 0 else s[0] + Sum(s[1..])
  }

  /** A sum of values within [lo, hi] lies within [n * lo, n * hi]. */
  lemma {:induction false} SumBounds(s: seq<nat>, lo: nat, hi: nat)
    requires forall i :: 0 <= i < |s| ==> lo <= s[i] <= hi
    ensures |s| * lo <= Sum(s) <= |s| * hi
  {
    if s != [] {
      SumBounds(s[1..], lo, hi);
      assert |s| * lo == lo + (|s| - 1) * lo;
      assert |s| * hi == hi + (|s| - 1) * hi;
    }
  }
}
