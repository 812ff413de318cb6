/**
 * The collection arithmetic the bridge leans on (`sumOf`, `average`,
 * `maxOf`, `minOf` over a list of doubles), on exact reals.
 */
module RealStats {
  /** `sum()`, added from the front. */
  function Sum(xs: seq<real>): real {
    if xs == [] then 0.0 else xs[0] + Sum(xs[1..])
  }

  /**
   * `average()`. The source's average of an empty list is NaN; here it is
   * 0. Callers reach that case only through a pack configured with 0 cells.
   */
  function Average(xs: seq<real>): real {
    if xs == [] then 0.0 else Sum(xs) / |xs| as real
  }

  /** Every element lies in [lo, hi]. */
  predicate AllWithin(xs: seq<real>, lo: real, hi: real) {
    forall i :: 0 <= i < |xs| ==> lo <= xs[i] <= hi
  }

  lemma {:induction false} SumWithin(xs: seq<real>, lo: real, hi: real)
    requires AllWithin(xs, lo, hi)
    ensures |xs| as real * lo <= Sum(xs) <= |xs| as real * hi
    decreases |xs|
  {
    if xs != [] {
      assert AllWithin(xs[1..], lo, hi) by {
        forall i | 0 <= i < |xs| - 1 ensures lo <= xs[1..][i] <= hi {
          assert xs[1..][i] == xs[i + 1];
        }
      }
      SumWithin(xs[1..], lo, hi);
    }
  }

  /** The average of values in [lo, hi] lies in [lo, hi]. */
  lemma AverageWithin(xs: seq<real>, lo: real, hi: real)
    requires xs != [] && AllWithin(xs, lo, hi)
    ensures lo <= Average(xs) <= hi
  {
    SumWithin(xs, lo, hi);
    var n := |xs| as real;
    var a := Sum(xs) / n;
    assert a * n == Sum(xs);
    if a < lo {
      assert a * n < lo * n;
    }
    if a > hi {
      assert a * n > hi * n;
    }
  }

  /** `maxOf`: the largest element. */
  function MaxOf(xs: seq<real>): (m: real)
    requires xs != []
    ensures m in xs && forall i :: 0 <= i < |xs| ==> xs[i] <= m
  {
    if |xs| == 1 then xs[0]
    else
      var rest := MaxOf(xs[1..]);
      if xs[0] >= rest then xs[0] else rest
  }

  /** `minOf`: the smallest element. */
  function MinOf(xs: seq<real>): (m: real)
    requires xs != []
    ensures m in xs && forall i :: 0 <= i < |xs| ==> m <= xs[i]
  {
    if |xs| == 1 then xs[0]
    else
      var rest := MinOf(xs[1..]);
      if xs[0] <= rest then xs[0] else rest
  }
}
