/** Finite sums of integer sequences, and ranges of indices as sets. */
module Sums {
  function Sum(xs: seq<int>): int {
    if |xs| == 0 then 0 else Sum(xs[..|xs| - 1]) + xs[|xs| - 1]
  }

  /** The indices `lo`, ..., `lo + n - 1`. */
  function Interval(lo: nat, n: nat): (r: set<nat>)
    ensures |r| == n
    ensures forall w: nat :: w in r <==> lo <= w < lo + n
  {
    if n == 0 then {} else Interval(lo, n - 1) + {lo + n - 1}
  }

  lemma {:induction false} SumUpdate(xs: seq<int>, i: nat, v: int)
    requires i < |xs|
    ensures Sum(xs[i := v]) == Sum(xs) - xs[i] + v
  {
    var n := |xs| - 1;
    if i == n {
      assert xs[i := v][..n] == xs[..n];
    } else {
      assert xs[i := v][..n] == xs[..n][i := v];
      SumUpdate(xs[..n], i, v);
    }
  }

  lemma {:induction false} SumConcat(xs: seq<int>, ys: seq<int>)
    ensures Sum(xs + ys) == Sum(xs) + Sum(ys)
  {
    if |ys| == 0 {
      assert xs + ys == xs;
    } else {
      var n := |ys| - 1;
      assert (xs + ys)[..|xs| + n] == xs + ys[..n];
      SumConcat(xs, ys[..n]);
    }
  }

  /** Pointwise bounds add up. */
  lemma {:induction false} SumBetween(xs: seq<int>, lo: int, hi: int)
    requires forall i :: 0 <= i < |xs| ==> lo <= xs[i] <= hi
    ensures |xs| * lo <= Sum(xs) <= |xs| * hi
  {
    if |xs| > 0 {
      var n := |xs| - 1;
      SumBetween(xs[..n], lo, hi);
      assert (n + 1) * lo == n * lo + lo && (n + 1) * hi == n * hi + hi;
    } else {
      assert 0 * lo == 0 && 0 * hi == 0;
    }
  }

  /** Growing every term by at most `d` grows the sum by at most `d` per term. */
  lemma {:induction false} SumShift(xs: seq<int>, ys: seq<int>, d: nat)
    requires |xs| == |ys|
    requires forall i :: 0 <= i < |xs| ==> ys[i] <= xs[i] + d
    ensures Sum(ys) <= Sum(xs) + |xs| * d
  {
    if |xs| > 0 {
      var n := |xs| - 1;
      SumShift(xs[..n], ys[..n], d);
      assert (n + 1) * d == n * d + d;
    } else {
      assert 0 * d == 0;
    }
  }

  lemma {:induction false} SumOneTerm(xs: seq<int>, i: nat)
    requires i < |xs|
    requires forall k :: 0 <= k < |xs| ==> 0 <= xs[k]
    ensures xs[i] <= Sum(xs)
  {
    SumUpdate(xs, i, 0);
    SumBetween0(xs[i := 0]);
  }

  lemma {:induction false} SumBetween0(xs: seq<int>)
    requires forall k :: 0 <= k < |xs| ==> 0 <= xs[k]
    ensures 0 <= Sum(xs)
  {
    if |xs| == 0 {
    } else {
      SumBetween0(xs[..|xs| - 1]);
    }
  }

  /** A sum of non-negative terms is zero exactly when every term is. */
  lemma {:induction false} SumZero(xs: seq<int>)
    requires forall k :: 0 <= k < |xs| ==> 0 <= xs[k]
    ensures Sum(xs) == 0 <==> forall k :: 0 <= k < |xs| ==> xs[k] == 0
  {
    SumBetween0(xs);
    if forall k :: 0 <= k < |xs| ==> xs[k] == 0 {
      SumBetween(xs, 0, 0);
    } else {
      var k :| 0 <= k < |xs| && xs[k] != 0;
      SumOneTerm(xs, k);
    }
  }
}
