/** Sums and means of real sequences, as the collectors use them (`np.mean`, `y.sum()`). */
module Sums {

  function Sum(xs: seq<real>): real
  {
    if |xs| == 0 then 0.0 else Sum(xs[..|xs| - 1]) + xs[|xs| - 1]
  }

  lemma {:induction false} SumAppend(xs: seq<real>, ys: seq<real>)
    ensures Sum(xs + ys) == Sum(xs) + Sum(ys)
    decreases |ys|
  {
    if |ys| == 0 {
      assert xs + ys == xs;
    } else {
      var k := |ys| - 1;
      assert (xs + ys)[..|xs + ys| - 1] == xs + ys[..k];
      SumAppend(xs, ys[..k]);
    }
  }

  /** A sum of terms in [lo, hi] lies between |xs| * lo and |xs| * hi. */
  lemma {:induction false} SumBounds(xs: seq<real>, lo: real, hi: real)
    requires forall i | 0 <= i < |xs| :: lo <= xs[i] <= hi
    ensures |xs| as real * lo <= Sum(xs) <= |xs| as real * hi
  {
    if |xs| > 0 {
      SumBounds(xs[..|xs| - 1], lo, hi);
    }
  }

  lemma {:induction false} SumNonNegative(xs: seq<real>)
    requires forall i | 0 <= i < |xs| :: 0.0 <= xs[i]
    ensures Sum(xs) >= 0.0
  {
    if |xs| > 0 {
      SumNonNegative(xs[..|xs| - 1]);
    }
  }

  /** A sum of non-negative terms is positive as soon as one term is. */
  lemma {:induction false} SumPositive(xs: seq<real>, j: int)
    requires forall i | 0 <= i < |xs| :: 0.0 <= xs[i]
    requires 0 <= j < |xs| && xs[j] > 0.0
    ensures Sum(xs) > 0.0
  {
    var k := |xs| - 1;
    if j < k {
      SumPositive(xs[..k], j);
    } else {
      SumNonNegative(xs[..k]);
    }
  }

  /** Dividing every term by c divides the sum by c. */
  lemma {:induction false} SumScale(xs: seq<real>, c: real)
    requires c != 0.0
    ensures Sum(seq(|xs|, i requires 0 <= i < |xs| => xs[i] / c)) == Sum(xs) / c
  {
    var ys := seq(|xs|, i requires 0 <= i < |xs| => xs[i] / c);
    if |xs| > 0 {
      var k := |xs| - 1;
      assert ys[..k] == seq(k, i requires 0 <= i < k => xs[..k][i] / c);
      SumScale(xs[..k], c);
    }
  }

  function Mean(xs: seq<real>): (mean: real)
    requires |xs| > 0
    // the value that, taken |xs| times, gives the sum
    ensures |xs| as real * mean == Sum(xs)
  {
    var n := |xs| as real;
    var q := Sum(xs) / n;
    assert q * n == Sum(xs);
    q
  }

  /** The mean of values in [0, 1] lies in [0, 1]. */
  lemma MeanUnit(xs: seq<real>)
    requires |xs| > 0
    requires forall i | 0 <= i < |xs| :: 0.0 <= xs[i] <= 1.0
    ensures 0.0 <= Mean(xs) <= 1.0
  {
    SumBounds(xs, 0.0, 1.0);
  }

  /** The mean of a constant sequence is that constant. */
  lemma MeanConstant(xs: seq<real>, c: real)
    requires |xs| > 0
    requires forall i | 0 <= i < |xs| :: xs[i] == c
    ensures Mean(xs) == c
  {
    SumBounds(xs, c, c);
    var n := |xs| as real;
    assert Sum(xs) == n * c;
  }
}
