/** Stride-N sampling: the scripts' `for i in range(Tmax): ...; if i % N == 0: sample`
    keeps the states at positions 0, N, 2N, ... of the post-equilibration trajectory.
 */
module Stride {
  import opened Arith

  /** ceil(t / n): how many of the positions 0 .. t - 1 are multiples of n. */
  function SampleCount(t: nat, n: nat): nat
    requires n > 0
  {
    (t + n - 1) / n
  }

  /** Appending position k adds one sample exactly when k is a multiple of n, and
      that sample is the (k / n)-th. */
  lemma CeilStep(k: nat, n: nat)
    requires n > 0
    ensures SampleCount(k + 1, n) == SampleCount(k, n) + (if k % n == 0 then 1 else 0)
    ensures k % n == 0 ==> SampleCount(k, n) * n == k
  {
    var q, r := k / n, k % n;
    DivUnique(k, n, q, r);
    DivUnique(k + n, n, q + 1, r);
    if r == 0 {
      DivUnique(k + n - 1, n, q, n - 1);
    } else {
      DivUnique(k + n - 1, n, q + 1, r - 1);
    }
  }

  /** The elements of `xs` at the positions that are multiples of n. */
  function Strided<X>(xs: seq<X>, n: nat): (ys: seq<X>)
    requires n > 0
    // one sample per multiple of n below |xs|: ceil(|xs| / n) of them
    ensures |ys| == SampleCount(|xs|, n)
    ensures forall j | 0 <= j < |ys| :: j * n < |xs| && ys[j] == xs[j * n]
  {
    if |xs| == 0 then []
    else
      var k := |xs| - 1;
      CeilStep(k, n);
      if k % n == 0 then Strided(xs[..k], n) + [xs[k]] else Strided(xs[..k], n)
  }
}
