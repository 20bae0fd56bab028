/** Integer arithmetic facts the index and sampling computations rest on. */
module Arith {

  lemma MulAwayFromZero(d: int, n: int)
    requires n > 0
    ensures d >= 1 ==> d * n >= n
    ensures d <= -1 ==> d * n <= -n
  {
  }

  /** Euclidean division is determined by any quotient/remainder pair. */
  lemma DivUnique(x: int, n: int, q: int, r: int)
    requires n > 0
    requires x == q * n + r
    requires 0 <= r < n
    ensures x / n == q && x % n == r
  {
    var q', r' := x / n, x % n;
    assert x == q' * n + r';
    assert (q - q') * n == r' - r;
    MulAwayFromZero(q - q', n);
  }

  /** One more copy of c adds c. */
  lemma MulSucc(k: nat, c: nat)
    ensures (k + 1) * c == k * c + c
  {
  }
}
