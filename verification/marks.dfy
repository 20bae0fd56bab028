/** Site marks of the nucleosome array and the counts every collector reads.

    The scripts store a mark as a small integer code (A = 0, U = 1, M = 2) in a
    numpy array; here a mark is a three-valued datatype and the array is an
    immutable sequence of marks.
 */
module Marks {

  /** Acetylated, Unmodified or Methylated. */
  datatype Mark = A | U | M

  datatype Option<T> = None | Some(value: T)

  /** The integer code the scripts use for a mark. */
  function Code(x: Mark): (c: nat)
    ensures c < 3
  {
    match x
    case A => 0
    case U => 1
    case M => 2
  }

  /** Decodes an integer code; codes other than 0, 1, 2 are not marks. */
  function FromCode(c: int): (r: Option<Mark>)
    ensures r.Some? <==> 0 <= c < 3
    ensures r.Some? ==> Code(r.value) == c
  {
    if c == 0 then Some(A)
    else if c == 1 then Some(U)
    else if c == 2 then Some(M)
    else None
  }

  lemma CodeRoundTrip(x: Mark)
    ensures FromCode(Code(x)) == Some(x)
  {
  }

  /** Distinct marks have distinct codes. */
  lemma CodeInjective(x: Mark, y: Mark)
    ensures Code(x) == Code(y) ==> x == y
  {
    CodeRoundTrip(x);
    CodeRoundTrip(y);
  }

  /** Number of sites of `s` carrying mark `m` (the scripts' `np.sum(state == m)`). */
  function CountOf(s: seq<Mark>, m: Mark): (c: nat)
    ensures c <= |s|
  {
    if |s| == 0 then 0
    else CountOf(s[..|s| - 1], m) + (if s[|s| - 1] == m then 1 else 0)
  }

  /** The count of a mark is its multiplicity among the sites. */
  lemma {:induction false} CountIsMultiplicity(s: seq<Mark>, m: Mark)
    ensures CountOf(s, m) == multiset(s)[m]
  {
    if |s| > 0 {
      var k := |s| - 1;
      assert s == s[..k] + [s[k]];
      CountIsMultiplicity(s[..k], m);
    }
  }

  /** Every site carries exactly one of the three marks. */
  lemma {:induction false} CountsPartition(s: seq<Mark>)
    ensures CountOf(s, A) + CountOf(s, U) + CountOf(s, M) == |s|
  {
    if |s| > 0 {
      CountsPartition(s[..|s| - 1]);
    }
  }

  /** Writing `x` at index `i` moves one site from the count of `s[i]` to that of `x`. */
  lemma {:induction false} CountOfUpdate(s: seq<Mark>, i: int, x: Mark, m: Mark)
    requires 0 <= i < |s|
    ensures CountOf(s[i := x], m)
            == CountOf(s, m) - (if s[i] == m then 1 else 0) + (if x == m then 1 else 0)
  {
    var t := s[i := x];
    var k := |s| - 1;
    if i == k {
      assert t[..k] == s[..k];
    } else {
      assert t[..k] == s[..k][i := x];
      CountOfUpdate(s[..k], i, x, m);
    }
  }

  /** Position of a mark on the A - U - M axis: the signed contribution to M - A. */
  function Pos(x: Mark): int
  {
    match x
    case A => -1
    case U => 0
    case M => 1
  }

  /** M - A, the quantity every collector samples. */
  function Balance(s: seq<Mark>): int
  {
    CountOf(s, M) - CountOf(s, A)
  }

  /** The balance is bounded by the array length. */
  lemma BalanceBounds(s: seq<Mark>)
    ensures -|s| <= Balance(s) <= |s|
    ensures CountOf(s, M) + CountOf(s, A) <= |s|
  {
    CountsPartition(s);
  }

  /** Changing one site changes the balance by the change of that site's position. */
  lemma BalanceUpdate(s: seq<Mark>, i: int, x: Mark)
    requires 0 <= i < |s|
    ensures Balance(s[i := x]) == Balance(s) - Pos(s[i]) + Pos(x)
  {
    CountOfUpdate(s, i, x, M);
    CountOfUpdate(s, i, x, A);
  }
}
