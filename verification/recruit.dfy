/** Recruiter selection: which site(s) the target consults on a feedback tick,
    and the recruiter verdict that the feedback table reacts to.
 */
module Recruit {
  import opened Marks
  import opened RandomDraws
  import opened Arith

  /** Global single recruiter, global two-recruiter consensus, nearest neighbour,
      or power-law contact. */
  datatype Mode = Global | GlobalCoop | Neighbour | PowerLaw

  /** Python's `%` with a positive modulus agrees with Dafny's on the one-wrap range
      the recruiter indices stay in. */
  lemma WrapOnce(x: int, n: int)
    requires n > 0
    requires -n <= x < 2 * n
    ensures x % n == (if x < 0 then x + n else if x < n then x else x - n)
  {
    if x < 0 {
      DivUnique(x, n, -1, x + n);
    } else if x < n {
      DivUnique(x, n, 0, x);
    } else {
      DivUnique(x, n, 1, x - n);
    }
  }

  /** The nearest-neighbour recruiter: left when the direction coin is below 1/2,
      right otherwise, wrapping around the circular array. */
  function NeighbourIndex(n1: int, side: real, n: nat): (k: int)
    requires 0 <= n1 < n
    ensures 0 <= k < n
    // a circular neighbour of the target
    ensures (k + 1) % n == n1 || (n1 + 1) % n == k
    ensures n >= 2 ==> k != n1
  {
    WrapOnce(n1 - 1, n);
    WrapOnce(n1 + 1, n);
    if side < 0.5 then
      WrapOnce(n1, n);
      (n1 - 1) % n
    else (n1 + 1) % n
  }

  /** The power-law recruiter at distance `dist`: right when the direction coin is
      below 1/2, left otherwise, wrapping around the circular array. */
  function PowerLawIndex(n1: int, dist: int, side: real, n: nat): (k: int)
    requires 0 <= n1 < n
    requires 1 <= dist <= n - 1
    ensures 0 <= k < n
    // at circular distance `dist` from the target, on one side or the other
    ensures (n1 + dist) % n == k || (k + dist) % n == n1
    ensures k != n1
  {
    WrapOnce(n1 + dist, n);
    WrapOnce(n1 - dist, n);
    var right := (n1 + dist) % n;
    var left := (n1 - dist) % n;
    WrapOnce(left + dist, n);
    if side < 0.5 then right else left
  }

  predicate DrawsFit(mode: Mode, d: Draws, n: nat)
  {
    ValidDraws(d, n) && (mode == PowerLaw ==> ValidDistance(d, n))
  }

  /** The site the single-recruiter modes consult. */
  function RecruiterIndex(mode: Mode, d: Draws, n: nat): (k: int)
    requires DrawsFit(mode, d, n)
    ensures 0 <= k < n
  {
    match mode
    case Global => d.n2
    case GlobalCoop => d.n2
    case Neighbour => NeighbourIndex(d.n1, d.side, n)
    case PowerLaw => PowerLawIndex(d.n1, d.dist, d.side, n)
  }

  /** The sites the target consults: n2 and n3 for the cooperative mode, the one
      recruiter index otherwise. */
  function Recruiters(mode: Mode, d: Draws, n: nat): (ks: seq<int>)
    requires DrawsFit(mode, d, n)
    ensures |ks| == (if mode == GlobalCoop then 2 else 1)
    ensures forall i | 0 <= i < |ks| :: 0 <= ks[i] < n
  {
    if mode == GlobalCoop then [d.n2, d.n3] else [RecruiterIndex(mode, d, n)]
  }

  /** The recruiter verdict: the A or M mark the recruiter(s) carry, or None when
      the recruiter is unmodified or the two cooperative recruiters disagree. */
  function Verdict(mode: Mode, s: seq<Mark>, d: Draws): (v: Option<Mark>)
    requires DrawsFit(mode, d, |s|)
    ensures v.Some? ==> v.value != U
    // a verdict exactly when every consulted site carries one and the same non-U
    // mark, and the verdict is that mark
    ensures var ks := Recruiters(mode, d, |s|);
      (v.Some? <==> s[ks[0]] != U && forall i | 0 <= i < |ks| :: s[ks[i]] == s[ks[0]])
      && (v.Some? ==> forall i | 0 <= i < |ks| :: s[ks[i]] == v.value)
  {
    if mode == GlobalCoop then
      var ks := Recruiters(mode, d, |s|);
      assert (forall i | 0 <= i < |ks| :: s[ks[i]] == s[ks[0]]) <==> s[d.n3] == s[d.n2] by {
        assert ks[0] == d.n2 && ks[1] == d.n3;
      }
      (if s[d.n2] == s[d.n3] && s[d.n2] != U then Some(s[d.n2]) else None)
    else
      var k := RecruiterIndex(mode, d, |s|);
      if s[k] != U then Some(s[k]) else None
  }

  /** The verdict depends only on the marks of the consulted sites. */
  lemma VerdictIsLocal(mode: Mode, s: seq<Mark>, t: seq<Mark>, d: Draws)
    requires |s| == |t| && DrawsFit(mode, d, |s|)
    requires forall i | 0 <= i < |Recruiters(mode, d, |s|)| ::
      s[Recruiters(mode, d, |s|)[i]] == t[Recruiters(mode, d, |s|)[i]]
    ensures Verdict(mode, s, d) == Verdict(mode, t, d)
  {
    var ks := Recruiters(mode, d, |s|);
    assert s[ks[0]] == t[ks[0]];
    if mode == GlobalCoop {
      assert s[ks[1]] == t[ks[1]];
    }
  }

  /** Cooperative consensus is stricter than a single recruiter: whenever the two
      recruiters agree, the single-recruiter rule on n2 reaches the same verdict. */
  lemma ConsensusAgreesWithSingle(s: seq<Mark>, d: Draws)
    requires ValidDraws(d, |s|)
    ensures Verdict(GlobalCoop, s, d).Some? ==> Verdict(Global, s, d) == Verdict(GlobalCoop, s, d)
  {
  }

  /** The cooperative consensus with both draws on the same site is the
      single global recruiter. */
  lemma CoopWithEqualDrawsIsGlobal(s: seq<Mark>, d: Draws)
    requires ValidDraws(d, |s|)
    requires d.n3 == d.n2
    ensures Verdict(GlobalCoop, s, d) == Verdict(Global, s, d)
  {
  }
}
