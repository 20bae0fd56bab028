/** The three recruitment topologies (core_code/spatial_recuit.py; the step functions
    of core_code/pd_spatial_recrut.py are the same text).

    The power-law distance is a draw of its own: the floating-point weights
    1 / d^1.5 that choose it are not modelled, only the index arithmetic that
    follows the choice.
 */
module Spatial {
  import opened Marks
  import opened RandomDraws
  import opened Rules
  import opened Recruit
  import opened Engine

  /** The recruited conversion shared by the three models, given the recruiter index. */
  function RecruitedAt(s: seq<Mark>, n1: int, n2: int): (t: seq<Mark>)
    requires 0 <= n1 < |s| && 0 <= n2 < |s|
    // the target takes the mark the two-enzyme table gives it for the recruiter's
    // mark; no other site changes
    ensures t == s[n1 := Feedback(Full, s[n1], s[n2])]
  {
    if s[n2] != U then
      if s[n2] == M then
        (if s[n1] == A then s[n1 := U] else if s[n1] == U then s[n1 := M] else s)
      else if s[n2] == A then
        (if s[n1] == M then s[n1 := U] else if s[n1] == U then s[n1 := A] else s)
      else s
    else s
  }

  /** The standard model: a recruiter anywhere in the array; noise inline. */
  function Standard(s: seq<Mark>, F: real, d: Draws): (r: seq<Mark>)
    requires F >= 0.0
    requires ValidDraws(d, |s|)
    ensures r == Step(GlobalFull, s, F, Tick(d, d))
  {
    var alpha := F / (F + 1.0);
    var n1 := d.n1;
    if d.coin < alpha then RecruitedAt(s, n1, d.n2)
    else
      var r := d.r;
      if s[n1] == A && r < 1.0 / 3.0 then s[n1 := U]
      else if s[n1] == U then
        (if r < 1.0 / 3.0 then s[n1 := A] else if r < 2.0 / 3.0 then s[n1 := M] else s)
      else if s[n1] == M && r < 1.0 / 3.0 then s[n1 := U]
      else s
  }

  /** Neighbour-limited recruitment: the left neighbour when the direction coin is
      below 1/2, else the right one; noise by calling the standard model with F = 0. */
  function NeighbourLimited(s: seq<Mark>, F: real, d: Draws, again: Draws): (r: seq<Mark>)
    requires F >= 0.0
    requires ValidDraws(d, |s|) && ValidDraws(again, |s|)
    ensures r == Step(Config(Neighbour, Full, Redrawn), s, F, Tick(d, again))
  {
    var alpha := F / (F + 1.0);
    var n := |s|;
    var n1 := d.n1;
    if d.coin < alpha then
      var n2 := if d.side < 0.5 then (n1 - 1) % n else (n1 + 1) % n;
      RecruitedAt(s, n1, n2)
    else Standard(s, 0.0, again)
  }

  /** Power-law contact: a recruiter at distance d to the right when the direction
      coin is below 1/2, else to the left; noise by calling the standard model with
      F = 0. */
  function PowerLawContact(s: seq<Mark>, F: real, d: Draws, again: Draws): (r: seq<Mark>)
    requires F >= 0.0
    requires ValidDraws(d, |s|) && ValidDistance(d, |s|) && ValidDraws(again, |s|)
    ensures r == Step(Config(PowerLaw, Full, Redrawn), s, F, Tick(d, again))
  {
    var alpha := F / (F + 1.0);
    var n := |s|;
    var n1 := d.n1;
    if d.coin < alpha then
      var n2 := if d.side < 0.5 then (n1 + d.dist) % n else (n1 - d.dist) % n;
      RecruitedAt(s, n1, n2)
    else Standard(s, 0.0, again)
  }

  /** The standard model's table with its one global recruiter is the
      non-cooperative Case A table. */
  lemma StandardIsNoncoopFullFeedback(s: seq<Mark>, F: real, d: Draws, again: Draws)
    requires F >= 0.0
    requires ValidDraws(d, |s|) && ValidDraws(again, |s|)
    requires d.coin < Alpha(F)
    ensures Standard(s, F, d) == Step(Config(Global, Full, Redrawn), s, F, Tick(d, again))
  {
  }

  /** An unmodified recruiter leaves the array unchanged in all three models (the
      power-law model whenever its distance draw is in range). */
  lemma UnmodifiedRecruiterInert(s: seq<Mark>, F: real, d: Draws, again: Draws)
    requires F >= 0.0
    requires ValidDraws(d, |s|) && ValidDraws(again, |s|)
    requires d.coin < Alpha(F)
    ensures s[d.n2] == U ==> Standard(s, F, d) == s
    ensures s[NeighbourIndex(d.n1, d.side, |s|)] == U ==> NeighbourLimited(s, F, d, again) == s
    ensures ValidDistance(d, |s|) && s[PowerLawIndex(d.n1, d.dist, d.side, |s|)] == U ==>
      PowerLawContact(s, F, d, again) == s
  {
  }

  /** On the noise coin the spatial models apply the noise rule at the target of
      the nested standard(state, 0) call. */
  lemma SpatialNoiseIsStandardAtZero(s: seq<Mark>, F: real, d: Draws, again: Draws)
    requires F >= 0.0
    requires ValidDraws(d, |s|) && ValidDraws(again, |s|)
    requires d.coin >= Alpha(F)
    ensures NeighbourLimited(s, F, d, again) == s[again.n1 := Noise(s[again.n1], again.r)]
    ensures ValidDistance(d, |s|) ==>
      PowerLawContact(s, F, d, again) == s[again.n1 := Noise(s[again.n1], again.r)]
  {
  }

  /** Each model keeps the array length and changes at most one site (the
      power-law model whenever its distance draw is in range). */
  lemma SpatialTouchOneSite(s: seq<Mark>, F: real, d: Draws, again: Draws)
    requires F >= 0.0
    requires ValidDraws(d, |s|) && ValidDraws(again, |s|)
    ensures |Standard(s, F, d)| == |NeighbourLimited(s, F, d, again)| == |s|
    ensures ValidDistance(d, |s|) ==> |PowerLawContact(s, F, d, again)| == |s|
    ensures forall i | 0 <= i < |s| && i != d.n1 :: Standard(s, F, d)[i] == s[i]
    ensures forall i | 0 <= i < |s| && i != (if d.coin < Alpha(F) then d.n1 else again.n1) ::
      NeighbourLimited(s, F, d, again)[i] == s[i]
    ensures ValidDistance(d, |s|) ==>
      forall i | 0 <= i < |s| && i != (if d.coin < Alpha(F) then d.n1 else again.n1) ::
        PowerLawContact(s, F, d, again)[i] == s[i]
  {
  }
}
