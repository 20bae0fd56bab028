/** The six step functions of the cooperative / non-cooperative comparison
    (core_code/coop_noncoop.py; core_code/pd_coop_noncoop.py repeats them verbatim).

    Each is written as the script writes it, with its own guards, and its contract
    states that it is an instance of the unified engine.
 */
module CoopNoncoop {
  import opened Marks
  import opened RandomDraws
  import opened Rules
  import opened Recruit
  import opened Engine

  /** The noise branch written inline by the cooperative step functions. */
  function NoiseInline(s: seq<Mark>, n1: int, r: real): (t: seq<Mark>)
    requires 0 <= n1 < |s|
    // the target takes the mark the noise rule gives it; no other site changes
    ensures t == s[n1 := Noise(s[n1], r)]
  {
    if s[n1] == A && r < 1.0 / 3.0 then s[n1 := U]
    else if s[n1] == U then
      (if r < 1.0 / 3.0 then s[n1 := A] else if r < 2.0 / 3.0 then s[n1 := M] else s)
    else if s[n1] == M && r < 1.0 / 3.0 then s[n1 := U]
    else s
  }

  /** Case A, cooperative: two recruiters must agree on a non-U mark. */
  function StepCoopA(s: seq<Mark>, F: real, d: Draws): (r: seq<Mark>)
    requires F >= 0.0
    requires ValidDraws(d, |s|)
    ensures r == Step(Config(GlobalCoop, Full, SameDraws), s, F, Tick(d, d))
  {
    var alpha := F / (F + 1.0);
    var n1 := d.n1;
    if d.coin < alpha then
      var n2 := d.n2;
      var n3 := d.n3;
      if s[n2] == s[n3] && s[n2] != U then
        if s[n2] == M then
          (if s[n1] == A then s[n1 := U] else if s[n1] == U then s[n1 := M] else s)
        else if s[n2] == A then
          (if s[n1] == M then s[n1 := U] else if s[n1] == U then s[n1 := A] else s)
        else s
      else s
    else NoiseInline(s, n1, d.r)
  }

  /** Case A, non-cooperative: one recruiter; noise by calling the cooperative step
      with F = 0, which draws its own target, coin and noise real (`again`). */
  function StepNoncoopA(s: seq<Mark>, F: real, d: Draws, again: Draws): (r: seq<Mark>)
    requires F >= 0.0
    requires ValidDraws(d, |s|) && ValidDraws(again, |s|)
    ensures r == Step(Config(Global, Full, Redrawn), s, F, Tick(d, again))
  {
    var alpha := F / (F + 1.0);
    var n1 := d.n1;
    if d.coin < alpha then
      var n2 := d.n2;
      if s[n2] != U then
        if s[n2] == M then
          (if s[n1] == A then s[n1 := U] else if s[n1] == U then s[n1 := M] else s)
        else if s[n2] == A then
          (if s[n1] == M then s[n1 := U] else if s[n1] == U then s[n1 := A] else s)
        else s
      else s
    else StepCoopA(s, 0.0, again)
  }

  /** Case B, cooperative: only the modifying enzyme is recruited. */
  function StepCoopB(s: seq<Mark>, F: real, d: Draws): (r: seq<Mark>)
    requires F >= 0.0
    requires ValidDraws(d, |s|)
    ensures r == Step(Config(GlobalCoop, ModifyOnly, SameDraws), s, F, Tick(d, d))
  {
    var alpha := F / (F + 1.0);
    var n1 := d.n1;
    if d.coin < alpha then
      var n2 := d.n2;
      var n3 := d.n3;
      if s[n2] == s[n3] && s[n2] != U then
        if s[n2] == M && s[n1] == U then s[n1 := M]
        else if s[n2] == A && s[n1] == U then s[n1 := A]
        else s
      else s
    else NoiseInline(s, n1, d.r)
  }

  /** Case B, non-cooperative. */
  function StepNoncoopB(s: seq<Mark>, F: real, d: Draws, again: Draws): (r: seq<Mark>)
    requires F >= 0.0
    requires ValidDraws(d, |s|) && ValidDraws(again, |s|)
    ensures r == Step(Config(Global, ModifyOnly, Redrawn), s, F, Tick(d, again))
  {
    var alpha := F / (F + 1.0);
    var n1 := d.n1;
    if d.coin < alpha then
      var n2 := d.n2;
      if s[n2] != U then
        if s[n2] == M && s[n1] == U then s[n1 := M]
        else if s[n2] == A && s[n1] == U then s[n1 := A]
        else s
      else s
    else StepCoopB(s, 0.0, again)
  }

  /** Case C, cooperative: only the demodifying enzyme is recruited. The script
      checks only that the two recruiters agree, not that they are non-U. */
  function StepCoopC(s: seq<Mark>, F: real, d: Draws): (r: seq<Mark>)
    requires F >= 0.0
    requires ValidDraws(d, |s|)
    ensures r == Step(Config(GlobalCoop, DemodifyOnly, SameDraws), s, F, Tick(d, d))
  {
    var alpha := F / (F + 1.0);
    var n1 := d.n1;
    if d.coin < alpha then
      var n2 := d.n2;
      var n3 := d.n3;
      if s[n2] == s[n3] then
        if s[n2] == M && s[n1] == A then s[n1 := U]
        else if s[n2] == A && s[n1] == M then s[n1 := U]
        else s
      else s
    else NoiseInline(s, n1, d.r)
  }

  /** Case C, non-cooperative (also without an explicit non-U check). */
  function StepNoncoopC(s: seq<Mark>, F: real, d: Draws, again: Draws): (r: seq<Mark>)
    requires F >= 0.0
    requires ValidDraws(d, |s|) && ValidDraws(again, |s|)
    ensures r == Step(Config(Global, DemodifyOnly, Redrawn), s, F, Tick(d, again))
  {
    var alpha := F / (F + 1.0);
    var n1 := d.n1;
    if d.coin < alpha then
      var n2 := d.n2;
      if s[n2] == M && s[n1] == A then s[n1 := U]
      else if s[n2] == A && s[n1] == M then s[n1 := U]
      else s
    else StepCoopC(s, 0.0, again)
  }

  /** Cooperative Case C with the non-U check the other cases carry. */
  function StepCoopCGuarded(s: seq<Mark>, F: real, d: Draws): (r: seq<Mark>)
    requires F >= 0.0
    requires ValidDraws(d, |s|)
  {
    var alpha := F / (F + 1.0);
    var n1 := d.n1;
    if d.coin < alpha then
      var n2 := d.n2;
      var n3 := d.n3;
      if s[n2] == s[n3] && s[n2] != U then
        if s[n2] == M && s[n1] == A then s[n1 := U]
        else if s[n2] == A && s[n1] == M then s[n1 := U]
        else s
      else s
    else NoiseInline(s, n1, d.r)
  }

  /** The missing non-U check in cooperative Case C makes no difference: an
      agreeing pair of U recruiters matches neither demodification branch. */
  lemma CoopCGuardRedundant(s: seq<Mark>, F: real, d: Draws)
    requires F >= 0.0
    requires ValidDraws(d, |s|)
    ensures StepCoopC(s, F, d) == StepCoopCGuarded(s, F, d)
  {
  }

  /** Called with F = 0, every cooperative step applies the noise rule at its own
      target: this is what the non-cooperative noise branch relies on. */
  lemma CoopAtZeroIsNoise(s: seq<Mark>, d: Draws)
    requires ValidDraws(d, |s|)
    ensures StepCoopA(s, 0.0, d) == s[d.n1 := Noise(s[d.n1], d.r)]
    ensures StepCoopB(s, 0.0, d) == s[d.n1 := Noise(s[d.n1], d.r)]
    ensures StepCoopC(s, 0.0, d) == s[d.n1 := Noise(s[d.n1], d.r)]
  {
  }

  /** On the noise coin the non-cooperative steps change the redrawn target, not
      the first target: the two are independent draws. */
  lemma NoncoopNoiseUsesRedraw(s: seq<Mark>, F: real, d: Draws, again: Draws)
    requires F >= 0.0
    requires ValidDraws(d, |s|) && ValidDraws(again, |s|)
    requires d.coin >= Alpha(F)
    ensures StepNoncoopA(s, F, d, again) == s[again.n1 := Noise(s[again.n1], again.r)]
    ensures StepNoncoopB(s, F, d, again) == s[again.n1 := Noise(s[again.n1], again.r)]
    ensures StepNoncoopC(s, F, d, again) == s[again.n1 := Noise(s[again.n1], again.r)]
  {
  }

  /** On the feedback coin each non-cooperative step is the cooperative one with
      the second recruiter drawn equal to the first. */
  lemma NoncoopIsCoopWithOneRecruiter(s: seq<Mark>, F: real, d: Draws, again: Draws)
    requires F >= 0.0
    requires ValidDraws(d, |s|) && ValidDraws(again, |s|)
    requires d.coin < Alpha(F)
    requires d.n3 == d.n2
    ensures StepNoncoopA(s, F, d, again) == StepCoopA(s, F, d)
    ensures StepNoncoopB(s, F, d, again) == StepCoopB(s, F, d)
    ensures StepNoncoopC(s, F, d, again) == StepCoopC(s, F, d)
  {
    CoopWithEqualDrawsIsGlobal(s, d);
  }

  /** Every step function keeps the array length and changes at most the one site
      its draws select: the target n1 on the feedback coin, and on the noise coin
      n1 for the cooperative steps and the redrawn target for the others. */
  lemma StepsTouchOneSite(s: seq<Mark>, F: real, d: Draws, again: Draws, i: int)
    requires F >= 0.0
    requires ValidDraws(d, |s|) && ValidDraws(again, |s|)
    requires 0 <= i < |s|
    ensures |StepCoopA(s, F, d)| == |StepNoncoopA(s, F, d, again)| == |s|
    ensures |StepCoopB(s, F, d)| == |StepNoncoopB(s, F, d, again)| == |s|
    ensures |StepCoopC(s, F, d)| == |StepNoncoopC(s, F, d, again)| == |s|
    ensures i != d.n1 ==>
      StepCoopA(s, F, d)[i] == StepCoopB(s, F, d)[i] == StepCoopC(s, F, d)[i] == s[i]
    ensures i != (if d.coin < Alpha(F) then d.n1 else again.n1) ==>
      StepNoncoopA(s, F, d, again)[i] == StepNoncoopB(s, F, d, again)[i]
        == StepNoncoopC(s, F, d, again)[i] == s[i]
  {
  }
}
