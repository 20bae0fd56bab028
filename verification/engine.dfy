/** The unified step engine, parameterised by recruiter mode and enzymatic regime,
    and the trajectory of states that repeated steps produce.
 */
module Engine {
  import opened Marks
  import opened RandomDraws
  import opened Rules
  import opened Recruit

  /** Where the noise branch takes its target and noise real from: the tick's own
      draws, or a fresh set of draws because the step function handles noise by
      calling a step function again with F = 0 (which draws n1, the coin and r anew). */
  datatype NoiseSource = SameDraws | Redrawn

  datatype Config = Config(mode: Mode, regime: Regime, noise: NoiseSource)

  /** One recruiter anywhere in the array, the two-enzyme table, and noise at the
      step's own target: the configuration of the standard, lifetime and
      bistability steps. */
  const GlobalFull := Config(Global, Full, SameDraws)

  /** The draws of one tick: the step's own draws, and the draws of the nested
      F = 0 call (read only when the configuration's noise source is Redrawn). */
  datatype Tick = Tick(first: Draws, redraw: Draws)

  predicate TickFits(cfg: Config, t: Tick, n: nat)
  {
    DrawsFit(cfg.mode, t.first, n) && ValidDraws(t.redraw, n)
  }

  /** The probability F / (F + 1) that a tick is feedback-driven. */
  function Alpha(F: real): (alpha: real)
    requires F >= 0.0
    ensures 0.0 <= alpha < 1.0
    ensures alpha == 0.0 <==> F == 0.0
  {
    F / (F + 1.0)
  }

  /** A larger feedback-to-noise ratio gives a larger feedback probability. */
  lemma AlphaMonotone(F: real, G: real)
    requires 0.0 <= F < G
    ensures Alpha(F) < Alpha(G)
  {
    var x := F / (F + 1.0);
    var y := G / (G + 1.0);
    assert x * (F + 1.0) == F;
    assert y * (G + 1.0) == G;
    assert x == 1.0 - 1.0 / (F + 1.0);
    assert y == 1.0 - 1.0 / (G + 1.0);
    assert 1.0 / (G + 1.0) < 1.0 / (F + 1.0);
  }

  /** The feedback branch of a tick: the target n1 reacts to the recruiter verdict,
      or nothing happens when there is none. */
  function FeedbackTick(cfg: Config, s: seq<Mark>, d: Draws): (r: seq<Mark>)
    requires DrawsFit(cfg.mode, d, |s|)
    ensures |r| == |s|
    ensures forall i | 0 <= i < |s| && i != d.n1 :: r[i] == s[i]
    ensures Verdict(cfg.mode, s, d).None? ==> r == s
    ensures -1 <= Balance(r) - Balance(s) <= 1
  {
    match Verdict(cfg.mode, s, d)
    case None => s
    case Some(v) =>
      var y := Feedback(cfg.regime, s[d.n1], v);
      BalanceUpdate(s, d.n1, y);
      s[d.n1 := y]
  }

  /** The noise branch of a tick: the noise rule applied to site n. */
  function NoiseTick(s: seq<Mark>, n: int, r: real): (t: seq<Mark>)
    requires 0 <= n < |s|
    ensures |t| == |s|
    ensures forall i | 0 <= i < |s| && i != n :: t[i] == s[i]
    ensures -1 <= Balance(t) - Balance(s) <= 1
  {
    var y := Noise(s[n], r);
    BalanceUpdate(s, n, y);
    s[n := y]
  }

  /** The draws the noise branch reads. */
  function NoiseDraws(cfg: Config, t: Tick): Draws
  {
    if cfg.noise == Redrawn then t.redraw else t.first
  }

  /** The one site a tick may change. */
  function TouchedSite(cfg: Config, F: real, t: Tick): int
    requires F >= 0.0
  {
    if t.first.coin < Alpha(F) then t.first.n1 else NoiseDraws(cfg, t).n1
  }

  /** One tick of the engine. */
  function Step(cfg: Config, s: seq<Mark>, F: real, t: Tick): (r: seq<Mark>)
    requires F >= 0.0
    requires TickFits(cfg, t, |s|)
    ensures |r| == |s|
    // at most one site changes
    ensures forall i | 0 <= i < |s| && i != TouchedSite(cfg, F, t) :: r[i] == s[i]
    // M - A moves by at most one per tick
    ensures -1 <= Balance(r) - Balance(s) <= 1
    // with F = 0 the coin never lands on feedback: the noise rule is applied
    ensures F == 0.0 ==>
      var nd := NoiseDraws(cfg, t);
      r == s[nd.n1 := Noise(s[nd.n1], nd.r)]
  {
    if t.first.coin < Alpha(F) then FeedbackTick(cfg, s, t.first)
    else
      var nd := NoiseDraws(cfg, t);
      NoiseTick(s, nd.n1, nd.r)
  }

  /** With an unmodified recruiter (or failed consensus) a feedback tick leaves
      the array unchanged. */
  lemma UnmodifiedRecruiterChangesNothing(cfg: Config, s: seq<Mark>, F: real, t: Tick)
    requires F >= 0.0
    requires TickFits(cfg, t, |s|)
    requires t.first.coin < Alpha(F)
    requires cfg.mode != GlobalCoop
    requires s[RecruiterIndex(cfg.mode, t.first, |s|)] == U
    ensures Step(cfg, s, F, t) == s
  {
  }

  predicate AllTicksFit(cfg: Config, ticks: seq<Tick>, n: nat)
  {
    forall i | 0 <= i < |ticks| :: TickFits(cfg, ticks[i], n)
  }

  /** The states after each tick, starting from `s0` (the initial state itself is
      not included, as no collector samples it). */
  function Trajectory(cfg: Config, s0: seq<Mark>, F: real, ticks: seq<Tick>): (states: seq<seq<Mark>>)
    requires F >= 0.0
    requires AllTicksFit(cfg, ticks, |s0|)
    ensures |states| == |ticks|
    ensures forall i | 0 <= i < |states| :: |states[i]| == |s0|
    decreases |ticks|
  {
    if |ticks| == 0 then []
    else
      var s1 := Step(cfg, s0, F, ticks[0]);
      [s1] + Trajectory(cfg, s1, F, ticks[1..])
  }

  /** The state after all ticks. */
  function Final(cfg: Config, s0: seq<Mark>, F: real, ticks: seq<Tick>): (s: seq<Mark>)
    requires F >= 0.0
    requires AllTicksFit(cfg, ticks, |s0|)
    ensures |s| == |s0|
  {
    if |ticks| == 0 then s0 else Trajectory(cfg, s0, F, ticks)[|ticks| - 1]
  }

  lemma FitsSplit(cfg: Config, a: seq<Tick>, b: seq<Tick>, n: nat)
    requires AllTicksFit(cfg, a + b, n)
    ensures AllTicksFit(cfg, a, n) && AllTicksFit(cfg, b, n)
  {
    forall i | 0 <= i < |a| ensures TickFits(cfg, a[i], n) {
      assert (a + b)[i] == a[i];
    }
    forall i | 0 <= i < |b| ensures TickFits(cfg, b[i], n) {
      assert (a + b)[|a| + i] == b[i];
    }
  }

  /** Running two tick sequences one after the other: the second continues from
      the final state of the first. */
  lemma {:induction false} TrajectoryAppend(cfg: Config, s0: seq<Mark>, F: real, a: seq<Tick>, b: seq<Tick>)
    requires F >= 0.0
    requires AllTicksFit(cfg, a + b, |s0|)
    ensures AllTicksFit(cfg, a, |s0|) && AllTicksFit(cfg, b, |s0|)
    ensures Trajectory(cfg, s0, F, a + b)
            == Trajectory(cfg, s0, F, a) + Trajectory(cfg, Final(cfg, s0, F, a), F, b)
    decreases |a|
  {
    FitsSplit(cfg, a, b, |s0|);
    if |a| == 0 {
      assert a + b == b;
    } else {
      var s1 := Step(cfg, s0, F, a[0]);
      assert (a + b)[0] == a[0];
      assert (a + b)[1..] == a[1..] + b;
      FitsSplit(cfg, a[..1], a[1..] + b, |s0|) by {
        assert a[..1] + (a[1..] + b) == a + b;
      }
      TrajectoryAppend(cfg, s1, F, a[1..], b);
      assert Final(cfg, s0, F, a) == Final(cfg, s1, F, a[1..]);
    }
  }

  /** The draws of one independent run: the random initial state, the
      equilibration ticks (Teq of them) and the measured ticks (Tmax of them). */
  datatype RunDraws = RunDraws(init: seq<Mark>, warmup: seq<Tick>, main: seq<Tick>)

  predicate RunFits(cfg: Config, run: RunDraws, n: nat)
  {
    |run.init| == n && AllTicksFit(cfg, run.warmup, n) && AllTicksFit(cfg, run.main, n)
  }

  /** The states a run's collectors observe: one per measured tick, after the
      equilibration ticks have been applied unobserved. */
  function MeasuredStates(cfg: Config, F: real, run: RunDraws, n: nat): (states: seq<seq<Mark>>)
    requires F >= 0.0
    requires RunFits(cfg, run, n)
    ensures |states| == |run.main|
    ensures forall i | 0 <= i < |states| :: |states[i]| == n
  {
    Trajectory(cfg, Final(cfg, run.init, F, run.warmup), F, run.main)
  }

  /** The observed states are exactly the states of the whole run after its first
      Teq ticks: equilibration states are never observed. */
  lemma MeasuredIsSuffix(cfg: Config, F: real, run: RunDraws, n: nat)
    requires F >= 0.0
    requires RunFits(cfg, run, n)
    ensures AllTicksFit(cfg, run.warmup + run.main, n)
    ensures MeasuredStates(cfg, F, run, n)
            == Trajectory(cfg, run.init, F, run.warmup + run.main)[|run.warmup|..]
  {
    var a, b := run.warmup, run.main;
    forall i | 0 <= i < |a + b| ensures TickFits(cfg, (a + b)[i], n) {
      if i < |a| {
        assert (a + b)[i] == a[i];
      } else {
        assert (a + b)[i] == b[i - |a|];
      }
    }
    TrajectoryAppend(cfg, run.init, F, a, b);
  }
}
