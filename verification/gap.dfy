/** The gap score |M - A| / (M + A) and the stride-N time average of it over
    independent runs (`run_simulation_avg` of core_code/coop_noncoop.py and
    core_code/spatial_recuit.py, which are the same procedure).
 */
module Gap {
  import opened Marks
  import opened Sums
  import opened Stride
  import opened Engine

  /** The gap sample of a state with m methylated and a acetylated sites. */
  function GapSample(m: nat, a: nat): (g: real)
    requires m + a > 0
    ensures 0.0 <= g <= 1.0
    // no gap exactly when the two marks balance
    ensures g == 0.0 <==> m == a
    // the full gap exactly when one of the two marks is absent
    ensures g == 1.0 <==> m == 0 || a == 0
  {
    var diff := if m >= a then m - a else a - m;
    var total := (m + a) as real;
    var g := diff as real / total;
    assert g * total == diff as real;
    if diff == m + a then
      assert g == 1.0;
      g
    else
      assert g * total < 1.0 * total;
      assert g < 1.0;
      g
  }

  /** The gap sample of a state, or None when it holds no M and no A site. */
  function GapOf(s: seq<Mark>): (g: Option<real>)
    ensures g.Some? <==> CountOf(s, M) + CountOf(s, A) > 0
    ensures g.Some? ==> 0.0 <= g.value <= 1.0
  {
    var m := CountOf(s, M);
    var a := CountOf(s, A);
    if m + a > 0 then Some(GapSample(m, a)) else None
  }

  /** No state of `samples` holds an M or an A site. */
  predicate NoneMarked(samples: seq<seq<Mark>>)
  {
    forall i | 0 <= i < |samples| :: GapOf(samples[i]).None?
  }

  /** The gap sample (or None) of every state, in order. */
  function Gaps(samples: seq<seq<Mark>>): (gs: seq<Option<real>>)
    ensures |gs| == |samples|
    ensures forall i | 0 <= i < |samples| :: gs[i] == GapOf(samples[i])
  {
    seq(|samples|, i requires 0 <= i < |samples| => GapOf(samples[i]))
  }

  /** The gap samples of the states that have one, in order: the i-th state with an
      M or A site contributes the i-th value. */
  function GapValues(samples: seq<seq<Mark>>): (g: seq<real>)
    ensures |g| <= |samples|
    // one value per state with an M or A site
    ensures |g| == SomeCount(Gaps(samples))
    ensures forall i | 0 <= i < |g| :: 0.0 <= g[i] <= 1.0
    // no gap sample at all exactly when every sampled state is all-U
    ensures |g| == 0 <==> NoneMarked(samples)
  {
    var gs := Gaps(samples);
    Defined(gs)
  }

  /** The gap value of marked state j sits after the values of the marked states
      before it. */
  lemma GapValuesPlaces(samples: seq<seq<Mark>>)
    ensures forall j | 0 <= j < |samples| && GapOf(samples[j]).Some? ::
      SomeCount(Gaps(samples)[..j]) < |GapValues(samples)|
      && GapValues(samples)[SomeCount(Gaps(samples)[..j])] == GapOf(samples[j]).value
  {
    DefinedPlaces(Gaps(samples));
  }

  /** The mean of the gap samples taken every n states; None when no sampled
      state had an M or A site. */
  function SampledGap(states: seq<seq<Mark>>, n: nat): (g: Option<real>)
    requires n > 0
    ensures g.Some? ==> 0.0 <= g.value <= 1.0
    ensures g.None? <==> NoneMarked(Strided(states, n))
    // the value is the mean of the gap samples of the sampled states
    ensures g.Some? ==> |GapValues(Strided(states, n))| > 0 && g.value == Mean(GapValues(Strided(states, n)))
  {
    var gs := GapValues(Strided(states, n));
    if |gs| == 0 then None
    else
      MeanUnit(gs);
      Some(Mean(gs))
  }

  /** The mean gap of one run, sampled every n measured ticks (None: the run is
      skipped). */
  function RunGap(cfg: Config, F: real, run: RunDraws, n: nat): (g: Option<real>)
    requires F >= 0.0 && n > 0
    requires RunFits(cfg, run, n)
    ensures g.Some? ==> 0.0 <= g.value <= 1.0
  {
    SampledGap(MeasuredStates(cfg, F, run, n), n)
  }

  /** The number of defined entries. */
  function SomeCount(xs: seq<Option<real>>): (c: nat)
    ensures c <= |xs|
  {
    if |xs| == 0 then 0 else SomeCount(xs[..|xs| - 1]) + (if xs[|xs| - 1].Some? then 1 else 0)
  }

  /** The defined values of a sequence of optional results, in order (the scripts'
      `if G_vals` filter). */
  function Defined(xs: seq<Option<real>>): (ys: seq<real>)
    ensures |ys| <= |xs|
    // one value per defined entry
    ensures |ys| == SomeCount(xs)
    ensures |ys| == 0 <==> forall i | 0 <= i < |xs| :: xs[i].None?
    ensures (forall i | 0 <= i < |xs| && xs[i].Some? :: 0.0 <= xs[i].value <= 1.0) ==>
            forall j | 0 <= j < |ys| :: 0.0 <= ys[j] <= 1.0
  {
    if |xs| == 0 then []
    else
      var k := |xs| - 1;
      var prefix := Defined(xs[..k]);
      assert forall i | 0 <= i < k :: xs[..k][i] == xs[i];
      if xs[k].Some? then prefix + [xs[k].value] else prefix
  }

  /** The value of defined entry i sits after the values of the defined entries
      before it, so `Defined` keeps every defined value and their order. */
  lemma {:induction false} DefinedPlaces(xs: seq<Option<real>>)
    ensures forall i | 0 <= i < |xs| && xs[i].Some? ::
      SomeCount(xs[..i]) < |Defined(xs)| && Defined(xs)[SomeCount(xs[..i])] == xs[i].value
  {
    if |xs| > 0 {
      var k := |xs| - 1;
      DefinedPlaces(xs[..k]);
      assert forall i | 0 <= i < k :: xs[..k][i] == xs[i];
      assert forall i | 0 <= i <= k :: xs[..k][..i] == xs[..i];
      assert xs[..k] == xs[..|xs| - 1];
    }
  }

  predicate AllRunsFit(cfg: Config, runs: seq<RunDraws>, n: nat)
  {
    forall i | 0 <= i < |runs| :: RunFits(cfg, runs[i], n)
  }

  /** The mean gap of each run, in run order. */
  function PerRunGaps(cfg: Config, F: real, runs: seq<RunDraws>, n: nat): (gs: seq<Option<real>>)
    requires F >= 0.0 && n > 0
    requires AllRunsFit(cfg, runs, n)
    ensures |gs| == |runs|
    ensures forall i | 0 <= i < |runs| :: gs[i] == RunGap(cfg, F, runs[i], n)
  {
    seq(|runs|, i requires 0 <= i < |runs| => RunGap(cfg, F, runs[i], n))
  }

  /** The order parameter G averaged over runs: the mean of the per-run means of
      the runs that produced a sample, or None (NaN) when none did. */
  function RunSimulationAvg(cfg: Config, F: real, runs: seq<RunDraws>, n: nat): (g: Option<real>)
    requires F >= 0.0 && n > 0
    requires AllRunsFit(cfg, runs, n)
    ensures g.Some? ==> 0.0 <= g.value <= 1.0
    ensures g.Some? <==> exists i | 0 <= i < |runs| :: RunGap(cfg, F, runs[i], n).Some?
    // the value is the mean over the runs that produced a gap sample
    ensures g.Some? ==> |Defined(PerRunGaps(cfg, F, runs, n))| > 0 && g.value == Mean(Defined(PerRunGaps(cfg, F, runs, n)))
  {
    var gs := PerRunGaps(cfg, F, runs, n);
    MeanOfDefined(gs)
  }

  /** The mean of the defined entries of `xs`, or None when there is none. */
  function MeanOfDefined(xs: seq<Option<real>>): (g: Option<real>)
    requires forall i | 0 <= i < |xs| && xs[i].Some? :: 0.0 <= xs[i].value <= 1.0
    ensures g.Some? ==> 0.0 <= g.value <= 1.0
    ensures g.Some? <==> exists i | 0 <= i < |xs| :: xs[i].Some?
    ensures g.Some? ==> g.value == Mean(Defined(xs))
  {
    var ys := Defined(xs);
    if |ys| == 0 then None
    else
      MeanUnit(ys);
      Some(Mean(ys))
  }
}
