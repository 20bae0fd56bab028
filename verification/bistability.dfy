/** The single-trajectory bistability study (bistability.py): the step function and
    the M / A / U counts and gap samples recorded every N steps. */
module Bistability {
  import opened Marks
  import opened RandomDraws
  import opened Rules
  import opened Recruit
  import opened Engine
  import opened Sums
  import opened Stride
  import opened Arith
  import opened Gap

  /** The step function of this script: one global recruiter; in the noise branch
      every case without a change is spelled out. */
  function Step(s: seq<Mark>, F: real, d: Draws): (r: seq<Mark>)
    requires F >= 0.0
    requires ValidDraws(d, |s|)
    ensures r == Engine.Step(GlobalFull, s, F, Tick(d, d))
  {
    var alpha := F / (F + 1.0);
    var n1 := d.n1;
    if d.coin < alpha then
      var n2 := d.n2;
      if s[n2] == M then
        (if s[n1] == A then s[n1 := U] else if s[n1] == U then s[n1 := M] else s)
      else if s[n2] == A then
        (if s[n1] == M then s[n1 := U] else if s[n1] == U then s[n1 := A] else s)
      else s
    else
      var r := d.r;
      if s[n1] == A then
        (if r < 1.0 / 3.0 then s[n1 := U] else s)
      else if s[n1] == U then
        (if r < 1.0 / 3.0 then s[n1 := A] else if r < 2.0 / 3.0 then s[n1 := M] else s[n1 := U])
      else
        (if r < 1.0 / 3.0 then s[n1 := U] else s)
  }

  /** What the main loop records: the count lists and G_record. */
  datatype Record = Record(mCounts: seq<nat>, aCounts: seq<nat>, uCounts: seq<nat>, gRecord: seq<real>)

  /** The record of the sampled states themselves. */
  function SampleRecord(samples: seq<seq<Mark>>, n: nat): (rec: Record)
    requires forall j | 0 <= j < |samples| :: |samples[j]| == n
    ensures |rec.mCounts| == |rec.aCounts| == |rec.uCounts| == |samples|
    // entry j holds the counts of sample j
    ensures forall j | 0 <= j < |samples| ::
      rec.mCounts[j] == CountOf(samples[j], M) && rec.aCounts[j] == CountOf(samples[j], A)
    // every sample partitions the n sites
    ensures forall j | 0 <= j < |samples| :: rec.mCounts[j] + rec.aCounts[j] + rec.uCounts[j] == n
    // a G sample is recorded only for samples with an M or A site, and lies in [0, 1]
    ensures |rec.gRecord| <= |samples|
    ensures |rec.gRecord| == SomeCount(Gaps(samples))
    ensures |rec.gRecord| == 0 <==> forall j | 0 <= j < |samples| :: rec.mCounts[j] + rec.aCounts[j] == 0
    ensures forall k | 0 <= k < |rec.gRecord| :: 0.0 <= rec.gRecord[k] <= 1.0
  {
    var mc, ac, uc := MarkCounts(samples, M), MarkCounts(samples, A), MarkCounts(samples, U);
    forall j | 0 <= j < |samples| ensures mc[j] + ac[j] + uc[j] == n {
      CountsPartition(samples[j]);
    }
    var gs := GapValues(samples);
    RecordedGaps(samples, mc, ac, gs);
    Record(mc, ac, uc, gs)
  }

  /** The G of sample j follows the G values of the marked samples before it, and
      is the gap of sample j's M and A counts. */
  lemma SampleRecordPlaces(samples: seq<seq<Mark>>, n: nat)
    requires forall j | 0 <= j < |samples| :: |samples[j]| == n
    ensures var rec := SampleRecord(samples, n);
      forall j | 0 <= j < |samples| && rec.mCounts[j] + rec.aCounts[j] > 0 ::
        SomeCount(Gaps(samples)[..j]) < |rec.gRecord|
        && rec.gRecord[SomeCount(Gaps(samples)[..j])] == GapSample(rec.mCounts[j], rec.aCounts[j])
  {
    var rec := SampleRecord(samples, n);
    GapValuesPlaces(samples);
    forall j | 0 <= j < |samples| && rec.mCounts[j] + rec.aCounts[j] > 0
      ensures SomeCount(Gaps(samples)[..j]) < |rec.gRecord|
      ensures rec.gRecord[SomeCount(Gaps(samples)[..j])] == GapSample(rec.mCounts[j], rec.aCounts[j])
    {
      assert GapOf(samples[j]) == Some(GapSample(rec.mCounts[j], rec.aCounts[j]));
    }
  }

  /** The count of mark m in each sample. */
  function MarkCounts(samples: seq<seq<Mark>>, m: Mark): (cs: seq<nat>)
    ensures |cs| == |samples|
    ensures forall j | 0 <= j < |samples| :: cs[j] == CountOf(samples[j], m)
  {
    seq(|samples|, j requires 0 <= j < |samples| => CountOf(samples[j], m))
  }

  /** Read through the M and A counts: no gap value is recorded exactly when no
      sample has an M or A site. */
  lemma RecordedGaps(samples: seq<seq<Mark>>, mc: seq<nat>, ac: seq<nat>, gs: seq<real>)
    requires |mc| == |ac| == |samples|
    requires forall j | 0 <= j < |samples| :: mc[j] == CountOf(samples[j], M) && ac[j] == CountOf(samples[j], A)
    requires gs == GapValues(samples)
    ensures |gs| == 0 <==> forall j | 0 <= j < |samples| :: mc[j] + ac[j] == 0
  {
    assert NoneMarked(samples) <==> forall j | 0 <= j < |samples| :: mc[j] + ac[j] == 0 by {
      forall j | 0 <= j < |samples| ensures GapOf(samples[j]).None? <==> mc[j] + ac[j] == 0 {
      }
    }
  }

  /** The record of a sequence of n-site states when states 0, n, 2n, ... are
      sampled. */
  function RecordSamples(states: seq<seq<Mark>>, n: nat): (rec: Record)
    requires n > 0
    requires forall i | 0 <= i < |states| :: |states[i]| == n
    // one entry per sampled state, ceil(|states| / n) of them
    ensures |rec.mCounts| == |rec.aCounts| == |rec.uCounts| == SampleCount(|states|, n)
    // entry j holds the counts of state j * n
    ensures forall j | 0 <= j < |rec.mCounts| ::
      j * n < |states| && rec.mCounts[j] == CountOf(states[j * n], M)
      && rec.aCounts[j] == CountOf(states[j * n], A)
    ensures forall j | 0 <= j < |rec.mCounts| :: rec.mCounts[j] + rec.aCounts[j] + rec.uCounts[j] == n
    ensures |rec.gRecord| <= |rec.mCounts|
    ensures forall k | 0 <= k < |rec.gRecord| :: 0.0 <= rec.gRecord[k] <= 1.0
  {
    var samples := Strided(states, n);
    var rec := SampleRecord(samples, n);
    StridedCounts(states, n, samples, rec.mCounts, M);
    StridedCounts(states, n, samples, rec.aCounts, A);
    rec
  }

  /** Counts taken over the samples at stride n are the counts of states 0, n, 2n, .... */
  lemma StridedCounts(states: seq<seq<Mark>>, n: nat, samples: seq<seq<Mark>>, cs: seq<nat>, m: Mark)
    requires n > 0 && samples == Strided(states, n)
    requires |cs| == |samples|
    requires forall j | 0 <= j < |samples| :: cs[j] == CountOf(samples[j], m)
    ensures forall j | 0 <= j < |cs| :: j * n < |states| && cs[j] == CountOf(states[j * n], m)
  {
  }

  /** The record of one run of Tmax main steps after Teq equilibration steps. */
  function Observe(F: real, run: RunDraws): (rec: Record)
    requires F >= 0.0
    requires |run.init| > 0
    requires RunFits(GlobalFull, run, |run.init|)
    ensures |rec.mCounts| == |rec.aCounts| == |rec.uCounts| == SampleCount(|run.main|, |run.init|)
    ensures forall j | 0 <= j < |rec.mCounts| :: rec.mCounts[j] + rec.aCounts[j] + rec.uCounts[j] == |run.init|
    ensures forall k | 0 <= k < |rec.gRecord| :: 0.0 <= rec.gRecord[k] <= 1.0
  {
    var n := |run.init|;
    var states := MeasuredStates(GlobalFull, F, run, n);
    RecordSamples(states, n)
  }

  function Reals(xs: seq<nat>): (ys: seq<real>)
    ensures |ys| == |xs|
    ensures forall i | 0 <= i < |xs| :: ys[i] == xs[i] as real
  {
    seq(|xs|, i requires 0 <= i < |xs| => xs[i] as real)
  }

  /** Three sequences that add up to n at every index add up to |xs| * n. */
  lemma {:induction false} SumOfPartitions(xs: seq<real>, ys: seq<real>, zs: seq<real>, n: real)
    requires |xs| == |ys| == |zs|
    requires forall i | 0 <= i < |xs| :: xs[i] + ys[i] + zs[i] == n
    ensures Sum(xs) + Sum(ys) + Sum(zs) == |xs| as real * n
  {
    if |xs| > 0 {
      var k := |xs| - 1;
      SumOfPartitions(xs[..k], ys[..k], zs[..k], n);
    }
  }

  /** The per-F summary: the mean M, A and U counts and the mean G (None, NumPy's
      NaN, when no G sample was recorded). */
  datatype Summary = Summary(avgM: real, avgA: real, avgU: real, g: Option<real>)

  /** None when nothing was sampled (Tmax = 0). */
  function Summarize(rec: Record): (sum: Option<Summary>)
    ensures sum.Some? <==> |rec.mCounts| > 0 && |rec.aCounts| > 0 && |rec.uCounts| > 0
    ensures sum.Some? ==> (sum.value.g.Some? <==> |rec.gRecord| > 0)
    // each average, taken once per sample, gives the total of its count list
    ensures sum.Some? ==> |rec.mCounts| as real * sum.value.avgM == Sum(Reals(rec.mCounts))
    ensures sum.Some? ==> |rec.aCounts| as real * sum.value.avgA == Sum(Reals(rec.aCounts))
    ensures sum.Some? ==> |rec.uCounts| as real * sum.value.avgU == Sum(Reals(rec.uCounts))
    // and G, taken once per recorded value, gives the total of G_record
    ensures sum.Some? && sum.value.g.Some? ==> |rec.gRecord| as real * sum.value.g.value == Sum(rec.gRecord)
  {
    if |rec.mCounts| == 0 || |rec.aCounts| == 0 || |rec.uCounts| == 0 then None
    else
      var g := if |rec.gRecord| == 0 then None else Some(Mean(rec.gRecord));
      Some(Summary(Mean(Reals(rec.mCounts)), Mean(Reals(rec.aCounts)), Mean(Reals(rec.uCounts)), g))
  }

  /** Count lists that partition n sites at every sample have means that add up
      to n. */
  lemma MeansPartition(rec: Record, n: nat)
    requires |rec.mCounts| == |rec.aCounts| == |rec.uCounts| > 0
    requires forall j | 0 <= j < |rec.mCounts| :: rec.mCounts[j] + rec.aCounts[j] + rec.uCounts[j] == n
    ensures Summarize(rec).Some?
    ensures Summarize(rec).value.avgM + Summarize(rec).value.avgA + Summarize(rec).value.avgU == n as real
  {
    var ms, xs, us := Reals(rec.mCounts), Reals(rec.aCounts), Reals(rec.uCounts);
    SumOfPartitions(ms, xs, us, n as real);
    MeansAdd(ms, xs, us, n as real);
    assert Summarize(rec).value == Summary(Mean(ms), Mean(xs), Mean(us), Summarize(rec).value.g);
  }

  /** Three equally long sequences whose sums add up to len * c have means that
      add up to c. */
  lemma MeansAdd(xs: seq<real>, ys: seq<real>, zs: seq<real>, c: real)
    requires |xs| == |ys| == |zs| > 0
    requires Sum(xs) + Sum(ys) + Sum(zs) == |xs| as real * c
    ensures Mean(xs) + Mean(ys) + Mean(zs) == c
  {
    var len := |xs| as real;
    DivAdd3(Sum(xs), Sum(ys), Sum(zs), len, c);
    assert Mean(xs) == Sum(xs) / len && Mean(ys) == Sum(ys) / len && Mean(zs) == Sum(zs) / len;
  }

  /** a / len + b / len + c / len is (a + b + c) / len. */
  lemma DivAdd3(a: real, b: real, c: real, len: real, n: real)
    requires len > 0.0
    requires a + b + c == len * n
    ensures a / len + b / len + c / len == n
  {
    assert a / len + b / len == (a + b) / len;
    assert (a + b) / len + c / len == (a + b + c) / len;
  }

  /** A run with at least one main step samples at least once. */
  lemma SomeSample(tmax: nat, n: nat)
    requires n > 0 && tmax > 0
    ensures SampleCount(tmax, n) >= 1
  {
    DivUnique(tmax + n - 1, n, (tmax + n - 1) / n, (tmax + n - 1) % n);
  }

  /** The mean counts of a run add up to the number of sites, and its mean G lies
      in [0, 1]. */
  lemma AveragesPartition(F: real, run: RunDraws)
    requires F >= 0.0
    requires |run.init| > 0 && |run.main| > 0
    requires RunFits(GlobalFull, run, |run.init|)
    ensures Summarize(Observe(F, run)).Some?
    ensures var sum := Summarize(Observe(F, run)).value;
      sum.avgM + sum.avgA + sum.avgU == |run.init| as real
      && (sum.g.Some? ==> 0.0 <= sum.g.value <= 1.0)
  {
    var rec := Observe(F, run);
    SomeSample(|run.main|, |run.init|);
    MeansPartition(rec, |run.init|);
    if |rec.gRecord| > 0 {
      MeanUnit(rec.gRecord);
    }
  }
}
