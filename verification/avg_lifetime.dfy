/** The lifetime of dominant states and the per-tick gap measure (avg_lifetime.py). */
module AvgLifetime {
  import opened Marks
  import opened RandomDraws
  import opened Rules
  import opened Recruit
  import opened Engine
  import opened Sums
  import opened Gap

  /** The step function of this script: a single global recruiter, no explicit
      non-U check, and noise inline with an explicit "stays U" case. */
  function Step(s: seq<Mark>, F: real, d: Draws): (r: seq<Mark>)
    requires F >= 0.0
    requires ValidDraws(d, |s|)
    ensures r == Engine.Step(GlobalFull, s, F, Tick(d, d))
  {
    var alpha := F / (1.0 + F);
    var n1 := d.n1;
    if d.coin < alpha then
      var n2 := d.n2;
      if s[n2] == M then
        (if s[n1] == A then s[n1 := U] else if s[n1] == U then s[n1 := M] else s)
      else if s[n2] == A then
        (if s[n1] == M then s[n1 := U] else if s[n1] == U then s[n1 := A] else s)
      else s
    else
      var r := d.r;
      if s[n1] == A && r < 1.0 / 3.0 then s[n1 := U]
      else if s[n1] == U then
        (if r < 1.0 / 3.0 then s[n1 := A] else if r < 2.0 / 3.0 then s[n1 := M] else s[n1 := U])
      else if s[n1] == M && r < 1.0 / 3.0 then s[n1 := U]
      else s
  }

  /** The dominance label of a state: 'M', 'A', or None (mixed). */
  datatype Label = HighM | HighA | Unclassified

  /** The 1.5x rule: M-dominant when M > 1.5 A, else A-dominant when A > 1.5 M. */
  function Classify(m: nat, a: nat): (l: Label)
    ensures l == HighM <==> 2 * m > 3 * a
    ensures l == HighA <==> 2 * a > 3 * m
    // balanced counts, and in particular an all-U array, are unclassified
    ensures m == a ==> l == Unclassified
  {
    if m as real > 1.5 * a as real then HighM
    else if a as real > 1.5 * m as real then HighA
    else Unclassified
  }

  function LabelOf(s: seq<Mark>): Label
  {
    Classify(CountOf(s, M), CountOf(s, A))
  }

  function LabelsOf(states: seq<seq<Mark>>): (ls: seq<Label>)
    ensures |ls| == |states|
    ensures forall i | 0 <= i < |states| :: ls[i] == LabelOf(states[i])
  {
    seq(|states|, i requires 0 <= i < |states| => LabelOf(states[i]))
  }

  /** Length of the trailing block of equal labels of `ls`. */
  function TrailLen(ls: seq<Label>): (k: nat)
    requires |ls| > 0
    ensures 1 <= k <= |ls|
  {
    if |ls| == 1 then 1
    else if ls[|ls| - 2] == ls[|ls| - 1] then TrailLen(ls[..|ls| - 1]) + 1
    else 1
  }

  /** The trailing block is maximal: its labels are all equal to the last label,
      and the label just before it (if any) differs. */
  lemma {:induction false} TrailBlock(ls: seq<Label>)
    requires |ls| > 0
    ensures forall i | |ls| - TrailLen(ls) <= i < |ls| :: ls[i] == ls[|ls| - 1]
    ensures TrailLen(ls) < |ls| ==> ls[|ls| - TrailLen(ls) - 1] != ls[|ls| - 1]
  {
    if |ls| > 1 && ls[|ls| - 2] == ls[|ls| - 1] {
      var p := ls[..|ls| - 1];
      TrailBlock(p);
      assert forall i | 0 <= i < |p| :: p[i] == ls[i];
    }
  }

  /** The reference run-length encoding: the lengths of the maximal blocks of equal
      labels, in order, keeping only the blocks of a dominance label. */
  function Durations(ls: seq<Label>): seq<nat>
  {
    if |ls| == 0 then []
    else
      var k := TrailLen(ls);
      Durations(ls[..|ls| - k]) + (if ls[|ls| - 1] != Unclassified then [k] else [])
  }

  /** Number of labels that are not None. */
  function ClassifiedCount(ls: seq<Label>): nat
  {
    if |ls| == 0 then 0
    else ClassifiedCount(ls[..|ls| - 1]) + (if ls[|ls| - 1] != Unclassified then 1 else 0)
  }

  function SumNat(xs: seq<nat>): nat
  {
    if |xs| == 0 then 0 else SumNat(xs[..|xs| - 1]) + xs[|xs| - 1]
  }

  /** Every recorded duration is at least one step. */
  lemma {:induction false} DurationsPositive(ls: seq<Label>)
    ensures forall i | 0 <= i < |Durations(ls)| :: Durations(ls)[i] >= 1
    decreases |ls|
  {
    if |ls| > 0 {
      DurationsPositive(ls[..|ls| - TrailLen(ls)]);
    }
  }

  /** A trailing block of j equal labels contributes j classified labels or none. */
  lemma {:induction false} BlockCount(ls: seq<Label>, j: nat)
    requires j <= |ls|
    requires forall i | |ls| - j <= i < |ls| :: ls[i] == ls[|ls| - 1]
    ensures ClassifiedCount(ls) == ClassifiedCount(ls[..|ls| - j])
                                   + (if j > 0 && ls[|ls| - 1] != Unclassified then j else 0)
  {
    if j == 0 {
      assert ls[..|ls|] == ls;
    } else {
      var p := ls[..|ls| - 1];
      assert p[..|p| - (j - 1)] == ls[..|ls| - j];
      if j > 1 {
        assert p[|p| - 1] == ls[|ls| - 1];
      }
      BlockCount(p, j - 1);
    }
  }

  /** The recorded durations add up to the number of steps with a dominance label:
      steps labelled None are tracked but never recorded. */
  lemma {:induction false} DurationsSum(ls: seq<Label>)
    ensures SumNat(Durations(ls)) == ClassifiedCount(ls)
    decreases |ls|
  {
    if |ls| > 0 {
      var k := TrailLen(ls);
      var tail: seq<nat> := if ls[|ls| - 1] != Unclassified then [k] else [];
      DurationsSum(ls[..|ls| - k]);
      TrailBlock(ls);
      BlockCount(ls, k);
      SumNatAppend(Durations(ls[..|ls| - k]), tail);
    }
  }

  lemma {:induction false} SumNatAppend(xs: seq<nat>, ys: seq<nat>)
    ensures SumNat(xs + ys) == SumNat(xs) + SumNat(ys)
    decreases |ys|
  {
    if |ys| == 0 {
      assert xs + ys == xs;
    } else {
      assert (xs + ys)[..|xs + ys| - 1] == xs + ys[..|ys| - 1];
      SumNatAppend(xs, ys[..|ys| - 1]);
    }
  }

  /** The run-length tracker applied to [M, M, M, None, A, A, None, None, M]. */
  lemma DurationsExample()
    ensures Durations([HighM, HighM, HighM, Unclassified, HighA, HighA, Unclassified, Unclassified, HighM])
            == [3, 2, 1]
  {
    var l9 := [HighM, HighM, HighM, Unclassified, HighA, HighA, Unclassified, Unclassified, HighM];
    var l8 := [HighM, HighM, HighM, Unclassified, HighA, HighA, Unclassified, Unclassified];
    var l7 := [HighM, HighM, HighM, Unclassified, HighA, HighA, Unclassified];
    var l6 := [HighM, HighM, HighM, Unclassified, HighA, HighA];
    var l5 := [HighM, HighM, HighM, Unclassified, HighA];
    var l4 := [HighM, HighM, HighM, Unclassified];
    var l3 := [HighM, HighM, HighM];
    var l2 := [HighM, HighM];
    var l1 := [HighM];
    var l0: seq<Label> := [];
    assert l9[..8] == l8 && l8[..6] == l6 && l6[..4] == l4 && l4[..3] == l3 && l3[..0] == l0;
    assert l8[..7] == l7 && l6[..5] == l5 && l3[..2] == l2 && l2[..1] == l1;
    assert TrailLen(l9) == 1;
    assert TrailLen(l8) == 2;
    assert TrailLen(l6) == 2;
    assert TrailLen(l4) == 1;
    assert TrailLen(l3) == 3;
    assert Durations(l3) == [3];
    assert Durations(l4) == [3];
    assert Durations(l6) == [3, 2];
    assert Durations(l8) == [3, 2];
  }

  /** Appending a label extends the trailing block or starts a new one. */
  lemma {:induction false} TrailLenAppend(p: seq<Label>, x: Label)
    requires |p| > 0
    ensures TrailLen(p + [x]) == if p[|p| - 1] == x then TrailLen(p) + 1 else 1
  {
    assert (p + [x])[..|p|] == p;
  }

  /** Closing the trailing block of `labels[..i]`: the durations of the whole prefix
      are those before the block plus the block itself when it carries a label. */
  lemma {:induction false} CloseBlock(labels: seq<Label>, i: nat)
    requires 0 < i <= |labels|
    ensures Durations(labels[..i])
            == Durations(labels[..i - TrailLen(labels[..i])])
               + (if labels[i - 1] != Unclassified then [TrailLen(labels[..i])] else [])
  {
    var p := labels[..i];
    assert p[..i - TrailLen(p)] == labels[..i - TrailLen(p)];
  }

  /** A repeated label extends the open block by one. */
  lemma {:induction false} ExtendStep(labels: seq<Label>, i: nat, duration: nat)
    requires i < |labels|
    requires i == 0 ==> duration == 0
    requires i > 0 ==> labels[i - 1] == labels[i] && duration == TrailLen(labels[..i])
    ensures TrailLen(labels[..i + 1]) == duration + 1
  {
    if i > 0 {
      assert labels[..i + 1] == labels[..i] + [labels[i]];
      TrailLenAppend(labels[..i], labels[i]);
    }
  }

  /** A changed label closes the open block, recording it when it had a dominance
      label, and opens a block of length one. */
  lemma {:induction false} SwitchStep(labels: seq<Label>, i: nat, current: Label, duration: nat)
    requires i < |labels| && labels[i] != current
    requires i == 0 ==> current == Unclassified && duration == 0
    requires i > 0 ==> current == labels[i - 1] && duration == TrailLen(labels[..i])
    ensures TrailLen(labels[..i + 1]) == 1
    ensures Durations(labels[..i])
            == Durations(labels[..i - duration]) + (if current != Unclassified then [duration] else [])
  {
    if i > 0 {
      assert labels[..i + 1] == labels[..i] + [labels[i]];
      TrailLenAppend(labels[..i], labels[i]);
      CloseBlock(labels, i);
    }
  }

  /** At the end the open block is closed like any other. */
  lemma {:induction false} CloseLast(labels: seq<Label>, current: Label, duration: nat)
    requires |labels| == 0 ==> current == Unclassified && duration == 0
    requires |labels| > 0 ==> current == labels[|labels| - 1] && duration == TrailLen(labels)
    ensures duration <= |labels|
    ensures Durations(labels)
            == Durations(labels[..|labels| - duration]) + (if current != Unclassified then [duration] else [])
  {
    if |labels| == 0 {
      assert labels[..0] == [];
    } else {
      LastBlock(labels);
    }
  }

  /** The durations of a non-empty sequence are those before its trailing block,
      followed by that block's length when it carries a dominance label. */
  lemma {:induction false} LastBlock(ls: seq<Label>)
    requires |ls| > 0
    ensures Durations(ls)
            == Durations(ls[..|ls| - TrailLen(ls)])
               + (if ls[|ls| - 1] != Unclassified then [TrailLen(ls)] else [])
  {
  }

  /** The tracker of calculate_lifetime: extend the open run while the label
      repeats; on a change, record the open run if it had a label, and open a new
      one. The last open labelled run is recorded at the end. */
  method TrackDurations(labels: seq<Label>) returns (durations: seq<nat>)
    ensures durations == Durations(labels)
  {
    var current := Unclassified;
    var duration: nat := 0;
    durations := [];
    for i := 0 to |labels|
      invariant duration <= i
      invariant i == 0 ==> current == Unclassified && duration == 0
      invariant i > 0 ==> current == labels[i - 1] && duration == TrailLen(labels[..i])
      invariant durations == Durations(labels[..i - duration])
    {
      if labels[i] == current {
        ExtendStep(labels, i, duration);
        duration := duration + 1;
      } else {
        SwitchStep(labels, i, current, duration);
        if current != Unclassified {
          durations := durations + [duration];
        }
        current := labels[i];
        duration := 1;
      }
    }
    assert labels[..|labels|] == labels;
    CloseLast(labels, current, duration);
    if current != Unclassified {
      durations := durations + [duration];
    }
  }

  /** The mean length of the labelled runs of a label sequence; zero when there is
      none. */
  method LifetimeOfLabels(labels: seq<Label>) returns (lifetime: real)
    ensures lifetime == 0.0 <==> ClassifiedCount(labels) == 0
    ensures ClassifiedCount(labels) > 0 ==> lifetime >= 1.0 && |Durations(labels)| > 0
    // the mean is the number of labelled steps over the number of recorded runs
    ensures ClassifiedCount(labels) > 0 ==>
      lifetime == ClassifiedCount(labels) as real / |Durations(labels)| as real
  {
    var durations := TrackDurations(labels);
    DurationsPositive(labels);
    DurationsSum(labels);
    lifetime := MeanDuration(durations);
  }

  /** The mean recorded lifetime of a trajectory of Tmax steps from `init` (the
      scripts' random initial state); zero when no labelled run was ever recorded. */
  method CalculateLifetime(init: seq<Mark>, F: real, ticks: seq<Tick>) returns (lifetime: real)
    requires F >= 0.0
    requires AllTicksFit(GlobalFull, ticks, |init|)
    ensures lifetime == 0.0 <==> ClassifiedCount(LabelsOf(Trajectory(GlobalFull, init, F, ticks))) == 0
    ensures ClassifiedCount(LabelsOf(Trajectory(GlobalFull, init, F, ticks))) > 0 ==> lifetime >= 1.0
  {
    lifetime := LifetimeOfLabels(LabelsOf(Trajectory(GlobalFull, init, F, ticks)));
  }

  /** The mean recorded duration, or zero when no run was recorded. */
  function MeanDuration(durations: seq<nat>): (mean: real)
    requires forall i | 0 <= i < |durations| :: durations[i] >= 1
    ensures mean == 0.0 <==> |durations| == 0
    ensures |durations| > 0 ==> mean >= 1.0
  {
    if |durations| == 0 then 0.0
    else
      SumNatAtLeastLength(durations);
      var total := SumNat(durations) as real;
      var count := |durations| as real;
      DivAtLeastOne(total, count);
      total / count
  }

  /** A quotient whose numerator is at least its positive denominator is at least
      one. */
  lemma DivAtLeastOne(a: real, b: real)
    requires b > 0.0 && a >= b
    ensures a / b >= 1.0
  {
    var q := a / b;
    assert q * b == a;
    assert (q - 1.0) * b == a - b;
  }

  /** A sum of positive naturals is at least their number. */
  lemma {:induction false} SumNatAtLeastLength(xs: seq<nat>)
    requires forall i | 0 <= i < |xs| :: xs[i] >= 1
    ensures SumNat(xs) >= |xs|
  {
    if |xs| > 0 {
      SumNatAtLeastLength(xs[..|xs| - 1]);
    }
  }

  /** A tick's contribution to the gap sum: its gap sample, or nothing for an
      all-U state. */
  function TickGap(s: seq<Mark>): (g: real)
    ensures 0.0 <= g <= 1.0
    // an all-U tick scores zero; any other tick scores its gap sample
    ensures CountOf(s, M) + CountOf(s, A) == 0 ==> g == 0.0
    ensures CountOf(s, M) + CountOf(s, A) > 0 ==> g == GapSample(CountOf(s, M), CountOf(s, A))
  {
    match GapOf(s)
    case Some(g) => g
    case None => 0.0
  }

  function TickGaps(states: seq<seq<Mark>>): (gs: seq<real>)
    ensures |gs| == |states|
    ensures forall i | 0 <= i < |states| :: gs[i] == TickGap(states[i])
  {
    seq(|states|, i requires 0 <= i < |states| => TickGap(states[i]))
  }

  /** Scoring all-U ticks as zero leaves the gap sum unchanged: the per-tick gaps
      add up to the sum of the gap values of the marked states. Only the divisor
      tells the per-tick measure from the mean over marked states. */
  lemma {:induction false} TickGapSum(states: seq<seq<Mark>>)
    ensures Sum(TickGaps(states)) == Sum(GapValues(states))
  {
    if |states| > 0 {
      var k := |states| - 1;
      var p := states[..k];
      TickGapSum(p);
      var ts := TickGaps(states);
      assert ts[..k] == TickGaps(p);
      assert Sum(ts) == Sum(TickGaps(p)) + TickGap(states[k]);
      var gs := Gaps(states);
      assert gs[..k] == Gaps(p);
      var tail: seq<real> := if GapOf(states[k]).Some? then [GapOf(states[k]).value] else [];
      assert Defined(gs) == Defined(gs[..k]) + tail;
      SumAppend(GapValues(p), tail);
    }
  }

  /** compute_gap_measure: the gap sum over the Tmax measured ticks divided by Tmax,
      every tick counting in the divisor. With Tmax = 0 the script divides by zero,
      modelled as None. */
  function ComputeGapMeasure(run: RunDraws, F: real): (g: Option<real>)
    requires F >= 0.0
    requires RunFits(GlobalFull, run, |run.init|)
    ensures g.Some? <==> |run.main| > 0
    ensures g.Some? ==> 0.0 <= g.value <= 1.0
    // the mean over all Tmax measured ticks, an all-U tick scoring zero
    ensures g.Some? ==> g.value == Mean(TickGaps(MeasuredStates(GlobalFull, F, run, |run.init|)))
  {
    var gs := TickGaps(MeasuredStates(GlobalFull, F, run, |run.init|));
    if |run.main| == 0 then None
    else
      MeanUnit(gs);
      Some(Sum(gs) / |run.main| as real)
  }

  /** When every measured tick has the same gap sample, the gap measure is that
      sample (for instance 0.5 for a trajectory alternating between M = 45, A = 15
      and M = 15, A = 45). */
  lemma GapMeasureConstant(run: RunDraws, F: real, c: real)
    requires F >= 0.0
    requires RunFits(GlobalFull, run, |run.init|)
    requires |run.main| > 0
    requires forall i | 0 <= i < |run.main| :: GapOf(MeasuredStates(GlobalFull, F, run, |run.init|)[i]) == Some(c)
    ensures ComputeGapMeasure(run, F) == Some(c)
  {
    var gs := TickGaps(MeasuredStates(GlobalFull, F, run, |run.init|));
    MeanConstant(gs, c);
  }
}
