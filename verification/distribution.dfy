/** The M - A histogram over independent runs and its normalisation
    (`simulate_distribution` and `get_normalized` of core_code/pd_coop_noncoop.py;
    `simulate_distribution` and the inline normalisation of
    core_code/pd_spatial_recrut.py are the same procedure).

    A `Counter` is a multiset of keys: the count of key k is the multiplicity h[k].
 */
module Distribution {
  import opened Marks
  import opened Sums
  import opened Stride
  import opened Arith
  import opened Engine
  import opened SortedKeys

  /** The balance M - A of each state. */
  function Balances(states: seq<seq<Mark>>): (ks: seq<int>)
    ensures |ks| == |states|
    ensures forall i | 0 <= i < |states| :: ks[i] == Balance(states[i])
  {
    seq(|states|, i requires 0 <= i < |states| => Balance(states[i]))
  }

  /** The keys of a sequence of n-site states sampled every n states: the balance
      of states 0, n, 2n, ... */
  function SampleKeys(states: seq<seq<Mark>>, n: nat): (ks: seq<int>)
    requires n > 0
    requires forall i | 0 <= i < |states| :: |states[i]| == n
    ensures |ks| == SampleCount(|states|, n)
    // key j is the balance of state j * n
    ensures forall j | 0 <= j < |ks| :: j * n < |states| && ks[j] == Balance(states[j * n])
    // a key of an n-site array lies in [-n, n]
    ensures forall j | 0 <= j < |ks| :: -(n as int) <= ks[j] <= n
  {
    var samples := Strided(states, n);
    var ks := Balances(samples);
    forall j | 0 <= j < |ks| ensures -(n as int) <= ks[j] <= n {
      BalanceBounds(samples[j]);
    }
    ks
  }

  /** The histogram keys one run contributes: one per measured tick t with
      t % n == 0, each in [-n, n]. */
  function RunKeys(cfg: Config, F: real, run: RunDraws, n: nat): (ks: seq<int>)
    requires F >= 0.0 && n > 0
    requires RunFits(cfg, run, n)
    ensures |ks| == SampleCount(|run.main|, n)
    // key j is the balance of the state after measured tick j * n
    ensures var states := MeasuredStates(cfg, F, run, n);
      forall j | 0 <= j < |ks| :: j * n < |states| && ks[j] == Balance(states[j * n])
    ensures forall j | 0 <= j < |ks| :: -(n as int) <= ks[j] <= n
  {
    var states := MeasuredStates(cfg, F, run, n);
    SampleKeys(states, n)
  }

  /** Every run has `tmax` measured ticks and fits an n-site array. */
  predicate RunsFit(cfg: Config, runs: seq<RunDraws>, n: nat, tmax: nat)
  {
    forall i | 0 <= i < |runs| :: RunFits(cfg, runs[i], n) && |runs[i].main| == tmax
  }

  lemma RunsFitPrefix(cfg: Config, runs: seq<RunDraws>, n: nat, tmax: nat, k: nat)
    requires RunsFit(cfg, runs, n, tmax)
    requires k <= |runs|
    ensures RunsFit(cfg, runs[..k], n, tmax)
  {
    assert forall i | 0 <= i < k :: runs[..k][i] == runs[i];
  }

  /** The keys of every run, in run order. */
  function AllRunKeys(cfg: Config, F: real, runs: seq<RunDraws>, n: nat): (kss: seq<seq<int>>)
    requires F >= 0.0 && n > 0
    requires forall i | 0 <= i < |runs| :: RunFits(cfg, runs[i], n)
    ensures |kss| == |runs|
    ensures forall i | 0 <= i < |runs| :: kss[i] == RunKeys(cfg, F, runs[i], n)
  {
    seq(|runs|, i requires 0 <= i < |runs| => RunKeys(cfg, F, runs[i], n))
  }

  /** The `Counter` updated with every key list in turn. */
  function Histogram(kss: seq<seq<int>>): (h: multiset<int>)
  {
    if |kss| == 0 then multiset{} else Histogram(kss[..|kss| - 1]) + multiset(kss[|kss| - 1])
  }

  /** Every key of every list is counted: each list's keys, with their
      multiplicities, sit inside the histogram. */
  lemma {:induction false} HistogramHoldsEach(kss: seq<seq<int>>)
    ensures forall i | 0 <= i < |kss| :: multiset(kss[i]) <= Histogram(kss)
  {
    if |kss| > 0 {
      var last := |kss| - 1;
      HistogramHoldsEach(kss[..last]);
      forall i | 0 <= i < last ensures multiset(kss[i]) <= Histogram(kss) {
        assert kss[..last][i] == kss[i];
      }
    }
  }

  /** Every bucket comes from a key some list produced. */
  lemma {:induction false} HistogramSupport(kss: seq<seq<int>>)
    ensures forall x | x in Histogram(kss) ::
      exists i, j | 0 <= i < |kss| && 0 <= j < |kss[i]| :: kss[i][j] == x
  {
    if |kss| > 0 {
      var last := |kss| - 1;
      HistogramSupport(kss[..last]);
      forall x | x in Histogram(kss)
        ensures exists i, j | 0 <= i < |kss| && 0 <= j < |kss[i]| :: kss[i][j] == x
      {
        if x in multiset(kss[last]) {
          assert x in kss[last];
          var j :| 0 <= j < |kss[last]| && kss[last][j] == x;
          assert kss[last][j] == x;
        } else {
          assert x in Histogram(kss[..last]);
          var i, j :| 0 <= i < last && 0 <= j < |kss[..last][i]| && kss[..last][i][j] == x;
          assert kss[..last][i] == kss[i];
          assert kss[i][j] == x;
        }
      }
    }
  }

  /** c keys per list make |kss| * c keys in all. */
  lemma {:induction false} HistogramSize(kss: seq<seq<int>>, c: nat)
    requires forall i | 0 <= i < |kss| :: |kss[i]| == c
    ensures |Histogram(kss)| == |kss| * c
  {
    if |kss| > 0 {
      var last := |kss| - 1;
      HistogramSize(kss[..last], c);
      assert |multiset(kss[last])| == c;
      MulSucc(last, c);
    }
  }

  /** A histogram of keys in [lo, hi] has only buckets in [lo, hi]. */
  lemma {:induction false} HistogramBounds(kss: seq<seq<int>>, lo: int, hi: int)
    requires forall i, j | 0 <= i < |kss| && 0 <= j < |kss[i]| :: lo <= kss[i][j] <= hi
    ensures forall x | x in Histogram(kss) :: lo <= x <= hi
  {
    if |kss| > 0 {
      var last := |kss| - 1;
      HistogramBounds(kss[..last], lo, hi);
      forall x | x in multiset(kss[last]) ensures lo <= x <= hi {
        assert x in kss[last];
      }
    }
  }

  /** The histogram of the first k key lists is contained, bucket by bucket, in the
      histogram of all of them. */
  lemma {:induction false} HistogramPrefix(kss: seq<seq<int>>, k: nat)
    requires k <= |kss|
    ensures Histogram(kss[..k]) <= Histogram(kss)
    decreases |kss|
  {
    if k < |kss| {
      var last := |kss| - 1;
      assert kss[..last][..k] == kss[..k];
      HistogramPrefix(kss[..last], k);
    } else {
      assert kss[..k] == kss;
    }
  }

  /** The histogram collected over the runs, in run order. */
  function SimulateDistribution(cfg: Config, F: real, runs: seq<RunDraws>, n: nat, tmax: nat)
    : (h: multiset<int>)
    requires F >= 0.0 && n > 0
    requires RunsFit(cfg, runs, n, tmax)
    // ceil(tmax / n) samples per run
    ensures |h| == |runs| * SampleCount(tmax, n)
    ensures forall k | k in h :: -(n as int) <= k <= n
  {
    var kss := AllRunKeys(cfg, F, runs, n);
    HistogramSize(kss, SampleCount(tmax, n));
    HistogramBounds(kss, -(n as int), n);
    Histogram(kss)
  }

  /** Buckets only grow: the histogram of the first runs is contained, bucket by
      bucket, in the histogram of all of them. */
  lemma BucketsOnlyGrow(cfg: Config, F: real, runs: seq<RunDraws>, n: nat, tmax: nat, k: nat)
    requires F >= 0.0 && n > 0
    requires RunsFit(cfg, runs, n, tmax)
    requires k <= |runs|
    ensures RunsFit(cfg, runs[..k], n, tmax)
    ensures SimulateDistribution(cfg, F, runs[..k], n, tmax) <= SimulateDistribution(cfg, F, runs, n, tmax)
  {
    RunsFitPrefix(cfg, runs, n, tmax, k);
    var kss := AllRunKeys(cfg, F, runs, n);
    assert AllRunKeys(cfg, F, runs[..k], n) == kss[..k];
    HistogramPrefix(kss, k);
  }

  /** The equilibration ticks are never sampled: two runs that reach the same state
      after equilibration and then receive the same measured ticks contribute the
      same keys, however different their starts and equilibration paths. */
  lemma WarmupNotSampled(cfg: Config, F: real, run1: RunDraws, run2: RunDraws, n: nat)
    requires F >= 0.0 && n > 0
    requires RunFits(cfg, run1, n) && RunFits(cfg, run2, n)
    requires Final(cfg, run1.init, F, run1.warmup) == Final(cfg, run2.init, F, run2.warmup)
    requires run1.main == run2.main
    ensures RunKeys(cfg, F, run1, n) == RunKeys(cfg, F, run2, n)
  {
  }

  /** Dividing by the sum: None when the weights sum to zero (NumPy's NaN), the
      empty array for no weights. */
  function Normalize(ws: seq<real>): (ns: Option<seq<real>>)
    ensures ns.None? <==> |ws| > 0 && Sum(ws) == 0.0
    ensures ns.Some? ==> |ns.value| == |ws|
    // the normalised weights sum to 1
    ensures ns.Some? && |ws| > 0 ==> Sum(ns.value) == 1.0
    // each normalised weight is its weight's share of the total
    ensures ns.Some? ==> forall i | 0 <= i < |ws| :: ns.value[i] * Sum(ws) == ws[i]
  {
    if |ws| == 0 then Some([])
    else
      var total := Sum(ws);
      if total == 0.0 then None
      else
        var ns := seq(|ws|, i requires 0 <= i < |ws| => ws[i] / total);
        SumScale(ws, total);
        assert Sum(ns) == total / total;
        Some(ns)
  }

  /** Normalisation keeps the ratio between any two buckets. */
  lemma NormalizeKeepsRatios(ws: seq<real>, i: int, j: int)
    requires Normalize(ws).Some?
    requires 0 <= i < |ws| && 0 <= j < |ws|
    ensures Normalize(ws).value[i] * ws[j] == Normalize(ws).value[j] * ws[i]
  {
    var ns := Normalize(ws).value;
    var t := Sum(ws);
    assert ns[i] * t == ws[i] && ns[j] * t == ws[j];
    assert ns[i] * ws[j] == ns[i] * (ns[j] * t);
    assert ns[j] * ws[i] == ns[j] * (ns[i] * t);
  }

  /** Normalising a normalised distribution leaves it unchanged. */
  lemma NormalizeIdempotent(ws: seq<real>)
    requires Normalize(ws).Some?
    ensures Normalize(Normalize(ws).value) == Normalize(ws)
  {
    var ns := Normalize(ws).value;
    if |ns| > 0 {
      assert Sum(ns) == 1.0;
      assert seq(|ns|, i requires 0 <= i < |ns| => ns[i] / Sum(ns)) == ns;
    }
  }

  /** The bucket counts of `h` over the keys `xs`, as reals. */
  function Counts(h: multiset<int>, xs: seq<int>): (cs: seq<real>)
    ensures |cs| == |xs|
    ensures forall i | 0 <= i < |xs| :: cs[i] == h[xs[i]] as real
  {
    seq(|xs|, i requires 0 <= i < |xs| => h[xs[i]] as real)
  }

  /** Removing every copy of x removes h[x] elements. */
  lemma {:induction false} RemoveAll(h: multiset<int>, x: int)
    ensures |h| == |h[x := 0]| + h[x]
    decreases h[x]
  {
    if h[x] > 0 {
      var h2 := h - multiset{x};
      assert h == h2 + multiset{x};
      assert h2[x := 0] == h[x := 0];
      RemoveAll(h2, x);
    } else {
      assert h[x := 0] == h;
    }
  }

  /** The bucket counts over distinct keys that cover every key add up to the
      number of samples. */
  lemma {:induction false} CountsCoverAll(h: multiset<int>, xs: seq<int>)
    requires forall i, j | 0 <= i < j < |xs| :: xs[i] != xs[j]
    requires forall k | k in h :: k in xs
    ensures Sum(Counts(h, xs)) == |h| as real
  {
    if |xs| == 0 {
      forall k ensures h[k] == 0 {
        assert k !in xs;
      }
      assert h == multiset{};
    } else {
      var last := |xs| - 1;
      var x := xs[last];
      SupportDropLast(h, h[x := 0], xs);
      CountsCoverAll(h[x := 0], xs[..last]);
      CountsLast(h, xs);
      RemoveAll(h, x);
    }
  }

  /** The bucket count of the last key, plus the counts of the other keys once
      that bucket is emptied. */
  lemma CountsLast(h: multiset<int>, xs: seq<int>)
    requires |xs| > 0
    requires forall i, j | 0 <= i < j < |xs| :: xs[i] != xs[j]
    ensures Sum(Counts(h, xs))
      == Sum(Counts(h[xs[|xs| - 1] := 0], xs[..|xs| - 1])) + h[xs[|xs| - 1]] as real
  {
    var last := |xs| - 1;
    var x := xs[last];
    var cs, cs2 := Counts(h, xs), Counts(h[x := 0], xs[..last]);
    forall i | 0 <= i < last ensures cs[..last][i] == cs2[i] {
      assert xs[i] != x;
    }
    assert cs[..last] == cs2;
  }

  /** With the last key's bucket emptied, every remaining key is among the others. */
  lemma SupportDropLast(h: multiset<int>, h2: multiset<int>, xs: seq<int>)
    requires |xs| > 0 && h2 == h[xs[|xs| - 1] := 0]
    requires forall i, j | 0 <= i < j < |xs| :: xs[i] != xs[j]
    requires forall k | k in h :: k in xs
    ensures forall k | k in h2 :: k in xs[..|xs| - 1]
  {
    var last := |xs| - 1;
    forall k | k in h2 ensures k in xs[..last] {
      var i :| 0 <= i < |xs| && xs[i] == k;
      assert i != last;
      assert xs[..last][i] == k;
    }
  }

  /** The normalised bucket counts over keys that are exactly the keys of a
      non-empty histogram are the buckets' shares of all samples. */
  lemma Shares(h: multiset<int>, xs: seq<int>)
    requires StrictlyAscending(xs)
    requires forall i | 0 <= i < |xs| :: xs[i] in h
    requires forall k | k in h :: k in xs
    requires |xs| > 0
    ensures |h| > 0
    ensures Normalize(Counts(h, xs)).Some?
    ensures forall i | 0 <= i < |xs| ::
      Normalize(Counts(h, xs)).value[i] == h[xs[i]] as real / |h| as real
    ensures forall i | 0 <= i < |xs| :: 0.0 < Normalize(Counts(h, xs)).value[i] <= 1.0
  {
    CountsCoverAll(h, xs);
    RemoveAll(h, xs[0]);
    forall i | 0 <= i < |xs|
      ensures Normalize(Counts(h, xs)).value[i] == h[xs[i]] as real / |h| as real
      ensures 0.0 < Normalize(Counts(h, xs)).value[i] <= 1.0
    {
      ShareAt(h, xs, i);
    }
  }

  lemma ShareAt(h: multiset<int>, xs: seq<int>, i: int)
    requires 0 <= i < |xs| && xs[i] in h
    requires Sum(Counts(h, xs)) == |h| as real
    requires |h| > 0
    ensures Normalize(Counts(h, xs)).Some?
    ensures Normalize(Counts(h, xs)).value[i] == h[xs[i]] as real / |h| as real
    ensures 0.0 < Normalize(Counts(h, xs)).value[i] <= 1.0
  {
    var cs := Counts(h, xs);
    var ys := Normalize(cs).value;
    RemoveAll(h, xs[i]);
    assert ys[i] * Sum(cs) == cs[i];
    ShareOf(ys[i], h[xs[i]], |h|);
  }

  lemma ShareOf(y: real, c: nat, total: nat)
    requires 0 < c <= total
    requires y * total as real == c as real
    ensures y == c as real / total as real
    ensures 0.0 < y <= 1.0
  {
    var t := total as real;
    var q := c as real / t;
    assert q * t == c as real;
    assert (y - q) * t == 0.0;
    assert (1.0 - y) * t == t - c as real;
  }

  /** `get_normalized`: the keys in ascending order and the fraction of samples in
      each bucket. */
  function GetNormalized(h: multiset<int>): (xy: (seq<int>, seq<real>))
    ensures StrictlyAscending(xy.0)
    ensures forall k :: k in xy.0 <==> k in h
    ensures |xy.1| == |xy.0|
    ensures |h| == 0 ==> xy.0 == [] && xy.1 == []
    // each bucket's weight is its share of all samples
    ensures forall i | 0 <= i < |xy.0| :: xy.1[i] == h[xy.0[i]] as real / |h| as real
    ensures forall i | 0 <= i < |xy.1| :: 0.0 < xy.1[i] <= 1.0
    // a non-empty histogram normalises to a distribution
    ensures |h| > 0 ==> Sum(xy.1) == 1.0
  {
    var xs := Sorted(set k | k in h);
    if |xs| == 0 then
      ([], [])
    else
      forall i | 0 <= i < |xs| ensures xs[i] in h {
        assert xs[i] in xs;
      }
      forall k | k in h ensures k in xs {
        assert k in (set k | k in h);
      }
      Shares(h, xs);
      (xs, Normalize(Counts(h, xs)).value)
  }
}
