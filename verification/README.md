# Nucleosome mark dynamics: a verified model of the step engine and its collectors

This project models the core of six simulation scripts of epigenetic
bistability. An array of N nucleosomes carries marks A (acetylated), U
(unmodified) and M (methylated). Each tick picks a target site n1. With
probability alpha = F / (F + 1) the tick is a recruited conversion: a recruiter
site, or a pair of them, pushes the target one step towards its own mark. Otherwise
the tick is a noise conversion. Statistics collectors consume the trajectory:

- the 1.5x dominance label and the lifetime of dominant runs;
- the gap score |M - A| / (M + A), averaged per tick or sampled every N ticks;
- the histogram of M - A sampled every N ticks, and its normalisation.

The randomness is not modelled as randomness. Every draw of a step
(target index, coin, recruiter indices, direction coin, power-law distance,
noise real) is a field of an explicit `Draws` value. A run is a value too: the
initial state and the draws of its equilibration and measured ticks. Given
these, every operation is a pure function.

Structure:

- `Marks`, `Rules`, `Recruit` and `RandomDraws` hold the marks, the noise rule,
  the three feedback tables (both enzymes, modify only, demodify only), the four
  recruiter modes and the draws.
- `Engine` defines one step function, parameterised by recruiter mode, regime
  and the source of the noise draws. It also defines trajectories and runs.
- `CoopNoncoop`, `Spatial`, `AvgLifetime` and `Bistability` restate each
  script's step function branch by branch, with its own guards. Each step function's contract
  says it is an instance of `Engine.Step`.
- The non-cooperative, neighbour and power-law steps take their noise branch by
  calling another step function with F = 0. That call draws its target anew, so
  these steps receive a second set of draws.
- `Gap`, `Distribution`, `SortedKeys`, `AvgLifetime` and `Bistability` model the
  collectors. `Stride` models sampling every N-th state; `Sums` models sums and
  means.

The file core_code/pd_coop_noncoop.py repeats the six step functions of
core_code/coop_noncoop.py line for line. The file core_code/pd_spatial_recrut.py
repeats the three models of core_code/spatial_recuit.py line for line, except
that it names the neighbour model `neighbor_limited` instead of
`neighbour_limited`. Each step function is modelled once, and the rows below
cite whichever copy is more telling.

Behaviour of the scripts that the model keeps:

- The lifetime tracker keeps a run of unclassified (None) steps open and counts
  it, but never records it. The recorded durations are those of the M and A
  runs only.
- The scripts check none of their parameters. The model states what the
  operations need as preconditions: F >= 0, N >= 1, draws inside their ranges,
  and for the power-law model a distance in [1, N - 1]. The lines under
  "Left out" say which of these the scripts would meet with an error instead.
- `get_normalized` of an empty Counter returns an empty list of keys and an
  empty array of weights; the model returns two empty sequences.

## Model

| member | source | states |
|---|---|---|
| Marks.FromCode | core_code/coop_noncoop.py:14 | The codes A = 0, U = 1, M = 2 decode to a mark exactly when they lie in 0..2, and decoding inverts encoding |
| Marks.CodeRoundTrip | core_code/pd_coop_noncoop.py:15 | Encoding a mark as its integer code and decoding gives the mark back |
| Marks.CodeInjective | core_code/spatial_recuit.py:14 | The three marks have three distinct codes |
| Marks.CountOf | core_code/coop_noncoop.py:138-139 | A mark's count never exceeds the number of sites |
| Marks.CountIsMultiplicity | core_code/coop_noncoop.py:138-139 | The count `np.sum(state == m)` is the number of occurrences of m in the state |
| Marks.CountsPartition | bistability.py:82-84 | At every state the M, A and U counts add up to the number of sites |
| Marks.CountOfUpdate | core_code/coop_noncoop.py:30-34 | Writing one site moves exactly one unit from the old mark's count to the new mark's count and leaves the third count alone |
| Marks.BalanceBounds | core_code/pd_coop_noncoop.py:142-145 | Every M - A key lies in [-N, N], since M + A <= N |
| Marks.BalanceUpdate | core_code/coop_noncoop.py:38-42 | A one-site write changes M - A by the difference of the two marks' positions on the A - U - M axis |
| Rules.Noise | core_code/coop_noncoop.py:37-42 | A and M decay to U exactly when r < 1/3 and otherwise keep their mark; U goes to A exactly when r < 1/3, to M exactly when 1/3 <= r < 2/3, and stays U otherwise |
| Rules.Feedback | core_code/coop_noncoop.py:28-34 | In every regime a U recruiter and a target already carrying the recruiter's mark are left alone, and every change passes through U one step towards the recruiter; modify-only changes only a U target, and demodify-only only clears an A or M target |
| Rules.FullChangesExactlyOtherMarks | core_code/spatial_recuit.py:27-37 | With an A or M recruiter, the full table changes the target exactly when the target's mark differs from the recruiter's |
| Rules.FullIsUnionOfOneSided | core_code/coop_noncoop.py:64-105 | The Case A table does to a U target what the Case B table does, and to an A or M target what the Case C table does |
| Rules.NoDirectFlip | core_code/coop_noncoop.py:28-42 | No noise or feedback conversion maps A directly to M or M directly to A |
| Recruit.WrapOnce | core_code/spatial_recuit.py:59 | For an index at most one array length outside [0, N), Python's modulus wraps it once into range |
| Recruit.NeighbourIndex | core_code/spatial_recuit.py:59 | The neighbour recruiter lies in [0, N), is a circular neighbour of the target, and differs from it when N >= 2 |
| Recruit.PowerLawIndex | core_code/pd_spatial_recrut.py:93-95 | For a distance d in [1, N-1], the recruiter lies in [0, N), sits at circular distance d on one side of the target, and is never the target |
| Recruit.Recruiters | core_code/coop_noncoop.py:27 | The cooperative step consults two recruiter sites, every other step one, and all of them lie inside the array |
| Recruit.Verdict | core_code/coop_noncoop.py:27-28 | A recruitment verdict exists exactly when every consulted recruiter carries one and the same non-U mark, and the verdict is that mark |
| Recruit.VerdictIsLocal | core_code/coop_noncoop.py:49-50 | The verdict depends only on the marks at the consulted recruiter sites: two states that agree there get the same verdict |
| Recruit.ConsensusAgreesWithSingle | core_code/coop_noncoop.py:27-28 | Whenever the cooperative pair reaches a verdict, the single recruiter drawn first reaches the same one |
| Recruit.CoopWithEqualDrawsIsGlobal | core_code/coop_noncoop.py:50-51 | The consensus of two recruiter draws that land on the same site is the verdict of that single recruiter |
| Engine.Alpha | core_code/coop_noncoop.py:24-26 | For F >= 0 the feedback probability lies in [0, 1), and it is 0 exactly when F = 0, so the coin never lands on feedback at F = 0 |
| Engine.AlphaMonotone | core_code/spatial_recuit.py:21 | A larger F gives a strictly larger feedback probability |
| Engine.FeedbackTick | core_code/coop_noncoop.py:26-34 | A feedback tick changes only the target, changes nothing without a verdict, and moves M - A by at most one |
| Engine.NoiseTick | core_code/coop_noncoop.py:35-42 | A noise tick changes only its target and moves M - A by at most one |
| Engine.Step | core_code/coop_noncoop.py:22-43 | Every step keeps the length, changes at most the one site its draws select, and moves M - A by at most one; at F = 0 it applies the noise rule at the noise target |
| Engine.UnmodifiedRecruiterChangesNothing | core_code/spatial_recuit.py:61 | On the feedback coin, a single-recruiter step whose recruiter is U returns the state unchanged |
| Engine.Trajectory | core_code/coop_noncoop.py:132-136 | A trajectory has one state per tick, and each state has the initial number of sites |
| Engine.TrajectoryAppend | core_code/pd_coop_noncoop.py:137-140 | Running the equilibration ticks and then the measured ticks is running their concatenation, and the measured part starts from the equilibrated state |
| Engine.MeasuredIsSuffix | core_code/pd_coop_noncoop.py:136-141 | The states the collectors observe are exactly the states of the whole run after its first Teq ticks |
| CoopNoncoop.NoiseInline | core_code/coop_noncoop.py:35-42 | The noise branch written inline in the cooperative steps sets the target to the mark the shared noise rule gives, and changes no other site |
| CoopNoncoop.StepCoopA | core_code/coop_noncoop.py:22-43 | Cooperative Case A is the unified engine with two-recruiter consensus, the full table, and noise at its own target |
| CoopNoncoop.StepNoncoopA | core_code/coop_noncoop.py:45-60 | Non-cooperative Case A is the unified engine with one global recruiter and the full table; its noise branch uses the redrawn target of the nested F = 0 call |
| CoopNoncoop.StepCoopB | core_code/coop_noncoop.py:64-80 | Cooperative Case B is the unified engine with consensus and the modify-only table |
| CoopNoncoop.StepNoncoopB | core_code/coop_noncoop.py:82-93 | Non-cooperative Case B is the unified engine with one recruiter, the modify-only table and redrawn noise |
| CoopNoncoop.StepCoopC | core_code/coop_noncoop.py:97-113 | Cooperative Case C, which lacks the non-U check, is the unified engine with consensus and the demodify-only table |
| CoopNoncoop.StepNoncoopC | core_code/coop_noncoop.py:115-125 | Non-cooperative Case C, which has no non-U check at all, is the unified engine with one recruiter, the demodify-only table and redrawn noise |
| CoopNoncoop.CoopCGuardRedundant | core_code/pd_coop_noncoop.py:104-106 | Cooperative Case C without the non-U check behaves identically to the same function with the check |
| CoopNoncoop.CoopAtZeroIsNoise | core_code/pd_coop_noncoop.py:25-43 | Called with F = 0, each cooperative step applies the noise rule to its own target |
| CoopNoncoop.NoncoopNoiseUsesRedraw | core_code/coop_noncoop.py:58-59 | On the noise coin, each non-cooperative step converts the target of the nested call, an independent draw, by the noise rule |
| CoopNoncoop.NoncoopIsCoopWithOneRecruiter | core_code/coop_noncoop.py:49-57 | On the feedback coin, each non-cooperative step equals the cooperative one whose second recruiter is drawn equal to the first |
| CoopNoncoop.StepsTouchOneSite | core_code/coop_noncoop.py:22-125 | All six step functions keep the array length; the cooperative ones change no site but their own target, and the non-cooperative ones none but the feedback target or, on the noise coin, the redrawn target |
| Spatial.RecruitedAt | core_code/spatial_recuit.py:26-37 | The recruited conversion written inline in the spatial models sets the target to the two-enzyme table's result for the recruiter's mark, and changes no other site |
| Spatial.Standard | core_code/spatial_recuit.py:19-46 | The standard model is the unified engine with one global recruiter, the full table and noise at its own target |
| Spatial.NeighbourLimited | core_code/spatial_recuit.py:51-74 | The neighbour-limited model is the unified engine with the neighbour recruiter, the full table, and noise from the nested standard(state, 0) call |
| Spatial.PowerLawContact | core_code/spatial_recuit.py:80-109 | The power-law model is the unified engine with the recruiter at the drawn distance, the full table and noise from the nested call |
| Spatial.StandardIsNoncoopFullFeedback | core_code/spatial_recuit.py:26-37 | On the feedback coin the standard model equals non-cooperative Case A |
| Spatial.UnmodifiedRecruiterInert | core_code/spatial_recuit.py:96-106 | In all three spatial models, on the feedback coin, a U recruiter leaves the state unchanged |
| Spatial.SpatialNoiseIsStandardAtZero | core_code/spatial_recuit.py:72-73 | On the noise coin the neighbour and power-law models apply the noise rule at the target drawn by standard(state, 0) |
| Spatial.SpatialTouchOneSite | core_code/pd_spatial_recrut.py:21-111 | Each spatial model keeps the array length and changes at most one site |
| Stride.CeilStep | core_code/pd_coop_noncoop.py:139-140 | Extending the window by one tick adds a sample exactly when the new tick index is a multiple of N |
| Stride.Strided | core_code/coop_noncoop.py:135-137 | Sampling at i % N == 0 keeps ceil(T / N) states, and the j-th sample is the state after tick j * N |
| Sums.Mean | core_code/coop_noncoop.py:143 | The mean is the value that, taken once per element, adds up to the sum |
| Sums.MeanUnit | core_code/coop_noncoop.py:143 | The mean of values in [0, 1] lies in [0, 1] |
| Sums.MeanConstant | avg_lifetime.py:114 | The mean of equal values is that value |
| Gap.GapSample | core_code/coop_noncoop.py:140-141 | The gap of a state with an M or A site lies in [0, 1]; it is 0 exactly when M = A, and 1 exactly when one of the two marks is absent |
| Gap.GapOf | core_code/spatial_recuit.py:133-136 | A state yields a gap sample exactly when M + A > 0 |
| Gap.GapValues | core_code/coop_noncoop.py:134-141 | One gap sample is recorded per sampled state with an M or A site, each in [0, 1], and none exactly when every sampled state is all-U |
| Gap.GapValuesPlaces | core_code/coop_noncoop.py:140-141 | The sample of each marked state is its own gap, recorded after the samples of the marked states before it |
| Gap.SampledGap | core_code/spatial_recuit.py:128-139 | A run's gap is the mean of the gap samples of its sampled states, in [0, 1], and is missing exactly when no sampled state had an M or A site |
| Gap.RunGap | core_code/coop_noncoop.py:130-141 | The mean gap of one run, sampled every N measured ticks, lies in [0, 1] |
| Gap.Defined | core_code/coop_noncoop.py:142-143 | One value is kept per run that produced a sample, none exactly when no run did, and values in [0, 1] stay in [0, 1] |
| Gap.DefinedPlaces | core_code/coop_noncoop.py:142-143 | Each defined entry is kept, in order: it follows the values of the defined entries before it |
| Gap.MeanOfDefined | core_code/coop_noncoop.py:142-144 | The mean over the runs that produced a sample exists exactly when some run did, lies in [0, 1], and is the mean of the kept values |
| Gap.RunSimulationAvg | core_code/coop_noncoop.py:128-144 | The averaged order parameter is the mean of the per-run means of the runs that produced a gap sample; it lies in [0, 1], and is defined exactly when some run produced one |
| AvgLifetime.Step | avg_lifetime.py:21-50 | This script's step, without a non-U check and with an explicit stays-U case, is the unified engine with one global recruiter and the full table |
| AvgLifetime.Classify | avg_lifetime.py:70-76 | The label is M exactly when 2M > 3A, and A exactly when 2A > 3M; balanced counts, including all-U, are unclassified |
| AvgLifetime.TrailBlock | avg_lifetime.py:79-80 | The open run is the maximal block of equal labels at the end of the sequence: all its labels equal the last one, and the label before it differs |
| AvgLifetime.DurationsPositive | avg_lifetime.py:81-89 | Every recorded duration is at least one step |
| AvgLifetime.DurationsSum | avg_lifetime.py:78-89 | The recorded durations add up to the number of steps with a dominance label |
| AvgLifetime.DurationsExample | avg_lifetime.py:78-89 | The labels M, M, M, None, A, A, None, None, M give the durations 3, 2, 1 |
| AvgLifetime.TrackDurations | avg_lifetime.py:61-89 | The loop that extends or closes the open run produces exactly the run-length encoding of the labelled blocks |
| AvgLifetime.LifetimeOfLabels | avg_lifetime.py:87-92 | The lifetime is 0 exactly when no step was labelled; otherwise it is at least 1, and equals the number of labelled steps divided by the number of recorded runs |
| AvgLifetime.CalculateLifetime | avg_lifetime.py:55-92 | The lifetime of a Tmax-step trajectory is 0 exactly when no state was dominant, and otherwise at least 1 |
| AvgLifetime.MeanDuration | avg_lifetime.py:92 | The mean of at least one positive duration is at least 1, and the empty list gives 0 |
| AvgLifetime.TickGap | avg_lifetime.py:109-112 | An all-U tick adds 0, and any other tick adds the gap sample of its M and A counts, in [0, 1] |
| AvgLifetime.TickGapSum | avg_lifetime.py:107-112 | Summing a score per tick, with 0 for all-U ticks, gives the same total as summing only the gap samples of the marked ticks |
| AvgLifetime.ComputeGapMeasure | avg_lifetime.py:97-114 | The measure is the mean over all Tmax post-equilibration ticks, with all-U ticks scoring 0 but counted; it lies in [0, 1], and is missing only for Tmax = 0 |
| AvgLifetime.GapMeasureConstant | avg_lifetime.py:107-114 | When every measured tick has gap c, the measure is c |
| SortedKeys.Sorted | core_code/pd_coop_noncoop.py:150 | The keys come out strictly ascending, each exactly once |
| Distribution.SampleKeys | core_code/pd_coop_noncoop.py:139-145 | One key is taken per N states, ceil(T / N) in all: key j is M - A of state j * N, in [-N, N] |
| Distribution.RunKeys | core_code/pd_spatial_recrut.py:125-131 | A run contributes ceil(Tmax / N) keys: key j is M - A after measured tick j * N, in [-N, N] |
| Distribution.HistogramHoldsEach | core_code/pd_coop_noncoop.py:134-146 | Every key of every run is counted: each run's keys, with their multiplicities, sit inside the Counter |
| Distribution.SimulateDistribution | core_code/pd_coop_noncoop.py:132-146 | The histogram holds runs x ceil(Tmax / N) samples, all with keys in [-N, N] |
| Distribution.HistogramSize | core_code/pd_coop_noncoop.py:134-146 | Every key adds one count, so runs of c keys each give runs x c counts in all |
| Distribution.HistogramBounds | core_code/pd_coop_noncoop.py:139-145 | When every key lies in [lo, hi], so does every bucket |
| Distribution.HistogramSupport | core_code/pd_coop_noncoop.py:144-145 | A bucket exists only for a key some run produced |
| Distribution.HistogramPrefix | core_code/pd_coop_noncoop.py:134-146 | The Counter after the first k runs is contained, bucket by bucket, in the final one |
| Distribution.BucketsOnlyGrow | core_code/pd_spatial_recrut.py:119-131 | Adding runs never shrinks a bucket |
| Distribution.WarmupNotSampled | core_code/pd_coop_noncoop.py:137-141 | Runs that equilibrate to the same state and then receive the same ticks contribute the same keys, however they started |
| Distribution.Normalize | core_code/pd_spatial_recrut.py:142-144 | Normalised weights sum to 1, each is its weight's share of the total, and a zero total gives NaN (None) |
| Distribution.NormalizeKeepsRatios | core_code/pd_coop_noncoop.py:151-152 | Normalisation keeps the ratio between any two buckets |
| Distribution.NormalizeIdempotent | core_code/pd_coop_noncoop.py:152 | Normalising an already normalised distribution leaves it unchanged |
| Distribution.CountsCoverAll | core_code/pd_coop_noncoop.py:150-151 | The bucket counts over all keys add up to the number of samples |
| Distribution.GetNormalized | core_code/pd_coop_noncoop.py:148-153 | Keys come out strictly ascending, exactly the histogram's keys; each weight is its bucket's share of all samples, in (0, 1]; weights sum to 1 for a non-empty histogram; an empty one gives two empty lists |
| Bistability.Step | bistability.py:18-51 | This script's step, with its nested noise cases, is the unified engine with one global recruiter and the full table |
| Bistability.SampleRecord | bistability.py:81-91 | Entry j holds the M, A and U counts of sample j, which add up to N; one G value is recorded per sample with M + A > 0, none exactly when all counts M + A are 0, each in [0, 1] |
| Bistability.SampleRecordPlaces | bistability.py:86-87 | The G value of a sample with M + A > 0 is the gap of its own counts, recorded after those of the earlier such samples |
| Bistability.RecordedGaps | bistability.py:86-87 | Read through the count lists, no G value is recorded exactly when every sample has M + A = 0 |
| Bistability.RecordSamples | bistability.py:76-92 | Counts are recorded exactly at i % N == 0: ceil(Tmax / N) entries per list, entry j holding the M and A counts of state j * N, each sample partitioning the N sites |
| Bistability.Observe | bistability.py:61-92 | After Teq unobserved steps, a run records ceil(Tmax / N) count triples that add up to N, and G values in [0, 1] |
| Bistability.Summarize | bistability.py:95-98 | The averages exist exactly when something was sampled; each of avg_M, avg_A and avg_U, taken once per sample, adds up to the total of its count list; G is defined exactly when some G value was recorded, and taken once per value adds up to the total of G_record |
| Bistability.AveragesPartition | bistability.py:82-98 | For Tmax > 0 the average M, A and U counts add up to N, and the average G lies in [0, 1] |

## Left out

- Random number generation: every `np.random` draw is a parameter. Its
  distribution, and any claim about stationary distributions or convergence,
  is not modelled.
- The power-law distance distribution: `1 / d**1.5`, normalised in floating
  point and sampled with `np.random.choice` (core_code/spatial_recuit.py:87-91).
  Only the index arithmetic that follows the choice of d is modelled.
- Floating point: 1/3, 2/3, 0.5, 1.5 and F / (F + 1) are exact reals. Rounding
  at the thresholds is not modelled.
- Marks.CountOf: `np.sum(state == m)` returns a 64-bit integer, and the model
  counts with unbounded integers. A count never exceeds N = 60, so it cannot
  overflow and both compute the same values.
- Draw ranges: the scripts draw sites with `np.random.randint(N)` using the
  module constant N (for example core_code/coop_noncoop.py:25 and 27). The model
  bounds draws by the length of the state instead. Every state the steps see
  has exactly N sites, so the two agree.
- NaN: `np.mean` of an empty list, and a division of non-empty weights by a zero
  sum, give NaN. Both are modelled as None.
- F < 0: α would leave [0, 1), or divide by zero at F = -1. The scripts never use
  a negative F, and the model requires F >= 0.
- N = 0: `np.random.randint(N)` raises ValueError for N = 0. The model's draws
  need N >= 1, so an empty array is outside every step's precondition.
- Spatial.PowerLawContact: requires a distance in [1, N - 1] on every call, so
  N = 1 is excluded even when the coin lands on noise. At N = 1 the script runs
  its noise branch normally and raises ValueError (an empty choice of distances)
  only on the feedback branch.
- AvgLifetime.ComputeGapMeasure: Tmax = 0 makes `gap_sum / Tmax` raise
  ZeroDivisionError. The model returns None instead.
- The random initial state `np.random.choice([A, U, M], size=N)` is a parameter
  of any length N.
- `state.copy()` and in-place mutation: states are immutable sequences, so the
  copy makes no difference.
- Parameter sweeps, `print`, and all matplotlib plotting are out of scope. So is
  the sweep call at core_code/spatial_recuit.py:150-152, which passes the number
  of runs where Tmax belongs: it is a driver, not engine logic.
- The time axis of bistability.py (`t += 1 / N` and `time.append(t)`, lines 78
  and 92): it is plotted only.
- Engine.Trajectory: its contract states only the lengths. Each state being the
  step of the previous one is its definition; a contract relating consecutive
  states would make the verifier loop.
- Gap.RunGap: states only the bounds. The exact condition for a missing mean is
  stated one level down, on Gap.SampledGap.
- AvgLifetime.CalculateLifetime: states that the result is 0 or at least 1. The
  mean as labelled steps over recorded runs is stated on
  AvgLifetime.LifetimeOfLabels, which it calls.
- Bistability.Observe: states the list lengths, the partition and the G bounds.
  The sample-by-sample content is stated on Bistability.SampleRecord.
