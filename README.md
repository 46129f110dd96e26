# Stair-Sketches evaluation harness: a Dafny model

This project models the integer core of the harness in `test.cpp`, which
evaluates time-windowed sketches: stair Bloom filters, stair count-min
sketches and their baselines.

- A data set has `W` windows. Each element `e` carries a cumulative count
  row `cnt[0..W]`, so its occurrences in window `i` are `cnt[i] - cnt[i-1]`.
  `win_data[i]` is the raw stream of window `i`.
- `build_sketch` feeds the windows to a sketch in one of two ways:
  - the **delta path** makes one batched `add(i, e, delta)` per element
    present in window `i`;
  - the **replay path** makes one `add(i, e)` per item of `win_data[i]`, in
    stream order.
- `stair_config` turns a memory budget and a level count `k` into the
  `(memory, count, factor, span)` tuples of a stair sketch.
- Each metric queries the sketch over the last `D` windows and accumulates
  integer counters:
  - `bf_test_fpr`: false positives against true negatives, per window;
  - `cnt_test_aae`: absolute errors against present elements, per window;
  - `bf_test_multi_fpr`: range hits against unchanged (range, element) pairs,
    using bitmasks, per range length;
  - `cnt_test_multi_are` and `cnt_test_multi_aae`: the `(real, ans)`
    comparisons of changed pairs, using prefix sums of per-window answers,
    per range length;
  - `bf_test_qcnt` and `cnt_test_qcnt`: the growth of the sketch's probe
    counter `qcnt()` across range queries, per range length.
  The harness then turns these counters into ratios in floating point.

The modules follow the structure of the harness:

- `Dataset` holds the counts.
- `SketchModel` holds the sketch interface. `Sketch` is a class: `history`
  records every `add` call it receives, and `probes` is its `qcnt()`
  counter. What it answers is given as functions of that history.
- `Stair` models `stair_config`.
- `Ingestion` models `build_sketch`.
- `WindowMetrics` models the per-window metrics.
- `RangeSpec` is the specification of the range enumeration: which
  (range, element) pairs qualify, and the per-length tallies.
- `Bitmask` models the masks of `bf_test_multi_fpr`.
- `RangeMetrics` models the two mask- and prefix-sum-based range metrics.
- `QueryCost` models the `qcnt` metrics.

Some consequences of `test.cpp` as written, each stated and proved in the
model:

- With `k = 0` the normaliser loop adds `(1 << 0) * 4`, so the sum is 4 and
  the single level gets `memory / 4`, not the whole budget
  (`Stair.StairMemoryBudget`).
- For `k >= 1` it is the memory fields, not `memory * count`, that add up to
  the budget: count 2 doubles every level above the base
  (`Stair.WeightsMatchNormaliser`).
- `cnt_test_aae` divides by the number of present elements even when a
  window has none. `WindowMetrics.AaeScenario` is a concrete data set where
  that happens.
- `wt` is reset only when `l` changes (test.cpp:112-113), so when range
  [1, D] is reached it holds the sum of 1/(D − r + 1) for r = 1..D; only a
  range [D, D] weighs exactly 1. For
  D = 4 that is 25/12 (`RangeSpec.FullRangeWeight`), and for every D ≥ 2 it is
  at least 3/2 (`RangeSpec.FullRangeWeightFloor`).
- For the same reason the per-length `fpr` of `bf_test_multi_fpr` is not a
  rate in [0, 1]. Every hit adds its range's weight, yet `fpr[len]` is divided
  by the unweighted count `tot[len]`. `RangeSpec.WeightedRateScenario` is a
  data set with D = W = 2 and one never-occurring element where
  `fpr[2] = 1.5 / 1`. Each hit adds at most `len` (`RangeSpec.RecencyWeightBound`).

## Model

| member | source | states |
|---|---|---|
| Stair.StairConfig | test.cpp:26-38 | k+1 levels: level 0 is (trunc(memory / (5·2^k−1)), 1, 1, 1); level i ≥ 1 has count 2, factor 4 only at i = k, span 2^(i−1), so spans double; each memory is the truncated share weighted 2^i·factor; for memory ≥ 0 the memories are non-negative and non-decreasing, they add up to at most memory, and to more than memory−(k+1) when k ≥ 1 |
| Stair.NormaliserClosedForm | test.cpp:27-29 | the normaliser loop sums to 5·2^k − 1, which is 4 when k = 0 |
| Stair.WeightsMatchNormaliser | test.cpp:29-36 | for k ≥ 1 the per-level multipliers 2^i·factor add up to the normaliser exactly; for k = 0 they add up to 1 against a normaliser of 4 |
| Stair.TruncationLoss | test.cpp:31-36 | truncating n levels loses between 0 and n·(sum−1) of the exact total memory·weights |
| Stair.StairMemoryBudget | test.cpp:26-38 | for memory ≥ 0: total level memory ≤ memory; > memory−(k+1) when k ≥ 1; exactly memory/4 when k = 0 |
| Stair.LevelMemoryMonotone | test.cpp:33-36 | for memory ≥ 0 each level's memory is non-negative and at most the next level's |
| Stair.StairMonotone | test.cpp:32-36 | any level list built from the level memories is non-negative and non-decreasing |
| Stair.StairTotal | test.cpp:32-36 | any level list built from the level memories stays within the budget and loses less than k+1 to truncation |
| Dataset.CountsMonotone | test.cpp:17 | a well-formed cumulative count row never decreases |
| Dataset.DeltaNonNegative | test.cpp:17 | the per-window occurrence count cnt[i]−cnt[i−1] is never negative |
| SketchModel.Sketch.AddDelta | test.cpp:18 | `add(i, e, d)` appends exactly one batched call to what the sketch has been fed |
| SketchModel.Sketch.Add | test.cpp:22 | `add(i, e)` appends exactly one single call to what the sketch has been fed |
| SketchModel.Sketch.Query | test.cpp:89-91 | `query(w, e)` is the sketch's answer on exactly what it has been fed; it reads only the history, so it cannot move `qcnt()` |
| SketchModel.Sketch.QCnt | test.cpp:379-381 | `qcnt()` reads only the probe counter, which `add` calls leave alone and `query_multiple_windows` advances |
| SketchModel.Sketch.QueryMultipleWindows | test.cpp:379-381 | the range query answers from what was fed and advances `qcnt()` by its probe cost and by nothing else |
| Ingestion.BuildSketch | test.cpp:12-24 | the sketch's history grows by exactly the delta-path feed or the replay-path feed, as `add_delta_implemented()` says |
| Ingestion.AddWindowDeltas | test.cpp:16-18 | the delta path for one window appends one batched call per element with a positive delta, in element order, and nothing else |
| Ingestion.ReplayWindowData | test.cpp:21-22 | the replay path for one window appends one single add per item of win_data[i], in stream order, and nothing else |
| Ingestion.DeltaFeedShape | test.cpp:14-18 | every delta-path call is batched, carries a positive delta and a window in 1..W, and the windows come in non-decreasing order |
| Ingestion.DeltaFeedFed | test.cpp:14-18 | with distinct elements, the delta path reports for e over windows lo..hi exactly cnt[min(W,hi)] − cnt[min(W,lo−1)] |
| Ingestion.ReplayWindowCalls | test.cpp:20-22 | the replay-path calls addressed to window i are exactly the items of win_data[i], in order, as single adds |
| Ingestion.ReplayFeedCallsAt | test.cpp:20-22 | inside the whole replay feed, the calls addressed to window i are exactly those of window i's replay |
| Ingestion.ReplayFeedFed | test.cpp:20-22 | when the streams agree with the counts, the replay path reports for e over lo..hi exactly cnt[min(W,hi)] − cnt[min(W,lo−1)] |
| Ingestion.FeedTotals | test.cpp:12-24 | on either path, what is fed for element k over windows lo..hi is cnt[hi] − cnt[lo−1] |
| Ingestion.ExactSketchAfterBuild | test.cpp:12-24 | a sketch answering exactly what it was fed answers cnt[i]−cnt[i−1] for every element and window after `build_sketch` |
| WindowMetrics.MeasureFpr | test.cpp:83-95 | either it aborts at a window and element that is present but queried absent, or no such pair exists and, per window, tot counts the absent elements and fp those queried present, with fp ≤ tot |
| WindowMetrics.MeasureFprWindow | test.cpp:85-93 | for one window: either a present element queried absent, or none exists and tot counts the absent elements and fp those queried present, with fp ≤ tot |
| WindowMetrics.BfTestFpr | test.cpp:80-96 | `build_sketch` followed by the measuring loop, on the sketch fed by `build_sketch`: either an abort at a present element queried absent, or no such element in any scored window and, per window, tot counts the absent elements and fp those queried present, with fp ≤ tot |
| WindowMetrics.MeasureAae | test.cpp:239-250 | per window, tot counts the present elements and err sums \|real − ans\| over them |
| WindowMetrics.CntTestAae | test.cpp:236-251 | `build_sketch` followed by the measuring loop: the same counters, on the sketch fed by `build_sketch` |
| WindowMetrics.FalsePositivesBounded | test.cpp:85-89 | false positives never exceed the true negatives they are drawn from |
| WindowMetrics.WindowSplit | test.cpp:86-92 | per window, absent and present elements add up to elem_cnt |
| WindowMetrics.ExactAnswersNoError | test.cpp:86-92 | a window answered exactly has no false positive, no false negative and zero absolute error |
| WindowMetrics.ExactSketchNoError | test.cpp:80-96 | an exact sketch after `build_sketch` scores zero false positives and zero absolute error in every window |
| WindowMetrics.AaeScenario | test.cpp:241-249 | a well-formed data set (W = 5, D = 3) whose middle window holds no element, so the `aae` division there has tot = 0 |
| RangeSpec.PrefixDifference | test.cpp:176-180 | the prefix sum up to r minus the prefix sum up to l−1 is the sum of the answers over l..r |
| RangeSpec.SelectorsSplit | test.cpp:116 | for a fixed range, the unchanged and changed elements add up to elem_cnt |
| RangeSpec.RangeBucketsSplit | test.cpp:111-119 | for each length len, the unchanged pairs (`bf_test_multi_fpr`'s tot) plus the changed pairs (`cnt_test_multi_*`'s tot) come to (D−len+1)·elem_cnt |
| RangeSpec.RangeCountClosedForm | test.cpp:111-113 | the ranges 1 ≤ l ≤ r ≤ D number D(D+1)/2 |
| RangeSpec.AllRangesTotal | test.cpp:184-190 | over all lengths, twice the unchanged plus changed pairs is elem_cnt·D(D+1) |
| RangeSpec.AllSamplesWellFormed | test.cpp:188-191 | every compared (l, r, k) has 1 ≤ l ≤ r ≤ D, real = cnt difference > 0, and ans = the sum of the answers over the range |
| RangeSpec.ExactQuerySum | test.cpp:176-191 | for an exact sketch the answers over a range telescope to cnt[start+r] − cnt[start+l−1] |
| RangeSpec.ExactSamples | test.cpp:188-192 | for an exact sketch every comparison has ans = real |
| RangeSpec.HitsWithinTally | test.cpp:116-118 | for one range, the hits never exceed the qualifying elements |
| RangeSpec.HitsWithinOccurrences | test.cpp:115-119 | per length, the hits never exceed the unchanged pairs |
| RangeSpec.ScoreOf | test.cpp:115-119 | the score of range [l, r] names that range and has no more hits than unchanged elements |
| RangeSpec.RowScoresPart | test.cpp:112-120 | the scores of one row add up, per length, to that length's share of the row |
| RangeSpec.AllScoresBuckets | test.cpp:111-121 | over all ranges, the scores of length len add up to tot[len] and to the unweighted hits of that length |
| RangeSpec.AllScoresWellFormed | test.cpp:111-113 | every score is that of a range with 1 ≤ l ≤ r ≤ D |
| RangeSpec.RecencyWeight | test.cpp:112-113 | `wt` when range [l, r] is reached, in exact arithmetic: never negative, and positive once the range is non-empty |
| RangeSpec.WeightedHits | test.cpp:115-118 | `fpr[len]` before its division: each hit of a range of length len adds that range's `wt`; never negative |
| RangeSpec.RecencyWeightBound | test.cpp:113 | `wt` at range [l, r] lies between 0 and r−l+1, so a hit adds at most len to `fpr[len]` |
| RangeSpec.FullRangeWeight | test.cpp:112-113 | with D = 4 the full range [1, 4] weighs 25/12 and the range [4, 4] weighs 1 |
| RangeSpec.FullRangeWeightFloor | test.cpp:112-113 | the full range [1, D] weighs at least 1, and at least 3/2 when D ≥ 2 |
| RangeSpec.WeightedRateScenario | test.cpp:111-122 | a well-formed data set with D = W = 2 where tot[2] = 1, one hit, and the weighted `fpr[2]` is 1.5 |
| RangeSpec.ExactNotQueried | test.cpp:116-118 | an exact sketch answers zero on every window of a range in which the element does not change |
| RangeSpec.ExactNoRangeFalsePositives | test.cpp:111-121 | an exact sketch scores no range hit on unchanged pairs |
| Bitmask.QueryMaskBit | test.cpp:106-110 | bit j of mask[k] is set exactly when 1 ≤ j ≤ D and window start+j answered non-zero |
| Bitmask.RangeMaskBits | test.cpp:112-114 | `_mask` holds exactly bits l..r |
| Bitmask.NoCarry | test.cpp:114 | `_mask += 1 << r` never carries, since bit r is clear before it |
| Bitmask.RangeHit | test.cpp:118 | `mask[k] & _mask` is non-zero exactly when some window of l..r answered non-zero for element k |
| RangeMetrics.BuildMasks | test.cpp:106-110 | mask[k] is the set of answered-positive windows of element k |
| RangeMetrics.ScoreUnchangedRange | test.cpp:115-119 | for one range only bucket r−l+1 changes, by the unchanged elements and by their hits, and the range's score records both |
| RangeMetrics.ScoreUnchangedRow | test.cpp:112-120 | for one l, with `_mask` grown a bit per range, each length's tot and hits gain exactly the ranges [l, l+len−1], and the scores are those of r = l..D in order |
| RangeMetrics.CountRangeHits | test.cpp:111-121 | per length, tot counts the unchanged pairs and hits those whose range answered positive, with hits ≤ tot; the scores are those of every range in loop order and add up, per length, to tot and hits |
| RangeMetrics.BfTestMultiFpr | test.cpp:98-126 | `build_sketch`, masks and range loop: the same counters and scores, on the sketch fed by `build_sketch`; `fpr[len]` before its division is `WeightedHits` of the scores |
| RangeMetrics.PrefixSums | test.cpp:176-181 | sum[k][0] = 0 and sum[k][i] = sum[k][i−1] + query(start+i, e_k) |
| RangeMetrics.PrefixRowOf | test.cpp:177-180 | one row of the prefix-sum table: entry i is the sum of the answers over windows start+1..start+i |
| RangeMetrics.PrefixRowRange | test.cpp:191 | `sum[k][r] − sum[k][l−1]` is the sum of the answers over l..r |
| RangeMetrics.CompareRange | test.cpp:188-193 | for one range, bucket r−l+1 gains the changed elements, and the comparisons are exactly those elements' (real, ans) pairs |
| RangeMetrics.CompareRow | test.cpp:186-194 | for one l, each length's tot gains the changed pairs of [l, l+len−1], and the comparisons are those of r = l..D in order |
| RangeMetrics.CompareRanges | test.cpp:184-195 | per length, tot counts the changed pairs; the comparisons are all (l, r, k) with a changed count, in loop order |
| RangeMetrics.CntTestMultiRange | test.cpp:170-234 | `cnt_test_multi_are` and `cnt_test_multi_aae`, which share their integer skeleton: `build_sketch`, prefix sums and range loop; tot per length counts the changed pairs, the comparisons are all of them in loop order, and each is well formed with real > 0 |
| RangeMetrics.ExactSketchRanges | test.cpp:170-201 | after `build_sketch`, an exact sketch has ans = real in every comparison and no range hit on an unchanged pair |
| QueryCost.ProbeRange | test.cpp:376-381 | for one range, bucket r−l+1 gains the qualifying elements and the `qcnt()` growth of their range queries, and `qcnt()` grows by exactly that |
| QueryCost.ProbeRow | test.cpp:375-382 | for one l, each bucket gains its row's pairs, and `qcnt()` grows by what the buckets gain |
| QueryCost.EnumerateProbes | test.cpp:374-384 | per length, tot counts the qualifying pairs and cnt their summed probe cost; every cnt[len] ≥ 0, and the buckets add up to the whole growth of `qcnt()` |
| QueryCost.BucketsMatchLens | test.cpp:385-386 | the per-length buckets add up to the tally over all lengths |
| QueryCost.BfTestQcnt | test.cpp:365-390 | `build_sketch`, then the cost enumeration over unchanged pairs |
| QueryCost.CntTestQcnt | test.cpp:392-417 | `build_sketch`, then the cost enumeration over changed pairs |

## Left out

- Floating point is not modelled:
  - the final ratios (`fp / tot`, `fpr[i] /= tot[i]`, `are[i] /= tot[i]`, `aae[i] /= tot[i]`, `cnt[i] / tot[i]`);
  - `fabs(real − ans) / real` and the recency-weighted sums of `cnt_test_multi_are` and `cnt_test_multi_aae`.
  For these the model keeps the integer counters and the (l, r, k, real, ans) comparisons. For `bf_test_multi_fpr` it also keeps the per-range scores (l, r, unchanged, hits). `RangeSpec.WeightedHits` is the weighted numerator `fpr[len]`, with `wt` as the exact sum `RangeSpec.RecencyWeight`. Rounding of `wt` is not modelled.
- RangeMetrics.BfTestMultiFpr: the method returns the per-range scores rather than accumulating `fpr[len] += wt` hit by hit; `WeightedHits` gives the same sum in exact arithmetic. `hits[len]` is that sum with every weight 1, an auxiliary count the source does not keep.
- The closing loops of `cnt_test_multi_are` and `cnt_test_multi_aae` (test.cpp:196, 229) run `i` up to `win_num`, but `tot` has only `ds_win_num + 1` entries, so when D < W they read past it. They are floating point only and are left out with the rest of the final division.
- Stair.StairConfig: the source computes `unit = (double) memory / sum` and then truncates `unit * (1 << i) * f`. The model takes the truncated exact quotient `memory * 2^i * f / sum`. The rounding of `unit` can make a level's memory one larger or smaller: for k = 21 and memory = 1350041470, the top level gets 1080033279 in the source and 1080033278 in the model.
- Stair.StairConfig: `sum` is an `int`, so for k ≥ 29 it overflows (5·2^29 − 1 > 2^31 − 1), and `1 << i` overflows for i ≥ 31. The model's integers are unbounded, so it matches the source only for k ≤ 28. That range includes the default level count 3 of `build_scu`, `build_sbf` and `build_scm` (test.cpp:40-61).
- Bitmask.QueryMask: a mask is a set of bit positions. It does not model the 32-bit `int` overflow of `1 << i` when D ≥ 31.
- QueryCost.EnumerateProbes: `cnt` is `long long` in the source. Its overflow is not modelled.
- The 32-bit `int` prefix sums `sum[k][i]` (test.cpp:180, 213), the `int` counters `tot` and `fp`, and the `int` differences `real - ans` are unbounded integers in the model. Their overflow is not modelled. `cnt_test_aae` accumulates `fabs(real - ans)` in a double; the model sums the absolute errors exactly.
- SketchModel.Sketch.QueryMultipleWindows: the harness passes the range's own `l` and `r`, which are relative to `start`, and the model passes them the same way. Whether a sketch treats them as absolute windows belongs to the sketch, which is outside this model.
- WindowMetrics.MeasureFpr: the `assert` on a present element is modelled as an abort outcome. With `NDEBUG` the source would go on instead.
- The sketch implementations (stair filters, count-min and their baselines) are modelled only through what a `Sketch` answers. `add_delta_implemented()` is the constant `deltaImplemented`.
- `memory()` is not modelled. The harness uses it only in the diagnostic `fprintf` calls of `bf_test_stability` and `cnt_test_are` (test.cpp:150, 157).
- `bf_test_stability` and `cnt_test_stability` (test.cpp:129-151, 254-273) are not modelled. They interleave ingestion with per-window counting as the stream grows, outside the build-then-measure harness modelled here. Note that `bf_test_stability`'s delta path passes the cumulative count `elems[k].cnt[i]` (test.cpp:134) where `build_sketch` passes the per-window delta `cnt[i] - cnt[i-1]`.
- `cnt_test_are` (test.cpp:154-167) is outside the modelled core. After `build_sketch` it walks the per-window frequency table `win_set[i]`, which `Snapshot` does not carry, and scores each (element, count) pair.
- `bf_test_win_num_wfpr`, `cnt_test_win_num_ware` and `cnt_test_win_num_waae` (test.cpp:306-363) are outside the modelled core. They replay every window through `add(i, e)` rather than `build_sketch`, then count per window through `win_set` and `elem_set` lookups. `Snapshot` does not carry those tables.
- The `build_*` constructors, `weighted_score` and the `*_wfpr`, `*_ware` and `*_waae` drivers are not modelled. They construct sketches, or call a metric and aggregate its floating-point scores.
- `new` and `delete` appear as fresh arrays and sequences. Output and `fprintf` are not modelled.
- Elements are opaque integers (`elem_t`). How the data set is read and its counts computed is in `file_reader.hpp`, which is not part of this model. The model requires well-formed rows: `cnt[0] = 0`, non-decreasing, length W+1.
