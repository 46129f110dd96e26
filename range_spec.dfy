/** What the range metrics (`bf_test_multi_fpr`, `cnt_test_multi_are`,
    `cnt_test_multi_aae`, `bf_test_qcnt`, `cnt_test_qcnt`) enumerate: every
    range `[l, r]` with `1 <= l <= r <= D` of the last D windows, relative to
    `start = W - D`, and every element, bucketed by `len = r - l + 1`. */
module RangeSpec {
  import opened Dataset
  import opened SketchModel

  /** The dataset and the number `D` of scored windows. */
  datatype Scope = Scope(ds: Snapshot, d: nat)
  {
    predicate Valid() { WellFormed(ds) && d <= ds.winNum }

    /** `start = W - D`: range `[l, r]` covers windows start+l .. start+r. */
    function Base(): (base: nat)
      requires Valid()
    {
      ds.winNum - d
    }

    function N(): (n: nat) { |ds.elems| }
  }

  /** Which triples a metric looks at: elements whose count is unchanged over
      the range (truly absent, membership metrics) or changed (present, count
      metrics). */
  datatype Selector = Unchanged | Changed

  /** `cnt[start + r] == cnt[start + l - 1]` or `cnt[start + r] > cnt[start + l - 1]`. */
  predicate Qualifies(sc: Scope, sel: Selector, k: nat, l: nat, r: nat)
    requires sc.Valid()
  {
    && k < sc.N() && 1 <= l <= r <= sc.d
    && var hi, lo := sc.ds.elems[k].cnt[sc.Base() + r], sc.ds.elems[k].cnt[sc.Base() + l - 1];
       match sel
       case Unchanged => hi == lo
       case Changed => hi > lo
  }

  /** `sum[k][r] - sum[k][l - 1]`: the sketch's point answers for element k
      summed over windows start+l .. start+r. */
  function QuerySum(sc: Scope, o: Oracle, k: nat, l: nat, r: nat): (sum: int)
    requires sc.Valid() && k < sc.N() && r <= sc.d
  {
    if r < l || r == 0 then 0 else QuerySum(sc, o, k, l, r - 1) + o.Query(sc.Base() + r, sc.ds.elems[k].e)
  }

  /** Some window start+l .. start+r answers positive for element k. */
  predicate AnyQueried(sc: Scope, o: Oracle, k: nat, l: nat, r: nat)
    requires sc.Valid() && k < sc.N() && r <= sc.d
  {
    if r < l || r == 0 then false
    else AnyQueried(sc, o, k, l, r - 1) || o.Query(sc.Base() + r, sc.ds.elems[k].e) != 0
  }

  /** What a metric adds to its bucket for one qualifying triple: one
      occurrence (`tot[len]++`), one union-membership hit, or the growth of
      `qcnt()` across `query_multiple_windows(l, r, e)`. */
  datatype Measure = Occurrence | Hit(o: Oracle) | Probe(o: Oracle)

  function Value(sc: Scope, m: Measure, k: nat, l: nat, r: nat): (v: nat)
    requires sc.Valid() && k < sc.N() && r <= sc.d
  {
    match m
    case Occurrence => 1
    case Hit(o) => if AnyQueried(sc, o, k, l, r) then 1 else 0
    case Probe(o) => o.Cost(l, r, sc.ds.elems[k].e)
  }

  /** The contribution of range [l, r] and the first n elements. */
  function Tally(sc: Scope, sel: Selector, m: Measure, l: nat, r: nat, n: nat): (t: nat)
    requires sc.Valid() && n <= sc.N()
  {
    if n == 0 then 0
    else
      Tally(sc, sel, m, l, r, n - 1)
      + (if Qualifies(sc, sel, n - 1, l, r) then Value(sc, m, n - 1, l, r) else 0)
  }

  /** Bucket `len` after the ranges that start at 1..lMax. */
  function LenTally(sc: Scope, sel: Selector, m: Measure, len: nat, lMax: nat): (t: nat)
    requires sc.Valid()
  {
    if lMax == 0 then 0
    else
      LenTally(sc, sel, m, len, lMax - 1)
      + (if lMax + len - 1 <= sc.d then Tally(sc, sel, m, lMax, lMax + len - 1, sc.N()) else 0)
  }

  /** Bucket `len`'s share of the ranges [l, r'] with r' < r. */
  function RowPart(sc: Scope, sel: Selector, m: Measure, len: nat, l: nat, r: nat): (t: nat)
    requires sc.Valid() && 1 <= l
  {
    if l + len - 1 < r then Tally(sc, sel, m, l, l + len - 1, sc.N()) else 0
  }

  /** Finishing range [l, r] moves its tally into the row part of its length. */
  lemma RowPartStep(sc: Scope, sel: Selector, m: Measure, len: nat, l: nat, r: nat)
    requires sc.Valid() && 1 <= l
    ensures RowPart(sc, sel, m, len, l, r + 1)
              == RowPart(sc, sel, m, len, l, r) + (if l + len - 1 == r then Tally(sc, sel, m, l, r, sc.N()) else 0)
  {
  }

  /** Finishing the ranges that start at l completes their lengths' buckets. */
  lemma RowComplete(sc: Scope, sel: Selector, m: Measure, len: nat, l: nat)
    requires sc.Valid() && 1 <= l
    ensures LenTally(sc, sel, m, len, l) == LenTally(sc, sel, m, len, l - 1) + RowPart(sc, sel, m, len, l, sc.d + 1)
  {
  }

  /** Sum of buckets 1..upTo. */
  function BucketSum(s: seq<int>, upTo: nat): (sum: int)
    requires upTo < |s|
  {
    if upTo == 0 then 0 else BucketSum(s, upTo - 1) + s[upTo]
  }

  /** Sum of LenTally over all lengths 1..upTo. */
  function AllLens(sc: Scope, sel: Selector, m: Measure, upTo: nat): (t: nat)
    requires sc.Valid()
  {
    if upTo == 0 then 0 else AllLens(sc, sel, m, upTo - 1) + LenTally(sc, sel, m, upTo, sc.d)
  }

  // ---------------------------------------------------------------------------
  // Samples: the integer inputs of the count metrics' error terms

  /** One comparison made by `cnt_test_multi_are` / `_aae`: range [l, r],
      element k, the true count `truth = cnt[start + r] - cnt[start + l - 1]`
      and the sketch's answer `ans = sum[k][r] - sum[k][l - 1]`. */
  datatype Sample = Sample(l: nat, r: nat, k: nat, truth: int, ans: int)

  function PairSamples(sc: Scope, o: Oracle, l: nat, r: nat, n: nat): (samples: seq<Sample>)
    requires sc.Valid() && n <= sc.N()
  {
    if n == 0 then []
    else
      PairSamples(sc, o, l, r, n - 1)
      + (if Qualifies(sc, Changed, n - 1, l, r)
         then [Sample(l, r, n - 1,
                      sc.ds.elems[n - 1].cnt[sc.Base() + r] as int - sc.ds.elems[n - 1].cnt[sc.Base() + l - 1],
                      QuerySum(sc, o, n - 1, l, r))]
         else [])
  }

  /** The comparisons for ranges [l, l] .. [l, r]. */
  function RowSamples(sc: Scope, o: Oracle, l: nat, r: nat): (samples: seq<Sample>)
    requires sc.Valid()
  {
    if r < l || r == 0 then [] else RowSamples(sc, o, l, r - 1) + PairSamples(sc, o, l, r, sc.N())
  }

  /** The comparisons for all ranges starting at 1..lMax, in enumeration order. */
  function AllSamples(sc: Scope, o: Oracle, lMax: nat): (samples: seq<Sample>)
    requires sc.Valid()
  {
    if lMax == 0 then [] else AllSamples(sc, o, lMax - 1) + RowSamples(sc, o, lMax, sc.d)
  }

  // ---------------------------------------------------------------------------
  // Lemmas

  /** A prefix-sum difference is the sum over the range. */
  lemma {:induction false} PrefixDifference(sc: Scope, o: Oracle, k: nat, l: nat, r: nat)
    requires sc.Valid() && k < sc.N() && 1 <= l <= r + 1 && r <= sc.d
    ensures QuerySum(sc, o, k, 1, r) - QuerySum(sc, o, k, 1, l - 1) == QuerySum(sc, o, k, l, r)
  {
    if r >= l {
      PrefixDifference(sc, o, k, l, r - 1);
    }
  }

  /** For one range and element the `==` and `>` tests split: counts never
      decrease, so exactly one of them holds. */
  lemma {:induction false} SelectorsSplit(sc: Scope, l: nat, r: nat, n: nat)
    requires sc.Valid() && 1 <= l <= r <= sc.d && n <= sc.N()
    ensures Tally(sc, Unchanged, Occurrence, l, r, n) + Tally(sc, Changed, Occurrence, l, r, n) == n
  {
    if n > 0 {
      SelectorsSplit(sc, l, r, n - 1);
      CountsMonotone(sc.ds.elems[n - 1].cnt, sc.ds.winNum, sc.Base() + l - 1, sc.Base() + r);
    }
  }

  lemma {:induction false} LenTallySplit(sc: Scope, len: nat, lMax: nat)
    requires sc.Valid() && 1 <= len <= sc.d && lMax <= sc.d - len + 1
    ensures LenTally(sc, Unchanged, Occurrence, len, lMax) + LenTally(sc, Changed, Occurrence, len, lMax)
              == lMax * sc.N()
  {
    if lMax > 0 {
      LenTallySplit(sc, len, lMax - 1);
      SelectorsSplit(sc, lMax, lMax + len - 1, sc.N());
      assert lMax * sc.N() == (lMax - 1) * sc.N() + sc.N();
    }
  }

  lemma {:induction false} LenTallyBeyond(sc: Scope, sel: Selector, m: Measure, len: nat, lMax: nat)
    requires sc.Valid() && 1 <= len <= sc.d && sc.d - len + 1 <= lMax
    ensures LenTally(sc, sel, m, len, lMax) == LenTally(sc, sel, m, len, sc.d - len + 1)
  {
    if lMax > sc.d - len + 1 {
      LenTallyBeyond(sc, sel, m, len, lMax - 1);
    }
  }

  /** Range enumeration: for each length the double loop visits the `D - len + 1`
      ranges of that length, and on each the absent and the changed elements
      together are all `elem_cnt` of them, so
      `tot_bf[len] + tot_cnt[len] == (D - len + 1) * elem_cnt`. */
  lemma RangeBucketsSplit(sc: Scope, len: nat)
    requires sc.Valid() && 1 <= len <= sc.d
    ensures LenTally(sc, Unchanged, Occurrence, len, sc.d) + LenTally(sc, Changed, Occurrence, len, sc.d)
              == (sc.d - len + 1) * sc.N()
  {
    LenTallyBeyond(sc, Unchanged, Occurrence, len, sc.d);
    LenTallyBeyond(sc, Changed, Occurrence, len, sc.d);
    LenTallySplit(sc, len, sc.d - len + 1);
  }

  /** The number of ranges of lengths 1..upTo among the last d windows. */
  function RangeCount(d: nat, upTo: nat): (count: nat)
    requires upTo <= d
  {
    if upTo == 0 then 0 else RangeCount(d, upTo - 1) + (d - upTo + 1)
  }

  /** Over all lengths the two selections together see every element once
      per range. */
  lemma {:induction false} AllRangesSplit(sc: Scope, upTo: nat)
    requires sc.Valid() && upTo <= sc.d
    ensures AllLens(sc, Unchanged, Occurrence, upTo) + AllLens(sc, Changed, Occurrence, upTo)
              == sc.N() * RangeCount(sc.d, upTo)
  {
    if upTo > 0 {
      AllRangesSplit(sc, upTo - 1);
      RangeBucketsSplit(sc, upTo);
      var x := sc.d - upTo + 1;
      assert RangeCount(sc.d, upTo) == RangeCount(sc.d, upTo - 1) + x;
      MulAdd(sc.N(), RangeCount(sc.d, upTo - 1), x);
    }
  }

  lemma MulAdd(n: int, c: int, x: int)
    ensures n * (c + x) == n * c + x * n
  {
  }

  lemma {:induction false} RangeCountClosedForm(d: nat, upTo: nat)
    requires upTo <= d
    ensures 2 * RangeCount(d, upTo) == upTo * (2 * d - upTo + 1)
  {
    if upTo > 0 {
      RangeCountClosedForm(d, upTo - 1);
      assert upTo * (2 * d - upTo + 1) == (upTo - 1) * (2 * d - (upTo - 1) + 1) + 2 * (d - upTo + 1);
    }
  }

  /** `D * (D + 1) / 2` ranges in all: twice the grand total of both
      selections is `elem_cnt * D * (D + 1)`. */
  lemma AllRangesTotal(sc: Scope)
    requires sc.Valid()
    ensures 2 * (AllLens(sc, Unchanged, Occurrence, sc.d) + AllLens(sc, Changed, Occurrence, sc.d))
              == sc.N() * (sc.d * (sc.d + 1))
  {
    AllRangesSplit(sc, sc.d);
    RangeCountClosedForm(sc.d, sc.d);
    var n, c := sc.N(), RangeCount(sc.d, sc.d);
    assert 2 * (n * c) == n * (2 * c);
  }

  /** Every recorded comparison is over a valid range with a positive true
      count, so the harness's division by `real` is defined, and its answer is
      the range sum of the sketch's point answers. */
  predicate WellFormedSample(sc: Scope, o: Oracle, s: Sample)
    requires sc.Valid()
  {
    && 1 <= s.l <= s.r <= sc.d && s.k < sc.N()
    && s.truth == sc.ds.elems[s.k].cnt[sc.Base() + s.r] as int - sc.ds.elems[s.k].cnt[sc.Base() + s.l - 1]
    && s.truth > 0
    && s.ans == QuerySum(sc, o, s.k, s.l, s.r)
  }

  lemma {:induction false} PairSamplesWellFormed(sc: Scope, o: Oracle, l: nat, r: nat, n: nat)
    requires sc.Valid() && n <= sc.N()
    ensures forall s :: s in PairSamples(sc, o, l, r, n) ==> WellFormedSample(sc, o, s)
  {
    if n > 0 {
      PairSamplesWellFormed(sc, o, l, r, n - 1);
    }
  }

  lemma {:induction false} RowSamplesWellFormed(sc: Scope, o: Oracle, l: nat, r: nat)
    requires sc.Valid()
    ensures forall s :: s in RowSamples(sc, o, l, r) ==> WellFormedSample(sc, o, s)
  {
    if !(r < l || r == 0) {
      RowSamplesWellFormed(sc, o, l, r - 1);
      PairSamplesWellFormed(sc, o, l, r, sc.N());
    }
  }

  lemma {:induction false} AllSamplesWellFormed(sc: Scope, o: Oracle, lMax: nat)
    requires sc.Valid()
    ensures forall s :: s in AllSamples(sc, o, lMax) ==> WellFormedSample(sc, o, s)
  {
    if lMax > 0 {
      AllSamplesWellFormed(sc, o, lMax - 1);
      RowSamplesWellFormed(sc, o, lMax, sc.d);
    }
  }

  /** A sketch whose point answers are the true per-window deltas answers
      every range exactly: the prefix-sum difference telescopes to
      `cnt[start + r] - cnt[start + l - 1]`. */
  predicate ExactOn(sc: Scope, o: Oracle, k: nat)
    requires sc.Valid() && k < sc.N()
  {
    forall i :: sc.Base() < i <= sc.ds.winNum ==> o.Query(i, sc.ds.elems[k].e) == Delta(sc.ds, k, i)
  }

  lemma {:induction false} ExactQuerySum(sc: Scope, o: Oracle, k: nat, l: nat, r: nat)
    requires sc.Valid() && k < sc.N() && 1 <= l <= r + 1 && r <= sc.d
    requires ExactOn(sc, o, k)
    ensures QuerySum(sc, o, k, l, r)
              == sc.ds.elems[k].cnt[sc.Base() + r] as int - sc.ds.elems[k].cnt[sc.Base() + l - 1]
  {
    if r >= l {
      ExactQuerySum(sc, o, k, l, r - 1);
    }
  }

  /** With such a sketch every comparison finds `ans == real`: the relative and
      absolute errors of the range count metrics are all zero. */
  lemma ExactSamples(sc: Scope, o: Oracle)
    requires sc.Valid()
    requires forall k :: 0 <= k < sc.N() ==> ExactOn(sc, o, k)
    ensures forall s :: s in AllSamples(sc, o, sc.d) ==> s.ans == s.truth
  {
    AllSamplesWellFormed(sc, o, sc.d);
    forall s | s in AllSamples(sc, o, sc.d)
      ensures s.ans == s.truth
    {
      ExactQuerySum(sc, o, s.k, s.l, s.r);
    }
  }

  lemma {:induction false} BucketSumZero(s: seq<int>, upTo: nat)
    requires upTo < |s| && forall i :: 0 <= i < |s| ==> s[i] == 0
    ensures BucketSum(s, upTo) == 0
  {
    if upTo > 0 {
      BucketSumZero(s, upTo - 1);
    }
  }

  lemma {:induction false} HitsWithinTally(sc: Scope, o: Oracle, sel: Selector, l: nat, r: nat, n: nat)
    requires sc.Valid() && n <= sc.N()
    ensures Tally(sc, sel, Hit(o), l, r, n) <= Tally(sc, sel, Occurrence, l, r, n)
  {
    if n > 0 {
      HitsWithinTally(sc, o, sel, l, r, n - 1);
    }
  }

  /** The union-membership hits of a length never exceed its qualifying pairs.
      The rate `bf_test_multi_fpr` reports weighs each hit by the range's
      recency weight, so it is not bounded by 1 (see `WeightedRateScenario`). */
  lemma {:induction false} HitsWithinOccurrences(sc: Scope, o: Oracle, sel: Selector, len: nat, lMax: nat)
    requires sc.Valid()
    ensures LenTally(sc, sel, Hit(o), len, lMax) <= LenTally(sc, sel, Occurrence, len, lMax)
  {
    if lMax > 0 {
      HitsWithinOccurrences(sc, o, sel, len, lMax - 1);
      HitsWithinTally(sc, o, sel, lMax, lMax + len - 1, sc.N());
    }
  }

  // ---------------------------------------------------------------------------
  // Range scores: the integer inputs of the weighted rate of `bf_test_multi_fpr`

  /** Range [l, r] of `bf_test_multi_fpr`: how many elements are unchanged over
      it and for how many of them some window of the range answers positive.
      Each such hit adds the range's weight `wt` to bucket `r - l + 1`. */
  datatype RangeScore = RangeScore(l: nat, r: nat, qualifying: nat, hits: nat)

  function ScoreOf(sc: Scope, o: Oracle, l: nat, r: nat): (s: RangeScore)
    requires sc.Valid()
    ensures s.l == l && s.r == r && s.hits <= s.qualifying
  {
    HitsWithinTally(sc, o, Unchanged, l, r, sc.N());
    RangeScore(l, r, Tally(sc, Unchanged, Occurrence, l, r, sc.N()), Tally(sc, Unchanged, Hit(o), l, r, sc.N()))
  }

  /** The scores of ranges [l, l] .. [l, r], in the order they are visited. */
  function RowScores(sc: Scope, o: Oracle, l: nat, r: nat): (scores: seq<RangeScore>)
    requires sc.Valid()
  {
    if r < l || r == 0 then [] else RowScores(sc, o, l, r - 1) + [ScoreOf(sc, o, l, r)]
  }

  /** The scores of all ranges starting at 1..lMax, in enumeration order. */
  function AllScores(sc: Scope, o: Oracle, lMax: nat): (all: seq<RangeScore>)
    requires sc.Valid()
  {
    if lMax == 0 then [] else AllScores(sc, o, lMax - 1) + RowScores(sc, o, lMax, sc.d)
  }

  /** What the scores of length len add up to: their unchanged elements (`qualifying`), or
      (hitsOnly) their hits. */
  function ScoredPairs(scores: seq<RangeScore>, len: nat, hitsOnly: bool): (total: nat)
  {
    if scores == [] then 0
    else
      var s := scores[|scores| - 1];
      ScoredPairs(scores[..|scores| - 1], len, hitsOnly)
      + (if s.r - s.l + 1 == len then (if hitsOnly then s.hits else s.qualifying) else 0)
  }

  lemma {:induction false} ScoredPairsAppend(a: seq<RangeScore>, b: seq<RangeScore>, len: nat, hitsOnly: bool)
    ensures ScoredPairs(a + b, len, hitsOnly) == ScoredPairs(a, len, hitsOnly) + ScoredPairs(b, len, hitsOnly)
  {
    if b != [] {
      assert (a + b)[..|a + b| - 1] == a + b[..|b| - 1];
      ScoredPairsAppend(a, b[..|b| - 1], len, hitsOnly);
    } else {
      assert a + b == a;
    }
  }

  /** A row's scores of length len are that length's row part. */
  lemma {:induction false} RowScoresPart(sc: Scope, o: Oracle, len: nat, l: nat, r: nat)
    requires sc.Valid() && 1 <= l && 1 <= len
    ensures ScoredPairs(RowScores(sc, o, l, r), len, false) == RowPart(sc, Unchanged, Occurrence, len, l, r + 1)
    ensures ScoredPairs(RowScores(sc, o, l, r), len, true) == RowPart(sc, Unchanged, Hit(o), len, l, r + 1)
  {
    if r >= l && r > 0 {
      var row := RowScores(sc, o, l, r);
      assert row[..|row| - 1] == RowScores(sc, o, l, r - 1);
      RowScoresPart(sc, o, len, l, r - 1);
      RowPartStep(sc, Unchanged, Occurrence, len, l, r);
      RowPartStep(sc, Unchanged, Hit(o), len, l, r);
    }
  }

  /** The per-range scores add up, length by length, to the buckets of
      `tot` and of the unweighted hits. */
  lemma {:induction false} AllScoresBuckets(sc: Scope, o: Oracle, len: nat, lMax: nat)
    requires sc.Valid() && 1 <= len
    ensures ScoredPairs(AllScores(sc, o, lMax), len, false) == LenTally(sc, Unchanged, Occurrence, len, lMax)
    ensures ScoredPairs(AllScores(sc, o, lMax), len, true) == LenTally(sc, Unchanged, Hit(o), len, lMax)
  {
    if lMax > 0 {
      AllScoresBuckets(sc, o, len, lMax - 1);
      ScoredPairsAppend(AllScores(sc, o, lMax - 1), RowScores(sc, o, lMax, sc.d), len, false);
      ScoredPairsAppend(AllScores(sc, o, lMax - 1), RowScores(sc, o, lMax, sc.d), len, true);
      RowScoresPart(sc, o, len, lMax, sc.d);
      RowComplete(sc, Unchanged, Occurrence, len, lMax);
      RowComplete(sc, Unchanged, Hit(o), len, lMax);
    }
  }

  /** Every score is that of a range [l, r] with 1 <= l <= r <= D. */
  lemma {:induction false} AllScoresWellFormed(sc: Scope, o: Oracle, lMax: nat)
    requires sc.Valid()
    ensures forall s :: s in AllScores(sc, o, lMax) ==>
      1 <= s.l <= s.r <= sc.d && s == ScoreOf(sc, o, s.l, s.r)
  {
    if lMax > 0 {
      AllScoresWellFormed(sc, o, lMax - 1);
      RowScoresWellFormed(sc, o, lMax, sc.d);
    }
  }

  lemma {:induction false} RowScoresWellFormed(sc: Scope, o: Oracle, l: nat, r: nat)
    requires sc.Valid() && 1 <= l && r <= sc.d
    ensures forall s :: s in RowScores(sc, o, l, r) ==>
      1 <= s.l == l <= s.r <= r && s == ScoreOf(sc, o, s.l, s.r)
  {
    if r >= l && r > 0 {
      RowScoresWellFormed(sc, o, l, r - 1);
    }
  }

  /** `wt` of `bf_test_multi_fpr` once range [l, r] is reached: the sum of
      1 / (D - r' + 1) over r' = l..r, in exact arithmetic. */
  function RecencyWeight(d: nat, l: nat, r: nat): (w: real)
    requires r <= d
    ensures 0.0 <= w
    ensures 1 <= l <= r ==> 0.0 < w
  {
    if r < l || r == 0 then 0.0 else RecencyWeight(d, l, r - 1) + 1.0 / ((d - r + 1) as real)
  }

  /** `fpr[len]` before its division by `tot[len]`: every hit of a range of
      length len adds that range's weight. */
  function WeightedHits(d: nat, scores: seq<RangeScore>, len: nat): (sum: real)
    ensures 0.0 <= sum
  {
    if scores == [] then 0.0
    else
      var s := scores[|scores| - 1];
      WeightedHits(d, scores[..|scores| - 1], len)
      + (if s.r - s.l + 1 == len && s.r <= d then RecencyWeight(d, s.l, s.r) * (s.hits as real) else 0.0)
  }

  /** Each window of a range weighs between 0 and 1, so a range weighs at most
      its length: one hit adds at most len to `fpr[len]`. */
  lemma {:induction false} RecencyWeightBound(d: nat, l: nat, r: nat)
    requires r <= d
    ensures 0.0 <= RecencyWeight(d, l, r) <= (if r < l || r == 0 then 0.0 else (r - l + 1) as real)
  {
    if !(r < l || r == 0) {
      RecencyWeightBound(d, l, r - 1);
      UnitFraction(d - r + 1);
    }
  }

  lemma UnitFraction(x: nat)
    requires x >= 1
    ensures 0.0 < 1.0 / (x as real) <= 1.0
  {
  }

  /** With D = 4 the full range [1, 4] is reached after four steps of `wt`,
      so its weight is 1/4 + 1/3 + 1/2 + 1 = 25/12; the last range [4, 4]
      weighs 1. */
  lemma FullRangeWeight()
    ensures RecencyWeight(4, 1, 4) == 25.0 / 12.0
    ensures RecencyWeight(4, 4, 4) == 1.0
  {
  }

  /** The full range [1, D] collects a step of `wt` from each of its D
      windows, the last of which weighs 1, so it weighs at least 1, and at
      least 3/2 once D >= 2. */
  lemma FullRangeWeightFloor(d: nat)
    requires d >= 1
    ensures RecencyWeight(d, 1, d) >= 1.0
    ensures d >= 2 ==> RecencyWeight(d, 1, d) >= 1.5
  {
    RecencyWeightBound(d, 1, d - 1);
    if d >= 2 {
      RecencyWeightBound(d, 1, d - 2);
    }
  }

  /** Two windows, both scored, one element that never occurs, and a sketch
      that answers positive for window 1 only. Range [1, 2] is the only range
      of length 2; its element is unchanged and hit, and its weight is
      1/2 + 1/1, so `fpr[2] = 1.5 / 1`: the reported rate exceeds 1. */
  lemma WeightedRateScenario()
    ensures
      var sc, o := ScenarioScope(), ScenarioOracle();
      && sc.Valid()
      && LenTally(sc, Unchanged, Occurrence, 2, 2) == 1
      && LenTally(sc, Unchanged, Hit(o), 2, 2) == 1
      && WeightedHits(2, AllScores(sc, o, 2), 2) == 1.5
  {
    ScenarioScores();
    ScenarioWeight();
  }

  /** The data set of `WeightedRateScenario`. */
  function ScenarioScope(): Scope
  {
    Scope(Snapshot(2, [ElemRecord(7, [0, 0, 0])], [[], [], []]), 2)
  }

  /** The sketch of `WeightedRateScenario`: positive for window 1 only. */
  function ScenarioOracle(): Oracle
  {
    Oracle((log: seq<AddCall>, w: nat, e: Elem) => if w == 1 then 1 else 0,
           (log: seq<AddCall>, l: nat, r: nat, e: Elem) => 0, [])
  }

  /** The scenario's three ranges, in loop order, and its length-2 bucket. */
  lemma ScenarioScores()
    ensures
      var sc, o := ScenarioScope(), ScenarioOracle();
      && sc.Valid()
      && AllScores(sc, o, 2) == [RangeScore(1, 1, 1, 1), RangeScore(1, 2, 1, 1), RangeScore(2, 2, 1, 0)]
      && LenTally(sc, Unchanged, Occurrence, 2, 2) == 1
      && LenTally(sc, Unchanged, Hit(o), 2, 2) == 1
  {
    var sc, o := ScenarioScope(), ScenarioOracle();
    assert CountRow(sc.ds.elems[0].cnt, 2);
    assert sc.Valid();
    assert AnyQueried(sc, o, 0, 1, 1);
    var s11, s12, s22 := ScoreOf(sc, o, 1, 1), ScoreOf(sc, o, 1, 2), ScoreOf(sc, o, 2, 2);
    assert RowScores(sc, o, 1, 2) == [s11, s12];
    assert RowScores(sc, o, 2, 2) == [s22];
    assert AllScores(sc, o, 2) == [s11, s12, s22];
  }

  /** Only [1, 2] has length 2; its one hit weighs 1/2 + 1/1. */
  lemma ScenarioWeight()
    ensures WeightedHits(2, [RangeScore(1, 1, 1, 1), RangeScore(1, 2, 1, 1), RangeScore(2, 2, 1, 0)], 2) == 1.5
  {
    var s11, s12, s22 := RangeScore(1, 1, 1, 1), RangeScore(1, 2, 1, 1), RangeScore(2, 2, 1, 0);
    assert RecencyWeight(2, 1, 2) == 1.5;
    assert [s11, s12, s22][..2] == [s11, s12];
    assert [s11, s12][..1] == [s11];
    assert [s11][..0] == [];
    assert WeightedHits(2, [s11], 2) == 0.0;
    assert WeightedHits(2, [s11, s12], 2) == 1.5;
  }

  /** A sketch that answers the true deltas says no to every window of a range
      over which the element's count does not change. */
  lemma {:induction false} ExactNotQueried(sc: Scope, o: Oracle, k: nat, l: nat, r: nat)
    requires sc.Valid() && k < sc.N() && 1 <= l <= r + 1 && r <= sc.d && ExactOn(sc, o, k)
    requires sc.ds.elems[k].cnt[sc.Base() + r] == sc.ds.elems[k].cnt[sc.Base() + l - 1]
    ensures !AnyQueried(sc, o, k, l, r)
  {
    if r >= l {
      var cnt := sc.ds.elems[k].cnt;
      CountsMonotone(cnt, sc.ds.winNum, sc.Base() + l - 1, sc.Base() + r - 1);
      CountsMonotone(cnt, sc.ds.winNum, sc.Base() + r - 1, sc.Base() + r);
      ExactNotQueried(sc, o, k, l, r - 1);
    }
  }

  lemma {:induction false} ExactTallyNoHits(sc: Scope, o: Oracle, l: nat, r: nat, n: nat)
    requires sc.Valid() && n <= sc.N() && forall k :: 0 <= k < sc.N() ==> ExactOn(sc, o, k)
    ensures Tally(sc, Unchanged, Hit(o), l, r, n) == 0
  {
    if n > 0 {
      ExactTallyNoHits(sc, o, l, r, n - 1);
      if Qualifies(sc, Unchanged, n - 1, l, r) {
        ExactNotQueried(sc, o, n - 1, l, r);
      }
    }
  }

  /** An exact sketch has no false positives over any range: every bucket of
      `bf_test_multi_fpr` stays at zero hits. */
  lemma {:induction false} ExactNoRangeFalsePositives(sc: Scope, o: Oracle, len: nat, lMax: nat)
    requires sc.Valid() && forall k :: 0 <= k < sc.N() ==> ExactOn(sc, o, k)
    ensures LenTally(sc, Unchanged, Hit(o), len, lMax) == 0
  {
    if lMax > 0 {
      ExactNoRangeFalsePositives(sc, o, len, lMax - 1);
      ExactTallyNoHits(sc, o, lMax, lMax + len - 1, sc.N());
    }
  }

  /** Adding `v` to one bucket adds `v` to the bucket sum. */
  lemma {:induction false} BucketSumUpdate(s: seq<int>, t: seq<int>, upTo: nat, i: nat, v: int)
    requires upTo < |s| == |t| && 1 <= i < |s|
    requires forall j :: 0 <= j < |s| ==> t[j] == s[j] + (if j == i then v else 0)
    ensures BucketSum(t, upTo) == BucketSum(s, upTo) + (if i <= upTo then v else 0)
  {
    if upTo > 0 {
      BucketSumUpdate(s, t, upTo - 1, i, v);
    }
  }
}
