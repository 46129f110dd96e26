/** The multi-window metrics of test.cpp: `bf_test_multi_fpr` (union
    membership over a range of windows, checked with bitmasks) and
    `cnt_test_multi_are` / `cnt_test_multi_aae` (range counts, answered by
    prefix sums of the sketch's point answers). Each produces, per range
    length, the number of qualifying triples and the integer inputs of its
    floating-point score. */
module RangeMetrics {
  import opened Dataset
  import opened SketchModel
  import opened Ingestion
  import opened RangeSpec
  import opened Bitmask

  /** `mask[k]` for every element: bit i set when window start+i answers
      positive for it. */
  method BuildMasks(sketch: Sketch, sc: Scope) returns (masks: seq<Mask>)
    requires sc.Valid()
    ensures |masks| == sc.N()
    ensures forall k :: 0 <= k < sc.N() ==> masks[k] == QueryMask(sc, sketch.View(), k, sc.d)
  {
    var mask := new Mask[sc.N()](_ => {});
    var k := 0;
    while k < sc.N()
      invariant 0 <= k <= sc.N()
      invariant forall k' :: 0 <= k' < k ==> mask[k'] == QueryMask(sc, sketch.View(), k', sc.d)
    {
      mask[k] := {};
      var i := 1;
      while i <= sc.d
        invariant 1 <= i <= sc.d + 1
        invariant mask[k] == QueryMask(sc, sketch.View(), k, i - 1)
        invariant forall k' :: 0 <= k' < k ==> mask[k'] == QueryMask(sc, sketch.View(), k', sc.d)
      {
        if sketch.Query(sc.Base() + i, sc.ds.elems[k].e) != 0 {
          mask[k] := mask[k] + {i};
        }
        i := i + 1;
      }
      k := k + 1;
    }
    masks := mask[..];
  }

  /** The element loop of `bf_test_multi_fpr` for one range [l, r]: bucket
      `r - l + 1` gains the unchanged elements and, of them, those whose mask
      meets `_mask`; no other bucket changes. */
  method ScoreUnchangedRange(sc: Scope, masks: seq<Mask>, ghost o: Oracle, l: nat, r: nat, rangeMask: Mask,
                             totA: array<nat>, hitA: array<nat>) returns (score: RangeScore)
    requires sc.Valid() && |masks| == sc.N() && 1 <= l <= r <= sc.d
    requires forall k :: 0 <= k < sc.N() ==> masks[k] == QueryMask(sc, o, k, sc.d)
    requires rangeMask == RangeMask(l, r)
    requires totA.Length == sc.d + 1 && hitA.Length == sc.d + 1 && totA != hitA
    modifies totA, hitA
    ensures forall len :: 0 <= len <= sc.d ==>
      totA[len] == old(totA[len]) + (if len == r - l + 1 then Tally(sc, Unchanged, Occurrence, l, r, sc.N()) else 0)
    ensures forall len :: 0 <= len <= sc.d ==>
      hitA[len] == old(hitA[len]) + (if len == r - l + 1 then Tally(sc, Unchanged, Hit(o), l, r, sc.N()) else 0)
    ensures score == ScoreOf(sc, o, l, r)
  {
    var len := r - l + 1;
    var tot0, hit0 := totA[len], hitA[len];
    var k := 0;
    while k < sc.N()
      invariant 0 <= k <= sc.N()
      invariant forall j :: 0 <= j <= sc.d && j != len ==> totA[j] == old(totA[j]) && hitA[j] == old(hitA[j])
      invariant totA[len] == old(totA[len]) + Tally(sc, Unchanged, Occurrence, l, r, k)
      invariant hitA[len] == old(hitA[len]) + Tally(sc, Unchanged, Hit(o), l, r, k)
    {
      if sc.ds.elems[k].cnt[sc.Base() + r] == sc.ds.elems[k].cnt[sc.Base() + l - 1] {
        totA[len] := totA[len] + 1;
        RangeHit(sc, o, k, l, r);
        if Meets(masks[k], rangeMask) {
          hitA[len] := hitA[len] + 1;
        }
      }
      k := k + 1;
    }
    score := RangeScore(l, r, totA[len] - tot0, hitA[len] - hit0);
  }

  /** The ranges of `bf_test_multi_fpr` that start at l, with `_mask` grown
      one bit per range: each bucket gains its row part, and `row` holds the
      ranges' scores in visiting order. */
  method ScoreUnchangedRow(sc: Scope, masks: seq<Mask>, ghost o: Oracle, l: nat, totA: array<nat>, hitA: array<nat>)
    returns (row: seq<RangeScore>)
    requires sc.Valid() && |masks| == sc.N() && 1 <= l <= sc.d
    requires forall k :: 0 <= k < sc.N() ==> masks[k] == QueryMask(sc, o, k, sc.d)
    requires totA.Length == sc.d + 1 && hitA.Length == sc.d + 1 && totA != hitA
    modifies totA, hitA
    ensures forall len :: 1 <= len <= sc.d ==>
      && totA[len] == old(totA[len]) + RowPart(sc, Unchanged, Occurrence, len, l, sc.d + 1)
      && hitA[len] == old(hitA[len]) + RowPart(sc, Unchanged, Hit(o), len, l, sc.d + 1)
    ensures row == RowScores(sc, o, l, sc.d)
  {
    var rangeMask: Mask := {};
    row := [];
    var r := l;
    while r <= sc.d
      invariant l <= r <= sc.d + 1
      invariant rangeMask == RangeMask(l, r - 1)
      invariant forall len :: 1 <= len <= sc.d ==>
        && totA[len] == old(totA[len]) + RowPart(sc, Unchanged, Occurrence, len, l, r)
        && hitA[len] == old(hitA[len]) + RowPart(sc, Unchanged, Hit(o), len, l, r)
      invariant row == RowScores(sc, o, l, r - 1)
    {
      rangeMask := rangeMask + {r};
      var score := ScoreUnchangedRange(sc, masks, o, l, r, rangeMask, totA, hitA);
      row := row + [score];
      forall len | 1 <= len <= sc.d
        ensures RowPart(sc, Unchanged, Occurrence, len, l, r + 1)
                  == RowPart(sc, Unchanged, Occurrence, len, l, r) + (if len == r - l + 1 then Tally(sc, Unchanged, Occurrence, l, r, sc.N()) else 0)
        ensures RowPart(sc, Unchanged, Hit(o), len, l, r + 1)
                  == RowPart(sc, Unchanged, Hit(o), len, l, r) + (if len == r - l + 1 then Tally(sc, Unchanged, Hit(o), l, r, sc.N()) else 0)
      {
        RowPartStep(sc, Unchanged, Occurrence, len, l, r);
        RowPartStep(sc, Unchanged, Hit(o), len, l, r);
      }
      r := r + 1;
    }
  }

  /** The range loop of `bf_test_multi_fpr`: for each length, `tot` counts the
      (range, element) pairs whose count is unchanged over the range, and
      `hits` those of them for which `mask[k] & _mask` is non-zero, i.e. some
      window of the range answered positive. */
  method CountRangeHits(sc: Scope, masks: seq<Mask>, ghost o: Oracle)
    returns (tot: seq<nat>, hits: seq<nat>, scores: seq<RangeScore>)
    requires sc.Valid() && |masks| == sc.N()
    requires forall k :: 0 <= k < sc.N() ==> masks[k] == QueryMask(sc, o, k, sc.d)
    ensures |tot| == sc.d + 1 && |hits| == sc.d + 1
    ensures forall len :: 1 <= len <= sc.d ==>
      && tot[len] == LenTally(sc, Unchanged, Occurrence, len, sc.d)
      && hits[len] == LenTally(sc, Unchanged, Hit(o), len, sc.d)
      && hits[len] <= tot[len]
    ensures scores == AllScores(sc, o, sc.d)
    ensures forall len :: 1 <= len <= sc.d ==>
      ScoredPairs(scores, len, false) == tot[len] && ScoredPairs(scores, len, true) == hits[len]
  {
    var totA := new nat[sc.d + 1](_ => 0);
    var hitA := new nat[sc.d + 1](_ => 0);
    scores := [];
    var l := 1;
    while l <= sc.d
      invariant 1 <= l <= sc.d + 1
      invariant forall len :: 1 <= len <= sc.d ==> totA[len] == LenTally(sc, Unchanged, Occurrence, len, l - 1)
      invariant forall len :: 1 <= len <= sc.d ==> hitA[len] == LenTally(sc, Unchanged, Hit(o), len, l - 1)
      invariant scores == AllScores(sc, o, l - 1)
    {
      var row := ScoreUnchangedRow(sc, masks, o, l, totA, hitA);
      scores := scores + row;
      forall len | 1 <= len <= sc.d
        ensures totA[len] == LenTally(sc, Unchanged, Occurrence, len, l)
        ensures hitA[len] == LenTally(sc, Unchanged, Hit(o), len, l)
      {
        RowComplete(sc, Unchanged, Occurrence, len, l);
        RowComplete(sc, Unchanged, Hit(o), len, l);
      }
      l := l + 1;
    }
    tot, hits := totA[..], hitA[..];
    forall len | 1 <= len <= sc.d
      ensures hits[len] <= tot[len]
      ensures ScoredPairs(scores, len, false) == tot[len] && ScoredPairs(scores, len, true) == hits[len]
    {
      HitsWithinOccurrences(sc, o, Unchanged, len, sc.d);
      AllScoresBuckets(sc, o, len, sc.d);
    }
  }

  /** `bf_test_multi_fpr`: `build_sketch`, the masks, then the range loop. The
      reported rate for length len is `WeightedHits(D, scores, len) / tot[len]`:
      each hit of range [l, r] counts `RecencyWeight(D, l, r)`, not 1, so the
      rate can exceed 1 (`WeightedRateScenario`). `hits[len]` is the same sum
      with every weight 1. */
  method BfTestMultiFpr(sketch: Sketch, sc: Scope) returns (tot: seq<nat>, hits: seq<nat>, scores: seq<RangeScore>)
    requires sc.Valid()
    modifies sketch`history
    ensures sketch.history == old(sketch.history) + Feed(sc.ds, sketch.deltaImplemented)
    ensures |tot| == sc.d + 1 && |hits| == sc.d + 1
    ensures forall len :: 1 <= len <= sc.d ==>
      && tot[len] == LenTally(sc, Unchanged, Occurrence, len, sc.d)
      && hits[len] == LenTally(sc, Unchanged, Hit(sketch.View()), len, sc.d)
      && hits[len] <= tot[len]
    ensures scores == AllScores(sc, sketch.View(), sc.d)
    ensures forall len :: 1 <= len <= sc.d ==>
      ScoredPairs(scores, len, false) == tot[len] && ScoredPairs(scores, len, true) == hits[len]
  {
    BuildSketch(sketch, sc.ds);
    var masks := BuildMasks(sketch, sc);
    tot, hits, scores := CountRangeHits(sc, masks, sketch.View());
  }

  /** Row k of `sum`: `sum[k][i]` is the sum of the point answers for element
      k over windows start+1 .. start+i. */
  predicate PrefixRow(sc: Scope, o: Oracle, k: nat, row: seq<int>)
    requires sc.Valid() && k < sc.N()
  {
    && |row| == sc.d + 1
    && forall i :: 0 <= i <= sc.d ==> row[i] == QuerySum(sc, o, k, 1, i)
  }

  /** A prefix row answers every range by one subtraction. */
  lemma PrefixRowRange(sc: Scope, o: Oracle, k: nat, row: seq<int>, l: nat, r: nat)
    requires sc.Valid() && k < sc.N() && PrefixRow(sc, o, k, row) && 1 <= l <= r <= sc.d
    ensures row[r] - row[l - 1] == QuerySum(sc, o, k, l, r)
  {
    PrefixDifference(sc, o, k, l, r);
  }

  /** Row k of the `sum` table: the running sum of the point answers for
      element k. */
  method PrefixRowOf(sketch: Sketch, sc: Scope, k: nat) returns (row: seq<int>)
    requires sc.Valid() && k < sc.N()
    ensures PrefixRow(sc, sketch.View(), k, row)
  {
    ghost var o := sketch.View();
    row := [0];
    var i := 1;
    while i <= sc.d
      invariant 1 <= i <= sc.d + 1 && |row| == i
      invariant forall j :: 0 <= j < i ==> row[j] == QuerySum(sc, o, k, 1, j)
    {
      var next := row[i - 1] + sketch.Query(sc.Base() + i, sc.ds.elems[k].e);
      assert next == QuerySum(sc, o, k, 1, i);
      row := row + [next];
      i := i + 1;
    }
  }

  /** The `sum` table of the count metrics. */
  method PrefixSums(sketch: Sketch, sc: Scope) returns (sums: seq<seq<int>>)
    requires sc.Valid()
    ensures |sums| == sc.N()
    ensures forall k :: 0 <= k < sc.N() ==> PrefixRow(sc, sketch.View(), k, sums[k])
  {
    sums := [];
    var k := 0;
    while k < sc.N()
      invariant 0 <= k <= sc.N() && |sums| == k
      invariant forall k' :: 0 <= k' < k ==> PrefixRow(sc, sketch.View(), k', sums[k'])
    {
      var row := PrefixRowOf(sketch, sc, k);
      sums := sums + [row];
      k := k + 1;
    }
  }

  /** The element loop of the count metrics for one range [l, r]: bucket
      `r - l + 1` gains the elements whose count grows over the range, and
      `row` lists their comparisons. */
  method CompareRange(sc: Scope, sums: seq<seq<int>>, ghost o: Oracle, l: nat, r: nat, totA: array<nat>)
    returns (row: seq<Sample>)
    requires sc.Valid() && |sums| == sc.N() && 1 <= l <= r <= sc.d
    requires forall k :: 0 <= k < sc.N() ==> PrefixRow(sc, o, k, sums[k])
    requires totA.Length == sc.d + 1
    modifies totA
    ensures forall len :: 0 <= len <= sc.d ==>
      totA[len] == old(totA[len]) + (if len == r - l + 1 then Tally(sc, Changed, Occurrence, l, r, sc.N()) else 0)
    ensures row == PairSamples(sc, o, l, r, sc.N())
  {
    var len := r - l + 1;
    row := [];
    var k := 0;
    while k < sc.N()
      invariant 0 <= k <= sc.N()
      invariant forall j :: 0 <= j <= sc.d && j != len ==> totA[j] == old(totA[j])
      invariant totA[len] == old(totA[len]) + Tally(sc, Changed, Occurrence, l, r, k)
      invariant row == PairSamples(sc, o, l, r, k)
    {
      if sc.ds.elems[k].cnt[sc.Base() + r] > sc.ds.elems[k].cnt[sc.Base() + l - 1] {
        totA[len] := totA[len] + 1;
        var truth: int := sc.ds.elems[k].cnt[sc.Base() + r] as int - sc.ds.elems[k].cnt[sc.Base() + l - 1];
        var ans := sums[k][r] - sums[k][l - 1];
        PrefixRowRange(sc, o, k, sums[k], l, r);
        row := row + [Sample(l, r, k, truth, ans)];
      }
      k := k + 1;
    }
  }

  /** The ranges of the count metrics that start at l: each bucket gains its
      row part, and `row` lists the comparisons in enumeration order. */
  method CompareRow(sc: Scope, sums: seq<seq<int>>, ghost o: Oracle, l: nat, totA: array<nat>) returns (row: seq<Sample>)
    requires sc.Valid() && |sums| == sc.N() && 1 <= l <= sc.d
    requires forall k :: 0 <= k < sc.N() ==> PrefixRow(sc, o, k, sums[k])
    requires totA.Length == sc.d + 1
    modifies totA
    ensures forall len :: 1 <= len <= sc.d ==> totA[len] == old(totA[len]) + RowPart(sc, Changed, Occurrence, len, l, sc.d + 1)
    ensures row == RowSamples(sc, o, l, sc.d)
  {
    row := [];
    var r := l;
    while r <= sc.d
      invariant l <= r <= sc.d + 1
      invariant forall len :: 1 <= len <= sc.d ==> totA[len] == old(totA[len]) + RowPart(sc, Changed, Occurrence, len, l, r)
      invariant row == RowSamples(sc, o, l, r - 1)
    {
      var pairs := CompareRange(sc, sums, o, l, r, totA);
      forall len | 1 <= len <= sc.d
        ensures RowPart(sc, Changed, Occurrence, len, l, r + 1)
                  == RowPart(sc, Changed, Occurrence, len, l, r) + (if len == r - l + 1 then Tally(sc, Changed, Occurrence, l, r, sc.N()) else 0)
      {
        RowPartStep(sc, Changed, Occurrence, len, l, r);
      }
      row := row + pairs;
      r := r + 1;
    }
  }

  /** The range loop of the count metrics: for each length, `tot` counts the
      (range, element) pairs whose count grows over the range, and `samples`
      lists, in enumeration order, the true range count and the sketch's
      prefix-sum answer of each of them. */
  method CompareRanges(sc: Scope, sums: seq<seq<int>>, ghost o: Oracle) returns (tot: seq<nat>, samples: seq<Sample>)
    requires sc.Valid() && |sums| == sc.N()
    requires forall k :: 0 <= k < sc.N() ==> PrefixRow(sc, o, k, sums[k])
    ensures |tot| == sc.d + 1
    ensures forall len :: 1 <= len <= sc.d ==> tot[len] == LenTally(sc, Changed, Occurrence, len, sc.d)
    ensures samples == AllSamples(sc, o, sc.d)
  {
    var totA := new nat[sc.d + 1](_ => 0);
    samples := [];
    var l := 1;
    while l <= sc.d
      invariant 1 <= l <= sc.d + 1
      invariant forall len :: 1 <= len <= sc.d ==> totA[len] == LenTally(sc, Changed, Occurrence, len, l - 1)
      invariant samples == AllSamples(sc, o, l - 1)
    {
      var row := CompareRow(sc, sums, o, l, totA);
      samples := samples + row;
      forall len | 1 <= len <= sc.d
        ensures totA[len] == LenTally(sc, Changed, Occurrence, len, l)
      {
        RowComplete(sc, Changed, Occurrence, len, l);
      }
      l := l + 1;
    }
    tot := totA[..];
  }

  /** `cnt_test_multi_are` and `cnt_test_multi_aae`: `build_sketch`, the `sum`
      table, then the range loop. The relative error adds
      `wt * |truth - ans| / truth` for each sample and the absolute error
      `wt * |truth - ans|`; every sample has `truth > 0`. */
  method CntTestMultiRange(sketch: Sketch, sc: Scope) returns (tot: seq<nat>, samples: seq<Sample>)
    requires sc.Valid()
    modifies sketch`history
    ensures sketch.history == old(sketch.history) + Feed(sc.ds, sketch.deltaImplemented)
    ensures |tot| == sc.d + 1
    ensures forall len :: 1 <= len <= sc.d ==> tot[len] == LenTally(sc, Changed, Occurrence, len, sc.d)
    ensures samples == AllSamples(sc, sketch.View(), sc.d)
    ensures forall s :: s in samples ==> WellFormedSample(sc, sketch.View(), s)
  {
    BuildSketch(sketch, sc.ds);
    var sums := PrefixSums(sketch, sc);
    tot, samples := CompareRanges(sc, sums, sketch.View());
    AllSamplesWellFormed(sc, sketch.View(), sc.d);
  }

  /** The exact sketch built by `build_sketch` (either path) answers every
      range count exactly and has no false positive over any range. */
  lemma ExactSketchRanges(sc: Scope, deltaImplemented: bool, cost: CostFn)
    requires sc.Valid()
    requires deltaImplemented ==> DistinctElems(sc.ds)
    requires !deltaImplemented ==> Consistent(sc.ds)
    ensures forall s :: s in AllSamples(sc, Oracle(ExactAnswer, cost, Feed(sc.ds, deltaImplemented)), sc.d) ==>
      s.ans == s.truth
    ensures forall len :: LenTally(sc, Unchanged, Hit(Oracle(ExactAnswer, cost, Feed(sc.ds, deltaImplemented))), len, sc.d) == 0
  {
    var o := Oracle(ExactAnswer, cost, Feed(sc.ds, deltaImplemented));
    forall k | 0 <= k < sc.N()
      ensures ExactOn(sc, o, k)
    {
      forall i | sc.Base() < i <= sc.ds.winNum
        ensures o.Query(i, sc.ds.elems[k].e) == Delta(sc.ds, k, i)
      {
        ExactSketchAfterBuild(sc.ds, deltaImplemented, k, i);
      }
    }
    ExactSamples(sc, o);
    forall len
      ensures LenTally(sc, Unchanged, Hit(o), len, sc.d) == 0
    {
      ExactNoRangeFalsePositives(sc, o, len, sc.d);
    }
  }
}
