/** The query-cost metrics `bf_test_qcnt` and `cnt_test_qcnt`: the range
    enumeration of the multi-window metrics, but for each qualifying
    (range, element) pair the harness calls `query_multiple_windows(l, r, e)`
    and adds the growth of `qcnt()` across that call to the bucket of the
    range's length. The call receives the range's own l and r, relative to
    `start`, exactly as written. */
module QueryCost {
  import opened Dataset
  import opened SketchModel
  import opened Ingestion
  import opened RangeSpec

  /** The element loop for one range [l, r]: bucket `r - l + 1` gains the
      qualifying elements and the probes their range queries cost, and the
      sketch's counter grows by exactly those probes. */
  method ProbeRange(sketch: Sketch, sc: Scope, sel: Selector, l: nat, r: nat, totA: array<nat>, costA: array<int>)
    requires sc.Valid() && 1 <= l <= r <= sc.d
    requires totA.Length == sc.d + 1 && costA.Length == sc.d + 1
    modifies sketch`probes, totA, costA
    ensures forall len :: 0 <= len <= sc.d ==>
      totA[len] == old(totA[len]) + (if len == r - l + 1 then Tally(sc, sel, Occurrence, l, r, sc.N()) else 0)
    ensures forall len :: 0 <= len <= sc.d ==>
      costA[len] == old(costA[len]) + (if len == r - l + 1 then Tally(sc, sel, Probe(sketch.View()), l, r, sc.N()) else 0)
    ensures sketch.probes == old(sketch.probes) + Tally(sc, sel, Probe(sketch.View()), l, r, sc.N())
  {
    ghost var o := sketch.View();
    var len := r - l + 1;
    var k := 0;
    while k < sc.N()
      invariant 0 <= k <= sc.N()
      invariant sketch.history == old(sketch.history) && sketch.View() == o
      invariant forall j :: 0 <= j <= sc.d && j != len ==> totA[j] == old(totA[j]) && costA[j] == old(costA[j])
      invariant totA[len] == old(totA[len]) + Tally(sc, sel, Occurrence, l, r, k)
      invariant costA[len] == old(costA[len]) + Tally(sc, sel, Probe(o), l, r, k)
      invariant sketch.probes == old(sketch.probes) + Tally(sc, sel, Probe(o), l, r, k)
    {
      var hi, lo := sc.ds.elems[k].cnt[sc.Base() + r], sc.ds.elems[k].cnt[sc.Base() + l - 1];
      if (match sel case Unchanged => hi == lo case Changed => hi > lo) {
        totA[len] := totA[len] + 1;
        var last := sketch.QCnt();
        var _ := sketch.QueryMultipleWindows(l, r, sc.ds.elems[k].e);
        costA[len] := costA[len] + (sketch.QCnt() - last);
      }
      k := k + 1;
    }
  }

  /** The ranges that start at l: each bucket gains its row part, and the
      counter grows by what the buckets gain. */
  method ProbeRow(sketch: Sketch, sc: Scope, sel: Selector, l: nat, totA: array<nat>, costA: array<int>)
    requires sc.Valid() && 1 <= l <= sc.d
    requires totA.Length == sc.d + 1 && costA.Length == sc.d + 1
    modifies sketch`probes, totA, costA
    ensures forall len :: 0 <= len <= sc.d ==>
      && totA[len] == old(totA[len]) + (if len == 0 then 0 else RowPart(sc, sel, Occurrence, len, l, sc.d + 1))
      && costA[len] == old(costA[len]) + (if len == 0 then 0 else RowPart(sc, sel, Probe(sketch.View()), len, l, sc.d + 1))
    ensures sketch.probes + old(BucketSum(costA[..], sc.d)) == old(sketch.probes) + BucketSum(costA[..], sc.d)
  {
    ghost var o := sketch.View();
    var r := l;
    while r <= sc.d
      invariant l <= r <= sc.d + 1
      invariant sketch.history == old(sketch.history) && sketch.View() == o
      invariant forall len :: 0 <= len <= sc.d ==>
        && totA[len] == old(totA[len]) + (if len == 0 then 0 else RowPart(sc, sel, Occurrence, len, l, r))
        && costA[len] == old(costA[len]) + (if len == 0 then 0 else RowPart(sc, sel, Probe(o), len, l, r))
      invariant sketch.probes + old(BucketSum(costA[..], sc.d)) == old(sketch.probes) + BucketSum(costA[..], sc.d)
    {
      ghost var before := costA[..];
      ProbeRange(sketch, sc, sel, l, r, totA, costA);
      ghost var v := Tally(sc, sel, Probe(o), l, r, sc.N());
      BucketSumUpdate(before, costA[..], sc.d, r - l + 1, v);
      forall len | 1 <= len <= sc.d
        ensures RowPart(sc, sel, Occurrence, len, l, r + 1)
                  == RowPart(sc, sel, Occurrence, len, l, r) + (if len == r - l + 1 then Tally(sc, sel, Occurrence, l, r, sc.N()) else 0)
        ensures RowPart(sc, sel, Probe(o), len, l, r + 1) == RowPart(sc, sel, Probe(o), len, l, r) + (if len == r - l + 1 then v else 0)
      {
        RowPartStep(sc, sel, Occurrence, len, l, r);
        RowPartStep(sc, sel, Probe(o), len, l, r);
      }
      r := r + 1;
    }
  }

  /** The range loop of `bf_test_qcnt` (sel = Unchanged) and `cnt_test_qcnt`
      (sel = Changed): per length, the number of qualifying pairs and the
      probes their range queries cost. Every `cnt[len]` is non-negative and
      together they account for all the growth of `qcnt()`. */
  method EnumerateProbes(sketch: Sketch, sc: Scope, sel: Selector) returns (tot: seq<nat>, cost: seq<int>)
    requires sc.Valid()
    modifies sketch`probes
    ensures |tot| == sc.d + 1 && |cost| == sc.d + 1
    ensures forall len :: 1 <= len <= sc.d ==>
      && tot[len] == LenTally(sc, sel, Occurrence, len, sc.d)
      && cost[len] == LenTally(sc, sel, Probe(sketch.View()), len, sc.d)
      && cost[len] >= 0
    ensures sketch.probes == old(sketch.probes) + BucketSum(cost, sc.d)
    ensures sketch.probes == old(sketch.probes) + AllLens(sc, sel, Probe(sketch.View()), sc.d)
  {
    ghost var o := sketch.View();
    var totA := new nat[sc.d + 1](_ => 0);
    var costA := new int[sc.d + 1](_ => 0);
    BucketSumZero(costA[..], sc.d);
    var l := 1;
    while l <= sc.d
      invariant 1 <= l <= sc.d + 1
      invariant sketch.history == old(sketch.history) && sketch.View() == o
      invariant forall len :: 1 <= len <= sc.d ==>
        totA[len] == LenTally(sc, sel, Occurrence, len, l - 1) && costA[len] == LenTally(sc, sel, Probe(o), len, l - 1)
      invariant sketch.probes == old(sketch.probes) + BucketSum(costA[..], sc.d)
    {
      ProbeRow(sketch, sc, sel, l, totA, costA);
      forall len | 1 <= len <= sc.d
        ensures totA[len] == LenTally(sc, sel, Occurrence, len, l)
        ensures costA[len] == LenTally(sc, sel, Probe(o), len, l)
      {
        RowComplete(sc, sel, Occurrence, len, l);
        RowComplete(sc, sel, Probe(o), len, l);
      }
      l := l + 1;
    }
    tot, cost := totA[..], costA[..];
    BucketsMatchLens(sc, sel, Probe(o), cost, sc.d);
  }

  /** Buckets holding the per-length tallies sum to the tally over all lengths. */
  lemma {:induction false} BucketsMatchLens(sc: Scope, sel: Selector, m: Measure, s: seq<int>, upTo: nat)
    requires sc.Valid() && upTo <= sc.d && |s| == sc.d + 1
    requires forall len :: 1 <= len <= sc.d ==> s[len] == LenTally(sc, sel, m, len, sc.d)
    ensures BucketSum(s, upTo) == AllLens(sc, sel, m, upTo)
  {
    if upTo > 0 {
      BucketsMatchLens(sc, sel, m, s, upTo - 1);
    }
  }

  /** `bf_test_qcnt`: `build_sketch`, then the cost enumeration over the
      ranges where an element is absent. */
  method BfTestQcnt(sketch: Sketch, sc: Scope) returns (tot: seq<nat>, cost: seq<int>)
    requires sc.Valid()
    modifies sketch`history, sketch`probes
    ensures sketch.history == old(sketch.history) + Feed(sc.ds, sketch.deltaImplemented)
    ensures |tot| == sc.d + 1 && |cost| == sc.d + 1
    ensures forall len :: 1 <= len <= sc.d ==>
      && tot[len] == LenTally(sc, Unchanged, Occurrence, len, sc.d)
      && cost[len] == LenTally(sc, Unchanged, Probe(sketch.View()), len, sc.d)
      && cost[len] >= 0
    ensures sketch.probes == old(sketch.probes) + BucketSum(cost, sc.d)
  {
    BuildSketch(sketch, sc.ds);
    tot, cost := EnumerateProbes(sketch, sc, Unchanged);
  }

  /** `cnt_test_qcnt`: `build_sketch`, then the cost enumeration over the
      ranges where an element's count grows. */
  method CntTestQcnt(sketch: Sketch, sc: Scope) returns (tot: seq<nat>, cost: seq<int>)
    requires sc.Valid()
    modifies sketch`history, sketch`probes
    ensures sketch.history == old(sketch.history) + Feed(sc.ds, sketch.deltaImplemented)
    ensures |tot| == sc.d + 1 && |cost| == sc.d + 1
    ensures forall len :: 1 <= len <= sc.d ==>
      && tot[len] == LenTally(sc, Changed, Occurrence, len, sc.d)
      && cost[len] == LenTally(sc, Changed, Probe(sketch.View()), len, sc.d)
      && cost[len] >= 0
    ensures sketch.probes == old(sketch.probes) + BucketSum(cost, sc.d)
  {
    BuildSketch(sketch, sc.ds);
    tot, cost := EnumerateProbes(sketch, sc, Changed);
  }
}
