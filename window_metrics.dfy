/** The single-window metrics over the last `D` windows `W - D + 1 .. W`:
    `bf_test_fpr` (test.cpp:80-96) and `cnt_test_aae` (test.cpp:236-251). The
    floating-point ratios they store are left out; the model computes their
    integer numerators and denominators, per output index `i - start + 1`. */
module WindowMetrics {
  import opened Dataset
  import opened SketchModel
  import opened Ingestion

  function Abs(x: int): (a: nat) { if x < 0 then -x else x }

  /** Elements among the first `n` that are absent from window `i`. */
  function ZeroDeltaCount(ds: Snapshot, i: nat, n: nat): (count: nat)
    requires WellFormed(ds) && 1 <= i <= ds.winNum && n <= |ds.elems|
  {
    if n == 0 then 0
    else ZeroDeltaCount(ds, i, n - 1) + (if Delta(ds, n - 1, i) == 0 then 1 else 0)
  }

  /** Elements among the first `n` that are absent from window `i` and that the
      sketch nevertheless reports present. */
  function FalsePositives(ds: Snapshot, o: Oracle, i: nat, n: nat): (count: nat)
    requires WellFormed(ds) && 1 <= i <= ds.winNum && n <= |ds.elems|
  {
    if n == 0 then 0
    else
      FalsePositives(ds, o, i, n - 1)
      + (if Delta(ds, n - 1, i) == 0 && o.Query(i, ds.elems[n - 1].e) != 0 then 1 else 0)
  }

  /** Element k occurs in window i but the sketch reports it absent: the
      harness's assertion fails. */
  predicate FalseNegative(ds: Snapshot, o: Oracle, i: nat, k: nat)
    requires WellFormed(ds) && 1 <= i <= ds.winNum && k < |ds.elems|
  {
    Delta(ds, k, i) != 0 && o.Query(i, ds.elems[k].e) == 0
  }

  /** Elements among the first `n` that occur in window `i`. */
  function PositiveDeltaCount(ds: Snapshot, i: nat, n: nat): (count: nat)
    requires WellFormed(ds) && 1 <= i <= ds.winNum && n <= |ds.elems|
  {
    if n == 0 then 0
    else PositiveDeltaCount(ds, i, n - 1) + (if Delta(ds, n - 1, i) > 0 then 1 else 0)
  }

  /** Sum of `|real - ans|` over the first `n` elements that occur in window `i`. */
  function AbsErrorSum(ds: Snapshot, o: Oracle, i: nat, n: nat): (sum: nat)
    requires WellFormed(ds) && 1 <= i <= ds.winNum && n <= |ds.elems|
  {
    if n == 0 then 0
    else
      var d := Delta(ds, n - 1, i);
      AbsErrorSum(ds, o, i, n - 1) + (if d > 0 then Abs(d - o.Query(i, ds.elems[n - 1].e)) else 0)
  }

  /** What `bf_test_fpr` ends with: per output index its false positives and
      true negatives, or the first window and element at which its assertion
      fails (which aborts the run). */
  datatype FprOutcome = FprCounts(fp: seq<nat>, tot: seq<nat>) | Aborted(window: nat, index: nat)

  /** What the element loop of `bf_test_fpr` ends with for one window. */
  datatype WindowFpr = Counted(fp: nat, tot: nat) | FailedAt(index: nat)

  /** The element loop of `bf_test_fpr` for window i (test.cpp:85-93): the
      absent elements and those among them queried present, or the first
      present element queried absent. */
  method MeasureFprWindow(sketch: Sketch, ds: Snapshot, i: nat) returns (res: WindowFpr)
    requires WellFormed(ds) && 1 <= i <= ds.winNum
    ensures res.FailedAt? ==> res.index < |ds.elems| && FalseNegative(ds, sketch.View(), i, res.index)
    ensures res.Counted? ==>
      && (forall k :: 0 <= k < |ds.elems| ==> !FalseNegative(ds, sketch.View(), i, k))
      && res.tot == ZeroDeltaCount(ds, i, |ds.elems|)
      && res.fp == FalsePositives(ds, sketch.View(), i, |ds.elems|)
      && res.fp <= res.tot
  {
    var fp, tot := 0, 0;
    var k := 0;
    while k < |ds.elems|
      invariant 0 <= k <= |ds.elems|
      invariant tot == ZeroDeltaCount(ds, i, k)
      invariant fp == FalsePositives(ds, sketch.View(), i, k)
      invariant fp <= tot
      invariant forall k' :: 0 <= k' < k ==> !FalseNegative(ds, sketch.View(), i, k')
    {
      if ds.elems[k].cnt[i] - ds.elems[k].cnt[i - 1] == 0 {
        tot := tot + 1;
        if sketch.Query(i, ds.elems[k].e) != 0 {
          fp := fp + 1;
        }
      } else {
        if sketch.Query(i, ds.elems[k].e) == 0 {
          return FailedAt(k);
        }
      }
      k := k + 1;
    }
    res := Counted(fp, tot);
  }

  /** The measuring loop of `bf_test_fpr` (test.cpp:83-95) on a sketch that has
      been fed: for every window i of the last D and every element, the absent
      ones are the true negatives and those queried present the false positives;
      a present element queried absent aborts. */
  method MeasureFpr(sketch: Sketch, ds: Snapshot, d: nat) returns (res: FprOutcome)
    requires WellFormed(ds) && d <= ds.winNum
    ensures res.Aborted? ==>
      && ds.winNum - d + 1 <= res.window <= ds.winNum && res.index < |ds.elems|
      && FalseNegative(ds, sketch.View(), res.window, res.index)
    ensures res.FprCounts? ==>
      forall i, k :: ds.winNum - d + 1 <= i <= ds.winNum && 0 <= k < |ds.elems| ==>
        !FalseNegative(ds, sketch.View(), i, k)
    ensures res.FprCounts? ==>
      && |res.fp| == d + 1 && |res.tot| == d + 1
      && forall j :: 1 <= j <= d ==>
           && res.tot[j] == ZeroDeltaCount(ds, ds.winNum - d + j, |ds.elems|)
           && res.fp[j] == FalsePositives(ds, sketch.View(), ds.winNum - d + j, |ds.elems|)
           && res.fp[j] <= res.tot[j]
  {
    ghost var o := sketch.View();
    var start := ds.winNum - d + 1;
    var fpOut: seq<nat>, totOut: seq<nat> := [0], [0];
    var i := start;
    while i <= ds.winNum
      invariant start <= i <= ds.winNum + 1
      invariant |fpOut| == i - start + 1 && |totOut| == i - start + 1
      invariant forall j :: 1 <= j < |totOut| ==>
        && totOut[j] == ZeroDeltaCount(ds, start + j - 1, |ds.elems|)
        && fpOut[j] == FalsePositives(ds, o, start + j - 1, |ds.elems|)
        && fpOut[j] <= totOut[j]
      invariant forall i', k :: start <= i' < i && 0 <= k < |ds.elems| ==> !FalseNegative(ds, o, i', k)
    {
      var w := MeasureFprWindow(sketch, ds, i);
      if w.FailedAt? {
        return Aborted(i, w.index);
      }
      fpOut, totOut := fpOut + [w.fp], totOut + [w.tot];
      i := i + 1;
    }
    res := FprCounts(fpOut, totOut);
  }

  /** `bf_test_fpr`: `build_sketch`, then the measuring loop on what the sketch
      has been fed. */
  method BfTestFpr(sketch: Sketch, ds: Snapshot, d: nat) returns (res: FprOutcome)
    requires WellFormed(ds) && d <= ds.winNum
    modifies sketch`history
    ensures sketch.history == old(sketch.history) + Feed(ds, sketch.deltaImplemented)
    ensures res.Aborted? ==>
      && ds.winNum - d + 1 <= res.window <= ds.winNum && res.index < |ds.elems|
      && FalseNegative(ds, sketch.View(), res.window, res.index)
    ensures res.FprCounts? ==>
      forall i, k :: ds.winNum - d + 1 <= i <= ds.winNum && 0 <= k < |ds.elems| ==>
        !FalseNegative(ds, sketch.View(), i, k)
    ensures res.FprCounts? ==>
      && |res.fp| == d + 1 && |res.tot| == d + 1
      && forall j :: 1 <= j <= d ==>
           && res.tot[j] == ZeroDeltaCount(ds, ds.winNum - d + j, |ds.elems|)
           && res.fp[j] == FalsePositives(ds, sketch.View(), ds.winNum - d + j, |ds.elems|)
           && res.fp[j] <= res.tot[j]
  {
    BuildSketch(sketch, ds);
    res := MeasureFpr(sketch, ds, d);
  }

  /** The measuring loop of `cnt_test_aae` (test.cpp:239-250): for every window
      of the last D, the elements that occur in it and the sum of the absolute
      errors of the sketch's answers on them. */
  method MeasureAae(sketch: Sketch, ds: Snapshot, d: nat) returns (err: seq<nat>, tot: seq<nat>)
    requires WellFormed(ds) && d <= ds.winNum
    ensures |err| == d + 1 && |tot| == d + 1
    ensures forall j :: 1 <= j <= d ==>
      && tot[j] == PositiveDeltaCount(ds, ds.winNum - d + j, |ds.elems|)
      && err[j] == AbsErrorSum(ds, sketch.View(), ds.winNum - d + j, |ds.elems|)
  {
    var start := ds.winNum - d + 1;
    var errOut := new nat[d + 1](_ => 0);
    var totOut := new nat[d + 1](_ => 0);
    var i := start;
    while i <= ds.winNum
      invariant start <= i <= ds.winNum + 1
      invariant forall j :: 1 <= j <= i - start ==>
        && totOut[j] == PositiveDeltaCount(ds, start + j - 1, |ds.elems|)
        && errOut[j] == AbsErrorSum(ds, sketch.View(), start + j - 1, |ds.elems|)
    {
      var sum, tot := 0, 0;
      var k := 0;
      while k < |ds.elems|
        invariant 0 <= k <= |ds.elems|
        invariant tot == PositiveDeltaCount(ds, i, k)
        invariant sum == AbsErrorSum(ds, sketch.View(), i, k)
      {
        if ds.elems[k].cnt[i] - ds.elems[k].cnt[i - 1] > 0 {
          var exact: int := ds.elems[k].cnt[i] - ds.elems[k].cnt[i - 1];
          var ans := sketch.Query(i, ds.elems[k].e);
          sum := sum + Abs(exact - ans);
          tot := tot + 1;
        }
        k := k + 1;
      }
      errOut[i - start + 1] := sum;
      totOut[i - start + 1] := tot;
      i := i + 1;
    }
    err, tot := errOut[..], totOut[..];
  }

  /** `cnt_test_aae`: `build_sketch`, then the measuring loop. */
  method CntTestAae(sketch: Sketch, ds: Snapshot, d: nat) returns (err: seq<nat>, tot: seq<nat>)
    requires WellFormed(ds) && d <= ds.winNum
    modifies sketch`history
    ensures sketch.history == old(sketch.history) + Feed(ds, sketch.deltaImplemented)
    ensures |err| == d + 1 && |tot| == d + 1
    ensures forall j :: 1 <= j <= d ==>
      && tot[j] == PositiveDeltaCount(ds, ds.winNum - d + j, |ds.elems|)
      && err[j] == AbsErrorSum(ds, sketch.View(), ds.winNum - d + j, |ds.elems|)
  {
    BuildSketch(sketch, ds);
    err, tot := MeasureAae(sketch, ds, d);
  }

  // ---------------------------------------------------------------------------
  // Properties of the counts

  /** The false positives are among the true negatives, so `fp <= tot`. */
  lemma {:induction false} FalsePositivesBounded(ds: Snapshot, o: Oracle, i: nat, n: nat)
    requires WellFormed(ds) && 1 <= i <= ds.winNum && n <= |ds.elems|
    ensures FalsePositives(ds, o, i, n) <= ZeroDeltaCount(ds, i, n)
  {
    if n > 0 {
      FalsePositivesBounded(ds, o, i, n - 1);
    }
  }

  /** Every element is either absent from window i (counted by the FPR test)
      or present in it (counted by the AAE test), never both. */
  lemma {:induction false} WindowSplit(ds: Snapshot, i: nat, n: nat)
    requires WellFormed(ds) && 1 <= i <= ds.winNum && n <= |ds.elems|
    ensures ZeroDeltaCount(ds, i, n) + PositiveDeltaCount(ds, i, n) == n
  {
    if n > 0 {
      WindowSplit(ds, i, n - 1);
      DeltaNonNegative(ds, n - 1, i);
    }
  }

  /** A sketch answering every element's true delta in window i makes no false
      positive and no false negative there, and has no absolute error. */
  lemma {:induction false} ExactAnswersNoError(ds: Snapshot, o: Oracle, i: nat, n: nat)
    requires WellFormed(ds) && 1 <= i <= ds.winNum && n <= |ds.elems|
    requires forall k :: 0 <= k < n ==> o.Query(i, ds.elems[k].e) == Delta(ds, k, i)
    ensures FalsePositives(ds, o, i, n) == 0
    ensures AbsErrorSum(ds, o, i, n) == 0
    ensures forall k :: 0 <= k < n ==> !FalseNegative(ds, o, i, k)
  {
    if n > 0 {
      ExactAnswersNoError(ds, o, i, n - 1);
    }
  }

  /** The exact sketch built by `build_sketch` (either path) has zero error
      in every window. */
  lemma ExactSketchNoError(ds: Snapshot, deltaImplemented: bool, cost: CostFn, i: nat)
    requires WellFormed(ds) && 1 <= i <= ds.winNum
    requires deltaImplemented ==> DistinctElems(ds)
    requires !deltaImplemented ==> Consistent(ds)
    ensures FalsePositives(ds, Oracle(ExactAnswer, cost, Feed(ds, deltaImplemented)), i, |ds.elems|) == 0
    ensures AbsErrorSum(ds, Oracle(ExactAnswer, cost, Feed(ds, deltaImplemented)), i, |ds.elems|) == 0
  {
    var o := Oracle(ExactAnswer, cost, Feed(ds, deltaImplemented));
    forall k | 0 <= k < |ds.elems|
      ensures o.Query(i, ds.elems[k].e) == Delta(ds, k, i)
    {
      ExactSketchAfterBuild(ds, deltaImplemented, k, i);
    }
    ExactAnswersNoError(ds, o, i, |ds.elems|);
  }

  /** Five windows, three scored, one element occurring in windows 1, 3 and 5:
      an exact sketch has no absolute error, but window 4 has no element
      present, so the harness's `aae[2] /= tot` divides by zero there. */
  lemma AaeScenario(cost: CostFn)
    ensures
      var ds := Snapshot(5, [ElemRecord(7, [0, 1, 1, 2, 2, 3])], [[], [7], [], [7], [], [7]]);
      var o := Oracle(ExactAnswer, cost, Feed(ds, true));
      && WellFormed(ds)
      && PositiveDeltaCount(ds, 3, 1) == 1
      && PositiveDeltaCount(ds, 4, 1) == 0
      && PositiveDeltaCount(ds, 5, 1) == 1
      && AbsErrorSum(ds, o, 3, 1) == 0 && AbsErrorSum(ds, o, 4, 1) == 0 && AbsErrorSum(ds, o, 5, 1) == 0
  {
    var ds := Snapshot(5, [ElemRecord(7, [0, 1, 1, 2, 2, 3])], [[], [7], [], [7], [], [7]]);
    assert CountRow(ds.elems[0].cnt, 5);
    assert WellFormed(ds);
    ExactSketchNoError(ds, true, cost, 3);
    ExactSketchNoError(ds, true, cost, 4);
    ExactSketchNoError(ds, true, cost, 5);
  }
}
