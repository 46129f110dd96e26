/** `build_sketch` (test.cpp:12-24): the two ways the harness feeds a sketch.
    A sketch that accepts deltas gets one `add(i, e, delta)` per window and
    element whose per-window delta is positive; any other sketch gets every raw
    occurrence of every window replayed through `add(i, e)`. */
module Ingestion {
  import opened Dataset
  import opened SketchModel

  /** The delta-path calls for window `i` and the first `n` elements. */
  function DeltaWindowFeed(ds: Snapshot, i: nat, n: nat): (calls: seq<AddCall>)
    requires WellFormed(ds) && 1 <= i <= ds.winNum && n <= |ds.elems|
  {
    if n == 0 then []
    else
      var d := Delta(ds, n - 1, i);
      DeltaWindowFeed(ds, i, n - 1) + (if d > 0 then [AddBatch(i, ds.elems[n - 1].e, d)] else [])
  }

  /** The delta-path calls for windows 1..w. */
  function DeltaFeed(ds: Snapshot, w: nat): (calls: seq<AddCall>)
    requires WellFormed(ds) && w <= ds.winNum
  {
    if w == 0 then [] else DeltaFeed(ds, w - 1) + DeltaWindowFeed(ds, w, |ds.elems|)
  }

  /** The replay-path calls for the occurrence list `xs` of window `w`. */
  function ReplayWindow(xs: seq<Elem>, w: nat): (calls: seq<AddCall>)
  {
    if xs == [] then [] else ReplayWindow(xs[..|xs| - 1], w) + [AddOne(w, xs[|xs| - 1])]
  }

  /** The replay-path calls for windows 1..w. */
  function ReplayFeed(ds: Snapshot, w: nat): (calls: seq<AddCall>)
    requires WellFormed(ds) && w <= ds.winNum
  {
    if w == 0 then [] else ReplayFeed(ds, w - 1) + ReplayWindow(ds.winData[w], w)
  }

  /** Everything `build_sketch` feeds a sketch, for either capability. */
  function Feed(ds: Snapshot, deltaImplemented: bool): (calls: seq<AddCall>)
    requires WellFormed(ds)
  {
    if deltaImplemented then DeltaFeed(ds, ds.winNum) else ReplayFeed(ds, ds.winNum)
  }

  /** `build_sketch`: appends exactly `Feed(ds, ...)` to what the sketch has
      been fed and leaves its query counter alone. */
  method BuildSketch(sketch: Sketch, ds: Snapshot)
    requires WellFormed(ds)
    modifies sketch`history
    ensures sketch.history == old(sketch.history) + Feed(ds, sketch.deltaImplemented)
  {
    var i := 1;
    if sketch.deltaImplemented {
      while i <= ds.winNum
        invariant 1 <= i <= ds.winNum + 1
        invariant sketch.history == old(sketch.history) + DeltaFeed(ds, i - 1)
      {
        AddWindowDeltas(sketch, ds, i);
        assert old(sketch.history) + DeltaFeed(ds, i - 1) + DeltaWindowFeed(ds, i, |ds.elems|)
               == old(sketch.history) + DeltaFeed(ds, i);
        i := i + 1;
      }
    } else {
      while i <= ds.winNum
        invariant 1 <= i <= ds.winNum + 1
        invariant sketch.history == old(sketch.history) + ReplayFeed(ds, i - 1)
      {
        ReplayWindowData(sketch, ds, i);
        assert old(sketch.history) + ReplayFeed(ds, i - 1) + ReplayWindow(ds.winData[i], i)
               == old(sketch.history) + ReplayFeed(ds, i);
        i := i + 1;
      }
    }
  }

  /** The delta path for window i (test.cpp:16-18): one `add(i, e, delta)` per
      element whose delta is positive, in element order. */
  method AddWindowDeltas(sketch: Sketch, ds: Snapshot, i: nat)
    requires WellFormed(ds) && 1 <= i <= ds.winNum
    modifies sketch`history
    ensures sketch.history == old(sketch.history) + DeltaWindowFeed(ds, i, |ds.elems|)
  {
    var k := 0;
    while k < |ds.elems|
      invariant 0 <= k <= |ds.elems|
      invariant sketch.history == old(sketch.history) + DeltaWindowFeed(ds, i, k)
    {
      var d := ds.elems[k].cnt[i] - ds.elems[k].cnt[i - 1];
      if d > 0 {
        sketch.AddDelta(i, ds.elems[k].e, d);
      }
      k := k + 1;
    }
  }

  /** The replay path for window i (test.cpp:21-22): one `add(i, e)` per
      occurrence of `win_data[i]`, in stream order. */
  method ReplayWindowData(sketch: Sketch, ds: Snapshot, i: nat)
    requires WellFormed(ds) && 1 <= i <= ds.winNum
    modifies sketch`history
    ensures sketch.history == old(sketch.history) + ReplayWindow(ds.winData[i], i)
  {
    var j := 0;
    while j < |ds.winData[i]|
      invariant 0 <= j <= |ds.winData[i]|
      invariant sketch.history == old(sketch.history) + ReplayWindow(ds.winData[i][..j], i)
    {
      assert ds.winData[i][..j + 1][..j] == ds.winData[i][..j];
      sketch.Add(i, ds.winData[i][j]);
      j := j + 1;
    }
    assert ds.winData[i][..j] == ds.winData[i];
  }

  // ---------------------------------------------------------------------------
  // The delta path

  lemma {:induction false} DeltaWindowFeedShape(ds: Snapshot, i: nat, n: nat)
    requires WellFormed(ds) && 1 <= i <= ds.winNum && n <= |ds.elems|
    ensures forall a :: 0 <= a < |DeltaWindowFeed(ds, i, n)| ==>
      var c := DeltaWindowFeed(ds, i, n)[a]; c.AddBatch? && c.window == i && c.delta > 0
  {
    if n > 0 {
      DeltaWindowFeedShape(ds, i, n - 1);
    }
  }

  /** On the delta path every call carries a positive delta, windows lie in
      1..w, and they are issued in non-decreasing window order (test.cpp:15-18). */
  lemma {:induction false} DeltaFeedShape(ds: Snapshot, w: nat)
    requires WellFormed(ds) && w <= ds.winNum
    ensures forall a :: 0 <= a < |DeltaFeed(ds, w)| ==>
      var c := DeltaFeed(ds, w)[a]; c.AddBatch? && c.delta > 0 && 1 <= c.window <= w
    ensures forall a, b :: 0 <= a < b < |DeltaFeed(ds, w)| ==>
      DeltaFeed(ds, w)[a].window <= DeltaFeed(ds, w)[b].window
  {
    if w > 0 {
      DeltaFeedShape(ds, w - 1);
      DeltaWindowFeedShape(ds, w, |ds.elems|);
      var p: seq<AddCall>, q: seq<AddCall> := DeltaFeed(ds, w - 1), DeltaWindowFeed(ds, w, |ds.elems|);
      assert DeltaFeed(ds, w) == p + q;
      forall a, b | 0 <= a < b < |p + q|
        ensures (p + q)[a].window <= (p + q)[b].window
      {
        if b < |p| {
        } else if a < |p| {
          assert (p + q)[b] == q[b - |p|];
        } else {
          assert (p + q)[a] == q[a - |p|] && (p + q)[b] == q[b - |p|];
        }
      }
    }
  }

  /** Within one window each element gets at most one call, carrying its delta. */
  lemma {:induction false} DeltaWindowFed(ds: Snapshot, i: nat, n: nat, k: nat, lo: int, hi: int)
    requires WellFormed(ds) && DistinctElems(ds)
    requires 1 <= i <= ds.winNum && n <= |ds.elems| && k < |ds.elems|
    ensures Fed(DeltaWindowFeed(ds, i, n), ds.elems[k].e, lo, hi)
              == if k < n && lo <= i <= hi then Delta(ds, k, i) else 0
  {
    if n > 0 {
      DeltaWindowFed(ds, i, n - 1, k, lo, hi);
      var d := Delta(ds, n - 1, i);
      var tail := if d > 0 then [AddBatch(i, ds.elems[n - 1].e, d)] else [];
      FedAppend(DeltaWindowFeed(ds, i, n - 1), tail, ds.elems[k].e, lo, hi);
      assert tail != [] ==> tail[..0] == [];
      DeltaNonNegative(ds, n - 1, i);
      if n - 1 != k {
        assert ds.elems[n - 1].e != ds.elems[k].e;
      }
    }
  }

  /** What the delta path feeds over windows 1..w, for windows lo..hi. */
  lemma {:induction false} DeltaFeedFed(ds: Snapshot, w: nat, k: nat, lo: nat, hi: nat)
    requires WellFormed(ds) && DistinctElems(ds)
    requires w <= ds.winNum && k < |ds.elems| && 1 <= lo <= hi + 1 && hi <= ds.winNum
    ensures Fed(DeltaFeed(ds, w), ds.elems[k].e, lo, hi)
              == ds.elems[k].cnt[Min(w, hi)] as int - ds.elems[k].cnt[Min(w, lo - 1)]
  {
    if w > 0 {
      DeltaFeedFed(ds, w - 1, k, lo, hi);
      FedAppend(DeltaFeed(ds, w - 1), DeltaWindowFeed(ds, w, |ds.elems|), ds.elems[k].e, lo, hi);
      DeltaWindowFed(ds, w, |ds.elems|, k, lo, hi);
    }
  }

  function Min(a: int, b: int): (m: int) { if a <= b then a else b }

  // ---------------------------------------------------------------------------
  // The replay path

  lemma {:induction false} ReplayWindowShape(xs: seq<Elem>, w: nat)
    ensures |ReplayWindow(xs, w)| == |xs|
    ensures forall j :: 0 <= j < |xs| ==> ReplayWindow(xs, w)[j] == AddOne(w, xs[j])
  {
    if xs != [] {
      ReplayWindowShape(xs[..|xs| - 1], w);
    }
  }

  lemma {:induction false} ReplayWindowCallsAt(xs: seq<Elem>, w: nat, i: nat)
    ensures CallsAt(ReplayWindow(xs, w), i) == if w == i then ReplayWindow(xs, w) else []
  {
    if xs != [] {
      var init := ReplayWindow(xs[..|xs| - 1], w);
      ReplayWindowCallsAt(xs[..|xs| - 1], w, i);
      CallsAtAppend(init, [AddOne(w, xs[|xs| - 1])], i);
      assert [AddOne(w, xs[|xs| - 1])][..0] == [];
    }
  }

  /** Appending window w's replay adds to the calls at i exactly that replay
      when i == w, and nothing otherwise. */
  lemma AppendWindowCallsAt(prev: seq<AddCall>, xs: seq<Elem>, w: nat, i: nat)
    ensures CallsAt(prev + ReplayWindow(xs, w), i) == CallsAt(prev, i) + (if w == i then ReplayWindow(xs, w) else [])
  {
    CallsAtAppend(prev, ReplayWindow(xs, w), i);
    ReplayWindowCallsAt(xs, w, i);
  }

  lemma {:induction false} ReplayFeedCallsAt(ds: Snapshot, w: nat, i: nat)
    requires WellFormed(ds) && w <= ds.winNum
    ensures CallsAt(ReplayFeed(ds, w), i) == if 1 <= i <= w then ReplayWindow(ds.winData[i], i) else []
  {
    if w > 0 {
      ReplayFeedCallsAt(ds, w - 1, i);
      AppendWindowCallsAt(ReplayFeed(ds, w - 1), ds.winData[w], w, i);
    }
  }

  /** On the replay path the calls addressed to window i are exactly
      `add(i, e)` for the occurrences `win_data[i]`, in their order
      (test.cpp:20-22). */
  lemma ReplayWindowCalls(ds: Snapshot, i: nat)
    requires WellFormed(ds) && 1 <= i <= ds.winNum
    ensures |CallsAt(ReplayFeed(ds, ds.winNum), i)| == |ds.winData[i]|
    ensures forall j :: 0 <= j < |ds.winData[i]| ==>
      CallsAt(ReplayFeed(ds, ds.winNum), i)[j] == AddOne(i, ds.winData[i][j])
  {
    ReplayFeedCallsAt(ds, ds.winNum, i);
    ReplayWindowShape(ds.winData[i], i);
  }

  lemma {:induction false} ReplayWindowFed(xs: seq<Elem>, w: nat, e: Elem, lo: int, hi: int)
    ensures Fed(ReplayWindow(xs, w), e, lo, hi) == if lo <= w <= hi then multiset(xs)[e] else 0
  {
    if xs != [] {
      var init := xs[..|xs| - 1];
      ReplayWindowFed(init, w, e, lo, hi);
      assert xs == init + [xs[|xs| - 1]];
      assert ReplayWindow(xs, w)[..|ReplayWindow(xs, w)| - 1] == ReplayWindow(init, w);
    }
  }

  lemma {:induction false} ReplayFeedFed(ds: Snapshot, w: nat, k: nat, lo: nat, hi: nat)
    requires WellFormed(ds) && Consistent(ds)
    requires w <= ds.winNum && k < |ds.elems| && 1 <= lo <= hi + 1 && hi <= ds.winNum
    ensures Fed(ReplayFeed(ds, w), ds.elems[k].e, lo, hi)
              == ds.elems[k].cnt[Min(w, hi)] as int - ds.elems[k].cnt[Min(w, lo - 1)]
  {
    if w > 0 {
      ReplayFeedFed(ds, w - 1, k, lo, hi);
      FedAppend(ReplayFeed(ds, w - 1), ReplayWindow(ds.winData[w], w), ds.elems[k].e, lo, hi);
      ReplayWindowFed(ds.winData[w], w, ds.elems[k].e, lo, hi);
      if lo <= w <= hi {
        assert multiset(ds.winData[w])[ds.elems[k].e] == Delta(ds, k, w);
      }
    }
  }

  // ---------------------------------------------------------------------------
  // The two paths agree

  /** Whichever path `build_sketch` takes, the occurrences of element k it
      reports for windows lo..hi add up to `cnt[hi] - cnt[lo - 1]`; in
      particular the deltas recorded over windows 1..i sum to `cnt[i]`. The
      replay path needs the occurrence lists to agree with the count table, the
      delta path needs each element listed once. */
  lemma FeedTotals(ds: Snapshot, deltaImplemented: bool, k: nat, lo: nat, hi: nat)
    requires WellFormed(ds) && k < |ds.elems| && 1 <= lo <= hi + 1 && hi <= ds.winNum
    requires deltaImplemented ==> DistinctElems(ds)
    requires !deltaImplemented ==> Consistent(ds)
    ensures Fed(Feed(ds, deltaImplemented), ds.elems[k].e, lo, hi)
              == ds.elems[k].cnt[hi] as int - ds.elems[k].cnt[lo - 1]
  {
    if deltaImplemented {
      DeltaFeedFed(ds, ds.winNum, k, lo, hi);
    } else {
      ReplayFeedFed(ds, ds.winNum, k, lo, hi);
    }
  }

  /** A sketch that answers every point query exactly, built from scratch by
      `build_sketch`, reports each element's true per-window delta. */
  lemma ExactSketchAfterBuild(ds: Snapshot, deltaImplemented: bool, k: nat, i: nat)
    requires WellFormed(ds) && k < |ds.elems| && 1 <= i <= ds.winNum
    requires deltaImplemented ==> DistinctElems(ds)
    requires !deltaImplemented ==> Consistent(ds)
    ensures ExactAnswer(Feed(ds, deltaImplemented), i, ds.elems[k].e) == Delta(ds, k, i)
  {
    FeedTotals(ds, deltaImplemented, k, i, i);
  }
}
