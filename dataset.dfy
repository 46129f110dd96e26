/** The materialised stream: per-element cumulative counts over windows and the
    per-window occurrence lists used for replay. Windows are numbered 1..winNum;
    index 0 is the "before the stream" baseline. */
module Dataset {

  /** Opaque element identifier. */
  type Elem = int

  /** One row of the cumulative count table: `cnt[i]` is the number of
      occurrences of `e` in windows 1..i. */
  datatype ElemRecord = ElemRecord(e: Elem, cnt: seq<nat>)

  /** `elems` is the table of distinct elements with their counts, `winData[i]`
      the occurrences seen in window `i` (entry 0 unused). */
  datatype Snapshot = Snapshot(winNum: nat, elems: seq<ElemRecord>, winData: seq<seq<Elem>>)

  /** A count row of `w + 1` entries that starts at 0 and never decreases. */
  predicate CountRow(cnt: seq<nat>, w: nat)
  {
    && |cnt| == w + 1
    && cnt[0] == 0
    && forall i :: 1 <= i <= w ==> cnt[i - 1] <= cnt[i]
  }

  /** The shape every metric relies on. */
  predicate WellFormed(ds: Snapshot)
  {
    && |ds.winData| == ds.winNum + 1
    && forall k :: 0 <= k < |ds.elems| ==> CountRow(ds.elems[k].cnt, ds.winNum)
  }

  /** The count table lists each element once. */
  predicate DistinctElems(ds: Snapshot)
  {
    forall a, b :: 0 <= a < b < |ds.elems| ==> ds.elems[a].e != ds.elems[b].e
  }

  /** The occurrence lists agree with the count table: in every window, every
      element occurs exactly as often as its per-window delta says. */
  predicate Consistent(ds: Snapshot)
    requires WellFormed(ds)
  {
    forall i, k :: 1 <= i <= ds.winNum && 0 <= k < |ds.elems| ==>
      multiset(ds.winData[i])[ds.elems[k].e] == Delta(ds, k, i)
  }

  /** The number of occurrences of element `k` strictly within window `i`. */
  function Delta(ds: Snapshot, k: nat, i: nat): (delta: int)
    requires WellFormed(ds) && k < |ds.elems| && 1 <= i <= ds.winNum
  {
    ds.elems[k].cnt[i] - ds.elems[k].cnt[i - 1]
  }

  /** Cumulative counts are monotone over any pair of windows, not just
      adjacent ones. */
  lemma {:induction false} CountsMonotone(cnt: seq<nat>, w: nat, a: nat, b: nat)
    requires CountRow(cnt, w) && a <= b <= w
    ensures cnt[a] <= cnt[b]
  {
    if a < b {
      CountsMonotone(cnt, w, a, b - 1);
      assert cnt[b - 1] <= cnt[b];
    }
  }

  /** Per-window deltas are never negative. */
  lemma DeltaNonNegative(ds: Snapshot, k: nat, i: nat)
    requires WellFormed(ds) && k < |ds.elems| && 1 <= i <= ds.winNum
    ensures Delta(ds, k, i) >= 0
  {
    assert CountRow(ds.elems[k].cnt, ds.winNum);
  }
}
