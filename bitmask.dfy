/** The bitmasks of `bf_test_multi_fpr`: bit i of `mask[k]` records that
    window start+i answered positive for element k, and `_mask` has bits l..r
    for the range being scored. A mask is modelled as the set of its bit
    positions: `m |= 1 << i` adds i, `m += 1 << r` adds r (bit r is not yet
    set, so the addition does not carry), and `(m & n) != 0` says the two sets
    meet. */
module Bitmask {
  import opened Dataset
  import opened SketchModel
  import opened RangeSpec

  type Mask = set<nat>

  /** `(m & n) != 0`. */
  predicate Meets(m: Mask, n: Mask)
  {
    m * n != {}
  }

  /** `mask[k]` after the loop over windows 1..i. */
  function QueryMask(sc: Scope, o: Oracle, k: nat, i: nat): (mask: Mask)
    requires sc.Valid() && k < sc.N() && i <= sc.d
  {
    if i == 0 then {}
    else QueryMask(sc, o, k, i - 1) + (if o.Query(sc.Base() + i, sc.ds.elems[k].e) != 0 then {i} else {})
  }

  /** `_mask` after `r` has advanced from l to r. */
  function RangeMask(l: nat, r: nat): (mask: Mask)
  {
    if r < l || r == 0 then {} else RangeMask(l, r - 1) + {r}
  }

  /** Bit j of `mask[k]` is set exactly when 1 <= j <= i and window start+j
      answered positive. */
  lemma {:induction false} QueryMaskBit(sc: Scope, o: Oracle, k: nat, i: nat, j: nat)
    requires sc.Valid() && k < sc.N() && i <= sc.d
    ensures j in QueryMask(sc, o, k, i) <==> (1 <= j <= i && o.Query(sc.Base() + j, sc.ds.elems[k].e) != 0)
  {
    if i > 0 {
      QueryMaskBit(sc, o, k, i - 1, j);
    }
  }

  /** `_mask` has exactly the bits l..r. */
  lemma {:induction false} RangeMaskBits(l: nat, r: nat, j: nat)
    requires 1 <= l
    ensures j in RangeMask(l, r) <==> l <= j <= r
  {
    if !(r < l || r == 0) {
      RangeMaskBits(l, r - 1, j);
    }
  }

  /** `_mask += 1 << r` never carries: bit r is clear before it is added. */
  lemma NoCarry(l: nat, r: nat)
    requires 1 <= l <= r
    ensures r !in RangeMask(l, r - 1)
  {
    RangeMaskBits(l, r - 1, r);
  }

  /** `mask[k] & _mask` is non-zero exactly when some window in l..r answered
      positive for element k: the bitmask test is the union membership query
      over the range. */
  lemma {:induction false} RangeHit(sc: Scope, o: Oracle, k: nat, l: nat, r: nat)
    requires sc.Valid() && k < sc.N() && 1 <= l && r <= sc.d
    ensures Meets(QueryMask(sc, o, k, sc.d), RangeMask(l, r)) <==> AnyQueried(sc, o, k, l, r)
  {
    if !(r < l || r == 0) {
      RangeHit(sc, o, k, l, r - 1);
      QueryMaskBit(sc, o, k, sc.d, r);
      var m := QueryMask(sc, o, k, sc.d);
      assert m * RangeMask(l, r) == m * RangeMask(l, r - 1) + m * {r};
      assert (r in m) == (m * {r} != {});
    }
  }
}
