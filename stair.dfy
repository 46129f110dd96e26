/** The geometric ("stair") memory partitioner consumed by the stair-family
    sketch builders: from a memory budget and a level count `k` it derives one
    tuple (memory, structure count, scale factor, window span) per level. */
module Stair {

  /** One level of the stair: the memory given to it, how many structures it
      holds, the scale factor of the top level, and how many windows each of its
      structures spans. */
  datatype Level = Level(memory: int, count: int, factor: int, span: int)

  /** `1 << i`. */
  function Pow2(i: nat): (r: nat)
    ensures r >= 1
  {
    if i == 0 then 1 else 2 * Pow2(i - 1)
  }

  /** The factor `i == k ? 4 : 1`: the top level is weighted four times. */
  function Factor(i: nat, k: nat): (f: nat)
    ensures f == 1 || f == 4
  {
    if i == k then 4 else 1
  }

  /** The term `(1 << i) * (i == k ? 4 : 1)` of the normaliser. */
  function Weight(i: nat, k: nat): (w: nat)
  {
    Pow2(i) * Factor(i, k)
  }

  /** Sum of the normaliser's terms for i = 0..n-1. */
  function PartialNormaliser(n: nat, k: nat): (s: nat)
  {
    if n == 0 then 0 else PartialNormaliser(n - 1, k) + Weight(n - 1, k)
  }

  /** The normaliser `sum` in closed form. */
  function Normaliser(k: nat): (s: nat)
  {
    5 * Pow2(k) - 1
  }

  /** Conversion of the non-negative-denominator quotient of a double to `int`:
      C++ truncates toward zero, Dafny's `/` floors. */
  function TruncDiv(a: int, b: nat): (q: int)
    requires b > 0
    ensures a >= 0 ==> q == a / b
    ensures a < 0 ==> q == -((-a) / b)
  {
    if a >= 0 then a / b else -((-a) / b)
  }

  /** The multiplier of `unit` in level `i`'s memory: level 0 is always `unit`
      itself, level i >= 1 is `unit * (1 << i) * factor`. */
  function LevelWeight(i: nat, k: nat): (w: nat)
  {
    if i == 0 then 1 else Weight(i, k)
  }

  /** The memory of level `i`: `memory * LevelWeight(i, k) / sum` in exact
      arithmetic, truncated to `int`. The code computes the double
      `unit = memory / sum` first and scales it; the scaling by powers of two is
      exact, but the rounding of `unit` can put the truncated product one away
      from this value (k = 21, memory = 1350041470 gives 1080033279 there and
      1080033278 here). */
  function LevelMemory(memory: int, k: nat, i: nat): (m: int)
  {
    TruncDiv(memory * LevelWeight(i, k), Normaliser(k))
  }

  /** Sum of the memory components of a list of levels. */
  function MemoryOf(levels: seq<Level>): (total: int)
  {
    if levels == [] then 0 else MemoryOf(levels[..|levels| - 1]) + levels[|levels| - 1].memory
  }

  /** Sum of the memory components of levels 0..n-1. */
  function TotalMemory(memory: int, k: nat, n: nat): (total: int)
  {
    if n == 0 then 0 else TotalMemory(memory, k, n - 1) + LevelMemory(memory, k, n - 1)
  }

  /** Sum of the level multipliers of levels 0..n-1. */
  function TotalWeight(k: nat, n: nat): (total: nat)
  {
    if n == 0 then 0 else TotalWeight(k, n - 1) + LevelWeight(n - 1, k)
  }

  /** The normaliser loop (test.cpp:27-29) sums to `5 * 2^k - 1`; for k = 0 this
      is 4, because the single level is also the top one. */
  lemma {:induction false} NormaliserClosedForm(k: nat)
    ensures PartialNormaliser(k + 1, k) == Normaliser(k)
    ensures k == 0 ==> Normaliser(k) == 4
  {
    BelowTop(k, k);
  }

  /** The terms below the top level sum to `2^n - 1`. */
  lemma {:induction false} BelowTop(n: nat, k: nat)
    requires n <= k
    ensures PartialNormaliser(n, k) == Pow2(n) - 1
  {
    if n > 0 {
      BelowTop(n - 1, k);
    }
  }

  /** For k >= 1 the level multipliers add up to the normaliser exactly, so the
      exact (untruncated) level memories add up to `memory`; for k = 0 they add up
      to 1 against a normaliser of 4. */
  lemma {:induction false} WeightsMatchNormaliser(k: nat)
    ensures k >= 1 ==> TotalWeight(k, k + 1) == Normaliser(k)
    ensures k == 0 ==> TotalWeight(k, k + 1) == 1
  {
    WeightsBelowTop(k, k);
    NormaliserClosedForm(k);
    if k >= 1 {
      BelowTop(k, k);
    }
  }

  lemma {:induction false} WeightsBelowTop(n: nat, k: nat)
    requires n <= k
    ensures n >= 1 ==> TotalWeight(k, n) == PartialNormaliser(n, k)
  {
    if n > 1 {
      WeightsBelowTop(n - 1, k);
    } else if n == 1 {
      assert TotalWeight(k, 1) == 1;
      assert PartialNormaliser(1, k) == Weight(0, k);
    }
  }

  /** With a non-negative budget every level's memory is non-negative and the
      memories never decrease from one level to the next (test.cpp:33, 36). */
  lemma LevelMemoryMonotone(memory: int, k: nat, i: nat)
    requires memory >= 0 && i < k
    ensures 0 <= LevelMemory(memory, k, i) <= LevelMemory(memory, k, i + 1)
  {
    var s := Normaliser(k);
    var a, b := LevelWeight(i, k), LevelWeight(i + 1, k);
    assert a <= b by {
      if i > 0 {
        assert Pow2(i + 1) == 2 * Pow2(i);
      }
    }
    MulMonotone(memory, a, b);
    DivMonotone(memory * a, memory * b, s);
  }

  lemma MulMonotone(m: nat, a: nat, b: nat)
    requires a <= b
    ensures 0 <= m * a <= m * b
  {
  }

  lemma DivMonotone(x: nat, y: nat, d: nat)
    requires x <= y && d > 0
    ensures 0 <= x / d <= y / d
  {
    var qx, qy := x / d, y / d;
    assert d * qx <= x;
    assert y < d * qy + d;
    Distribute(d, qy, 1);
    LessAfterScaling(d, qx, qy + 1);
  }

  lemma Distribute(m: int, a: int, b: int)
    ensures m * (a + b) == m * a + m * b
  {
  }

  /** What truncating `x / s` loses lies in [0, s - 1]. */
  lemma DivRemainder(x: nat, s: nat)
    requires s > 0
    ensures 0 <= x - s * (x / s) <= s - 1
  {
  }

  /** The remainders lost by truncating levels 0..n-1: the exact total
      `memory * TotalWeight` exceeds `sum * TotalMemory` by at least 0 and at most
      `n * (sum - 1)`. */
  lemma {:induction false} TruncationLoss(memory: int, k: nat, n: nat)
    requires memory >= 0
    ensures 0 <= memory * TotalWeight(k, n) - Normaliser(k) * TotalMemory(memory, k, n)
                <= n * (Normaliser(k) - 1)
  {
    var s := Normaliser(k);
    if n > 0 {
      TruncationLoss(memory, k, n - 1);
      var a, b := TotalWeight(k, n - 1), TotalMemory(memory, k, n - 1);
      var w := LevelWeight(n - 1, k);
      var q := LevelMemory(memory, k, n - 1);
      var before := memory * a - s * b;
      assert 0 <= before <= (n - 1) * (s - 1);
      MulMonotone(memory, 0, w);
      assert q == (memory * w) / s;
      DivRemainder(memory * w, s);
      var lost := memory * w - s * q;
      assert 0 <= lost <= s - 1;
      assert TotalWeight(k, n) == a + w;
      assert TotalMemory(memory, k, n) == b + q;
      Distribute(memory, a, w);
      Distribute(s, b, q);
      assert memory * TotalWeight(k, n) - s * TotalMemory(memory, k, n) == before + lost;
      Distribute(s - 1, n - 1, 1);
      assert (n - 1) * (s - 1) + (s - 1) == n * (s - 1);
    }
  }

  /** The stair's memory budget (test.cpp:27-36): with a non-negative budget and
      at least one level above the base, the truncated level memories add up to
      at most `memory` and to more than `memory - (k + 1)`. With k = 0 only a
      quarter of the budget is handed out. */
  lemma StairMemoryBudget(memory: int, k: nat)
    requires memory >= 0
    ensures TotalMemory(memory, k, k + 1) <= memory
    ensures k >= 1 ==> TotalMemory(memory, k, k + 1) > memory - (k + 1)
    ensures k == 0 ==> TotalMemory(memory, k, k + 1) == memory / 4
  {
    var t := TotalMemory(memory, k, k + 1);
    if k >= 1 {
      var s := Normaliser(k);
      TruncationLoss(memory, k, k + 1);
      WeightsMatchNormaliser(k);
      BudgetFromLoss(memory, t, s, k + 1);
    } else {
      assert t == TotalMemory(memory, 0, 0) + LevelMemory(memory, 0, 0);
      assert LevelMemory(memory, 0, 0) == memory / 4;
    }
  }

  /** A total t that falls short of `memory` by a scaled loss of at most
      `n * (s - 1)` lies in (memory - n, memory]. */
  lemma BudgetFromLoss(memory: int, t: int, s: int, n: int)
    requires s > 0 && n >= 1 && 0 <= memory * s - s * t <= n * (s - 1)
    ensures memory - n < t <= memory
  {
    assert s * (memory - t) == memory * s - s * t;
    PositiveFactor(s, memory - t);
    assert n * (s - 1) == s * n - n;
    LessAfterScaling(s, memory - t, n);
  }

  lemma PositiveFactor(s: int, x: int)
    requires s > 0 && s * x >= 0
    ensures x >= 0
  {
  }

  lemma LessAfterScaling(s: int, x: int, y: int)
    requires s > 0 && s * x < s * y
    ensures x < y
  {
  }

  lemma {:induction false} MemoryOfLevels(levels: seq<Level>, memory: int, k: nat, n: nat)
    requires n <= |levels|
    requires forall i :: 0 <= i < |levels| ==> levels[i].memory == LevelMemory(memory, k, i)
    ensures MemoryOf(levels[..n]) == TotalMemory(memory, k, n)
  {
    if n > 0 {
      assert levels[..n][..n - 1] == levels[..n - 1];
      MemoryOfLevels(levels, memory, k, n - 1);
    }
  }

  /** With a non-negative budget the stored memories are non-negative and
      non-decreasing from one level to the next. */
  lemma StairMonotone(levels: seq<Level>, memory: int, k: nat)
    requires memory >= 0 && |levels| == k + 1
    requires forall i :: 0 <= i <= k ==> levels[i].memory == LevelMemory(memory, k, i)
    ensures forall i :: 0 <= i <= k ==> levels[i].memory >= 0
    ensures forall i :: 0 <= i < k ==> levels[i].memory <= levels[i + 1].memory
  {
    forall j | 0 <= j < k
      ensures 0 <= levels[j].memory <= levels[j + 1].memory
    {
      LevelMemoryMonotone(memory, k, j);
    }
    TruncDivNonNegative(memory * LevelWeight(k, k), Normaliser(k));
  }

  /** `memory * (1 << i) * f` is `memory` times the level's weight. */
  lemma ScaledWeight(memory: int, i: nat, k: nat)
    ensures memory * Pow2(i) * Factor(i, k) == memory * Weight(i, k)
  {
    if i == k {
      MulAssociates(memory, Pow2(i), 4);
    }
  }

  lemma MulAssociates(a: int, b: int, c: int)
    ensures a * b * c == a * (b * c)
  {
  }

  lemma TruncDivNonNegative(a: int, b: nat)
    requires a >= 0 && b > 0
    ensures TruncDiv(a, b) >= 0
  {
    DivNonNegative(a, b);
  }

  lemma DivNonNegative(a: int, b: int)
    requires a >= 0 && b > 0
    ensures a / b >= 0
  {
  }

  /** With a non-negative budget the stored memories add up to at most the
      budget, and to more than `memory - (k + 1)` when k >= 1. */
  lemma StairTotal(levels: seq<Level>, memory: int, k: nat)
    requires memory >= 0 && |levels| == k + 1
    requires forall i :: 0 <= i <= k ==> levels[i].memory == LevelMemory(memory, k, i)
    ensures MemoryOf(levels) <= memory
    ensures k >= 1 ==> MemoryOf(levels) > memory - (k + 1)
  {
    MemoryOfLevels(levels, memory, k, k + 1);
    assert levels[..k + 1] == levels;
    StairMemoryBudget(memory, k);
  }

  /** `stair_config` (test.cpp:26-38). The normaliser loop and the `push_back`
      loop are kept; the result has `k + 1` levels: level 0 is `(unit, 1, 1, 1)`,
      level i >= 1 holds two structures with factor 4 exactly at the top and a
      span of `2^(i-1)` windows, so spans double from level 1 upward. With a
      non-negative budget the memories are non-negative, non-decreasing, and add
      up to at most `memory` (and to more than `memory - (k + 1)` when k >= 1). */
  method StairConfig(memory: int, k: nat) returns (levels: seq<Level>)
    ensures |levels| == k + 1
    ensures levels[0] == Level(TruncDiv(memory, 5 * Pow2(k) - 1), 1, 1, 1)
    ensures forall i :: 1 <= i <= k ==>
      && levels[i].count == 2
      && levels[i].factor == Factor(i, k)
      && levels[i].span == Pow2(i - 1)
    ensures forall i :: 1 <= i < k ==> levels[i + 1].span == 2 * levels[i].span
    ensures forall i :: 0 <= i <= k ==> levels[i].memory == LevelMemory(memory, k, i)
    ensures memory >= 0 ==> forall i :: 0 <= i <= k ==> levels[i].memory >= 0
    ensures memory >= 0 ==> forall i :: 0 <= i < k ==> levels[i].memory <= levels[i + 1].memory
    ensures memory >= 0 ==> MemoryOf(levels) <= memory
    ensures memory >= 0 && k >= 1 ==> MemoryOf(levels) > memory - (k + 1)
  {
    var sum := 0;
    var i := 0;
    while i <= k
      invariant 0 <= i <= k + 1
      invariant sum == PartialNormaliser(i, k)
    {
      sum := sum + Pow2(i) * Factor(i, k);
      i := i + 1;
    }
    NormaliserClosedForm(k);

    levels := [Level(TruncDiv(memory, sum), 1, 1, 1)];
    i := 1;
    while i <= k
      invariant 1 <= i <= k + 1
      invariant |levels| == i
      invariant levels[0] == Level(TruncDiv(memory, sum), 1, 1, 1)
      invariant forall j :: 0 <= j < i ==> levels[j].memory == LevelMemory(memory, k, j)
      invariant forall j :: 1 <= j < i ==>
        levels[j].count == 2 && levels[j].factor == Factor(j, k) && levels[j].span == Pow2(j - 1)
    {
      var f := Factor(i, k);
      var m := TruncDiv(memory * Pow2(i) * f, sum);
      ScaledWeight(memory, i, k);
      levels := levels + [Level(m, 2, f, Pow2(i - 1))];
      i := i + 1;
    }
    forall j | 1 <= j < k
      ensures levels[j + 1].span == 2 * levels[j].span
    {
      assert Pow2(j) == 2 * Pow2(j - 1);
    }
    if memory >= 0 {
      StairMonotone(levels, memory, k);
      StairTotal(levels, memory, k);
    }
  }
}
