/** The capability set every sketch under test offers the harness. The concrete
    sketch families are outside this model: a sketch is described by what it
    answers as a function of everything it has been fed, and by how many
    internal probes a range query costs it. */
module SketchModel {
  import opened Dataset

  /** One call of `add`: `add(window, elem, delta)` on the delta path,
      `add(window, elem)` on the replay path. */
  datatype AddCall = AddBatch(window: nat, elem: Elem, delta: int) | AddOne(window: nat, elem: Elem)
  {
    /** How many occurrences the call reports. */
    function Amount(): (amount: int)
    {
      match this
      case AddBatch(_, _, d) => d
      case AddOne(_, _) => 1
    }
  }

  /** The occurrences of `e` that the calls `log` report for windows lo..hi. */
  function Fed(log: seq<AddCall>, e: Elem, lo: int, hi: int): (total: int)
  {
    if log == [] then 0
    else
      var c := log[|log| - 1];
      Fed(log[..|log| - 1], e, lo, hi) + (if c.elem == e && lo <= c.window <= hi then c.Amount() else 0)
  }

  /** The calls of `log` addressed to window `w`, in order. */
  function CallsAt(log: seq<AddCall>, w: nat): (r: seq<AddCall>)
  {
    if log == [] then []
    else CallsAt(log[..|log| - 1], w) + (if log[|log| - 1].window == w then [log[|log| - 1]] else [])
  }

  lemma {:induction false} FedAppend(a: seq<AddCall>, b: seq<AddCall>, e: Elem, lo: int, hi: int)
    ensures Fed(a + b, e, lo, hi) == Fed(a, e, lo, hi) + Fed(b, e, lo, hi)
  {
    if b != [] {
      assert (a + b)[..|a + b| - 1] == a + b[..|b| - 1];
      FedAppend(a, b[..|b| - 1], e, lo, hi);
    } else {
      assert a + b == a;
    }
  }

  lemma {:induction false} CallsAtAppend(a: seq<AddCall>, b: seq<AddCall>, w: nat)
    ensures CallsAt(a + b, w) == CallsAt(a, w) + CallsAt(b, w)
  {
    if b != [] {
      assert (a + b)[..|a + b| - 1] == a + b[..|b| - 1];
      CallsAtAppend(a, b[..|b| - 1], w);
    } else {
      assert a + b == a;
    }
  }

  /** `query(w, e)` as a function of the calls fed so far. */
  type QueryFn = (seq<AddCall>, nat, Elem) -> int
  /** `query_multiple_windows(l, r, e)` as a function of the calls fed so far. */
  type RangeFn = (seq<AddCall>, nat, nat, Elem) -> int
  /** The growth of `qcnt()` caused by one `query_multiple_windows(l, r, e)`. */
  type CostFn = (seq<AddCall>, nat, nat, Elem) -> nat

  /** What a sketch answers once it has been fed `fed`, during a metric
      phase in which nothing more is added. */
  datatype Oracle = Oracle(answer: QueryFn, cost: CostFn, fed: seq<AddCall>)
  {
    function Query(w: nat, e: Elem): (a: int) { answer(fed, w, e) }
    function Cost(l: nat, r: nat, e: Elem): (c: nat) { cost(fed, l, r, e) }
  }

  /** A sketch that answers `query(w, e)` with exactly what it was fed for `e`
      in window `w`. */
  function ExactAnswer(log: seq<AddCall>, w: nat, e: Elem): (a: int)
  {
    Fed(log, e, w, w)
  }

  /** A sketch under test. `history` is what it has been fed, `probes` its
      `qcnt()` counter. */
  class Sketch {
    /** `add_delta_implemented()`. */
    const deltaImplemented: bool
    const answer: QueryFn
    const rangeAnswer: RangeFn
    const cost: CostFn
    var history: seq<AddCall>
    var probes: nat

    constructor (deltaImplemented: bool, answer: QueryFn, rangeAnswer: RangeFn, cost: CostFn)
      ensures this.deltaImplemented == deltaImplemented && this.answer == answer
      ensures this.rangeAnswer == rangeAnswer && this.cost == cost
      ensures history == [] && probes == 0
    {
      this.deltaImplemented := deltaImplemented;
      this.answer := answer;
      this.rangeAnswer := rangeAnswer;
      this.cost := cost;
      history := [];
      probes := 0;
    }

    /** The sketch's answers as of now. */
    function View(): (o: Oracle)
      reads this`history
    {
      Oracle(answer, cost, history)
    }

    /** `add(w, e, d)`. */
    method AddDelta(w: nat, e: Elem, d: int)
      modifies this`history
      ensures history == old(history) + [AddBatch(w, e, d)]
    {
      history := history + [AddBatch(w, e, d)];
    }

    /** `add(w, e)`. */
    method Add(w: nat, e: Elem)
      modifies this`history
      ensures history == old(history) + [AddOne(w, e)]
    {
      history := history + [AddOne(w, e)];
    }

    /** `query(w, e)`: the oracle's answer on what the sketch has been fed;
        reading it changes nothing. */
    function Query(w: nat, e: Elem): (a: int)
      reads this`history
      ensures a == View().Query(w, e)
    {
      answer(history, w, e)
    }

    /** `query_multiple_windows(l, r, e)`: advances `qcnt()` by the probes it
        performs and by nothing else. */
    method QueryMultipleWindows(l: nat, r: nat, e: Elem) returns (ans: int)
      modifies this`probes
      ensures ans == rangeAnswer(history, l, r, e)
      ensures probes == old(probes) + View().Cost(l, r, e)
    {
      ans := rangeAnswer(history, l, r, e);
      probes := probes + cost(history, l, r, e);
    }

    /** `qcnt()`. */
    function QCnt(): (n: nat)
      reads this`probes
    {
      probes
    }
  }
}
