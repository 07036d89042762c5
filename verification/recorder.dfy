/**
 * The operation log of the visualisation: the hook on the path finder's
 * `Node.set` appends one record per call, and playback (Controller.step)
 * drains the log from the front, skipping records whose attribute the view
 * cannot show. This module holds the records and the specification of
 * draining; the log itself is a field of the controller.
 */
module Recorder {

  /**
   * The value passed to `Node.set`. Finders pass booleans for 'opened',
   * 'closed' and 'walkable', numbers for costs and a node (or null) for 'parent'.
   */
  datatype Value = Flag(b: bool) | Number(n: int) | NodeRef(x: int, y: int) | Null

  /** JavaScript truthiness of a value, which is all the view looks at. */
  predicate Truthy(v: Value) {
    match v
    case Flag(b) => b
    case Number(n) => n != 0
    case NodeRef(_, _) => true
    case Null => false
  }

  /** One recorded call `node.set(attr, value)` on the node at (x, y). */
  datatype Op = Op(x: int, y: int, attr: string, value: Value)

  /** The attributes that playback shows; every other attribute is skipped. */
  const SupportedOperations: seq<string> := ["opened", "closed"]

  predicate IsSupported(op: Op) {
    op.attr in SupportedOperations
  }

  /**
   * Reference definition of what playback should show: the log restricted to
   * supported records, in log order.
   */
  function Filter(ops: seq<Op>): seq<Op>
    decreases |ops|
  {
    if ops == [] then []
    else if IsSupported(ops[0]) then [ops[0]] + Filter(ops[1..])
    else Filter(ops[1..])
  }

  /** The outcome of one round of draining: the log ran dry, or a record to apply and what is left. */
  datatype Shifted = Exhausted | Found(op: Op, rest: seq<Op>)

  /**
   * What the do-while loop of one playback step does to the log: shift
   * records off the front until one is supported, or until the log is empty.
   */
  function Shift(ops: seq<Op>): (r: Shifted)
    decreases |ops|
    ensures r.Exhausted? <==> forall i :: 0 <= i < |ops| ==> !IsSupported(ops[i])
    ensures r.Found? ==>
              var k := |ops| - |r.rest| - 1;
              0 <= k && ops[k] == r.op && IsSupported(r.op) && r.rest == ops[k + 1..] &&
              forall i :: 0 <= i < k ==> !IsSupported(ops[i])
  {
    if ops == [] then Exhausted
    else if IsSupported(ops[0]) then Found(ops[0], ops[1..])
    else Shift(ops[1..])
  }

  /** The records applied by playback steps, one per step, until a step finds the log exhausted. */
  function Playback(ops: seq<Op>): seq<Op>
    decreases |ops|
  {
    match Shift(ops)
    case Exhausted => []
    case Found(op, rest) => [op] + Playback(rest)
  }

  /** The number of playback steps up to and including the one that fires `finish`. */
  function Ticks(ops: seq<Op>): nat
    decreases |ops|
  {
    match Shift(ops)
    case Exhausted => 1
    case Found(_, rest) => 1 + Ticks(rest)
  }

  // ---------------------------------------------------------------------
  // Properties

  /** One step removes exactly the supported record it applies and the unsupported ones before it. */
  lemma {:induction false} StepKeepsOrder(ops: seq<Op>)
    ensures Shift(ops).Exhausted? ==> Filter(ops) == []
    ensures Shift(ops).Found? ==> Filter(ops) == [Shift(ops).op] + Filter(Shift(ops).rest)
    decreases |ops|
  {
    if ops != [] && !IsSupported(ops[0]) {
      StepKeepsOrder(ops[1..]);
    }
  }

  /**
   * Order preservation: the records applied over successive steps are the log
   * filtered to the supported attributes, in log order.
   */
  lemma {:induction false} PlaybackIsFilter(ops: seq<Op>)
    ensures Playback(ops) == Filter(ops)
    decreases |ops|
  {
    StepKeepsOrder(ops);
    match Shift(ops)
    case Exhausted =>
    case Found(op, rest) => PlaybackIsFilter(rest);
  }

  /** Draining takes one step per supported record plus the final step, so at most |ops| + 1 steps. */
  lemma {:induction false} TicksToDrain(ops: seq<Op>)
    ensures Ticks(ops) == |Filter(ops)| + 1
    ensures Ticks(ops) <= |ops| + 1
    decreases |ops|
  {
    StepKeepsOrder(ops);
    FilterShrinks(ops);
    match Shift(ops)
    case Exhausted =>
    case Found(op, rest) => TicksToDrain(rest);
  }

  /** Filtering keeps a sub-multiset: no record is applied more often than it was recorded. */
  lemma {:induction false} FilterShrinks(ops: seq<Op>)
    ensures multiset(Filter(ops)) <= multiset(ops)
    ensures |Filter(ops)| <= |ops|
    ensures forall op :: op in Filter(ops) ==> IsSupported(op) && op in ops
    decreases |ops|
  {
    if ops != [] {
      FilterShrinks(ops[1..]);
      assert ops == [ops[0]] + ops[1..];
    }
  }

  /**
   * Filtering distributes over concatenation: records appended behind a log
   * that has not been drained are shown after everything still in it.
   */
  lemma {:induction false} FilterAppend(a: seq<Op>, b: seq<Op>)
    ensures Filter(a + b) == Filter(a) + Filter(b)
    decreases |a|
  {
    if a == [] {
      assert a + b == b;
    } else {
      assert (a + b)[1..] == a[1..] + b;
      FilterAppend(a[1..], b);
    }
  }

  /** A log holding only unsupported records ends playback at once, without applying anything. */
  lemma {:induction false} UnsupportedOnlyFinishes(ops: seq<Op>)
    requires forall i :: 0 <= i < |ops| ==> !IsSupported(ops[i])
    ensures Playback(ops) == [] && Ticks(ops) == 1
  {
  }
}
