/**
 * The capacity-bounded FIFO of BlockingQueue.java.
 *
 * The queue holds Java `int`s in a `LinkedList` and records a `capacity`. Each of
 * `add` and `remove` runs inside `synchronized (queue)`: it waits while its guard
 * holds (`size == capacity` for `add`, `size == 0` for `remove`) and then changes
 * the list in one atomic step. A waiting call is modelled as a step that is not
 * yet enabled: at value level the step returns `None` ("would block"), and the
 * class's methods require the step to be enabled. Any run of the real queue is a
 * sequence of such enabled steps, one per completed call, in the order in which
 * the calls left the monitor; `Run` below replays such a sequence.
 */
module BlockingQueues {
  import opened JavaInts
  import opened Options

  /** The list's contents, head first, and the recorded capacity. */
  datatype QState = QState(items: seq<int32>, capacity: int32)

  /** The capacity bound, which holds only when the capacity is not negative. */
  predicate Bounded(q: QState) {
    0 <= |q.items| <= q.capacity as int
  }

  /** A new queue: an empty list; the capacity is recorded without any check. */
  function Init(capacity: int32): (q: QState)
    ensures q.items == [] && q.capacity == capacity
    ensures Bounded(q) <==> capacity >= 0
  {
    QState([], capacity)
  }

  /**
   * The atomic part of `add(item)`: `None` while `size == capacity` (the call
   * waits); otherwise the item is appended at the tail (and `add` returns true).
   */
  function AddStep(q: QState, item: int32): (r: Option<QState>)
    ensures r.None? <==> |q.items| == q.capacity as int
    ensures r.Some? ==> r.value.capacity == q.capacity
    ensures r.Some? ==>
      (|r.value.items| == |q.items| + 1
       && r.value.items[..|q.items|] == q.items && r.value.items[|q.items|] == item)
    ensures r.Some? && Bounded(q) ==> Bounded(r.value)
  {
    if |q.items| == q.capacity as int then None
    else Some(QState(q.items + [item], q.capacity))
  }

  /**
   * The atomic part of `remove()`: `None` while `size == 0` (the call waits);
   * otherwise the head is polled and returned.
   */
  function RemoveStep(q: QState): (r: Option<(QState, int32)>)
    ensures r.None? <==> q.items == []
    ensures r.Some? ==> r.value.0.capacity == q.capacity
    ensures r.Some? ==> [r.value.1] + r.value.0.items == q.items
    ensures r.Some? && Bounded(q) ==> Bounded(r.value.0)
  {
    if |q.items| == 0 then None
    else Some((QState(q.items[1..], q.capacity), q.items[0]))
  }

  /** A queue of capacity 0 never accepts an element: every `add` waits. */
  lemma ZeroCapacityBlocksAdd(q: QState, item: int32)
    requires Bounded(q) && q.capacity == 0
    ensures AddStep(q, item) == None
  {
  }

  /**
   * The guard compares with `==`, so a queue whose size already exceeds its
   * capacity (which a negative capacity gives from the start) never makes `add`
   * wait, and no `add` brings it back within the bound.
   */
  lemma OverfullNeverBlocksAdd(q: QState, item: int32)
    requires |q.items| > q.capacity as int
    ensures AddStep(q, item).Some? && !Bounded(AddStep(q, item).value)
  {
  }

  /** A completed call on the queue. */
  datatype Op = Add(item: int32) | Remove

  /**
   * Replays completed calls in order: the final state and the values returned by
   * the `remove` calls, or `None` if some call could not have completed at its
   * turn (its step was not enabled).
   */
  function Run(q: QState, ops: seq<Op>): (r: Option<(QState, seq<int32>)>)
    ensures r.Some? ==> r.value.0.capacity == q.capacity
    decreases |ops|
  {
    if ops == [] then Some((q, []))
    else match ops[0]
      case Add(x) =>
        (match AddStep(q, x)
         case None => None
         case Some(next) => Run(next, ops[1..]))
      case Remove =>
        (match RemoveStep(q)
         case None => None
         case Some((next, x)) =>
           match Run(next, ops[1..])
           case None => None
           case Some((last, out)) => Some((last, [x] + out)))
  }

  /** The items of the `add` calls among `ops`, in order. */
  function Added(ops: seq<Op>): (r: seq<int32>)
    ensures |r| <= |ops|
    ensures forall x :: x in r ==> Add(x) in ops
  {
    if ops == [] then []
    else (if ops[0].Add? then [ops[0].item] else []) + Added(ops[1..])
  }

  /** `n` calls of `remove`. */
  function Removes(n: nat): (r: seq<Op>)
    ensures |r| == n && forall i :: 0 <= i < n ==> r[i] == Remove
  {
    if n == 0 then [] else [Remove] + Removes(n - 1)
  }

  /**
   * No loss and no duplication: the values returned by the `remove` calls,
   * followed by what is left in the queue, are the initial contents followed by
   * the added items, in order. The capacity is never changed.
   */
  lemma {:induction false} RunConserves(q: QState, ops: seq<Op>)
    requires Run(q, ops).Some?
    ensures var (last, out) := Run(q, ops).value;
      out + last.items == q.items + Added(ops) && last.capacity == q.capacity
    decreases |ops|
  {
    if ops != [] {
      var rest := ops[1..];
      assert Added(ops) == (if ops[0].Add? then [ops[0].item] else []) + Added(rest);
      match ops[0]
      case Add(x) =>
        var next := AddStep(q, x).value;
        RunConserves(next, rest);
      case Remove =>
        var (next, x) := RemoveStep(q).value;
        RunConserves(next, rest);
        var (last, out) := Run(next, rest).value;
        assert Run(q, ops).value == (last, [x] + out);
        assert [x] + out + last.items == [x] + (out + last.items);
    }
  }

  /** If the capacity bound holds at the start, it holds after every run. */
  lemma {:induction false} RunKeepsBound(q: QState, ops: seq<Op>)
    requires Bounded(q) && Run(q, ops).Some?
    ensures Bounded(Run(q, ops).value.0)
    decreases |ops|
  {
    if ops != [] {
      match ops[0]
      case Add(x) =>
        RunKeepsBound(AddStep(q, x).value, ops[1..]);
      case Remove =>
        RunKeepsBound(RemoveStep(q).value.0, ops[1..]);
    }
  }

  /** `n` removes on a queue holding at least `n` items return its first `n` items, in order. */
  lemma {:induction false} RemovesDrainHead(q: QState, n: nat)
    requires n <= |q.items|
    ensures Run(q, Removes(n)) == Some((QState(q.items[n..], q.capacity), q.items[..n]))
    decreases n
  {
    if n > 0 {
      var (next, x) := RemoveStep(q).value;
      assert Removes(n)[1..] == Removes(n - 1);
      RemovesDrainHead(next, n - 1);
      assert next.items[n - 1..] == q.items[n..];
      assert [x] + next.items[..n - 1] == q.items[..n];
    }
  }

  /**
   * First in, first out: after `add(a)` and then `add(b)` on a bounded queue with
   * room for both, draining the queue returns the earlier contents, then `a`,
   * then `b`.
   */
  lemma FirstInFirstOut(q: QState, a: int32, b: int32)
    requires Bounded(q) && |q.items| + 2 <= q.capacity as int
    ensures var n := |q.items|;
      Run(q, [Add(a), Add(b)] + Removes(n + 2))
        == Some((QState([], q.capacity), q.items + [a, b]))
  {
    var n := |q.items|;
    var ops := [Add(a), Add(b)] + Removes(n + 2);
    var q1 := AddStep(q, a).value;
    var q2 := AddStep(q1, b).value;
    assert q2.items == q.items + [a, b];
    assert ops[0] == Add(a) && ops[1..] == [Add(b)] + Removes(n + 2);
    assert Run(q, ops) == Run(q1, ops[1..]);
    assert ops[1..][0] == Add(b) && ops[1..][1..] == Removes(n + 2);
    assert Run(q1, ops[1..]) == Run(q2, Removes(n + 2));
    RemovesDrainHead(q2, n + 2);
    assert q2.items[n + 2..] == [] && q2.items[..n + 2] == q2.items;
  }

  /**
   * A capacity-1 queue hands values over one at a time: a second `add` cannot
   * complete before a `remove`, and alternating calls deliver 1, 2, 3 in order.
   */
  lemma CapacityOneHandOff()
    ensures Run(Init(1), [Add(1), Add(2)]) == None
    ensures Run(Init(1), [Add(1), Remove, Add(2), Remove, Add(3), Remove])
      == Some((Init(1), [1, 2, 3]))
  {
    var empty := Init(1);
    assert [Add(1), Add(2)][1..] == [Add(2)];
    var ops := [Add(1), Remove, Add(2), Remove, Add(3), Remove];
    assert Run(QState([3], 1), ops[5..]) == Some((empty, [3])) by {
      assert ops[5..] == [Remove] && ops[5..][1..] == [];
    }
    assert Run(empty, ops[4..]) == Some((empty, [3])) by {
      assert ops[4..][1..] == ops[5..];
    }
    assert Run(QState([2], 1), ops[3..]) == Some((empty, [2, 3])) by {
      assert ops[3..][0] == Remove && ops[3..][1..] == ops[4..];
      assert [2] + [3] == [2, 3];
    }
    assert Run(empty, ops[2..]) == Some((empty, [2, 3])) by {
      assert ops[2..][1..] == ops[3..];
    }
    assert Run(QState([1], 1), ops[1..]) == Some((empty, [1, 2, 3])) by {
      assert ops[1..][0] == Remove && ops[1..][1..] == ops[2..];
      assert [1] + [2, 3] == [1, 2, 3];
    }
  }

  /** BlockingQueue.java's class: a list and a capacity. */
  class BlockingQueue {
    var queue: seq<int32>
    var capacity: int32

    /** The object's state as a value. */
    function Abstract(): QState
      reads this
    {
      QState(queue, capacity)
    }

    /** `new BlockingQueue(capacity)`: any capacity is accepted. */
    constructor (capacity: int32)
      ensures Abstract() == Init(capacity)
    {
      this.capacity := capacity;
      this.queue := [];
    }

    /**
     * `add(item)`, once its wait loop has ended (`size != capacity`): append at
     * the tail and return true. Only the list changes.
     */
    method Add(item: int32) returns (ok: bool)
      requires |queue| != capacity as int
      modifies this`queue
      ensures ok && AddStep(old(Abstract()), item) == Some(Abstract())
      ensures capacity == old(capacity)
      ensures old(Bounded(Abstract())) ==> Bounded(Abstract())
    {
      queue := queue + [item];
      return true;
    }

    /**
     * `remove()`, once its wait loop has ended (`size != 0`): poll the head and
     * return it. Only the list changes.
     */
    method Remove() returns (element: int32)
      requires |queue| != 0
      modifies this`queue
      ensures RemoveStep(old(Abstract())) == Some((Abstract(), element))
      ensures capacity == old(capacity)
      ensures old(Bounded(Abstract())) ==> Bounded(Abstract())
    {
      element := queue[0];
      queue := queue[1..];
    }
  }

  /** A caller's view of FIFO order: on an empty queue with room for two, `add(a)`, `add(b)`, `remove()`, `remove()` yield `a` then `b`. */
  method AddTwiceRemoveTwice(q: BlockingQueue, a: int32, b: int32) returns (first: int32, second: int32)
    requires q.queue == [] && q.capacity >= 2
    modifies q`queue
    ensures first == a && second == b && q.queue == []
  {
    var ok := q.Add(a);
    ok := q.Add(b);
    first := q.Remove();
    second := q.Remove();
  }
}
