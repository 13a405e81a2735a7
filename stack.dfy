/**
 * The fixed-capacity integer stack of Stack.java.
 *
 * The stack is an `int[]` whose length is the capacity, and an index `stackTop`
 * of the topmost occupied slot (-1 when nothing is stored). The body of each
 * `synchronized` method is one atomic step, taken without interruption; the
 * artificial delays inside them are not modelled, and neither is the exception
 * an interrupted delay raises halfway through a step.
 *
 * The first half of the module describes the state as a value (`State`) and each
 * step as a function of it; the class `Stack` at the end keeps the source's fields
 * and is proved to perform exactly those steps.
 */
module Stacks {
  import opened JavaInts

  /** The backing array's contents and the value of `stackTop`. */
  datatype State = State(slots: seq<int32>, top: int)

  /** The index bound the stack keeps: `stackTop` is -1 or the index of a slot. */
  predicate Inv(s: State) {
    -1 <= s.top <= |s.slots| - 1
  }

  /** The stored elements, bottom first: the slots up to and including `stackTop`. */
  function Contents(s: State): (c: seq<int32>)
    requires Inv(s)
    ensures |c| == s.top + 1 <= |s.slots|
  {
    s.slots[..s.top + 1]
  }

  /** A new stack: `new int[capacity]` (all zero) and `stackTop = -1`. */
  function Init(capacity: nat): (s: State)
    ensures Inv(s) && |s.slots| == capacity && s.top == -1
    ensures Contents(s) == []
    ensures forall i :: 0 <= i < |s.slots| ==> s.slots[i] == 0
  {
    State(seq(capacity, _ => 0), -1)
  }

  /** `isEmpty()`: no element is stored. */
  predicate Empty(s: State): (b: bool)
    ensures Inv(s) ==> (b <==> Contents(s) == [])
  {
    s.top < 0
  }

  /** `isFull()`: every slot is in use. */
  predicate Full(s: State): (b: bool)
    ensures Inv(s) ==> (b <==> |Contents(s)| == |s.slots|)
  {
    s.top >= |s.slots| - 1
  }

  /** A stack of capacity 0 is full and empty at the same time. */
  lemma ZeroCapacityFullAndEmpty(s: State)
    requires Inv(s) && |s.slots| == 0
    ensures Empty(s) && Full(s)
  {
  }

  /**
   * `push(element)`: refused (false, nothing changes) when full; otherwise
   * `stackTop` moves up by one and the element is written into that slot.
   */
  function PushStep(s: State, element: int32): (r: (State, bool))
    requires Inv(s)
    ensures Inv(r.0) && |r.0.slots| == |s.slots|
    ensures r.1 <==> !Full(s)
    ensures !r.1 ==> r.0 == s
    ensures r.1 ==> r.0.top == s.top + 1 && r.0.slots == s.slots[s.top + 1 := element]
    ensures Contents(r.0) == if r.1 then Contents(s) + [element] else Contents(s)
  {
    if Full(s) then (s, false)
    else (State(s.slots[s.top + 1 := element], s.top + 1), true)
  }

  /**
   * `pop()`: `Integer.MIN_VALUE` and no change when empty; otherwise the top
   * element is returned, its slot is overwritten with `Integer.MIN_VALUE` and
   * `stackTop` moves down by one.
   */
  function PopStep(s: State): (r: (State, int32))
    requires Inv(s)
    ensures Inv(r.0) && |r.0.slots| == |s.slots|
    ensures Empty(s) ==> r == (s, MinValue)
    ensures !Empty(s) ==> r.0.top == s.top - 1 && r.0.slots == s.slots[s.top := MinValue]
    ensures !Empty(s) ==>
      var c := Contents(s);
      r.1 == c[|c| - 1] && Contents(r.0) == c[..|c| - 1]
  {
    if Empty(s) then (s, MinValue)
    else (State(s.slots[s.top := MinValue], s.top - 1), s.slots[s.top])
  }

  /**
   * A push that is accepted, followed by a pop, returns the pushed element and
   * leaves `stackTop` and the stored elements as they were; only the slot above
   * the old top now holds the sentinel.
   */
  lemma PushPopRoundTrip(s: State, x: int32)
    requires Inv(s) && !Full(s)
    ensures var (pushed, ok) := PushStep(s, x);
      var (popped, y) := PopStep(pushed);
      ok && y == x && popped.top == s.top && Contents(popped) == Contents(s)
      && popped.slots == s.slots[s.top + 1 := MinValue]
  {
  }

  /** The elements of `xs` in the opposite order. */
  function Reverse(xs: seq<int32>): (r: seq<int32>)
    ensures |r| == |xs|
    ensures forall i :: 0 <= i < |xs| ==> r[i] == xs[|xs| - 1 - i]
  {
    if xs == [] then [] else [xs[|xs| - 1]] + Reverse(xs[..|xs| - 1])
  }

  /** Successive `push` calls of the elements of `xs`, in order. */
  function PushAll(s: State, xs: seq<int32>): (r: State)
    requires Inv(s)
    ensures Inv(r) && |r.slots| == |s.slots|
    decreases |xs|
  {
    if xs == [] then s else PushAll(PushStep(s, xs[0]).0, xs[1..])
  }

  /** `n` successive `pop` calls: the final state and the values they return, in order. */
  function PopAll(s: State, n: nat): (r: (State, seq<int32>))
    requires Inv(s)
    ensures Inv(r.0) && |r.0.slots| == |s.slots| && |r.1| == n
    decreases n
  {
    if n == 0 then (s, [])
    else
      var (next, x) := PopStep(s);
      var (last, rest) := PopAll(next, n - 1);
      (last, [x] + rest)
  }

  /** Pushes that all fit append their elements, in order, above the stored ones. */
  lemma {:induction false} PushAllAppends(s: State, xs: seq<int32>)
    requires Inv(s) && |Contents(s)| + |xs| <= |s.slots|
    ensures Contents(PushAll(s, xs)) == Contents(s) + xs
    decreases |xs|
  {
    if xs != [] {
      var next := PushStep(s, xs[0]).0;
      PushAllAppends(next, xs[1..]);
      assert Contents(s) + xs == Contents(s) + [xs[0]] + xs[1..];
    }
  }

  /** `n` pops on a stack holding at least `n` elements return its top `n`, topmost first. */
  lemma {:induction false} PopAllTakesTop(s: State, n: nat)
    requires Inv(s) && n <= |Contents(s)|
    ensures var c := Contents(s);
      var (last, popped) := PopAll(s, n);
      Contents(last) == c[..|c| - n] && popped == Reverse(c[|c| - n..])
      && last.top == s.top - n
    decreases n
  {
    if n > 0 {
      var c := Contents(s);
      var (next, x) := PopStep(s);
      PopAllTakesTop(next, n - 1);
      var c' := Contents(next);
      assert c' == c[..|c| - 1];
      assert c'[..|c'| - (n - 1)] == c[..|c| - n];
      var t := c[|c| - n..];
      assert t[..|t| - 1] == c'[|c'| - (n - 1)..];
      assert t[|t| - 1] == x;
    }
  }

  /**
   * Last in, first out: pushing `xs` onto a stack with room for them and then
   * popping `|xs|` times returns `xs` reversed and restores `stackTop` and the
   * stored elements.
   */
  lemma LastInFirstOut(s: State, xs: seq<int32>)
    requires Inv(s) && |Contents(s)| + |xs| <= |s.slots|
    ensures var (last, popped) := PopAll(PushAll(s, xs), |xs|);
      popped == Reverse(xs) && last.top == s.top && Contents(last) == Contents(s)
  {
    var pushed := PushAll(s, xs);
    PushAllAppends(s, xs);
    PopAllTakesTop(pushed, |xs|);
    var c := Contents(pushed);
    assert c[|c| - |xs|..] == xs;
    assert c[..|c| - |xs|] == Contents(s);
  }

  /** Stack.java's class: an array and the index of its top element, updated in place. */
  class Stack {
    var slots: array<int32>
    var stackTop: int

    /** The object's state as a value. */
    function Abstract(): State
      reads this, slots
    {
      State(slots[..], stackTop)
    }

    ghost predicate Valid()
      reads this, slots
    {
      Inv(Abstract())
    }

    /** `new Stack(capacity)`; a negative capacity makes Java's array allocation throw. */
    constructor (capacity: int32)
      requires capacity >= 0
      ensures fresh(slots) && Valid()
      ensures Abstract() == Init(capacity as nat)
    {
      slots := new int32[capacity as int](_ => 0);
      stackTop := -1;
      new;
      assert slots[..] == seq(capacity as int, _ => 0);
    }

    /** `isEmpty()`, on the object's state. */
    function IsEmpty(): (b: bool)
      reads this, slots
      ensures Valid() ==> (b <==> Contents(Abstract()) == [])
    {
      Empty(Abstract())
    }

    /** `isFull()`, on the object's state. */
    function IsFull(): (b: bool)
      reads this, slots
      ensures Valid() ==> (b <==> |Contents(Abstract())| == slots.Length)
    {
      Full(Abstract())
    }

    method Push(element: int32) returns (ok: bool)
      requires Valid()
      modifies this`stackTop, slots
      ensures Valid()
      ensures (Abstract(), ok) == PushStep(old(Abstract()), element)
    {
      if IsFull() {
        return false;
      }
      stackTop := stackTop + 1;
      slots[stackTop] := element;
      return true;
    }

    method Pop() returns (result: int32)
      requires Valid()
      modifies this`stackTop, slots
      ensures Valid()
      ensures (Abstract(), result) == PopStep(old(Abstract()))
    {
      if IsEmpty() {
        return MinValue;
      }
      result := slots[stackTop];
      slots[stackTop] := MinValue;
      stackTop := stackTop - 1;
    }
  }

  /** A caller's view of the round trip: on a stack that is not full, `push(x)` then `pop()` yields `x`. */
  method PushThenPop(s: Stack, x: int32) returns (y: int32)
    requires s.Valid() && !s.IsFull()
    modifies s`stackTop, s.slots
    ensures s.Valid() && y == x
    ensures s.stackTop == old(s.stackTop)
    ensures Contents(s.Abstract()) == old(Contents(s.Abstract()))
  {
    ghost var before := s.Abstract();
    PushPopRoundTrip(before, x);
    var ok := s.Push(x);
    y := s.Pop();
  }
}
