# Bounded stack and blocking queue, modelled in Dafny

This project models the two data structures of the java-multithreading
repository that hold real state logic:

- `Stack` (src/main/java/org/example/Stack.java): a fixed-capacity stack of Java
  `int`s. It keeps an `int[]` whose length is the capacity and an index
  `stackTop` that starts at -1. `push` refuses with `false` when the stack is
  full. `pop` returns the sentinel `Integer.MIN_VALUE` when the stack is empty.
  Otherwise `pop` returns the top element, overwrites its slot with the
  sentinel, and moves `stackTop` down.
- `BlockingQueue` (src/main/java/org/example/BlockingQueue.java): a FIFO of
  `int`s in a `LinkedList` with a recorded `capacity`. `add` waits while
  `size == capacity`, then appends and returns `true`. `remove` waits while
  the list is empty, then polls the head.

Each source file is one module (`Stacks`, `BlockingQueues`, in
`stack.dfy` and `blocking_queue.dfy`). `java_ints.dfy` holds Java's 32-bit `int`
as the newtype `int32` and `Integer.MIN_VALUE`; `options.dfy` holds the `Option`
type that the queue's steps return.

Each of the two source modules has two layers:

- The object's state as a value (`Stacks.State`, `BlockingQueues.QState`), with
  each atomic step as a function of it (`PushStep`, `PopStep`, `AddStep`,
  `RemoveStep`). The properties are proved as lemmas about these functions,
  including lemmas over whole sequences of calls (`PushAll`, `PopAll`,
  `BlockingQueues.Run`).
- A class with the source's own fields (`Stack.slots` is the `int[]` and
  `Stack.stackTop` the index; `BlockingQueue.queue` is the list and
  `BlockingQueue.capacity` the capacity). Its methods update those fields in
  place. Each method's postcondition says that the new state and the result
  are those of the step function applied to the old state.

The body of each `synchronized` region is treated as one atomic step. A
`BlockingQueue` call that waits is modelled as a step that is not yet enabled.
`AddStep` and `RemoveStep` return `None` in that case ("would block"), and the
class methods `Add` and `Remove` require that their step is enabled. A run of
the real queue is a sequence of completed calls in the order they left the
monitor. `BlockingQueues.Run` replays such a sequence and returns `None` when
some call in it could not have completed at its turn.

The code has these properties, and the model keeps them:

- The code's `BlockingQueue` constructor accepts any capacity. There is no
  invalid-capacity error.
- An interrupted wait is printed and the wait loop goes on. There is no
  interrupted-call error, so neither error is modelled.
- The `add` guard is `size == capacity`, not `size >= capacity`. With a
  negative capacity, `add` therefore never waits and the queue grows past its
  capacity (`OverfullNeverBlocksAdd`). The capacity bound is proved only for
  queues that start within it (`RunKeepsBound`).

## Model

| member | source | states |
|---|---|---|
| Stacks.Init | src/main/java/org/example/Stack.java:8-13 | a new stack has an all-zero array of length `capacity`, `stackTop == -1`, keeps the index bound and stores nothing |
| Stacks.Contents | src/main/java/org/example/Stack.java:4-5 | the stored elements are the slots up to `stackTop`; there are `stackTop + 1` of them, never more than the capacity |
| Stacks.Empty | src/main/java/org/example/Stack.java:15-17 | `isEmpty()` holds exactly when no element is stored |
| Stacks.Full | src/main/java/org/example/Stack.java:19-21 | `isFull()` holds exactly when the number of stored elements equals the array length |
| Stacks.ZeroCapacityFullAndEmpty | src/main/java/org/example/Stack.java:15-21 | a capacity-0 stack is full and empty at once |
| Stacks.PushStep | src/main/java/org/example/Stack.java:24-39 | push succeeds exactly when the stack is not full. On refusal nothing changes. On success `stackTop` rises by one, only that slot is written, the element is appended to the contents, and the index bound still holds |
| Stacks.PopStep | src/main/java/org/example/Stack.java:42-58 | on an empty stack, pop returns `Integer.MIN_VALUE` and nothing changes. Otherwise it returns the last stored element, drops it from the contents, sets only its slot to `Integer.MIN_VALUE`, and lowers `stackTop` by one. The index bound still holds |
| Stacks.PushPopRoundTrip | src/main/java/org/example/Stack.java:24-58 | an accepted push followed by pop returns the pushed value and restores `stackTop` and the contents; only the slot above the old top now holds the sentinel |
| Stacks.PushAll | src/main/java/org/example/Stack.java:24-39 | any sequence of pushes keeps the index bound and the array length |
| Stacks.PopAll | src/main/java/org/example/Stack.java:42-58 | `n` pops return `n` values, keep the index bound and keep the array length |
| Stacks.PushAllAppends | src/main/java/org/example/Stack.java:24-39 | pushes that all fit append their elements, in order, to the contents |
| Stacks.PopAllTakesTop | src/main/java/org/example/Stack.java:42-58 | `n` pops on a stack with at least `n` elements return the top `n`, topmost first, and lower `stackTop` by `n` |
| Stacks.LastInFirstOut | src/main/java/org/example/Stack.java:24-58 | pushing `xs` onto a stack with room, then popping `|xs|` times, returns `xs` reversed and restores `stackTop` and the contents |
| Stacks.Stack.constructor | src/main/java/org/example/Stack.java:8-13 | `new Stack(capacity)` for a non-negative capacity allocates a fresh all-zero array of that length, sets `stackTop` to -1, and establishes the invariant |
| Stacks.Stack.IsEmpty | src/main/java/org/example/Stack.java:15-17 | `isEmpty()` on the object holds exactly when no element is stored |
| Stacks.Stack.IsFull | src/main/java/org/example/Stack.java:19-21 | `isFull()` on the object holds exactly when the number of stored elements equals the array length |
| Stacks.Stack.Push | src/main/java/org/example/Stack.java:24-39 | the in-place `push` keeps the invariant and yields exactly `PushStep`'s new array, `stackTop` and result. The array reference does not change |
| Stacks.Stack.Pop | src/main/java/org/example/Stack.java:42-58 | the in-place `pop` keeps the invariant and yields exactly `PopStep`'s new array, `stackTop` and result |
| Stacks.PushThenPop | src/main/java/org/example/Stack.java:24-58 | on a stack object that is not full, `push(x)` then `pop()` returns `x` and leaves `stackTop` and the contents as they were |
| BlockingQueues.Init | src/main/java/org/example/BlockingQueue.java:11-14 | a new queue is empty and records the given capacity. It is within the capacity bound exactly when the capacity is not negative |
| BlockingQueues.AddStep | src/main/java/org/example/BlockingQueue.java:16-30 | add waits exactly when `size == capacity`. Otherwise the item goes at the tail, earlier items are unchanged, the capacity is unchanged, and the bound is preserved |
| BlockingQueues.RemoveStep | src/main/java/org/example/BlockingQueue.java:33-51 | remove waits exactly when the queue is empty. Otherwise it returns the head, the remaining items are the old tail, the capacity is unchanged, and the bound is preserved |
| BlockingQueues.ZeroCapacityBlocksAdd | src/main/java/org/example/BlockingQueue.java:18 | on a capacity-0 queue, every add waits |
| BlockingQueues.OverfullNeverBlocksAdd | src/main/java/org/example/BlockingQueue.java:18-26 | once the size exceeds the capacity, add never waits, and no add brings the queue back within the bound |
| BlockingQueues.Run | src/main/java/org/example/BlockingQueue.java:16-51 | no sequence of completed calls changes the capacity |
| BlockingQueues.Added | src/main/java/org/example/BlockingQueue.java:16-30 | the added items come from `add` calls of the sequence, and there are no more of them than calls |
| BlockingQueues.Removes | src/main/java/org/example/BlockingQueue.java:33-51 | a sequence of exactly `n` `remove` calls |
| BlockingQueues.RunConserves | src/main/java/org/example/BlockingQueue.java:26-47 | no loss or duplication: the removed values followed by what remains equal the initial contents followed by the added items, in order, and the capacity is unchanged |
| BlockingQueues.RunKeepsBound | src/main/java/org/example/BlockingQueue.java:16-51 | starting within `0 <= size <= capacity`, every run of completed calls ends within it |
| BlockingQueues.RemovesDrainHead | src/main/java/org/example/BlockingQueue.java:33-51 | `n` removes on a queue with at least `n` items return its first `n` items in order and leave the rest |
| BlockingQueues.FirstInFirstOut | src/main/java/org/example/BlockingQueue.java:26-47 | after `add(a)` then `add(b)` on a bounded queue with room for both, draining returns the earlier items, then `a`, then `b`, and leaves the queue empty |
| BlockingQueues.CapacityOneHandOff | src/main/java/org/example/BlockingQueue.java:16-51 | on a capacity-1 queue, a second add cannot complete before a remove, and alternating add/remove delivers 1, 2, 3 in order |
| BlockingQueues.BlockingQueue.constructor | src/main/java/org/example/BlockingQueue.java:11-14 | the new object's list is empty and its capacity is the argument, with no check |
| BlockingQueues.BlockingQueue.Add | src/main/java/org/example/BlockingQueue.java:16-30 | once enabled, `add` changes only the list, to `AddStep`'s result. It returns true, leaves the capacity unchanged, and preserves the bound |
| BlockingQueues.BlockingQueue.Remove | src/main/java/org/example/BlockingQueue.java:33-51 | once enabled, `remove` changes only the list, to `RemoveStep`'s result, and returns the old head. The capacity is unchanged and the bound is preserved |
| BlockingQueues.AddTwiceRemoveTwice | src/main/java/org/example/BlockingQueue.java:16-51 | on an empty queue object with capacity at least 2, `add(a)`, `add(b)`, `remove()`, `remove()` return `a` then `b` and leave it empty |

## Left out

- Thread scheduling, the monitors (`synchronized`), `wait` and `notifyAll`
  are not modelled. Waiting is modelled only as a step that is not enabled.
  Wake-ups, fairness and liveness are not modelled.
- The `Thread.sleep` delays inside `push` and `pop` are left out. An
  uninterrupted delay changes no state, and under the `synchronized` methods
  the interleavings it exposes do not change the outcome of a step.
- An interrupted delay in `Stack` is left out. It rethrows as a
  `RuntimeException` halfway through the step, and the model does not
  capture the two half-done states this leaves:
  - In `push` (Stack.java:28-36), `stackTop` has already been raised but the
    slot is never written, so the stack gains a phantom top element (0 or a
    stale `Integer.MIN_VALUE`).
  - In `pop` (Stack.java:47-56), the top slot has already been overwritten
    with `Integer.MIN_VALUE` but `stackTop` is not lowered, so the popped
    element is lost and the sentinel is left in its place.
- Stacks.PushStep, Stacks.PopStep, Stacks.PushPopRoundTrip and
  Stacks.LastInFirstOut: describe uninterrupted calls only, for the reason
  above.
- In `BlockingQueue`, an `InterruptedException` during the wait is printed
  and the wait is retried. The model leaves this out; it changes no state.
- Stacks.Stack.constructor: requires a non-negative capacity. For a negative
  capacity, Java's array allocation throws an exception instead, and the model
  does not capture that exception.
- The unused `lock` field of `Stack` is not modelled.
- `BlockingQueue`'s constructor is `private` in the code. The model still
  gives it a public constructor so that the class can be used.
- Stacks.PushAll: ignores the result of each `push`. Refused pushes are
  covered by `PushStep`.
- The thread demo classes (ThreadTester1, ThreadTester3, ThreadTester4 and
  ThreadTester5) and the `TVSet` singleton are not part of this model. They
  have no state logic beyond printing, thread control or locking.
