# Bounded stack and queue of integers

This project models the two container modules of a small C collection of
abstract data types: a bounded LIFO stack (`ADT/Stack/ADT_Stack.c`,
`ADT/Stack/ADT_Stack.h`) and a bounded FIFO queue (`ADT/Queue/ADT_Queue.c`,
`ADT/Queue/ADT_Queue.h`). Both keep their `int` elements in a singly linked
chain of heap nodes. A record holds the element count `size`, the capacity
`maxSize` and the chain's end pointers. For the stack that is `top`; for the
queue it is `front` and `tail`. Each operation other than create returns
`TRUE`/`FALSE`; create returns the new record. The exception is
`queue_print`, which ends without a `return`. Print is not modelled.

The model has two layers per container:

- `StackModel` and `QueueModel` describe each container as a value. That
  value is the sequence of elements (top first, or front first) plus the
  capacity. Each C function becomes a transition on it. The lemmas about
  these transitions state what the modules promise: LIFO and FIFO order,
  round trips, that `size <= maxSize` survives any sequence of calls, and
  what `stack_clear` really does.
- `AdtStack` and `AdtQueue` hold the records as classes (`Stack`, `Queue`)
  over `Node` objects that are updated in place. A ghost sequence of nodes
  ties the pointer chain to the abstract contents. Each method proves that
  it performs exactly the transition of the value layer and keeps the chain
  well formed.

`AdtTypes` gives the element type `Data` (the 32-bit C `int`) and `Uint16`,
the type of the capacity both create functions take.

Two points where the code decides over its comments:

- The stack header declares `size` and `maxSize` as `uint32_t`. It also
  declares `stack_create(uint32_t)`. The definition takes `uint16_t`
  (`ADT/Stack/ADT_Stack.c:44`). The model follows the definition:
  capacities are `Uint16`. `size` never exceeds the capacity, so the
  `uint16_t` loop counter of `stack_clear` cannot wrap.
- `stack_clear` is documented to clear all elements. The code removes only
  the top ⌈n/2⌉ of n. The model reproduces the loop as written and proves
  what it does; see Findings. `stack_delete` uses that clear, so the nodes
  left behind stay linked when the record is released.

## Model

| member | source | states |
|---|---|---|
| `StackModel.Push` | ADT/Stack/ADT_Stack.c:80-105 | TRUE iff the value was put on top of the old contents; FALSE leaves the stack as it was; on a bounded stack TRUE iff size < maxSize; capacity kept; `size <= maxSize` preserved |
| `StackModel.Pop` | ADT/Stack/ADT_Stack.c:113-129 | TRUE iff the stack was non-empty; then the delivered value followed by the new contents is the old contents; on FALSE the out-value and the stack are unchanged; `size <= maxSize` preserved |
| `StackModel.PushThenPop` | ADT/Stack/test_stack.c:83-88 | popping right after a successful push delivers the pushed value and restores the stack |
| `StackModel.PopThenPush` | ADT/Stack/ADT_Stack.c:91-98 | pushing back the value just popped succeeds and restores the stack |
| `StackModel.PopNTakesPrefix` | ADT/Stack/ADT_Stack.c:118-125 | k pops deliver the top k elements, top first, and leave the elements below them |
| `StackModel.PushAllStacks` | ADT/Stack/ADT_Stack.c:91-98 | pushing a sequence that fits puts it on top in reverse order |
| `StackModel.LastInFirstOut` | ADT/Stack/ADT_Stack.h:92-106 | after pushing vs, as many pops deliver vs in reverse (last in, first out) and give back the original stack |
| `StackModel.ClearLoop` | ADT/Stack/ADT_Stack.c:145-148 | the loop from counter i against the current size never grows the stack and keeps its capacity; once i has reached the size it leaves the stack as it is |
| `StackModel.ClearLoopPops` | ADT/Stack/ADT_Stack.c:145-148 | the loop entered with counter i, re-reading the shrinking size, pops exactly k elements for the k with size - i <= 2k <= size - i + 1, i.e. ⌈(size - i)/2⌉ |
| `StackModel.Clear` | ADT/Stack/ADT_Stack.c:136-154 | `stack_clear` as written reports TRUE and leaves exactly the bottom ⌊n/2⌋ of n elements, the ones below the top ⌈n/2⌉, with the capacity kept |
| `StackModel.ClearLeavesElements` | ADT/Stack/ADT_Stack.c:132-150 | on any stack of two or more elements, clear reports TRUE but the stack is not empty |
| `StackModel.ClearAll` | ADT/Stack/ADT_Stack.h:108-113 | the corrected clear, with the pop count fixed before the loop, reports TRUE and leaves an empty stack of the same capacity |
| `StackModel.StepStaysBounded` | ADT/Stack/ADT_Stack.c:69-72 | a push, pop or clear keeps `size <= maxSize` and the capacity |
| `StackModel.RunStaysBounded` | ADT/Stack/ADT_Stack.c:91 | no sequence of push, pop and clear makes the size exceed maxSize |
| `AdtStack.Node.constructor` | ADT/Stack/ADT_Stack.h:34-41 | a node holds one value and one link, set to the given ones |
| `AdtStack.Stack.constructor` | ADT/Stack/ADT_Stack.c:44-52 | a new stack has size 0, a null top, the given maxSize and no elements |
| `AdtStack.Stack.IsEmpty` | ADT/Stack/ADT_Stack.c:59-62 | TRUE iff the stack holds no element; reads only |
| `AdtStack.Stack.IsFull` | ADT/Stack/ADT_Stack.c:69-72 | TRUE iff the number of elements equals maxSize; reads only |
| `AdtStack.Stack.Push` | ADT/Stack/ADT_Stack.c:80-105 | performs `StackModel.Push` on the chain: on success the new top holds the value and links to the old top; on failure top and size are unchanged; chain stays well formed |
| `AdtStack.Stack.Pop` | ADT/Stack/ADT_Stack.c:113-129 | performs `StackModel.Pop` on the chain: on success top advances to the old top's successor; on failure top, size and the out-value are unchanged |
| `AdtStack.Stack.Clear` | ADT/Stack/ADT_Stack.c:136-154 | runs the counted pop loop as written; the result is `StackModel.Clear` of the old stack, i.e. the old contents without their top ⌈n/2⌉ elements, and TRUE |
| `AdtStack.Stack.ClearAll` | ADT/Stack/ADT_Stack.c:145-148 | with the pop count fixed before the loop, every element is removed: size 0, null top, TRUE |
| `AdtStack.Stack.Delete` | ADT/Stack/ADT_Stack.c:161-179 | performs `StackModel.Clear` and reports its TRUE; capacity and footprint kept; the record is released holding the bottom ⌊n/2⌋ elements that clear left |
| `QueueModel.Insert` | ADT/Queue/ADT_Queue.c:81-117 | TRUE iff the value was appended after the old contents; FALSE leaves the queue as it was; on a bounded queue TRUE iff size < maxSize; capacity kept; `size <= maxSize` preserved |
| `QueueModel.Remove` | ADT/Queue/ADT_Queue.c:125-141 | TRUE iff the queue was non-empty; then the delivered value followed by the new contents is the old contents; on FALSE the out-value and the queue are unchanged |
| `QueueModel.InsertThenRemoveEmpty` | ADT/Queue/ADT_Queue.c:98-101 | a value inserted into an empty queue is the next one removed, and the queue is empty again |
| `QueueModel.InsertRemoveCommute` | ADT/Queue/ADT_Queue.c:104-107 | on a queue neither empty nor full, insert-then-remove delivers the old front and equals remove-then-insert |
| `QueueModel.RemoveNTakesPrefix` | ADT/Queue/ADT_Queue.c:130-138 | k removes deliver the first k elements in order and leave the rest |
| `QueueModel.InsertAllAppends` | ADT/Queue/ADT_Queue.c:92-110 | inserting a sequence that fits appends it in order |
| `QueueModel.RemoveAllDrains` | ADT/Queue/ADT_Queue.c:130-138 | removing as many times as there are elements delivers all of them in order and leaves an empty queue |
| `QueueModel.FirstInFirstOut` | ADT/Queue/ADT_Queue.h:98-112 | after inserting vs, removing everything delivers the old contents then vs, in insertion order, and empties the queue |
| `QueueModel.InsertIntoFullQueue` | ADT/Queue/test_queue.c:118-134 | inserting any sequence of values into a full queue leaves it exactly as it was |
| `QueueModel.RunStaysBounded` | ADT/Queue/ADT_Queue.h:49-55 | no sequence of inserts and removes makes the size exceed maxSize |
| `AdtQueue.Node.constructor` | ADT/Queue/ADT_Queue.c:94-95 | a new node holds the value and has no successor |
| `AdtQueue.Queue.constructor` | ADT/Queue/ADT_Queue.c:44-53 | a new queue has size 0, null front and tail, the given maxSize and no elements |
| `AdtQueue.Queue.IsEmpty` | ADT/Queue/ADT_Queue.c:60-63 | TRUE iff the queue holds no element, iff front is null; reads only |
| `AdtQueue.Queue.IsFull` | ADT/Queue/ADT_Queue.c:70-73 | TRUE iff the number of elements equals maxSize; reads only |
| `AdtQueue.Queue.Insert` | ADT/Queue/ADT_Queue.c:81-117 | performs `QueueModel.Insert` on the chain: on success tail is a new last node holding the value, and front becomes it when the queue was empty (decided by front, not the stale tail); on failure nothing changes |
| `AdtQueue.Queue.Remove` | ADT/Queue/ADT_Queue.c:125-141 | performs `QueueModel.Remove` on the chain: on success front advances; tail is never changed, so it dangles after the last element goes |
| `AdtQueue.Queue.Clear` | ADT/Queue/ADT_Queue.c:148-164 | always reports FALSE and changes nothing |
| `AdtQueue.Queue.Delete` | ADT/Queue/ADT_Queue.c:171-174 | always reports FALSE and changes nothing |

## Findings

| source | as written | input that shows it | evidently intended | confidence | as-written member | corrected member |
|---|---|---|---|---|---|---|
| ADT/Stack/ADT_Stack.c:145-148 | `for(i = 0; i < stck->size; i++)` pops while re-reading `size`, which each pop decrements; the loop stops halfway | a stack holding two elements: one pop runs, then `1 < 1` fails; `stack_clear` returns TRUE with one element left | pop until the stack is empty, as the comment at ADT/Stack/ADT_Stack.c:132 says (fix the count before the loop) | high (proved for every n ≥ 2); not executed | `StackModel.ClearLeavesElements` | `StackModel.ClearAll` |

`AdtStack.Stack.Clear` and `AdtStack.Stack.Delete` model the code as
written. `AdtStack.Stack.ClearAll` is the corrected method, and it is proved
against `StackModel.ClearAll`.

## Left out

- Allocation failure: Dafny allocation always succeeds. The `malloc` NULL
  checks in `stack_push`/`queue_insert` are not modelled. Neither is the
  unchecked `malloc` in the create functions. A node is created only when
  it will be linked in, not allocated first and freed on refusal.
- `free`: nodes and records are not released. A popped or removed node just
  drops out of the chain.
- AdtStack.Stack.Delete: it does not model that the record becomes unusable
  after `free`. It states the result flag and which nodes are still linked
  (and so leaked) when the record goes.
- NULL container arguments: the container is always a non-null object. The
  `stck != NULL` / `q != NULL` tests are not modelled. Neither is the
  dereference before that test in `stack_pop`/`queue_remove`.
- `stack_print` and `queue_print`: console output only (the queue one is
  commented out).
- The handler tables `Stack_Hdlr` and `Queue_Hdlr`: they only dispatch to
  the functions above. The model calls the methods directly.
- The interactive test drivers `test_stack.c` and `test_queue.c`: they
  read from `scanf` and print. Their scenarios appear as lemmas (push then
  pop, insert into a full queue).
- Complex numbers, matrices, 3D vectors and the simply/doubly linked lists
  are not part of this model. They are separate modules that the stack and
  queue do not use.
