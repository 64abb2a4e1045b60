/**
 * The bounded queue of ADT_Queue.c/.h: a record holding `size`, `maxSize`,
 * a `front` pointer and a `tail` pointer into a singly linked chain of
 * nodes. Each method is proved to perform on the chain the transition that
 * QueueModel gives for the corresponding C function.
 */
module AdtQueue {
  import opened AdtTypes
  import QueueModel

  /** `node` of ADT_Queue.h: one stored value and the link to the next node. */
  class Node {
    var value: Data
    var next: Node?

    /** A node as `queue_insert` fills it: the value, and no successor. */
    constructor (value: Data)
      ensures this.value == value && next == null
    {
      this.value := value;
      next := null;
    }
  }

  /** `queue` of ADT_Queue.h. */
  class Queue {
    var size: nat
    var maxSize: Uint16
    var front: Node?
    var tail: Node?

    // Abstract view: the stored values front first, the distinct nodes that
    // hold them (`Nodes[0]` is `front`), and every object the queue uses.
    ghost var Contents: seq<Data>
    ghost var Nodes: seq<Node>
    ghost var Repr: set<object>

    /**
     * The chain from `front` holds exactly `Contents`, `size <= maxSize`, and
     * `tail` is the last node while the queue is not empty. An empty queue
     * says nothing about `tail`: after the last remove it still points at
     * the released node.
     */
    ghost predicate Valid()
      reads this, Repr
      ensures Valid() ==> this in Repr
    {
      && this in Repr
      && size == |Nodes| == |Contents| <= maxSize
      && front == (if Nodes == [] then null else Nodes[0])
      && (Nodes != [] ==> tail == Nodes[|Nodes| - 1])
      && (forall i :: 0 <= i < |Nodes| ==> Nodes[i] in Repr)
      && (forall i, j :: 0 <= i < j < |Nodes| ==> Nodes[i] != Nodes[j])
      && (forall i :: 0 <= i < |Nodes| ==> Nodes[i].value == Contents[i])
      && (forall i :: 0 <= i < |Nodes| - 1 ==> Nodes[i].next == Nodes[i + 1])
      && (Nodes != [] ==> Nodes[|Nodes| - 1].next == null)
    }

    /** The queue as a value, for QueueModel. */
    ghost function Abs(): QueueModel.QueueVal
      reads this
    {
      QueueModel.QueueVal(Contents, maxSize)
    }

    /** `queue_create`: an empty queue of capacity `maxS`. */
    constructor (maxS: Uint16)
      ensures Valid() && fresh(Repr)
      ensures size == 0 && front == null && tail == null && maxSize == maxS
      ensures Abs() == QueueModel.QueueVal([], maxS)
    {
      size := 0;
      front := null;
      tail := null;
      maxSize := maxS;
      Contents, Nodes := [], [];
      Repr := {this};
    }

    /** `queue_isEmpty`. */
    function IsEmpty(): (r: bool)
      reads this, Repr
      requires Valid()
      ensures r <==> Contents == []
      ensures r <==> front == null
      ensures r == QueueModel.IsEmpty(Abs())
    {
      size == 0
    }

    /** `queue_isFull`. */
    function IsFull(): (r: bool)
      reads this, Repr
      requires Valid()
      ensures r <==> |Contents| == maxSize
      ensures r == QueueModel.IsFull(Abs())
    {
      size == maxSize
    }

    /**
     * `queue_insert`: links a new node holding `val` after the last one
     * unless the queue is full. Whether the queue is empty is decided by
     * `front`, never by the possibly stale `tail`.
     */
    method Insert(val: Data) returns (ok: bool)
      requires Valid()
      modifies Repr
      ensures Valid() && fresh(Repr - old(Repr))
      ensures (ok, Abs()) == QueueModel.Insert(old(Abs()), val)
      ensures ok ==> tail != null && tail.value == val && tail.next == null
      ensures ok ==> front == if old(front) == null then tail else old(front)
      ensures !ok ==> front == old(front) && tail == old(tail) && size == old(size)
    {
      if !IsFull() {
        var newNode := new Node(val);
        if front == null {
          front := newNode;
        } else {
          tail.next := newNode;
        }
        tail := newNode;
        size := size + 1;
        Contents, Nodes := Contents + [val], Nodes + [newNode];
        Repr := Repr + {newNode};
        ok := true;
        assert forall i :: 0 <= i < |Nodes| - 1 ==> Nodes[i] == old(Nodes)[i];
      } else {
        ok := false;
      }
    }

    /**
     * `queue_remove`: unlinks the front node and delivers its value. `prev`
     * is the value `*deqVal` held before the call; it is returned unchanged
     * when the queue is empty. `tail` is never touched.
     */
    method Remove(prev: Data) returns (ok: bool, deqVal: Data)
      requires Valid()
      modifies this
      ensures Valid() && Repr == old(Repr)
      ensures (ok, deqVal, Abs()) == QueueModel.Remove(old(Abs()), prev)
      ensures ok ==> old(front) != null && front == old(front).next
      ensures tail == old(tail)
      ensures !ok ==> front == old(front) && size == old(size)
    {
      if !IsEmpty() {
        deqVal := front.value;
        front := front.next;
        size := size - 1;
        Contents, Nodes := Contents[1..], Nodes[1..];
        ok := true;
        assert forall i :: 0 <= i < |Nodes| ==> Nodes[i] == old(Nodes)[i + 1];
      } else {
        ok, deqVal := false, prev;
      }
    }

    /**
     * `queue_clear`: the body is commented out, so it removes nothing and
     * always reports FALSE.
     */
    method Clear() returns (ok: bool)
      ensures !ok
    {
      ok := false;
    }

    /** `queue_delete`: an empty body that releases nothing and reports FALSE. */
    method Delete() returns (ok: bool)
      ensures !ok
    {
      ok := false;
    }
  }
}
