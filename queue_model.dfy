/**
 * The bounded queue of ADT_Queue.c seen as a value: its elements, the front
 * first, and its capacity. Each operation of the C module is a transition
 * on this value; the class in AdtQueue is proved to perform exactly these
 * transitions on its node chain.
 */
module QueueModel {
  import opened AdtTypes

  /** Elements front first (`elems[0]` is the node `front` points to) and `maxSize`. */
  datatype QueueVal = QueueVal(elems: seq<Data>, maxSize: Uint16)

  /** What every queue built by `queue_create` and the operations satisfies. */
  predicate Bounded(q: QueueVal) {
    |q.elems| <= q.maxSize
  }

  /** `queue_isEmpty`: the size is zero. */
  predicate IsEmpty(q: QueueVal) {
    |q.elems| == 0
  }

  /** `queue_isFull`: the size equals the capacity. */
  predicate IsFull(q: QueueVal) {
    |q.elems| == q.maxSize
  }

  /** `queue_insert`: the flag it returns and the queue afterwards. */
  function Insert(q: QueueVal, v: Data): (r: (bool, QueueVal))
    ensures r.0 <==> r.1.elems == q.elems + [v]
    ensures !r.0 ==> r.1 == q
    ensures Bounded(q) ==> (r.0 <==> |q.elems| < q.maxSize)
    ensures r.1.maxSize == q.maxSize
    ensures Bounded(q) ==> Bounded(r.1)
  {
    if IsFull(q) then (false, q) else (true, QueueVal(q.elems + [v], q.maxSize))
  }

  /**
   * `queue_remove`: the flag, the value left in `*deqVal` (which keeps its
   * previous value `prev` when nothing is removed) and the queue afterwards.
   */
  function Remove(q: QueueVal, prev: Data): (r: (bool, Data, QueueVal))
    ensures r.0 <==> q.elems != []
    ensures r.0 ==> [r.1] + r.2.elems == q.elems
    ensures !r.0 ==> r.1 == prev && r.2 == q
    ensures r.2.maxSize == q.maxSize
    ensures Bounded(q) ==> Bounded(r.2)
  {
    if IsEmpty(q) then (false, prev, q) else (true, q.elems[0], QueueVal(q.elems[1..], q.maxSize))
  }

  /** Inserts the values of `vs` one after the other, first `vs[0]`. */
  function InsertAll(q: QueueVal, vs: seq<Data>): (r: QueueVal)
    decreases |vs|
  {
    if vs == [] then q else InsertAll(Insert(q, vs[0]).1, vs[1..])
  }

  /** Removes `k` times, or until empty; gives the removed values in the order they came out. */
  function RemoveN(q: QueueVal, k: nat): (r: (seq<Data>, QueueVal))
    decreases k
  {
    if k == 0 || IsEmpty(q) then ([], q)
    else
      var (_, v, t) := Remove(q, 0);
      var (vs, u) := RemoveN(t, k - 1);
      ([v] + vs, u)
  }

  /** One call of the queue interface, as a client issues it. */
  datatype Op = InsertOp(v: Data) | RemoveOp

  function Step(q: QueueVal, op: Op): (r: QueueVal) {
    match op
    case InsertOp(v) => Insert(q, v).1
    case RemoveOp => Remove(q, 0).2
  }

  /** The queue after a client issues `ops` in order. */
  function Run(q: QueueVal, ops: seq<Op>): (r: QueueVal)
    decreases |ops|
  {
    if ops == [] then q else Run(Step(q, ops[0]), ops[1..])
  }

  // ---------------------------------------------------------------------
  // Properties

  /** An element inserted into an empty queue is the next one removed. */
  lemma InsertThenRemoveEmpty(q: QueueVal, v: Data, prev: Data)
    requires IsEmpty(q) && q.maxSize > 0
    ensures Remove(Insert(q, v).1, prev) == (true, v, q)
  {
  }

  /**
   * Insert and remove commute on a queue that is neither empty nor full:
   * the value removed is the old front, not the value just inserted.
   */
  lemma InsertRemoveCommute(q: QueueVal, v: Data, prev: Data)
    requires Bounded(q) && !IsEmpty(q) && !IsFull(q)
    ensures Remove(Insert(q, v).1, prev)
         == (true, q.elems[0], Insert(Remove(q, prev).2, v).1)
  {
    assert (q.elems + [v])[1..] == q.elems[1..] + [v];
  }

  /** Removing `k` times yields the first `k` elements, front first, and leaves the rest. */
  lemma {:induction false} RemoveNTakesPrefix(q: QueueVal, k: nat)
    requires k <= |q.elems|
    ensures RemoveN(q, k) == (q.elems[..k], QueueVal(q.elems[k..], q.maxSize))
    decreases k
  {
    if k > 0 {
      var t := Remove(q, 0).2;
      RemoveNTakesPrefix(t, k - 1);
      assert q.elems[..k] == [q.elems[0]] + t.elems[..k - 1];
      assert t.elems[k - 1..] == q.elems[k..];
    }
  }

  /** Inserting `vs` into a queue with room for them appends them in order. */
  lemma {:induction false} InsertAllAppends(q: QueueVal, vs: seq<Data>)
    requires |q.elems| + |vs| <= q.maxSize
    ensures InsertAll(q, vs) == QueueVal(q.elems + vs, q.maxSize)
    decreases |vs|
  {
    if vs != [] {
      var t := Insert(q, vs[0]).1;
      InsertAllAppends(t, vs[1..]);
      assert q.elems + vs == t.elems + vs[1..];
    }
  }

  /** Removing as many times as there are elements delivers them all, front first. */
  lemma RemoveAllDrains(q: QueueVal, n: nat)
    requires n == |q.elems|
    ensures RemoveN(q, n) == (q.elems, QueueVal([], q.maxSize))
  {
    RemoveNTakesPrefix(q, n);
    assert q.elems[..|q.elems|] == q.elems;
    assert q.elems[|q.elems|..] == [];
  }

  /** Proof step of FirstInFirstOut: `RemoveAllDrains` for the queue that the inserts build. */
  lemma DrainAppended(q: QueueVal, vs: seq<Data>, t: QueueVal)
    requires t == QueueVal(q.elems + vs, q.maxSize)
    ensures RemoveN(t, |q.elems| + |vs|) == (q.elems + vs, QueueVal([], q.maxSize))
  {
    RemoveAllDrains(t, |q.elems| + |vs|);
  }

  /**
   * FIFO: after inserting `vs`, removing every element yields the old
   * contents followed by `vs`, in insertion order, and leaves the queue empty.
   */
  lemma FirstInFirstOut(q: QueueVal, vs: seq<Data>)
    requires |q.elems| + |vs| <= q.maxSize
    ensures RemoveN(InsertAll(q, vs), |q.elems| + |vs|) == (q.elems + vs, QueueVal([], q.maxSize))
  {
    InsertAllAppends(q, vs);
    DrainAppended(q, vs, InsertAll(q, vs));
  }

  /** Inserting into a full queue, any number of times, leaves it as it was. */
  lemma {:induction false} InsertIntoFullQueue(q: QueueVal, vs: seq<Data>)
    requires IsFull(q)
    ensures InsertAll(q, vs) == q
    decreases |vs|
  {
    if vs != [] {
      InsertIntoFullQueue(Insert(q, vs[0]).1, vs[1..]);
    }
  }

  /** No sequence of inserts and removes makes the size exceed `maxSize`. */
  lemma {:induction false} RunStaysBounded(q: QueueVal, ops: seq<Op>)
    requires Bounded(q)
    ensures Bounded(Run(q, ops)) && Run(q, ops).maxSize == q.maxSize
    decreases |ops|
  {
    if ops != [] {
      RunStaysBounded(Step(q, ops[0]), ops[1..]);
    }
  }
}
