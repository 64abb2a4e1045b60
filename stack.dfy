/**
 * The bounded stack of ADT_Stack.c/.h: a record holding `size`, `maxSize`
 * and a `top` pointer into a singly linked chain of nodes. Each method is
 * proved to perform on the chain the transition that StackModel gives for
 * the corresponding C function.
 */
module AdtStack {
  import opened AdtTypes
  import StackModel

  /** `node` of ADT_Stack.h: one stored value and the link to the node below. */
  class Node {
    var value: Data
    var next: Node?

    constructor (value: Data, next: Node?)
      ensures this.value == value && this.next == next
    {
      this.value := value;
      this.next := next;
    }
  }

  /** `stack` of ADT_Stack.h. */
  class Stack {
    var size: nat
    var maxSize: Uint16
    var top: Node?

    // Abstract view: the stored values top first, the chain of nodes that
    // holds them (`Nodes[0]` is `top`), and every object the stack uses.
    ghost var Contents: seq<Data>
    ghost var Nodes: seq<Node>
    ghost var Repr: set<object>

    /** The chain starting at `top` holds exactly `Contents`, and `size <= maxSize`. */
    ghost predicate Valid()
      reads this, Repr
      ensures Valid() ==> this in Repr
    {
      && this in Repr
      && size == |Nodes| == |Contents| <= maxSize
      && top == (if Nodes == [] then null else Nodes[0])
      && (forall i :: 0 <= i < |Nodes| ==> Nodes[i] in Repr)
      && (forall i :: 0 <= i < |Nodes| ==> Nodes[i].value == Contents[i])
      && (forall i :: 0 <= i < |Nodes| - 1 ==> Nodes[i].next == Nodes[i + 1])
      && (Nodes != [] ==> Nodes[|Nodes| - 1].next == null)
    }

    /** The stack as a value, for StackModel. */
    ghost function Abs(): StackModel.StackVal
      reads this
    {
      StackModel.StackVal(Contents, maxSize)
    }

    /** `stack_create`: an empty stack of capacity `maxS`. */
    constructor (maxS: Uint16)
      ensures Valid() && fresh(Repr)
      ensures size == 0 && top == null && maxSize == maxS
      ensures Abs() == StackModel.StackVal([], maxS)
    {
      size := 0;
      top := null;
      maxSize := maxS;
      Contents, Nodes := [], [];
      Repr := {this};
    }

    /** `stack_isEmpty`. */
    function IsEmpty(): (r: bool)
      reads this, Repr
      requires Valid()
      ensures r <==> Contents == []
      ensures r == StackModel.IsEmpty(Abs())
    {
      size == 0
    }

    /** `stack_isFull`. */
    function IsFull(): (r: bool)
      reads this, Repr
      requires Valid()
      ensures r <==> |Contents| == maxSize
      ensures r == StackModel.IsFull(Abs())
    {
      size == maxSize
    }

    /** `stack_push`: links a new node holding `val` on top unless the stack is full. */
    method Push(val: Data) returns (ok: bool)
      requires Valid()
      modifies this
      ensures Valid() && fresh(Repr - old(Repr))
      ensures (ok, Abs()) == StackModel.Push(old(Abs()), val)
      ensures ok ==> top != null && top.value == val && top.next == old(top)
      ensures !ok ==> top == old(top) && size == old(size)
    {
      if !IsFull() {
        var newNode := new Node(val, top);
        top := newNode;
        size := size + 1;
        Contents, Nodes := [val] + Contents, [newNode] + Nodes;
        Repr := Repr + {newNode};
        ok := true;
        assert forall i :: 1 <= i < |Nodes| ==> Nodes[i] == old(Nodes)[i - 1];
      } else {
        ok := false;
      }
    }

    /**
     * `stack_pop`: unlinks the top node and delivers its value. `prev` is the
     * value `*poppedVal` held before the call; it is returned unchanged when
     * the stack is empty.
     */
    method Pop(prev: Data) returns (ok: bool, poppedVal: Data)
      requires Valid()
      modifies this
      ensures Valid() && Repr == old(Repr)
      ensures (ok, poppedVal, Abs()) == StackModel.Pop(old(Abs()), prev)
      ensures ok ==> old(top) != null && top == old(top).next
      ensures !ok ==> top == old(top) && size == old(size)
    {
      if !IsEmpty() {
        poppedVal := top.value;
        top := top.next;
        size := size - 1;
        Contents, Nodes := Contents[1..], Nodes[1..];
        ok := true;
        assert forall i :: 0 <= i < |Nodes| ==> Nodes[i] == old(Nodes)[i + 1];
      } else {
        ok, poppedVal := false, prev;
      }
    }

    /**
     * `stack_clear` as written: the counter `i` is compared with the size
     * that each pop shrinks, so only the top ceil(n/2) of n elements go.
     */
    method Clear() returns (ok: bool)
      requires Valid()
      modifies this
      ensures Valid() && Repr == old(Repr) && maxSize == old(maxSize)
      ensures (ok, Abs()) == StackModel.Clear(old(Abs()))
      ensures ok && Contents == old(Contents)[(|old(Contents)| + 1) / 2..]
    {
      var i: Uint16 := 0;
      var auxVal: Data := 0;
      while i < size
        invariant Valid() && Repr == old(Repr) && maxSize == old(maxSize)
        invariant StackModel.ClearLoop(Abs(), i) == StackModel.ClearLoop(old(Abs()), 0)
        decreases size - i
      {
        assert StackModel.ClearLoop(Abs(), i) == StackModel.ClearLoop(StackModel.StackVal(Contents[1..], maxSize), i + 1);
        var _, v := Pop(auxVal);
        auxVal := v;
        i := i + 1;
      }
      ok := true;
    }

    /**
     * `stack_clear` with the evident intent: the number of pops is fixed
     * before the loop, so every element goes.
     */
    method ClearAll() returns (ok: bool)
      requires Valid()
      modifies this
      ensures Valid() && Repr == old(Repr) && maxSize == old(maxSize)
      ensures (ok, Abs()) == StackModel.ClearAll(old(Abs()))
      ensures ok && Contents == [] && top == null && size == 0
    {
      var n := size;
      var i := 0;
      var auxVal: Data := 0;
      while i < n
        invariant 0 <= i <= n && size == n - i
        invariant Valid() && Repr == old(Repr) && maxSize == old(maxSize)
        invariant StackModel.PopN(Abs(), n - i).1 == StackModel.PopN(old(Abs()), n).1
      {
        var _, v := Pop(auxVal);
        auxVal := v;
        i := i + 1;
      }
      ok := true;
    }

    /**
     * `stack_delete`: clears the stack, then releases the record. The nodes
     * that the clear leaves behind (the bottom floor(n/2)) stay linked from
     * the released record and are lost.
     */
    method Delete() returns (ok: bool)
      requires Valid()
      modifies this
      ensures Valid() && Repr == old(Repr) && maxSize == old(maxSize)
      ensures (ok, Abs()) == StackModel.Clear(old(Abs()))
      ensures ok && Contents == old(Contents)[(|old(Contents)| + 1) / 2..]
    {
      ok := Clear();
    }
  }
}
