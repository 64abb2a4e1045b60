/**
 * The bounded stack of ADT_Stack.c seen as a value: its elements, the top
 * first, and its capacity. Each operation of the C module is a transition
 * on this value; the class in AdtStack is proved to perform exactly these
 * transitions on its node chain.
 */
module StackModel {
  import opened AdtTypes

  /** Elements top first (`elems[0]` is the node `top` points to) and `maxSize`. */
  datatype StackVal = StackVal(elems: seq<Data>, maxSize: Uint16)

  /** What every stack built by `stack_create` and the operations satisfies. */
  predicate Bounded(s: StackVal) {
    |s.elems| <= s.maxSize
  }

  /** `stack_isEmpty`: the size is zero. */
  predicate IsEmpty(s: StackVal) {
    |s.elems| == 0
  }

  /** `stack_isFull`: the size equals the capacity. */
  predicate IsFull(s: StackVal) {
    |s.elems| == s.maxSize
  }

  /** `stack_push`: the flag it returns and the stack afterwards. */
  function Push(s: StackVal, v: Data): (r: (bool, StackVal))
    ensures r.0 <==> r.1.elems == [v] + s.elems
    ensures !r.0 ==> r.1 == s
    ensures Bounded(s) ==> (r.0 <==> |s.elems| < s.maxSize)
    ensures r.1.maxSize == s.maxSize
    ensures Bounded(s) ==> Bounded(r.1)
  {
    if IsFull(s) then (false, s) else (true, StackVal([v] + s.elems, s.maxSize))
  }

  /**
   * `stack_pop`: the flag, the value left in `*poppedVal` (which keeps its
   * previous value `prev` when nothing is popped) and the stack afterwards.
   */
  function Pop(s: StackVal, prev: Data): (r: (bool, Data, StackVal))
    ensures r.0 <==> s.elems != []
    ensures r.0 ==> [r.1] + r.2.elems == s.elems
    ensures !r.0 ==> r.1 == prev && r.2 == s
    ensures r.2.maxSize == s.maxSize
    ensures Bounded(s) ==> Bounded(r.2)
  {
    if IsEmpty(s) then (false, prev, s) else (true, s.elems[0], StackVal(s.elems[1..], s.maxSize))
  }

  /**
   * The loop of `stack_clear` from counter value `i`: while `i` is below the
   * CURRENT size, pop once and increment `i`. The bound is re-read on every
   * iteration while each pop shrinks it.
   */
  function ClearLoop(s: StackVal, i: nat): (r: StackVal)
    ensures r.maxSize == s.maxSize
    ensures |r.elems| <= |s.elems|
    ensures i >= |s.elems| ==> r == s
    decreases |s.elems| - i
  {
    if i < |s.elems| then ClearLoop(Pop(s, 0).2, i + 1) else s
  }

  /**
   * `stack_clear` as written: runs the loop from 0 and always reports TRUE.
   * It leaves the bottom floor(n/2) of n elements: exactly the elements
   * below the top ceil(n/2).
   */
  function Clear(s: StackVal): (r: (bool, StackVal))
    ensures r.0
    ensures r.1 == StackVal(s.elems[(|s.elems| + 1) / 2..], s.maxSize)
    ensures |r.1.elems| == |s.elems| / 2
  {
    ClearLoopPops(s, 0, (|s.elems| + 1) / 2);
    (true, ClearLoop(s, 0))
  }

  /** Pops `k` times, or until empty; gives the popped values in the order they came out. */
  function PopN(s: StackVal, k: nat): (r: (seq<Data>, StackVal))
    decreases k
  {
    if k == 0 || IsEmpty(s) then ([], s)
    else
      var (_, v, t) := Pop(s, 0);
      var (vs, u) := PopN(t, k - 1);
      ([v] + vs, u)
  }

  /**
   * `stack_clear` with the bound taken once before the loop: pops `size`
   * times, which empties every stack and keeps its capacity.
   */
  function ClearAll(s: StackVal): (r: (bool, StackVal))
    ensures r == (true, StackVal([], s.maxSize))
  {
    PopNTakesPrefix(s, |s.elems|);
    assert s.elems[|s.elems|..] == [];
    (true, PopN(s, |s.elems|).1)
  }

  /** Pushes the values of `vs` one after the other, first `vs[0]`. */
  function PushAll(s: StackVal, vs: seq<Data>): (r: StackVal)
    decreases |vs|
  {
    if vs == [] then s else PushAll(Push(s, vs[0]).1, vs[1..])
  }

  function Reverse(vs: seq<Data>): (r: seq<Data>)
    ensures |r| == |vs|
  {
    if vs == [] then [] else Reverse(vs[1..]) + [vs[0]]
  }

  /** One call of the stack interface, as a client issues it. */
  datatype Op = PushOp(v: Data) | PopOp | ClearOp

  function Step(s: StackVal, op: Op): (r: StackVal) {
    match op
    case PushOp(v) => Push(s, v).1
    case PopOp => Pop(s, 0).2
    case ClearOp => Clear(s).1
  }

  /** The stack after a client issues `ops` in order. */
  function Run(s: StackVal, ops: seq<Op>): (r: StackVal)
    decreases |ops|
  {
    if ops == [] then s else Run(Step(s, ops[0]), ops[1..])
  }

  // ---------------------------------------------------------------------
  // Properties

  /** Push then pop gives back the pushed value and the stack as it was. */
  lemma PushThenPop(s: StackVal, v: Data, prev: Data)
    requires Bounded(s) && !IsFull(s)
    ensures Pop(Push(s, v).1, prev) == (true, v, s)
  {
  }

  /** Pop then push of the popped value restores the stack and reports success. */
  lemma PopThenPush(s: StackVal, prev: Data)
    requires Bounded(s) && !IsEmpty(s)
    ensures Push(Pop(s, prev).2, Pop(s, prev).1) == (true, s)
  {
  }

  /** Popping `k` times yields the top `k` elements, top first, and leaves the rest. */
  lemma {:induction false} PopNTakesPrefix(s: StackVal, k: nat)
    requires k <= |s.elems|
    ensures PopN(s, k) == (s.elems[..k], StackVal(s.elems[k..], s.maxSize))
    decreases k
  {
    if k > 0 {
      var t := Pop(s, 0).2;
      PopNTakesPrefix(t, k - 1);
      assert s.elems[..k] == [s.elems[0]] + t.elems[..k - 1];
      assert t.elems[k - 1..] == s.elems[k..];
    }
  }

  /** Pushing `vs` on a stack with room for them puts them on top in reverse order. */
  lemma {:induction false} PushAllStacks(s: StackVal, vs: seq<Data>)
    requires |s.elems| + |vs| <= s.maxSize
    ensures PushAll(s, vs) == StackVal(Reverse(vs) + s.elems, s.maxSize)
    decreases |vs|
  {
    if vs != [] {
      var t := Push(s, vs[0]).1;
      PushAllStacks(t, vs[1..]);
      assert Reverse(vs) + s.elems == Reverse(vs[1..]) + t.elems;
    }
  }

  /**
   * LIFO: after pushing `vs`, popping as many values yields them last-in
   * first-out and restores the original stack.
   */
  lemma LastInFirstOut(s: StackVal, vs: seq<Data>)
    requires |s.elems| + |vs| <= s.maxSize
    ensures PopN(PushAll(s, vs), |vs|) == (Reverse(vs), s)
  {
    PushAllStacks(s, vs);
    var t := PushAll(s, vs);
    PopNTakesPrefix(t, |vs|);
    assert t.elems[..|vs|] == Reverse(vs);
    assert t.elems[|vs|..] == s.elems;
  }

  /**
   * The clear loop entered with counter `i` pops `k` elements, where `k` is
   * ceil((size - i) / 2): the least `k` with `i + k >= size - k`.
   */
  lemma {:induction false} ClearLoopPops(s: StackVal, i: nat, k: nat)
    requires i <= |s.elems|
    requires |s.elems| - i <= 2 * k <= |s.elems| - i + 1
    ensures ClearLoop(s, i) == StackVal(s.elems[k..], s.maxSize)
    decreases k
  {
    if i < |s.elems| {
      var t := StackVal(s.elems[1..], s.maxSize);
      if i + 1 < |s.elems| {
        ClearLoopPops(t, i + 1, k - 1);
        assert t.elems[k - 1..] == s.elems[k..];
      }
    }
  }

  /**
   * The documented promise of `stack_clear` ("clears all elements") fails on
   * every stack of two or more elements although it reports TRUE.
   */
  lemma ClearLeavesElements(s: StackVal)
    requires |s.elems| >= 2
    ensures Clear(s).0 && !IsEmpty(Clear(s).1)
  {
  }

  /** One step of a client keeps `size <= maxSize` and the capacity. */
  lemma StepStaysBounded(s: StackVal, op: Op)
    requires Bounded(s)
    ensures Bounded(Step(s, op)) && Step(s, op).maxSize == s.maxSize
  {
  }

  /** No sequence of push, pop and clear makes the size exceed `maxSize`. */
  lemma {:induction false} RunStaysBounded(s: StackVal, ops: seq<Op>)
    requires Bounded(s)
    ensures Bounded(Run(s, ops)) && Run(s, ops).maxSize == s.maxSize
    decreases |ops|
  {
    if ops != [] {
      StepStaysBounded(s, ops[0]);
      RunStaysBounded(Step(s, ops[0]), ops[1..]);
    }
  }
}
