// The depth-first frontier (src/combina_bnb_solver/queues/DepthFirstNodeQueue.cpp):
// a stack that receives each batch of children sorted worst first.

module DepthFirstQueue {
  import opened Nodes

  class DepthFirstNodeQueue {
    /** The stack, bottom first; its last entry is `top()`. */
    var stack: seq<Node>

    ghost predicate Valid()
      reads this
    {
      AllHaveSigma(stack)
    }

    constructor ()
      ensures Valid() && stack == []
    {
      stack := [];
    }

    /** `size()`: the number of stored nodes. */
    method Size() returns (n: nat)
      ensures n == |stack|
    {
      n := |stack|;
    }

    /** `empty()` of the NodeQueue base class. */
    method Empty() returns (e: bool)
      ensures e <==> |stack| == 0
    {
      var n := Size();
      e := n == 0;
    }

    /** `top()`: the most recently pushed node still stored. */
    method Top() returns (n: Node)
      requires |stack| > 0
      ensures n == stack[|stack| - 1]
    {
      n := stack[|stack| - 1];
    }

    /** `push(nodes)`: sort a copy worst first, then push each in turn. */
    method Push(nodes: seq<Node>)
      requires Valid() && AllHaveSigma(nodes)
      modifies this
      ensures Valid()
      ensures stack == old(stack) + SortWorstFirst(nodes)
    {
      var sorted := SortWorstFirst(nodes);
      var i := 0;
      while i < |sorted|
        invariant 0 <= i <= |sorted|
        invariant stack == old(stack) + sorted[..i]
      {
        stack := stack + [sorted[i]];
        i := i + 1;
        assert sorted[..i] == sorted[..i - 1] + [sorted[i - 1]];
      }
      assert sorted[..i] == sorted;
    }

    /** `pop()`: remove the top, last in first out. */
    method Pop()
      requires Valid() && |stack| > 0
      modifies this
      ensures Valid()
      ensures stack == old(stack)[..|old(stack)| - 1]
    {
      stack := stack[..|stack| - 1];
    }
  }

  /** What `push` leaves on the stack: the old entries untouched below, the
      batch on top, its `operator<`-minimal node as the new top, and the size
      grown by the batch length. */
  lemma PushedBatchOnTop(oldStack: seq<Node>, nodes: seq<Node>, s: seq<Node>)
    requires AllHaveSigma(nodes) && |nodes| > 0
    requires s == oldStack + SortWorstFirst(nodes)
    ensures |s| == |oldStack| + |nodes|
    ensures s[..|oldStack|] == oldStack
    ensures multiset(s[|oldStack|..]) == multiset(nodes)
    ensures forall y :: y in nodes ==> !Less(y, s[|s| - 1])
  {
    var sorted := SortWorstFirst(nodes);
    assert s[..|oldStack|] == oldStack;
    assert s[|oldStack|..] == sorted;
    assert s[|s| - 1] == sorted[|nodes| - 1];
    SortedLastIsBest(nodes);
  }
}
