// The best-first frontier (src/combina_bnb_solver/queues/BestFirstNodeQueue.cpp):
// a priority queue whose top is an `operator<`-minimal node.

module BestFirstQueue {
  import opened Common
  import opened Nodes

  class BestFirstNodeQueue {
    /** The stored nodes; their order is insertion order, not heap layout. */
    var queue: seq<Node>

    ghost predicate Valid()
      reads this
    {
      AllHaveSigma(queue)
    }

    constructor ()
      ensures Valid() && queue == []
    {
      queue := [];
    }

    /** `size()`. */
    method Size() returns (n: nat)
      ensures n == |queue|
    {
      n := |queue|;
    }

    /** `top()`: a node no stored node is `operator<`-below; depth-major, then
        lower bound. */
    method Top() returns (n: Node)
      requires Valid() && |queue| > 0
      ensures n == queue[TopIndex(queue)]
      ensures forall y :: y in queue ==> !Less(y, n)
      ensures forall y :: y in queue ==> y.depth <= n.depth
      ensures forall y :: y in queue && y.depth == n.depth ==> n.lb <= y.lb
    {
      var i := TopIndex(queue);
      TopIsDeepestThenLowest(queue);
      n := queue[i];
    }

    /** `push(nodes)`: insert every node of the batch. */
    method Push(nodes: seq<Node>)
      requires Valid() && AllHaveSigma(nodes)
      modifies this
      ensures Valid()
      ensures queue == old(queue) + nodes
      ensures |queue| == |old(queue)| + |nodes|
    {
      var i := 0;
      while i < |nodes|
        invariant 0 <= i <= |nodes|
        invariant queue == old(queue) + nodes[..i]
        invariant Valid()
      {
        queue := queue + [nodes[i]];
        i := i + 1;
        assert nodes[..i] == nodes[..i - 1] + [nodes[i - 1]];
      }
      assert nodes[..i] == nodes;
    }

    /** `pop()`: remove exactly one element, the one `top()` returns. */
    method Pop()
      requires Valid() && |queue| > 0
      modifies this
      ensures Valid()
      ensures queue == RemoveAt(old(queue), TopIndex(old(queue)))
      ensures multiset(queue) + multiset{old(queue)[TopIndex(old(queue))]} == multiset(old(queue))
    {
      var i := TopIndex(queue);
      queue := RemoveAt(queue, i);
    }
  }
}
