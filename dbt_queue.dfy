// The dynamic backtracking frontier
// (src/combina_bnb_solver/queues/DynamicBacktrackingNodeQueue.cpp): a deque
// explored depth first from its front, plus a priority queue that collects
// nodes whose lower bound lies above a cutoff between the global lower bound
// and the incumbent.

module DynamicBacktrackingQueue {
  import opened Common
  import opened Nodes

  /** A double that may be +infinity (`glob_lb` before the first push). */
  datatype Bound = Finite(value: real) | Infinity

  /** `if (lb < glob_lb) glob_lb = lb` folded over a sequence of nodes. */
  function LowerTo(b: Bound, s: seq<Node>): (r: Bound)
    ensures s == [] ==> r == b
    ensures s != [] ==> r.Finite?
    ensures r.Finite? ==> (forall j :: 0 <= j < |s| ==> r.value <= s[j].lb)
    ensures r.Finite? && b.Finite? ==> r.value <= b.value
  {
    if s == [] then b
    else
      var p := LowerTo(b, s[..|s| - 1]);
      assert forall j :: 0 <= j < |s| - 1 ==> s[..|s| - 1][j] == s[j];
      if p.Infinity? || s[|s| - 1].lb < p.value then Finite(s[|s| - 1].lb) else p
  }

  /** The lowered bound is the old one or the lower bound of a batch node. */
  lemma {:induction false} LowerToAttained(b: Bound, s: seq<Node>)
    ensures LowerTo(b, s) == b || exists j :: 0 <= j < |s| && LowerTo(b, s) == Finite(s[j].lb)
  {
    if s != [] {
      var p := s[..|s| - 1];
      LowerToAttained(b, p);
      if LowerTo(b, s) != Finite(s[|s| - 1].lb) && LowerTo(b, s) != b {
        var j :| 0 <= j < |p| && LowerTo(b, p) == Finite(p[j].lb);
        assert s[j] == p[j];
      }
    }
  }

  /** `glob_lb = std::min(stack_node->get_lb(), glob_lb)` folded over the stack
      from the start value `init`. */
  function StackMinLb(init: real, s: seq<Node>): (r: real)
    ensures r <= init
    ensures forall j :: 0 <= j < |s| ==> r <= s[j].lb
    ensures r == init || exists j :: 0 <= j < |s| && r == s[j].lb
  {
    if s == [] then init
    else
      assert forall j :: 0 <= j < |s| - 1 ==> s[..|s| - 1][j] == s[j];
      Min(s[|s| - 1].lb, StackMinLb(init, s[..|s| - 1]))
  }

  function Reverse<T>(s: seq<T>): (r: seq<T>)
    ensures |r| == |s|
  {
    if s == [] then [] else Reverse(s[1..]) + [s[0]]
  }

  lemma {:induction false} ReverseSnoc<T>(s: seq<T>, x: T)
    ensures Reverse(s + [x]) == [x] + Reverse(s)
  {
    if s != [] {
      assert (s + [x])[1..] == s[1..] + [x];
      ReverseSnoc(s[1..], x);
    }
  }

  lemma {:induction false} ReverseElements<T>(s: seq<T>)
    ensures multiset(Reverse(s)) == multiset(s)
  {
    if s != [] {
      ReverseElements(s[1..]);
      assert s == [s[0]] + s[1..];
    }
  }

  lemma {:induction false} ReverseFirst<T>(s: seq<T>)
    requires |s| > 0
    ensures Reverse(s)[0] == s[|s| - 1]
  {
    if |s| > 1 {
      ReverseFirst(s[1..]);
    }
  }

  lemma LowerToSnoc(b: Bound, s: seq<Node>, x: Node)
    ensures LowerTo(b, s + [x]) ==
      (var p := LowerTo(b, s); if p.Infinity? || x.lb < p.value then Finite(x.lb) else p)
  {
    assert (s + [x])[..|s + [x]| - 1] == s;
  }

  lemma ReversedBatchHasSigma(sorted: seq<Node>, rest: seq<Node>)
    requires AllHaveSigma(sorted) && AllHaveSigma(rest)
    ensures AllHaveSigma(Reverse(sorted) + rest)
  {
    var rev := Reverse(sorted);
    var front := rev + rest;
    ReverseElements(sorted);
    forall j | 0 <= j < |front| ensures HasSigma(front[j]) {
      if j < |rev| {
        assert front[j] == rev[j];
        assert rev[j] in multiset(rev);
        assert front[j] in sorted;
      } else {
        assert front[j] == rest[j - |rev|];
      }
    }
  }

  /** Interpolation between `lo` and `hi` with a factor in [0, 1] stays
      between them. */
  lemma Interpolate(lo: real, hi: real, beta: real)
    requires 0.0 <= beta <= 1.0 && lo <= hi
    ensures lo <= Interpolated(lo, hi, beta) <= hi
  {
    var d := hi - lo;
    assert beta * d >= 0.0;
    assert (1.0 - beta) * d >= 0.0;
    assert (1.0 - beta) * d == d - beta * d;
  }

  /** The `beta` of `calculate_cutoff` for `nSol > 0` solutions and `nNode`
      stored nodes. */
  function Beta(nSol: nat, nNode: nat): (beta: real)
    requires nSol > 0
    ensures 0.0 <= beta <= 1.0
    ensures beta >= 1.0 - Min(1.0, nSol as real / 10.0)
  {
    var b0 := 1.0 - Min(1.0, nSol as real / 10.0);
    b0 + Min(1.0 - b0, nNode as real / 400000.0)
  }

  /** More solutions never raise `beta`, more stored nodes never lower it,
      and from ten solutions on only the node count matters. */
  lemma BetaMonotone(s1: nat, s2: nat, n1: nat, n2: nat)
    requires 0 < s1 <= s2 && n1 <= n2
    ensures Beta(s2, n1) <= Beta(s1, n1)
    ensures Beta(s1, n1) <= Beta(s1, n2)
    ensures s1 >= 10 ==> Beta(s1, n1) == Min(1.0, n1 as real / 400000.0)
  {
  }

  /** The two steps of `calculate_cutoff` that compute `beta`. */
  method ComputeBeta(nSol: nat, nNode: nat) returns (beta: real)
    requires nSol > 0
    ensures beta == Beta(nSol, nNode)
  {
    beta := 1.0 - Min(1.0, nSol as real / 10.0);
    beta := beta + Min(1.0 - beta, nNode as real / 400000.0);
  }

  /** The value `calculate_cutoff` returns for incumbent `eta`, `nSol`
      solutions, global lower bound `g` and `nNode` stored nodes. */
  function Cutoff(eta: real, nSol: nat, g: real, nNode: nat): real
  {
    if nSol == 0 then eta else Interpolated(g, eta, Beta(nSol, nNode))
  }

  /** `lo + beta * (hi - lo)`. */
  function Interpolated(lo: real, hi: real, beta: real): real
  {
    lo + beta * (hi - lo)
  }

  /** The loop of `push`: each node of `sorted` in turn goes to the front of
      `stack`, lowering `glob` to its lower bound when smaller. */
  method PushFrontAll(sorted: seq<Node>, stack: seq<Node>, glob: Bound)
    returns (front: seq<Node>, g: Bound)
    ensures front == Reverse(sorted) + stack
    ensures g == LowerTo(glob, sorted)
  {
    front, g := stack, glob;
    var i := 0;
    while i < |sorted|
      invariant 0 <= i <= |sorted|
      invariant front == Reverse(sorted[..i]) + stack
      invariant g == LowerTo(glob, sorted[..i])
    {
      var node := sorted[i];
      PushFrontStep(sorted, i, stack, glob);
      front := [node] + front;
      if g.Infinity? || node.lb < g.value {
        g := Finite(node.lb);
      }
      i := i + 1;
    }
    assert sorted[..i] == sorted;
  }

  /** One step of the loop of `push`, on the prefix of `sorted` pushed so far. */
  lemma PushFrontStep(sorted: seq<Node>, i: nat, stack: seq<Node>, glob: Bound)
    requires i < |sorted|
    ensures [sorted[i]] + (Reverse(sorted[..i]) + stack) == Reverse(sorted[..i + 1]) + stack
    ensures LowerTo(glob, sorted[..i + 1]) ==
      (var p := LowerTo(glob, sorted[..i]); if p.Infinity? || sorted[i].lb < p.value then Finite(sorted[i].lb) else p)
  {
    assert sorted[..i + 1] == sorted[..i] + [sorted[i]];
    ReverseSnoc(sorted[..i], sorted[i]);
    LowerToSnoc(glob, sorted[..i], sorted[i]);
  }

  class DynamicBacktrackingNodeQueue {
    var globLb: Bound
    var minBeta: real
    /** The priority queue; its top is `heap[TopIndex(heap)]`. */
    var heap: seq<Node>
    /** The deque; `stack[0]` is its front. */
    var stack: seq<Node>

    ghost predicate Valid()
      reads this
    {
      AllHaveSigma(heap) && AllHaveSigma(stack) &&
      (|heap| + |stack| > 0 ==> globLb.Finite?) &&
      0.0 <= minBeta <= 1.0
    }

    ghost function Size(): nat
      reads this
    {
      |heap| + |stack|
    }

    /** A new queue: `glob_lb` is +infinity, `min_beta` is 1, both containers
        are empty. */
    constructor ()
      ensures Valid()
      ensures globLb == Infinity && minBeta == 1.0 && heap == [] && stack == []
    {
      globLb := Infinity;
      minBeta := 1.0;
      heap := [];
      stack := [];
    }

    /** `size()`. */
    method GetSize() returns (n: nat)
      ensures n == |heap| + |stack|
    {
      n := |heap| + |stack|;
    }

    /** `push(nodes)`: the batch sorted worst first, each pushed onto the
        front, so the batch's best node ends up at the front; `glob_lb` drops
        to the smallest lower bound seen. */
    method Push(nodes: seq<Node>)
      requires Valid() && AllHaveSigma(nodes)
      modifies this
      ensures Valid()
      ensures stack == Reverse(SortWorstFirst(nodes)) + old(stack)
      ensures heap == old(heap) && minBeta == old(minBeta)
      ensures globLb == LowerTo(old(globLb), SortWorstFirst(nodes))
    {
      var sorted := SortWorstFirst(nodes);
      var front, g := PushFrontAll(sorted, stack, globLb);
      ReversedBatchHasSigma(sorted, stack);
      stack, globLb := front, g;
    }

    /** `calculate_cutoff()`: with no solution yet the cutoff is the
        incumbent itself (pure depth first) and `min_beta` resets to 1;
        otherwise it interpolates between `glob_lb` and the incumbent with
        `beta`, and `min_beta` tracks the smallest `beta` used. */
    method CalculateCutoff(eta: real, nSol: nat) returns (cutoff: real)
      requires Valid() && Size() > 0
      modifies this`minBeta
      ensures Valid()
      ensures cutoff == Cutoff(eta, nSol, globLb.value, Size())
      ensures nSol == 0 ==> minBeta == 1.0
      ensures nSol > 0 ==> minBeta == Min(old(minBeta), Beta(nSol, Size()))
      ensures globLb.value <= eta ==> globLb.value <= cutoff <= eta
    {
      if nSol == 0 {
        minBeta := 1.0;
        cutoff := eta;
        return;
      }
      var beta := ComputeBeta(nSol, |heap| + |stack|);
      if beta < minBeta {
        minBeta := beta;
      }
      cutoff := Interpolated(globLb.value, eta, beta);
      if globLb.value <= eta {
        Interpolate(globLb.value, eta, beta);
      }
    }

    /** The loop of `rearrange_nodes()`: move front nodes whose lower bound
        lies in (cutoff, eta] to the heap, stopping at the first node outside
        that range or when the deque is empty; `k` nodes move. */
    method MoveLoop(eta: real, cutoff: real) returns (ghost k: nat)
      requires Valid()
      modifies this`heap, this`stack
      ensures Valid()
      ensures k <= |old(stack)| && stack == old(stack)[k..] && heap == old(heap) + old(stack)[..k]
      ensures stack == [] || stack[0].lb > eta || stack[0].lb <= cutoff
      ensures forall j :: |old(heap)| <= j < |heap| ==> cutoff < heap[j].lb <= eta
    {
      k := 0;
      while stack != [] && stack[0].lb <= eta
        invariant 0 <= k <= |old(stack)|
        invariant stack == old(stack)[k..] && heap == old(heap) + old(stack)[..k]
        invariant forall j :: |old(heap)| <= j < |heap| ==> cutoff < heap[j].lb <= eta
        invariant AllHaveSigma(heap) && AllHaveSigma(stack)
        decreases |stack|
      {
        var node := stack[0];
        if node.lb <= cutoff {
          break;
        }
        heap := heap + [node];
        stack := stack[1..];
        k := k + 1;
        assert old(stack)[..k] == old(stack)[..k - 1] + [old(stack)[k - 1]];
      }
    }

    /** `rearrange_nodes()`'s moving of front nodes to the heap, stated by
        what is left of the deque. */
    method MoveFrontNodes(eta: real, cutoff: real)
      requires Valid()
      modifies this`heap, this`stack
      ensures Valid()
      ensures Size() == old(Size())
      ensures |stack| <= |old(stack)|
      ensures stack == old(stack)[|old(stack)| - |stack|..]
      ensures heap == old(heap) + old(stack)[..|old(stack)| - |stack|]
      ensures stack == [] || stack[0].lb > eta || stack[0].lb <= cutoff
      ensures forall j :: |old(heap)| <= j < |heap| ==> cutoff < heap[j].lb <= eta
    {
      ghost var k := MoveLoop(eta, cutoff);
      assert |old(stack)| - |stack| == k;
    }

    /** `rearrange_nodes()`: compute the cutoff, then move front nodes above
        it (and not above the incumbent) to the heap; the node count and
        `glob_lb` do not change. */
    method RearrangeNodes(eta: real, nSol: nat)
      requires Valid() && Size() > 0
      modifies this
      ensures Valid()
      ensures globLb == old(globLb) && Size() == old(Size())
      ensures |stack| <= |old(stack)|
      ensures stack == old(stack)[|old(stack)| - |stack|..]
      ensures heap == old(heap) + old(stack)[..|old(stack)| - |stack|]
      ensures nSol == 0 ==> minBeta == 1.0
      ensures nSol > 0 ==> minBeta == Min(old(minBeta), Beta(nSol, old(Size())))
      ensures var cutoff := Cutoff(eta, nSol, globLb.value, old(Size()));
        (stack == [] || stack[0].lb > eta || stack[0].lb <= cutoff) &&
        forall j :: |old(heap)| <= j < |heap| ==> cutoff < heap[j].lb <= eta
    {
      var cutoff := CalculateCutoff(eta, nSol);
      MoveFrontNodes(eta, cutoff);
    }

    /** `top()`: rearrange, then the deque's front if there is one, else the
        heap's top. */
    method Top(eta: real, nSol: nat) returns (n: Node)
      requires Valid() && Size() > 0
      modifies this
      ensures Valid() && Size() == old(Size()) && n == Front()
      ensures stack != [] ==> n == stack[0]
      ensures stack == [] ==> |heap| > 0 && n == heap[TopIndex(heap)]
      ensures multiset(heap) + multiset(stack) == multiset(old(heap)) + multiset(old(stack))
      ensures globLb == old(globLb)
      ensures |stack| <= |old(stack)|
      ensures stack == old(stack)[|old(stack)| - |stack|..]
      ensures heap == old(heap) + old(stack)[..|old(stack)| - |stack|]
      ensures nSol == 0 ==> minBeta == 1.0
      ensures nSol > 0 ==> minBeta == Min(old(minBeta), Beta(nSol, old(Size())))
      ensures var cutoff := Cutoff(eta, nSol, globLb.value, old(Size()));
        (stack == [] || stack[0].lb > eta || stack[0].lb <= cutoff) &&
        forall j :: |old(heap)| <= j < |heap| ==> cutoff < heap[j].lb <= eta
    {
      ghost var h0, s0 := heap, stack;
      RearrangeNodes(eta, nSol);
      MovedKeepsNodes(h0, s0, |s0| - |stack|);
      if stack == [] {
        n := heap[TopIndex(heap)];
      } else {
        n := stack[0];
      }
    }

    /** The node `pop()` removes. */
    ghost function Front(): Node
      reads this
      requires Valid() && Size() > 0
    {
      if stack != [] then stack[0] else heap[TopIndex(heap)]
    }

    /** `pop()`: remove the deque's front, or the heap's top if the deque is
        empty; if the removed node carried `glob_lb`, recompute it from the
        incumbent, every deque entry and the heap's top. */
    method Pop(eta: real)
      requires Valid() && Size() > 0
      modifies this
      ensures Valid()
      ensures old(stack) != [] ==> stack == old(stack)[1..] && heap == old(heap)
      ensures old(stack) == [] ==>
        stack == [] && heap == RemoveAt(old(heap), TopIndex(old(heap)))
      ensures Finite(old(Front()).lb) != old(globLb) ==> globLb == old(globLb)
      ensures Finite(old(Front()).lb) == old(globLb) ==>
        globLb == Finite(if heap == [] then StackMinLb(eta, stack)
                         else Min(heap[TopIndex(heap)].lb, StackMinLb(eta, stack)))
      ensures minBeta == old(minBeta)
    {
      var node := RemoveFront();
      if Finite(node.lb) == globLb {
        RecomputeGlobLb(eta);
      }
    }

    /** The removal of `pop()`: the deque's front, or the heap's top if the
        deque is empty. */
    method RemoveFront() returns (node: Node)
      requires Valid() && Size() > 0
      modifies this`heap, this`stack
      ensures Valid() && node == old(Front())
      ensures old(stack) != [] ==> stack == old(stack)[1..] && heap == old(heap)
      ensures old(stack) == [] ==>
        stack == [] && heap == RemoveAt(old(heap), TopIndex(old(heap)))
    {
      if stack == [] {
        var i := TopIndex(heap);
        node := heap[i];
        RemoveAtHasSigma(heap, i);
        heap := RemoveAt(heap, i);
      } else {
        node := stack[0];
        stack := stack[1..];
      }
    }

    /** The recomputation of `glob_lb` in `pop()`: the smallest of the
        incumbent, every deque entry and the heap's top. */
    method RecomputeGlobLb(eta: real)
      requires Valid()
      modifies this`globLb
      ensures Valid()
      ensures globLb == Finite(if heap == [] then StackMinLb(eta, stack)
                               else Min(heap[TopIndex(heap)].lb, StackMinLb(eta, stack)))
    {
      var g := eta;
      var i := 0;
      while i < |stack|
        invariant 0 <= i <= |stack|
        invariant g == StackMinLb(eta, stack[..i])
      {
        assert stack[..i + 1][..i] == stack[..i];
        g := Min(stack[i].lb, g);
        i := i + 1;
      }
      assert stack[..i] == stack;
      if heap != [] {
        g := Min(heap[TopIndex(heap)].lb, g);
      }
      globLb := Finite(g);
    }
  }

  /** Removing an entry keeps every other entry's switch counts. */
  lemma RemoveAtHasSigma(s: seq<Node>, i: nat)
    requires i < |s| && AllHaveSigma(s)
    ensures AllHaveSigma(RemoveAt(s, i))
  {
    var r := RemoveAt(s, i);
    forall j | 0 <= j < |r| ensures HasSigma(r[j]) {
      if j < i {
        assert r[j] == s[j];
      } else {
        assert r[j] == s[j + 1];
      }
    }
  }

  /** Moving the first `k` deque nodes to the heap's end keeps every node. */
  lemma MovedKeepsNodes(h: seq<Node>, s: seq<Node>, k: nat)
    requires k <= |s|
    ensures multiset(h + s[..k]) + multiset(s[k..]) == multiset(h) + multiset(s)
  {
    assert s == s[..k] + s[k..];
  }

  /** After `push`, the batch's `operator<`-minimal node is at the front. */
  lemma {:induction false} PushPutsBatchBestInFront(nodes: seq<Node>, oldStack: seq<Node>, s: seq<Node>)
    requires |nodes| > 0 && AllHaveSigma(nodes)
    requires s == Reverse(SortWorstFirst(nodes)) + oldStack
    ensures |s| == |nodes| + |oldStack|
    ensures s[0] in nodes && HasSigma(s[0])
    ensures forall y :: y in nodes ==> !Less(y, s[0])
  {
    var sorted := SortWorstFirst(nodes);
    SortedLastIsBest(nodes);
    ReverseFirst(sorted);
    assert s[0] == sorted[|sorted| - 1];
    assert sorted[|sorted| - 1] in multiset(sorted);
  }

  /** A recomputed `glob_lb` bounds the incumbent, the deque and the heap's
      top, but not every heap entry: the heap's top is the deepest node, so
      a shallower heap node with a smaller lower bound is missed. */
  lemma GlobLbMissesShallowHeapNodes()
    ensures var deep := Node([], 0, [0], [0.0], 5, [0.0], 0.9);
      var shallow := Node([], 0, [0], [0.0], 3, [0.0], 0.2);
      var heap := [shallow, deep];
      heap[TopIndex(heap)] == deep &&
      Min(heap[TopIndex(heap)].lb, StackMinLb(1.0, [])) == 0.9 &&
      0.9 > shallow.lb
  {
    var deep := Node([], 0, [0], [0.0], 5, [0.0], 0.9);
    var shallow := Node([], 0, [0], [0.0], 3, [0.0], 0.2);
    var heap := [shallow, deep];
    assert Less(deep, shallow);
    assert TopIndex(heap) == 1;
  }
}
