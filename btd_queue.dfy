// The best-then-dive frontier
// (src/combina_bnb_solver/queues/BestThenDiveNodeQueue.cpp): a current dive
// target `curtop`, a `limbo` stack of nodes already fathomable by the
// incumbent, and a `store` kept as a binary heap under `later_root`.

module BestThenDiveQueue {
  import opened Common
  import opened Nodes

  // ---------------------------------------------------------------------
  // Comparators

  /** Every node of `s` has switch counts and a depth within the horizon. */
  predicate Rankable(s: seq<Node>, dt: seq<real>)
  {
    forall j :: 0 <= j < |s| ==> HasSigma(s[j]) && s[j].depth <= |dt|
  }

  predicate RankableNode(n: Node, dt: seq<real>)
  {
    HasSigma(n) && n.depth <= |dt|
  }

  /** `get_adjusted_lb`: the lower bound plus a third of the remaining
      horizon (the divisor `3 + 2 * min_rem_sigma` is always 3). */
  function AdjustedLb(n: Node, dt: seq<real>): real
    requires n.depth <= |dt|
  {
    n.lb + SumRange(dt, n.depth, |dt|) / 3.0
  }

  /** `get_adjusted_lb` as written: `min_rem_sigma` starts at 0 and is only
      ever `std::min`-ed with unsigned differences, so it stays 0; the
      remaining time is the `std::accumulate` of `dt` from the node's depth. */
  method GetAdjustedLb(node: Node, dt: seq<real>, maxSigma: seq<nat>) returns (r: real)
    requires node.depth <= |dt|
    requires |maxSigma| <= |node.sigma|
    ensures r == AdjustedLb(node, dt)
    ensures r >= node.lb <==> SumRange(dt, node.depth, |dt|) >= 0.0
  {
    var minRemSigma: int := 0;
    var k := 0;
    while k < |maxSigma|
      invariant 0 <= k <= |maxSigma|
      invariant minRemSigma == 0
    {
      // unsigned subtraction wraps modulo 2^32
      var diff := (maxSigma[k] as int - node.sigma[k] as int) % 0x1_0000_0000;
      minRemSigma := if diff < minRemSigma then diff else minRemSigma;
      k := k + 1;
    }
    var remTime := 0.0;
    var i := |dt|;
    while i > node.depth
      invariant node.depth <= i <= |dt|
      invariant remTime == SumRange(dt, i, |dt|)
    {
      i := i - 1;
      remTime := remTime + dt[i];
    }
    r := node.lb + remTime / (3 + 2 * minRemSigma) as real;
  }

  /** `later_root(lhs, rhs)`: `lhs` belongs further from the heap root than
      `rhs`: a larger adjusted lower bound, then a larger maximum switch
      count. */
  predicate LaterRoot(l: Node, r: Node, dt: seq<real>)
    requires RankableNode(l, dt) && RankableNode(r, dt)
  {
    var la := AdjustedLb(l, dt);
    var ra := AdjustedLb(r, dt);
    if la != ra then ra < la else MaxSigma(r.sigma) < MaxSigma(l.sigma)
  }

  /** `prefer_dive(lhs, rhs)`: `lhs` is the better dive target: a smaller
      lower bound, then a smaller maximum switch count. */
  predicate PreferDive(l: Node, r: Node)
    requires HasSigma(l) && HasSigma(r)
  {
    if l.lb != r.lb then l.lb < r.lb else MaxSigma(l.sigma) < MaxSigma(r.sigma)
  }

  /** Both comparators are strict weak orders. */
  lemma ComparatorsAreStrictWeakOrders(a: Node, b: Node, c: Node, dt: seq<real>)
    requires RankableNode(a, dt) && RankableNode(b, dt) && RankableNode(c, dt)
    ensures !LaterRoot(a, a, dt) && !PreferDive(a, a)
    ensures LaterRoot(a, b, dt) ==> !LaterRoot(b, a, dt)
    ensures PreferDive(a, b) ==> !PreferDive(b, a)
    ensures !LaterRoot(a, b, dt) && !LaterRoot(b, c, dt) ==> !LaterRoot(a, c, dt)
    ensures !PreferDive(a, b) && !PreferDive(b, c) ==> !PreferDive(a, c)
  {
  }

  // ---------------------------------------------------------------------
  // `std::push_heap` / `std::pop_heap` on the store, comparator `later_root`:
  // the root is the entry no other entry is earlier than.

  function Parent(i: nat): nat
    requires i > 0
  {
    (i - 1) / 2
  }

  /** `s[0..n)` is a heap: no entry is an earlier root than its parent. */
  predicate IsHeap(s: seq<Node>, n: nat, dt: seq<real>)
    requires n <= |s| && Rankable(s, dt)
  {
    forall i :: 0 < i < n ==> !LaterRoot(s[Parent(i)], s[i], dt)
  }

  function Swap(s: seq<Node>, i: nat, j: nat): (r: seq<Node>)
    requires i < |s| && j < |s|
    ensures |r| == |s| && multiset(r) == multiset(s)
    ensures r[i] == s[j] && r[j] == s[i]
    ensures forall k :: 0 <= k < |s| && k != i && k != j ==> r[k] == s[k]
  {
    s[i := s[j]][j := s[i]]
  }

  lemma SwapRankable(s: seq<Node>, i: nat, j: nat, dt: seq<real>)
    requires i < |s| && j < |s| && Rankable(s, dt)
    ensures Rankable(Swap(s, i, j), dt)
  {
    var r := Swap(s, i, j);
    forall k | 0 <= k < |r| ensures HasSigma(r[k]) && r[k].depth <= |dt| {
      if k == i { assert r[k] == s[j]; } else if k == j { assert r[k] == s[i]; }
    }
  }

  /** Sift entry `i` up towards the root while its parent is a later root:
      the hole movement of `std::push_heap`. */
  function SiftUp(s: seq<Node>, i: nat, dt: seq<real>): (r: seq<Node>)
    requires i < |s| && Rankable(s, dt)
    ensures |r| == |s| && multiset(r) == multiset(s) && Rankable(r, dt)
    ensures forall k :: i < k < |s| ==> r[k] == s[k]
    decreases i
  {
    if i == 0 || !LaterRoot(s[Parent(i)], s[i], dt) then s
    else
      SwapRankable(s, i, Parent(i), dt);
      SiftUp(Swap(s, i, Parent(i)), Parent(i), dt)
  }

  /** Heap except at `i`: every parent edge holds except the one into `i`,
      and `i`'s parent is no later than `i`'s children. */
  predicate HeapExceptUp(s: seq<Node>, n: nat, i: nat, dt: seq<real>)
    requires i < n <= |s| && Rankable(s, dt)
  {
    (forall k :: 0 < k < n && k != i ==> !LaterRoot(s[Parent(k)], s[k], dt)) &&
    (i > 0 ==> forall k :: 0 < k < n && Parent(k) == i ==> !LaterRoot(s[Parent(i)], s[k], dt))
  }

  lemma {:induction false} SiftUpRestores(s: seq<Node>, n: nat, i: nat, dt: seq<real>)
    requires i < n <= |s| && Rankable(s, dt)
    requires HeapExceptUp(s, n, i, dt)
    ensures IsHeap(SiftUp(s, i, dt), n, dt)
    decreases i
  {
    if i == 0 || !LaterRoot(s[Parent(i)], s[i], dt) {
      forall k | 0 < k < n ensures !LaterRoot(s[Parent(k)], s[k], dt) {
      }
    } else {
      var p := Parent(i);
      var t := Swap(s, i, p);
      SwapRankable(s, i, p, dt);
      forall k | 0 < k < n && k != p ensures !LaterRoot(t[Parent(k)], t[k], dt) {
        if k == i {
          ComparatorsAreStrictWeakOrders(s[p], s[i], s[i], dt);
        } else if Parent(k) == i {
          assert t[Parent(k)] == s[p] && t[k] == s[k];
        } else if Parent(k) == p {
          assert t[Parent(k)] == s[i] && t[k] == s[k];
          ComparatorsAreStrictWeakOrders(s[i], s[p], s[k], dt);
        } else {
          assert t[k] == s[k];
          if Parent(k) == p {} else {
            assert t[Parent(k)] == s[Parent(k)];
          }
        }
      }
      if p > 0 {
        forall k | 0 < k < n && Parent(k) == p ensures !LaterRoot(t[Parent(p)], t[k], dt) {
          assert Parent(p) != i && Parent(p) != p;
          assert t[Parent(p)] == s[Parent(p)];
          if k == i {
            assert t[k] == s[p];
          } else {
            assert t[k] == s[k];
            ComparatorsAreStrictWeakOrders(s[Parent(p)], s[p], s[k], dt);
          }
        }
      }
      SiftUpRestores(t, n, p, dt);
    }
  }

  lemma ParentBelow(k: nat)
    requires k > 0
    ensures 2 * Parent(k) + 1 <= k
  {
  }

  /** The last entry of a range has no children in it. */
  lemma HeapExceptLast(s: seq<Node>, n: nat, dt: seq<real>)
    requires 0 < n <= |s| && Rankable(s, dt) && IsHeap(s, n - 1, dt)
    ensures HeapExceptUp(s, n, n - 1, dt)
  {
    forall k | 0 < k < n ensures Parent(k) != n - 1 {
      ParentBelow(k);
    }
  }

  /** `std::push_heap(begin, begin + n)` on a store whose first `n - 1`
      entries form a heap turns the first `n` into a heap. */
  lemma PushHeapExtends(s: seq<Node>, n: nat, dt: seq<real>)
    requires 0 < n <= |s| && Rankable(s, dt) && IsHeap(s, n - 1, dt)
    ensures IsHeap(SiftUp(s, n - 1, dt), n, dt)
  {
    HeapExceptLast(s, n, dt);
    SiftUpRestores(s, n, n - 1, dt);
  }

  /** Sifting an entry that already sits correctly changes nothing. */
  lemma SiftUpInPlace(s: seq<Node>, n: nat, dt: seq<real>)
    requires 0 < n <= |s| && Rankable(s, dt) && IsHeap(s, n, dt)
    ensures SiftUp(s, n - 1, dt) == s
  {
  }

  /** The earlier child of `i` within `s[0..n)`, if `i` has one. */
  function EarlierChild(s: seq<Node>, n: nat, i: nat, dt: seq<real>): (c: nat)
    requires n <= |s| && Rankable(s, dt) && 2 * i + 1 < n
    ensures c == 2 * i + 1 || c == 2 * i + 2
    ensures c < n && Parent(c) == i
  {
    if 2 * i + 2 < n && LaterRoot(s[2 * i + 1], s[2 * i + 2], dt) then 2 * i + 2 else 2 * i + 1
  }

  /** Sift entry `i` down within `s[0..n)` while it is a later root than its
      earlier child. */
  function SiftDown(s: seq<Node>, n: nat, i: nat, dt: seq<real>): (r: seq<Node>)
    requires i < n <= |s| && Rankable(s, dt)
    ensures |r| == |s| && multiset(r) == multiset(s) && Rankable(r, dt)
    ensures forall k :: n <= k < |s| ==> r[k] == s[k]
    decreases n - i
  {
    if 2 * i + 1 >= n then s
    else
      var c := EarlierChild(s, n, i, dt);
      if !LaterRoot(s[i], s[c], dt) then s
      else
        SwapRankable(s, i, c, dt);
        SiftDown(Swap(s, i, c), n, c, dt)
  }

  /** Heap except below `i`: every parent edge holds except those out of
      `i`, and `i`'s parent is no later than `i`'s children. */
  predicate HeapExceptDown(s: seq<Node>, n: nat, i: nat, dt: seq<real>)
    requires i < n <= |s| && Rankable(s, dt)
  {
    (forall k :: 0 < k < n && Parent(k) != i ==> !LaterRoot(s[Parent(k)], s[k], dt)) &&
    (i > 0 ==> forall k :: 0 < k < n && Parent(k) == i ==> !LaterRoot(s[Parent(i)], s[k], dt))
  }

  /** No child of `i` is an earlier root than its earlier child. */
  lemma EarlierChildEarliest(s: seq<Node>, n: nat, i: nat, k: nat, dt: seq<real>)
    requires n <= |s| && Rankable(s, dt) && 2 * i + 1 < n
    requires 0 < k < n && Parent(k) == i
    ensures !LaterRoot(s[EarlierChild(s, n, i, dt)], s[k], dt)
  {
    var c := EarlierChild(s, n, i, dt);
    assert k == 2 * i + 1 || k == 2 * i + 2;
    ComparatorsAreStrictWeakOrders(s[c], s[k], s[k], dt);
  }

  /** One swap of `SiftDown` moves the defect from `i` to its child `c`. */
  lemma SiftDownStep(s: seq<Node>, n: nat, i: nat, c: nat, dt: seq<real>)
    requires i < n <= |s| && Rankable(s, dt) && 2 * i + 1 < n
    requires HeapExceptDown(s, n, i, dt)
    requires c == EarlierChild(s, n, i, dt) && LaterRoot(s[i], s[c], dt)
    ensures Rankable(Swap(s, i, c), dt)
    ensures HeapExceptDown(Swap(s, i, c), n, c, dt)
  {
    var t := Swap(s, i, c);
    SwapRankable(s, i, c, dt);
    forall k | 0 < k < n && Parent(k) != c ensures !LaterRoot(t[Parent(k)], t[k], dt) {
      if k == c {
        ComparatorsAreStrictWeakOrders(s[i], s[c], s[c], dt);
        assert t[Parent(k)] == s[c] && t[k] == s[i];
      } else if k == i {
        assert t[Parent(k)] == s[Parent(i)] && t[k] == s[c];
        assert !LaterRoot(s[Parent(i)], s[c], dt);
      } else if Parent(k) == i {
        assert t[Parent(k)] == s[c] && t[k] == s[k];
        EarlierChildEarliest(s, n, i, k, dt);
      } else {
        assert Parent(k) != i && Parent(k) != c;
        assert t[k] == s[k] && t[Parent(k)] == s[Parent(k)];
        assert !LaterRoot(s[Parent(k)], s[k], dt);
      }
    }
    forall k | 0 < k < n && Parent(k) == c ensures !LaterRoot(t[Parent(c)], t[k], dt) {
      assert k != i && k != c;
      assert t[Parent(c)] == s[c] && t[k] == s[k];
    }
  }

  /** An entry no later than its earlier child (or without children)
      already sits correctly. */
  lemma SiftDownSettled(s: seq<Node>, n: nat, i: nat, dt: seq<real>)
    requires i < n <= |s| && Rankable(s, dt)
    requires HeapExceptDown(s, n, i, dt)
    requires 2 * i + 1 < n ==> !LaterRoot(s[i], s[EarlierChild(s, n, i, dt)], dt)
    ensures IsHeap(s, n, dt)
  {
    forall k | 0 < k < n ensures !LaterRoot(s[Parent(k)], s[k], dt) {
      if Parent(k) == i {
        var c := EarlierChild(s, n, i, dt);
        if k != c {
          ComparatorsAreStrictWeakOrders(s[i], s[c], s[k], dt);
        }
      }
    }
  }

  lemma {:induction false} SiftDownRestores(s: seq<Node>, n: nat, i: nat, dt: seq<real>)
    requires i < n <= |s| && Rankable(s, dt)
    requires HeapExceptDown(s, n, i, dt)
    ensures IsHeap(SiftDown(s, n, i, dt), n, dt)
    decreases n - i
  {
    if 2 * i + 1 >= n || !LaterRoot(s[i], s[EarlierChild(s, n, i, dt)], dt) {
      SiftDownSettled(s, n, i, dt);
    } else {
      var c := EarlierChild(s, n, i, dt);
      SiftDownStep(s, n, i, c, dt);
      SiftDownRestores(Swap(s, i, c), n, c, dt);
    }
  }

  /** Dropping the last entry keeps the rest rankable, and the entries are
      the rest and the dropped one. */
  lemma DropLast(u: seq<Node>, dt: seq<real>)
    requires |u| > 0 && Rankable(u, dt)
    ensures Rankable(u[..|u| - 1], dt)
    ensures multiset(u[..|u| - 1]) + multiset{u[|u| - 1]} == multiset(u)
  {
    var v := u[..|u| - 1];
    assert u == v + [u[|u| - 1]];
    forall j | 0 <= j < |v| ensures RankableNode(v[j], dt) {
      assert v[j] == u[j];
    }
  }

  /** Sinking the swapped-in last entry keeps every entry and leaves the old
      root last. */
  lemma SiftSwappedRoot(s: seq<Node>, dt: seq<real>)
    requires |s| > 1 && Rankable(s, dt)
    ensures Rankable(Swap(s, 0, |s| - 1), dt)
    ensures var u := SiftDown(Swap(s, 0, |s| - 1), |s| - 1, 0, dt);
      Rankable(u[..|s| - 1], dt) && multiset(u[..|s| - 1]) + multiset{s[0]} == multiset(s)
  {
    var t := Swap(s, 0, |s| - 1);
    SwapRankable(s, 0, |s| - 1, dt);
    var u := SiftDown(t, |s| - 1, 0, dt);
    assert u[|s| - 1] == s[0];
    DropLast(u, dt);
  }

  /** `std::pop_heap(begin, end)` followed by `pop_back()`: the root leaves,
      the last entry takes its place and sinks. */
  function PopHeap(s: seq<Node>, dt: seq<real>): (r: seq<Node>)
    requires |s| > 0 && Rankable(s, dt)
    ensures |r| == |s| - 1 && Rankable(r, dt)
    ensures multiset(r) + multiset{s[0]} == multiset(s)
  {
    if |s| == 1 then
      assert s == [s[0]];
      []
    else
      SiftSwappedRoot(s, dt);
      SiftDown(Swap(s, 0, |s| - 1), |s| - 1, 0, dt)[..|s| - 1]
  }

  /** Popping a store whose entries except the last form a heap leaves a
      heap: the unsifted last entry is the one that sinks from the root. */
  lemma PopHeapRestores(s: seq<Node>, dt: seq<real>)
    requires |s| > 0 && Rankable(s, dt) && IsHeap(s, |s| - 1, dt)
    ensures IsHeap(PopHeap(s, dt), |s| - 1, dt)
  {
    if |s| > 1 {
      var t := Swap(s, 0, |s| - 1);
      SwapRootExceptDown(s, dt);
      SiftDownRestores(t, |s| - 1, 0, dt);
      PrefixKeepsHeap(SiftDown(t, |s| - 1, 0, dt), |s| - 1, dt);
    }
  }

  /** What `pop()` leaves in the store is again a heap on all entries but the
      last. */
  lemma PopKeepsHeap(s: seq<Node>, dt: seq<real>)
    requires |s| > 0 && Rankable(s, dt) && IsHeap(s, |s| - 1, dt)
    ensures var p := PopHeap(s, dt); |p| > 0 ==> IsHeap(p, |p| - 1, dt)
  {
    PopHeapRestores(s, dt);
  }

  /** Swapping the root with the last entry leaves a heap except below
      the root on all but the last entry. */
  lemma SwapRootExceptDown(s: seq<Node>, dt: seq<real>)
    requires |s| > 1 && Rankable(s, dt) && IsHeap(s, |s| - 1, dt)
    ensures Rankable(Swap(s, 0, |s| - 1), dt)
    ensures HeapExceptDown(Swap(s, 0, |s| - 1), |s| - 1, 0, dt)
  {
    var t := Swap(s, 0, |s| - 1);
    SwapRankable(s, 0, |s| - 1, dt);
    forall k | 0 < k < |s| - 1 && Parent(k) != 0 ensures !LaterRoot(t[Parent(k)], t[k], dt) {
      assert t[k] == s[k] && t[Parent(k)] == s[Parent(k)];
    }
  }

  /** The first `n` entries of a heap of size `n` are that heap. */
  lemma PrefixKeepsHeap(u: seq<Node>, n: nat, dt: seq<real>)
    requires n <= |u| && Rankable(u, dt) && IsHeap(u, n, dt)
    ensures Rankable(u[..n], dt) && IsHeap(u[..n], n, dt)
  {
    var r := u[..n];
    forall k | 0 < k < n ensures !LaterRoot(r[Parent(k)], r[k], dt) {
      assert r[k] == u[k] && r[Parent(k)] == u[Parent(k)];
    }
  }

  /** The root of a heap is no later than any heap entry. */
  lemma {:induction false} HeapRootIsEarliest(s: seq<Node>, n: nat, k: nat, dt: seq<real>)
    requires k < n <= |s| && Rankable(s, dt) && IsHeap(s, n, dt)
    ensures !LaterRoot(s[0], s[k], dt)
    decreases k
  {
    if k == 0 {
      ComparatorsAreStrictWeakOrders(s[0], s[0], s[0], dt);
    } else {
      HeapRootIsEarliest(s, n, Parent(k), dt);
      ComparatorsAreStrictWeakOrders(s[0], s[Parent(k)], s[k], dt);
    }
  }

  /** The sift loop of `push`: `std::push_heap(begin, it)` for every `it`
      from `begin + from` up to, but not including, `end`; so index
      `from - 1` through `|s| - 2` are sifted and the last entry is not.  An
      empty range (`from == 0`) sifts nothing. */
  function PushHeapRange(s: seq<Node>, from: nat, to: nat, dt: seq<real>): (r: seq<Node>)
    requires from <= to <= |s| && Rankable(s, dt)
    ensures |r| == |s| && multiset(r) == multiset(s) && Rankable(r, dt)
    decreases (to as int) - (from as int)
  {
    if from == to then s
    else if from == 0 then PushHeapRange(s, 1, to, dt)
    else PushHeapRange(SiftUp(s, from - 1, dt), from + 1, to, dt)
  }

  lemma {:induction false} PushHeapRangeHeap(s: seq<Node>, from: nat, to: nat, dt: seq<real>)
    requires from <= to <= |s| && Rankable(s, dt)
    requires 0 < from ==> IsHeap(s, from - 1, dt)
    ensures 0 < to ==> IsHeap(PushHeapRange(s, from, to, dt), to - 1, dt)
    decreases (to as int) - (from as int)
  {
    if from < to {
      if from == 0 {
        PushHeapRangeHeap(s, 1, to, dt);
        assert PushHeapRange(s, from, to, dt) == PushHeapRange(s, 1, to, dt);
      } else {
        var s' := SiftUp(s, from - 1, dt);
        PushHeapExtends(s, from, dt);
        PushHeapRangeHeap(s', from + 1, to, dt);
        assert PushHeapRange(s, from, to, dt) == PushHeapRange(s', from + 1, to, dt);
      }
    }
  }

  /** The sift loop as evidently intended runs `std::push_heap(begin, it)`
      up to and including `it == end`: after the loop as written, one more
      sift of the last entry makes the whole store a heap. */
  lemma SiftingLastCompletesHeap(s: seq<Node>, from: nat, dt: seq<real>)
    requires 0 < |s| && from <= |s| && Rankable(s, dt)
    requires 0 < from ==> IsHeap(s, from - 1, dt)
    ensures IsHeap(SiftUp(PushHeapRange(s, from, |s|, dt), |s| - 1, dt), |s|, dt)
  {
    PushHeapRangeHeap(s, from, |s|, dt);
    PushHeapExtends(PushHeapRange(s, from, |s|, dt), |s|, dt);
  }

  // ---------------------------------------------------------------------
  // Dive target selection

  predicate Eligible(n: Node, eta: real)
  {
    n.lb < eta
  }

  /** The first `prefer_dive`-minimal node of `s` whose lower bound is below
      the incumbent, scanning left to right. */
  function DiveTarget(s: seq<Node>, eta: real): (t: Option<nat>)
    requires AllHaveSigma(s)
    ensures t.None? <==> forall j :: 0 <= j < |s| ==> !Eligible(s[j], eta)
    ensures t.Some? ==> t.value < |s| && Eligible(s[t.value], eta)
    ensures t.Some? ==> forall j :: 0 <= j < |s| && Eligible(s[j], eta) ==>
      !PreferDive(s[j], s[t.value])
    ensures t.Some? ==> forall j :: 0 <= j < t.value && Eligible(s[j], eta) ==>
      PreferDive(s[t.value], s[j])
  {
    if |s| == 0 then None
    else
      var p := s[..|s| - 1];
      assert forall j :: 0 <= j < |p| ==> p[j] == s[j];
      var t := DiveTarget(p, eta);
      var last := |s| - 1;
      if Eligible(s[last], eta) && (t.None? || PreferDive(s[last], s[t.value])) then
        assert t.Some? ==> forall j :: 0 <= j < last && Eligible(s[j], eta) ==>
          PreferDive(s[last], s[j]) && !PreferDive(s[j], s[last]) by {
          if t.Some? {
            forall j | 0 <= j < last && Eligible(s[j], eta)
              ensures PreferDive(s[last], s[j]) && !PreferDive(s[j], s[last])
            {
              assert !PreferDive(s[j], s[t.value]);
            }
          }
        }
        Some(last)
      else
        t
  }

  /** The limbo and store additions of `push`: every batch node except the
      target, in order, to `limbo` when fathomable (`lb >= eta`), else to
      `store`. */
  function Stash(s: seq<Node>, skip: Option<nat>, eta: real): (r: (seq<Node>, seq<Node>))
    ensures |r.0| + |r.1| + (if skip.Some? && skip.value < |s| then 1 else 0) == |s|
    ensures forall j :: 0 <= j < |r.0| ==> r.0[j].lb >= eta
    ensures forall j :: 0 <= j < |r.1| ==> r.1[j].lb < eta
  {
    if |s| == 0 then ([], [])
    else
      var p := s[..|s| - 1];
      var x := s[|s| - 1];
      var q := Stash(p, skip, eta);
      if skip == Some(|s| - 1) then q
      else if x.lb >= eta then (q.0 + [x], q.1)
      else (q.0, q.1 + [x])
  }

  /** The batch node a push leaves out of limbo and store: the target. */
  function Skipped(s: seq<Node>, skip: Option<nat>): multiset<Node>
  {
    if skip.Some? && skip.value < |s| then multiset{s[skip.value]} else multiset{}
  }

  /** A last batch node that is the target is left out. */
  lemma StashSkipsTarget(s: seq<Node>, skip: Option<nat>, eta: real)
    requires |s| > 0 && skip == Some(|s| - 1)
    ensures Stash(s, skip, eta) == Stash(s[..|s| - 1], skip, eta)
    ensures Skipped(s, skip) == multiset{s[|s| - 1]}
  {
  }

  /** A last batch node that is not the target goes to limbo or the store. */
  lemma StashKeepsOther(s: seq<Node>, skip: Option<nat>, eta: real)
    requires |s| > 0 && skip != Some(|s| - 1)
    ensures var q := Stash(s[..|s| - 1], skip, eta);
      var r := Stash(s, skip, eta);
      multiset(r.0) + multiset(r.1) == multiset(q.0) + multiset(q.1) + multiset{s[|s| - 1]}
  {
    var q := Stash(s[..|s| - 1], skip, eta);
    var x := s[|s| - 1];
    if x.lb >= eta {
      assert Stash(s, skip, eta) == (q.0 + [x], q.1);
    } else {
      assert Stash(s, skip, eta) == (q.0, q.1 + [x]);
    }
  }

  /** The target of a batch is the target of the batch without its last
      node, unless it is that node. */
  lemma SkippedKeepsOther(s: seq<Node>, skip: Option<nat>)
    requires |s| > 0 && skip != Some(|s| - 1)
    ensures Skipped(s, skip) == Skipped(s[..|s| - 1], skip)
  {
    if skip.Some? && skip.value < |s| {
      assert s[skip.value] == s[..|s| - 1][skip.value];
    }
  }

  /** The stashed nodes and the target together are the batch. */
  lemma {:induction false} StashIsPartition(s: seq<Node>, skip: Option<nat>, eta: real)
    ensures multiset(Stash(s, skip, eta).0) + multiset(Stash(s, skip, eta).1) + Skipped(s, skip) ==
      multiset(s)
  {
    if |s| > 0 {
      var p := s[..|s| - 1];
      StashIsPartition(p, skip, eta);
      assert s == p + [s[|s| - 1]];
      if skip == Some(|s| - 1) {
        StashSkipsTarget(s, skip, eta);
      } else {
        StashKeepsOther(s, skip, eta);
        SkippedKeepsOther(s, skip);
      }
    }
  }

  /** Every stashed node comes from the batch. */
  lemma {:induction false} StashFromBatch(s: seq<Node>, skip: Option<nat>, eta: real)
    ensures forall j :: 0 <= j < |Stash(s, skip, eta).0| ==> Stash(s, skip, eta).0[j] in s
    ensures forall j :: 0 <= j < |Stash(s, skip, eta).1| ==> Stash(s, skip, eta).1[j] in s
  {
    if |s| > 0 {
      var p := s[..|s| - 1];
      StashFromBatch(p, skip, eta);
      assert s == p + [s[|s| - 1]];
      assert forall y :: y in p ==> y in s;
    }
  }

  lemma StashRankable(s: seq<Node>, skip: Option<nat>, eta: real, dt: seq<real>)
    requires Rankable(s, dt)
    ensures Rankable(Stash(s, skip, eta).0, dt) && Rankable(Stash(s, skip, eta).1, dt)
  {
    StashFromBatch(s, skip, eta);
  }

  /** The target search loop of `push`. */
  method FindDiveTarget(nodes: seq<Node>, eta: real) returns (tgt: Option<nat>)
    requires AllHaveSigma(nodes)
    ensures tgt == DiveTarget(nodes, eta)
  {
    tgt := None;
    var k := 0;
    while k < |nodes|
      invariant 0 <= k <= |nodes|
      invariant tgt == DiveTarget(nodes[..k], eta)
    {
      assert nodes[..k + 1][..k] == nodes[..k];
      assert forall j :: 0 <= j < k ==> nodes[..k][j] == nodes[j];
      if nodes[k].lb < eta && (tgt.None? || PreferDive(nodes[k], nodes[tgt.value])) {
        tgt := Some(k);
      }
      k := k + 1;
    }
    assert nodes[..k] == nodes;
  }

  /** The stashing loop of `push`. */
  method StashNodes(nodes: seq<Node>, tgt: Option<nat>, eta: real) returns (lim: seq<Node>, sto: seq<Node>)
    ensures (lim, sto) == Stash(nodes, tgt, eta)
  {
    lim, sto := [], [];
    var k := 0;
    while k < |nodes|
      invariant 0 <= k <= |nodes|
      invariant lim == Stash(nodes[..k], tgt, eta).0
      invariant sto == Stash(nodes[..k], tgt, eta).1
    {
      assert nodes[..k + 1][..k] == nodes[..k];
      assert nodes[..k + 1][k] == nodes[k];
      if tgt != Some(k) {
        if nodes[k].lb >= eta {
          lim := lim + [nodes[k]];
        } else {
          sto := sto + [nodes[k]];
        }
      }
      k := k + 1;
    }
    assert nodes[..k] == nodes;
  }

  /** The sift loop of `push`: `std::push_heap(begin, it)` for `it` from
      `begin + from` to `end`, exclusive. */
  method SiftStore(s0: seq<Node>, from: nat, dt: seq<real>) returns (s: seq<Node>)
    requires from <= |s0| && Rankable(s0, dt)
    ensures s == PushHeapRange(s0, from, |s0|, dt)
  {
    var it := from;
    s := s0;
    while it < |s0|
      invariant from <= it <= |s0|
      invariant |s| == |s0| && Rankable(s, dt)
      invariant PushHeapRange(s0, from, |s0|, dt) == PushHeapRange(s, it, |s0|, dt)
    {
      ghost var before := s;
      if it > 0 {
        s := SiftUp(s, it - 1, dt);
      }
      assert PushHeapRange(before, it, |s0|, dt) == PushHeapRange(s, it + 1, |s0|, dt);
      it := it + 1;
    }
  }

  /** The store of `push` before sifting: the old store, the old `curtop`
      and the eligible non-target batch nodes. */
  function Stored(store: seq<Node>, curtop: Option<Node>, nodes: seq<Node>, eta: real): (r: seq<Node>)
    requires AllHaveSigma(nodes)
    ensures |r| == |store| + (if curtop.Some? then 1 else 0) + |Stash(nodes, DiveTarget(nodes, eta), eta).1|
    ensures r[..|store|] == store
  {
    store + (if curtop.Some? then [curtop.value] else []) + Stash(nodes, DiveTarget(nodes, eta), eta).1
  }

  /** What `push` adds to the store ranks, and the store it sifts is a
      heap on all entries but the last. */
  lemma StoredHeap(store: seq<Node>, curtop: Option<Node>, nodes: seq<Node>, eta: real, dt: seq<real>)
    requires Rankable(store, dt) && Rankable(nodes, dt) && (curtop.Some? ==> RankableNode(curtop.value, dt))
    requires |store| > 0 ==> IsHeap(store, |store| - 1, dt)
    ensures Rankable(Stash(nodes, DiveTarget(nodes, eta), eta).0, dt)
    ensures var s := Stored(store, curtop, nodes, eta);
      Rankable(s, dt) &&
      (|s| > 0 ==> IsHeap(PushHeapRange(s, |store|, |s|, dt), |s| - 1, dt))
  {
    var tgt := DiveTarget(nodes, eta);
    StashRankable(nodes, tgt, eta, dt);
    var s := Stored(store, curtop, nodes, eta);
    assert Rankable(s, dt) by {
      forall j | 0 <= j < |s| ensures RankableNode(s[j], dt) {
        if j < |store| {
          assert s[j] == store[j];
        }
      }
    }
    if |store| > 0 {
      forall i | 0 < i < |store| - 1 ensures !LaterRoot(s[Parent(i)], s[i], dt) {
        assert s[i] == store[i] && s[Parent(i)] == store[Parent(i)];
      }
    }
    PushHeapRangeHeap(s, |store|, |s|, dt);
  }

  // The nodes of the unsifted-last-entry example below.
  const ExampleCurtop := Node([], 0, [0], [0.0], 1, [0.0], 5.0)
  const ExampleFirst := Node([], 0, [0], [0.0], 1, [0.0], 0.5)
  const ExampleSecond := Node([], 0, [0], [0.0], 1, [0.0], 1.0)

  lemma ExampleTarget()
    ensures DiveTarget([ExampleFirst, ExampleSecond], 10.0) == Some(0)
  {
    var b := [ExampleFirst, ExampleSecond];
    assert b[..1] == [ExampleFirst];
    assert b[..1][..0] == [];
  }

  lemma ExampleStash()
    ensures Stash([ExampleFirst, ExampleSecond], Some(0), 10.0) == ([], [ExampleSecond])
  {
    var b := [ExampleFirst, ExampleSecond];
    assert [ExampleFirst][..0] == [];
    assert Stash([], Some(0), 10.0) == ([], []);
    assert Stash([ExampleFirst], Some(0), 10.0) == ([], []);
    assert b[..|b| - 1] == [ExampleFirst];
    assert Stash(b, Some(0), 10.0) == (Stash([ExampleFirst], Some(0), 10.0).0, [] + [ExampleSecond]);
    var none: seq<Node> := [];
    assert none + [ExampleSecond] == [ExampleSecond];
  }

  lemma ExampleStored()
    ensures Stored([], Some(ExampleCurtop), [ExampleFirst, ExampleSecond], 10.0) ==
      [ExampleCurtop, ExampleSecond]
  {
    ExampleTarget();
    ExampleStash();
  }

  lemma ExampleSifted()
    ensures Rankable([ExampleCurtop, ExampleSecond], [1.0])
    ensures PushHeapRange([ExampleCurtop, ExampleSecond], 0, 2, [1.0]) == [ExampleCurtop, ExampleSecond]
  {
    var s := [ExampleCurtop, ExampleSecond];
    assert SiftUp(s, 0, [1.0]) == s;
    assert PushHeapRange(s, 2, 2, [1.0]) == s;
    assert PushHeapRange(s, 1, 2, [1.0]) == s;
  }

  /** After `push`, limbo and store still rank, the new `curtop` ranks, and
      every node is in limbo, the store or `curtop`. */
  lemma PushedParts(limbo: seq<Node>, store: seq<Node>, curtop: Option<Node>, nodes: seq<Node>, eta: real, dt: seq<real>)
    requires Rankable(limbo, dt) && Rankable(nodes, dt)
    ensures var tgt := DiveTarget(nodes, eta);
      var stored := Stored(store, curtop, nodes, eta);
      |limbo + Stash(nodes, tgt, eta).0| + |stored| + (if tgt.Some? then 1 else 0) ==
        |limbo| + |store| + (if curtop.Some? then 1 else 0) + |nodes| &&
      (tgt.Some? ==> RankableNode(nodes[tgt.value], dt)) &&
      Rankable(limbo + Stash(nodes, tgt, eta).0, dt)
  {
    var tgt := DiveTarget(nodes, eta);
    var lim := Stash(nodes, tgt, eta).0;
    StashRankable(nodes, tgt, eta, dt);
    forall j | 0 <= j < |limbo + lim| ensures RankableNode((limbo + lim)[j], dt) {
      if j < |limbo| {
        assert (limbo + lim)[j] == limbo[j];
      } else {
        assert (limbo + lim)[j] == lim[j - |limbo|];
      }
    }
  }

  /** The `push` sift loop stops one entry short: after pushing `[n1, n2]`
      onto a queue holding only `curtop == c`, `n1` dives and the store is
      `[c, n2]` with `n2` never sifted, so the store front `c` is a later
      root than `n2` and `top()` offers `c` once `n1` is gone. */
  lemma PushLeavesLastUnsifted()
    ensures var dt := [1.0];
      var stored := Stored([], Some(ExampleCurtop), [ExampleFirst, ExampleSecond], 10.0);
      DiveTarget([ExampleFirst, ExampleSecond], 10.0) == Some(0) &&
      Rankable(stored, dt) &&
      var store := PushHeapRange(stored, 0, |stored|, dt);
      store == [ExampleCurtop, ExampleSecond] && LaterRoot(store[0], store[1], dt)
  {
    ExampleTarget();
    ExampleStored();
    ExampleSifted();
  }

  /** The node `top()` returns: the last limbo entry, else `curtop`, else
      the store front. */
  function TopOf(limbo: seq<Node>, curtop: Option<Node>, store: seq<Node>): Node
    requires limbo != [] || curtop.Some? || store != []
  {
    if limbo != [] then limbo[|limbo| - 1] else if curtop.Some? then curtop.value else store[0]
  }

  function Held(curtop: Option<Node>): multiset<Node>
  {
    if curtop.Some? then multiset{curtop.value} else multiset{}
  }

  /** `pop()` as evidently intended: only the node `top()` returns leaves. */
  function PopOnce(limbo: seq<Node>, curtop: Option<Node>, store: seq<Node>, dt: seq<real>)
    : (r: (seq<Node>, Option<Node>, seq<Node>))
    requires Rankable(store, dt) && (limbo != [] || curtop.Some? || store != [])
    ensures Rankable(r.2, dt)
  {
    if limbo != [] then (limbo[..|limbo| - 1], curtop, store)
    else if curtop.Some? then (limbo, None, store)
    else (limbo, curtop, PopHeap(store, dt))
  }

  /** The intended `pop()` removes exactly one node, the one `top()`
      returns, and keeps every other node. */
  lemma PopOnceRemovesTop(limbo: seq<Node>, curtop: Option<Node>, store: seq<Node>, dt: seq<real>)
    requires Rankable(store, dt) && (limbo != [] || curtop.Some? || store != [])
    ensures var r := PopOnce(limbo, curtop, store, dt);
      multiset(r.0) + Held(r.1) + multiset(r.2) + multiset{TopOf(limbo, curtop, store)} ==
      multiset(limbo) + Held(curtop) + multiset(store)
  {
    if limbo != [] {
      assert limbo == limbo[..|limbo| - 1] + [limbo[|limbo| - 1]];
    }
  }

  /** The intended `pop()` keeps the store a heap on all entries but the
      last. */
  lemma PopOnceKeepsHeap(limbo: seq<Node>, curtop: Option<Node>, store: seq<Node>, dt: seq<real>)
    requires Rankable(store, dt) && (limbo != [] || curtop.Some? || store != [])
    requires |store| > 0 ==> IsHeap(store, |store| - 1, dt)
    ensures var r := PopOnce(limbo, curtop, store, dt);
      |r.2| > 0 ==> IsHeap(r.2, |r.2| - 1, dt)
  {
    if limbo == [] && curtop.None? {
      PopKeepsHeap(store, dt);
    }
  }

  /** Outcome of `pop()`. */
  datatype PopOutcome =
    | Popped
      /** `limbo` is non-empty but there is neither a `curtop` nor a store
          entry, so `pop_heap` and `pop_back` run on an empty vector. */
    | EmptyStorePopped

  class BestThenDiveNodeQueue {
    /** `solver->get_dt()`. */
    const dt: seq<real>
    var curtop: Option<Node>
    var limbo: seq<Node>
    var store: seq<Node>

    ghost predicate Valid()
      reads this
    {
      Rankable(limbo, dt) && Rankable(store, dt) &&
      (curtop.Some? ==> RankableNode(curtop.value, dt)) &&
      (|store| > 0 ==> IsHeap(store, |store| - 1, dt))
    }

    ghost function Size(): nat
      reads this
    {
      |limbo| + |store| + (if curtop.Some? then 1 else 0)
    }

    constructor (dt: seq<real>)
      ensures Valid() && this.dt == dt
      ensures curtop == None && limbo == [] && store == []
    {
      this.dt := dt;
      curtop := None;
      limbo := [];
      store := [];
    }

    /** `size()`. */
    method GetSize() returns (n: nat)
      ensures n == |limbo| + |store| + (if curtop.Some? then 1 else 0)
    {
      n := |limbo| + |store| + if curtop.Some? then 1 else 0;
    }

    /** `top()`: the last limbo entry, else `curtop`, else the heap root,
        which no store entry except possibly the unsifted last one precedes. */
    method Top() returns (n: Node)
      requires Valid() && Size() > 0
      ensures limbo != [] ==> n == limbo[|limbo| - 1]
      ensures limbo == [] && curtop.Some? ==> n == curtop.value
      ensures limbo == [] && curtop.None? ==> n == store[0]
      ensures limbo == [] && curtop.None? ==>
        forall k :: 0 <= k < |store| - 1 ==> !LaterRoot(n, store[k], dt)
    {
      if limbo != [] {
        n := limbo[|limbo| - 1];
      } else if curtop.Some? {
        n := curtop.value;
      } else {
        n := store[0];
        forall k | 0 <= k < |store| - 1 ensures !LaterRoot(n, store[k], dt) {
          HeapRootIsEarliest(store, |store| - 1, k, dt);
        }
      }
    }

    /** The first half of `pop()`: drop the last limbo entry, if any. */
    method DropLimbo()
      requires Valid()
      modifies this`limbo
      ensures Valid()
      ensures limbo == (if old(limbo) != [] then old(limbo)[..|old(limbo)| - 1] else [])
    {
      if limbo != [] {
        DropLast(limbo, dt);
        limbo := limbo[..|limbo| - 1];
      }
    }

    /** The second half of `pop()`: clear `curtop`, or else pop the heap
        root. */
    method DropTop() returns (outcome: PopOutcome)
      requires Valid()
      modifies this`curtop, this`store
      ensures Valid()
      ensures old(curtop).Some? ==> curtop == None && store == old(store) && outcome == Popped
      ensures old(curtop).None? && old(store) != [] ==>
        curtop == None && store == PopHeap(old(store), dt) && outcome == Popped
      ensures old(curtop).None? && old(store) == [] ==>
        curtop == None && store == [] && outcome == EmptyStorePopped
    {
      outcome := Popped;
      if curtop.Some? {
        curtop := None;
      } else if store == [] {
        outcome := EmptyStorePopped;
      } else {
        PopStore();
      }
    }

    /** `std::pop_heap` and `pop_back()` on a non-empty store. */
    method PopStore()
      requires Valid() && store != []
      modifies this`store
      ensures Valid() && store == PopHeap(old(store), dt)
    {
      PopKeepsHeap(store, dt);
      store := PopHeap(store, dt);
    }

    /** `pop()`: drop the last limbo entry if any, and then, independently,
        clear `curtop` or else pop the heap root; with a non-empty limbo one
        call removes two nodes. */
    method Pop() returns (outcome: PopOutcome)
      requires Valid() && Size() > 0
      modifies this
      ensures Valid()
      ensures limbo == (if old(limbo) != [] then old(limbo)[..|old(limbo)| - 1] else [])
      ensures old(curtop).Some? ==> curtop == None && store == old(store) && outcome == Popped
      ensures old(curtop).None? && old(store) != [] ==>
        curtop == None && store == PopHeap(old(store), dt) && outcome == Popped
      ensures old(curtop).None? && old(store) == [] ==>
        curtop == None && store == [] && outcome == EmptyStorePopped
      ensures outcome == Popped ==>
        Size() == old(Size()) - (if old(limbo) != [] then 2 else 1)
    {
      DropLimbo();
      outcome := DropTop();
    }

    /** `push(nodes)`: stash the previous `curtop` in the store, make the
        preferred eligible batch node the new `curtop`, stash the others, and
        sift every store entry from the old size on except the last. */
    method Push(nodes: seq<Node>, eta: real)
      requires Valid() && Rankable(nodes, dt)
      modifies this
      ensures Valid()
      ensures nodes == [] ==> curtop == old(curtop) && limbo == old(limbo) && store == old(store)
      ensures nodes != [] ==>
        var tgt := DiveTarget(nodes, eta);
        curtop == (if tgt.Some? then Some(nodes[tgt.value]) else None) &&
        limbo == old(limbo) + Stash(nodes, tgt, eta).0
      ensures nodes != [] ==>
        var stored := Stored(old(store), old(curtop), nodes, eta);
        Rankable(stored, dt) && store == PushHeapRange(stored, |old(store)|, |stored|, dt)
      ensures Size() == old(Size()) + |nodes|
    {
      if nodes == [] {
        return;
      }
      var initialStoreSize := |store|;
      var s := store + if curtop.Some? then [curtop.value] else [];
      var tgt := FindDiveTarget(nodes, eta);
      var lim, sto := StashNodes(nodes, tgt, eta);
      s := s + sto;
      assert s == Stored(store, curtop, nodes, eta);
      StoredHeap(store, curtop, nodes, eta, dt);
      PushedParts(limbo, store, curtop, nodes, eta, dt);
      s := SiftStore(s, initialStoreSize, dt);
      curtop := if tgt.Some? then Some(nodes[tgt.value]) else None;
      limbo := limbo + lim;
      store := s;
    }
  }
}
