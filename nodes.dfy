// Branch-and-bound nodes of the native engine and their orderings
// (src/combina_bnb_solver/Node.cpp, NodeComparison.cpp and the sort and
// heap comparators of the node queues).

module Nodes {
  import opened Common

  /** One block of the parent chain: `control` was active on the intervals
      that end just before `depth`. */
  datatype Block = Block(control: nat, depth: nat)

  /** An immutable search node.  `ancestors` is the chain of blocks of every
      node above it, root first; the node's own block is (bActive, depth). */
  datatype Node = Node(
    ancestors: seq<Block>,
    bActive: nat,
    sigma: seq<nat>,
    minDownTime: seq<real>,
    depth: nat,
    eta: seq<real>,
    lb: real)

  /** `get_max_sigma`: `*std::max_element` over a non-empty switch-count
      vector; `MaxSigmaIsMaximum` states what it computes. */
  function MaxSigma(sigma: seq<nat>): nat
    requires |sigma| > 0
  {
    if |sigma| == 1 then sigma[0]
    else
      var m := MaxSigma(sigma[..|sigma| - 1]);
      if m < sigma[|sigma| - 1] then sigma[|sigma| - 1] else m
  }

  /** The maximum switch count is an entry of the vector and bounds every
      entry. */
  lemma {:induction false} MaxSigmaIsMaximum(sigma: seq<nat>)
    requires |sigma| > 0
    ensures MaxSigma(sigma) in sigma
    ensures forall j :: 0 <= j < |sigma| ==> sigma[j] <= MaxSigma(sigma)
  {
    if |sigma| > 1 {
      var p := sigma[..|sigma| - 1];
      MaxSigmaIsMaximum(p);
      assert forall j :: 0 <= j < |p| ==> p[j] == sigma[j];
    }
  }

  /** A node whose maximum switch count is defined. */
  predicate HasSigma(n: Node)
  {
    |n.sigma| > 0
  }

  predicate AllHaveSigma(s: seq<Node>)
  {
    forall j :: 0 <= j < |s| ==> HasSigma(s[j])
  }

  /** `operator<(lhs, rhs)` of Node.cpp: deeper first, then lower bound, then
      fewer switches. */
  predicate Less(l: Node, r: Node)
    requires HasSigma(l) && HasSigma(r)
  {
    if l.depth != r.depth then r.depth < l.depth
    else if l.lb != r.lb then l.lb < r.lb
    else MaxSigma(l.sigma) < MaxSigma(r.sigma)
  }

  /** Neither node is `Less` than the other. */
  predicate Equivalent(l: Node, r: Node)
    requires HasSigma(l) && HasSigma(r)
  {
    !Less(l, r) && !Less(r, l)
  }

  /** `operator<` is a strict weak order: irreflexive, transitive, and its
      incomparability classes are the nodes with equal depth, equal lower
      bound and equal maximum switch count. */
  lemma LessStrictWeakOrder(a: Node, b: Node, c: Node)
    requires HasSigma(a) && HasSigma(b) && HasSigma(c)
    ensures !Less(a, a)
    ensures Less(a, b) ==> !Less(b, a)
    ensures Less(a, b) && Less(b, c) ==> Less(a, c)
    ensures Equivalent(a, b) <==>
      (a.depth == b.depth && a.lb == b.lb && MaxSigma(a.sigma) == MaxSigma(b.sigma))
    ensures Equivalent(a, b) && Equivalent(b, c) ==> Equivalent(a, c)
  {
  }

  /** Negative transitivity, the step the sort and selection proofs use. */
  lemma LessNegTrans(a: Node, b: Node, c: Node)
    requires HasSigma(a) && HasSigma(b) && HasSigma(c)
    ensures Less(a, b) ==> Less(a, c) || Less(c, b)
  {
  }

  /** `NodeComparison::operator()(a, b)`: the priority of the solver's
      `std::priority_queue`; `a` ranks below `b`.  It is `b < a`. */
  function NodeComparison(a: Node, b: Node): (r: bool)
    requires HasSigma(a) && HasSigma(b)
    ensures r == Less(b, a)
    ensures a.depth != b.depth ==> (r <==> a.depth < b.depth)
    ensures a.depth == b.depth && a.lb != b.lb ==> (r <==> a.lb > b.lb)
    ensures a.depth == b.depth && a.lb == b.lb ==>
      (r <==> MaxSigma(a.sigma) > MaxSigma(b.sigma))
    ensures a == b ==> !r
  {
    if a.depth != b.depth then a.depth < b.depth
    else if a.lb != b.lb then a.lb > b.lb
    else MaxSigma(a.sigma) > MaxSigma(b.sigma)
  }

  // ---------------------------------------------------------------------
  // Priority-queue selection.  A `std::priority_queue` whose comparator is
  // `comp(x, y) == Less(y, x)` exposes as `top()` an element that no other
  // element is `Less` than.  The model takes the first such element.

  /** An element no other element of `s` precedes. */
  predicate IsMinimal(s: seq<Node>, i: int)
    requires AllHaveSigma(s)
  {
    0 <= i < |s| && forall j :: 0 <= j < |s| ==> !Less(s[j], s[i])
  }

  function TopIndex(s: seq<Node>): (i: nat)
    requires |s| > 0 && AllHaveSigma(s)
    ensures IsMinimal(s, i)
    ensures forall j :: 0 <= j < i ==> Less(s[i], s[j])
  {
    if |s| == 1 then 0
    else
      var p := s[..|s| - 1];
      assert forall j :: 0 <= j < |p| ==> p[j] == s[j];
      var k := TopIndex(p);
      var last := |s| - 1;
      if Less(s[last], s[k]) then
        assert forall j :: 0 <= j < last ==> Less(s[last], s[j]) by {
          forall j | 0 <= j < last ensures Less(s[last], s[j]) {
            LessNegTrans(s[last], s[k], s[j]);
          }
        }
        assert forall j :: 0 <= j < |s| ==> !Less(s[j], s[last]) by {
          forall j | 0 <= j < |s| ensures !Less(s[j], s[last]) {
            LessStrictWeakOrder(s[j], s[last], s[k]);
          }
        }
        last
      else
        k
  }

  /** The queue's top is a deepest node and, among the deepest, one with the
      smallest lower bound: the order is depth-major. */
  lemma TopIsDeepestThenLowest(s: seq<Node>)
    requires |s| > 0 && AllHaveSigma(s)
    ensures forall j :: 0 <= j < |s| ==> s[j].depth <= s[TopIndex(s)].depth
    ensures forall j :: 0 <= j < |s| && s[j].depth == s[TopIndex(s)].depth ==>
      s[TopIndex(s)].lb <= s[j].lb
  {
    var i := TopIndex(s);
    forall j | 0 <= j < |s| ensures s[j].depth <= s[i].depth {
      assert !Less(s[j], s[i]);
    }
  }

  /** `s` without its `i`-th entry. */
  function RemoveAt<T>(s: seq<T>, i: nat): (r: seq<T>)
    requires i < |s|
    ensures |r| == |s| - 1
    ensures multiset(r) + multiset{s[i]} == multiset(s)
  {
    assert s == s[..i] + [s[i]] + s[i + 1..];
    s[..i] + s[i + 1..]
  }

  // ---------------------------------------------------------------------
  // `std::sort` with comparator `*rhs < *lhs` (the depth-first and dynamic
  // backtracking queues): the batch ends up worst first, best last.

  /** No entry is `Less` than a later one. */
  predicate WorstFirst(s: seq<Node>)
    requires AllHaveSigma(s)
  {
    forall i, j :: 0 <= i < j < |s| ==> !Less(s[i], s[j])
  }

  /** Insertion of `x` into a worst-first sequence, in front of the first
      entry that is better than `x`. */
  function Insert(t: seq<Node>, x: Node): (r: seq<Node>)
    requires AllHaveSigma(t) && HasSigma(x)
    ensures multiset(r) == multiset(t) + multiset{x}
    ensures |r| == |t| + 1
    ensures AllHaveSigma(r)
  {
    if |t| == 0 then [x]
    else if Less(t[0], x) then [x] + t
    else
      assert t == [t[0]] + t[1..];
      [t[0]] + Insert(t[1..], x)
  }

  /** `a` is not `Less` than any entry of `s`. */
  predicate NotBefore(a: Node, s: seq<Node>)
    requires HasSigma(a) && AllHaveSigma(s)
  {
    forall j :: 0 <= j < |s| ==> !Less(a, s[j])
  }

  /** A node no later entry precedes can head a worst-first sequence. */
  lemma PrependWorstFirst(x: Node, t: seq<Node>)
    requires HasSigma(x) && AllHaveSigma(t) && WorstFirst(t) && NotBefore(x, t)
    ensures AllHaveSigma([x] + t) && WorstFirst([x] + t)
  {
    var r := [x] + t;
    forall i, j | 0 <= i < j < |r| ensures !Less(r[i], r[j]) {
      assert r[j] == t[j - 1];
      if i > 0 {
        assert r[i] == t[i - 1];
      }
    }
  }

  /** The tail of a worst-first sequence is worst first. */
  lemma TailWorstFirst(t: seq<Node>)
    requires |t| > 0 && AllHaveSigma(t) && WorstFirst(t)
    ensures AllHaveSigma(t[1..]) && WorstFirst(t[1..]) && NotBefore(t[0], t[1..])
  {
    var rest := t[1..];
    forall i, j | 0 <= i < j < |rest| ensures !Less(rest[i], rest[j]) {
      assert rest[i] == t[i + 1] && rest[j] == t[j + 1];
    }
    forall j | 0 <= j < |rest| ensures !Less(t[0], rest[j]) {
      assert rest[j] == t[j + 1];
    }
  }

  /** Inserting a node `a` is not before keeps `a` before none of them. */
  lemma NotBeforeInsert(a: Node, t: seq<Node>, x: Node)
    requires HasSigma(a) && AllHaveSigma(t) && HasSigma(x)
    requires NotBefore(a, t) && !Less(a, x)
    ensures NotBefore(a, Insert(t, x))
  {
    var r := Insert(t, x);
    forall j | 0 <= j < |r| ensures !Less(a, r[j]) {
      var y := r[j];
      assert y in multiset(r);
      if y != x {
        assert y in multiset(t);
        var k :| 0 <= k < |t| && t[k] == y;
      }
    }
  }

  /** A node that a worst-first sequence's head precedes precedes none of it. */
  lemma BeforeHeadNotBefore(x: Node, t: seq<Node>)
    requires |t| > 0 && HasSigma(x) && AllHaveSigma(t) && WorstFirst(t) && Less(t[0], x)
    ensures NotBefore(x, t)
  {
    forall j | 0 <= j < |t| ensures !Less(x, t[j]) {
      LessStrictWeakOrder(t[0], x, t[j]);
    }
  }

  lemma {:induction false} InsertWorstFirst(t: seq<Node>, x: Node)
    requires AllHaveSigma(t) && HasSigma(x) && WorstFirst(t)
    ensures WorstFirst(Insert(t, x))
  {
    if |t| == 0 {
    } else if Less(t[0], x) {
      BeforeHeadNotBefore(x, t);
      PrependWorstFirst(x, t);
    } else {
      var rest := t[1..];
      TailWorstFirst(t);
      InsertWorstFirst(rest, x);
      NotBeforeInsert(t[0], rest, x);
      PrependWorstFirst(t[0], Insert(rest, x));
    }
  }

  /** The model's `std::sort(…, *rhs < *lhs)`: a permutation of the batch
      that is worst first. */
  function SortWorstFirst(s: seq<Node>): (r: seq<Node>)
    requires AllHaveSigma(s)
    ensures multiset(r) == multiset(s)
    ensures |r| == |s|
    ensures AllHaveSigma(r) && WorstFirst(r)
  {
    if |s| == 0 then []
    else
      var p := s[..|s| - 1];
      assert s == p + [s[|s| - 1]];
      assert AllHaveSigma(p) by {
        forall j | 0 <= j < |p| ensures HasSigma(p[j]) { assert p[j] == s[j]; }
      }
      var sp := SortWorstFirst(p);
      InsertWorstFirst(sp, s[|s| - 1]);
      Insert(sp, s[|s| - 1])
  }

  /** The last entry of a worst-first sequence is preceded by no entry. */
  lemma WorstFirstLastIsBest(r: seq<Node>)
    requires |r| > 0 && AllHaveSigma(r) && WorstFirst(r)
    ensures forall i :: 0 <= i < |r| ==> !Less(r[i], r[|r| - 1])
  {
    forall i | 0 <= i < |r| ensures !Less(r[i], r[|r| - 1]) {
      if i == |r| - 1 {
        LessStrictWeakOrder(r[i], r[i], r[i]);
      }
    }
  }

  /** After sorting, the last entry is a `Less`-minimal node of the batch. */
  lemma SortedLastIsBest(s: seq<Node>)
    requires |s| > 0 && AllHaveSigma(s)
    ensures forall y :: y in s ==> !Less(y, SortWorstFirst(s)[|s| - 1])
  {
    var r := SortWorstFirst(s);
    WorstFirstLastIsBest(r);
    forall y | y in s ensures !Less(y, r[|s| - 1]) {
      assert y in multiset(r);
      var i :| 0 <= i < |r| && r[i] == y;
    }
  }
}
