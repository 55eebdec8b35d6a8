// The branch-and-bound search of the native engine
// (src/combina_bnb_solver/CombinaBnBSolver.cpp).

module BnBSolver {
  import opened Common
  import opened Nodes
  import opened ChildNodes
  import opened ChainDeviation

  // ---------------------------------------------------------------------
  // Well-shaped nodes and their chains of blocks

  /** Blocks with controls below `nC`, end depths in `(0, nT]`, strictly
      increasing from the root. */
  predicate ChainOk(blocks: seq<Block>, nC: nat, nT: nat)
  {
    (forall k :: 0 <= k < |blocks| ==> blocks[k].control < nC && 0 < blocks[k].depth <= nT) &&
    (forall j, k :: 0 <= j < k < |blocks| ==> blocks[j].depth < blocks[k].depth)
  }

  /** A node's own chain: its ancestors' blocks, then its own. */
  function FullChain(n: Node): (r: seq<Block>)
    ensures |r| == |n.ancestors| + 1 && r[|r| - 1] == Block(n.bActive, n.depth)
  {
    n.ancestors + [Block(n.bActive, n.depth)]
  }

  /** What every node the solver creates satisfies. */
  predicate NodeShaped(p: Problem, n: Node)
  {
    WellFormed(p) &&
    |n.sigma| == p.nC && |n.eta| == p.nC && |n.minDownTime| == p.nC &&
    WithinBudget(p, n.sigma) && ChainOk(FullChain(n), p.nC, p.nT)
  }

  predicate AllShaped(p: Problem, s: seq<Node>)
  {
    forall k :: 0 <= k < |s| ==> NodeShaped(p, s[k])
  }

  // ---------------------------------------------------------------------
  // Children of a node

  /** What `add_initial_nodes_to_queue` and `add_nodes_to_queue` read from
      the parent (or from the state before the horizon). */
  datatype Parent = Parent(
    chain: seq<Block>, control: nat, eta: seq<real>, sigma: seq<nat>, mdt: seq<real>,
    depth: nat, lb: real, lbInit: real)

  /** The virtual parent of the initial nodes: the control active before
      the horizon, nothing switched, every bound 0. */
  function RootParent(p: Problem): (x: Parent)
    requires WellFormed(p)
    ensures |x.eta| == p.nC && |x.sigma| == p.nC && |x.mdt| == p.nC && x.depth == 0
  {
    Parent([], p.bActivePre, Repeat(0.0, p.nC), Repeat(0, p.nC), p.minDownTimePre, 0, 0.0, 0.0)
  }

  /** A queued node as a parent: the child starts with the node's bound. */
  function NodeParent(n: Node): Parent
  {
    Parent(FullChain(n), n.bActive, n.eta, n.sigma, n.minDownTime, n.depth, n.lb, n.lb)
  }

  /** A parent children can be computed from, whose chain ends at its depth. */
  predicate ParentOk(p: Problem, on: seq<seq<real>>, off: seq<seq<real>>, x: Parent)
  {
    WellFormed(p) && TableShaped(p, on, off) &&
    |x.eta| == p.nC && |x.sigma| == p.nC && |x.mdt| == p.nC && x.depth < p.nT &&
    WithinBudget(p, x.sigma) && ChainOk(x.chain, p.nC, p.nT) &&
    (forall k :: 0 <= k < |x.chain| ==> x.chain[k].depth <= x.depth)
  }

  predicate Allowed(p: Problem, x: Parent, c: nat)
    requires WellFormed(p) && c < p.nC && |x.sigma| == p.nC && |x.mdt| == p.nC
  {
    !ControlActivationForbidden(p, c, x.control, x.sigma, x.mdt)
  }

  /** The child of `x` that activates control `c`. */
  function ChildOf(p: Problem, on: seq<seq<real>>, off: seq<seq<real>>, x: Parent, c: nat): Node
    requires ParentOk(p, on, off, x) && c < p.nC
  {
    var r := IntendedChild(p, on, off, c, x.control, x.eta, x.sigma, x.mdt, x.depth, x.lb, x.lbInit);
    Node(x.chain, c, r.sigma, r.mdt, r.depth, r.eta, r.lb)
  }

  /** A permitted child is well shaped, strictly deeper than its parent and
      bounded below by the parent's bound. */
  lemma ChildOfShaped(p: Problem, on: seq<seq<real>>, off: seq<seq<real>>, x: Parent, c: nat)
    requires ParentOk(p, on, off, x) && c < p.nC && Allowed(p, x, c)
    ensures var n := ChildOf(p, on, off, x, c);
      NodeShaped(p, n) && x.depth < n.depth <= p.nT && n.lb >= x.lb && n.lb >= x.lbInit
  {
    var n := ChildOf(p, on, off, x, c);
    ChildAdvances(p, on, off, c, x.control, x.eta, x.sigma, x.mdt, x.depth, x.lb, x.lbInit);
    AllowedChildWithinBudget(p, on, off, c, x.control, x.eta, x.sigma, x.mdt, x.depth, x.lb, x.lbInit);
    var ch := FullChain(n);
    assert forall k :: 0 <= k < |ch| - 1 ==> ch[k] == x.chain[k];
  }

  /** The permitted children for the controls below `upTo`, in control
      order, before the bound test. */
  function AllChildren(p: Problem, on: seq<seq<real>>, off: seq<seq<real>>, x: Parent, upTo: nat): (r: seq<Node>)
    requires ParentOk(p, on, off, x) && upTo <= p.nC
    ensures |r| <= upTo
  {
    if upTo == 0 then []
    else
      var c := upTo - 1;
      AllChildren(p, on, off, x, c) + (if Allowed(p, x, c) then [ChildOf(p, on, off, x, c)] else [])
  }

  /** Every child is a permitted one. */
  lemma {:induction false} AllChildrenSound(p: Problem, on: seq<seq<real>>, off: seq<seq<real>>, x: Parent, upTo: nat)
    requires ParentOk(p, on, off, x) && upTo <= p.nC
    ensures forall n :: n in AllChildren(p, on, off, x, upTo) ==>
      exists c :: 0 <= c < upTo && Allowed(p, x, c) && n == ChildOf(p, on, off, x, c)
  {
    if upTo > 0 {
      var c := upTo - 1;
      var prefix := AllChildren(p, on, off, x, c);
      AllChildrenSound(p, on, off, x, c);
      forall n | n in AllChildren(p, on, off, x, upTo)
        ensures exists c' :: 0 <= c' < upTo && Allowed(p, x, c') && n == ChildOf(p, on, off, x, c')
      {
        AllChildrenSplit(p, on, off, x, c, n);
        if n in prefix {
          var c' :| 0 <= c' < c && Allowed(p, x, c') && n == ChildOf(p, on, off, x, c');
          assert 0 <= c' < upTo;
        } else {
          assert 0 <= c < upTo && Allowed(p, x, c) && n == ChildOf(p, on, off, x, c);
        }
      }
    }
  }

  /** Every permitted child is a child. */
  lemma {:induction false} AllChildrenComplete(p: Problem, on: seq<seq<real>>, off: seq<seq<real>>, x: Parent, upTo: nat)
    requires ParentOk(p, on, off, x) && upTo <= p.nC
    ensures forall c :: 0 <= c < upTo && Allowed(p, x, c) ==> ChildOf(p, on, off, x, c) in AllChildren(p, on, off, x, upTo)
  {
    if upTo > 0 {
      var c := upTo - 1;
      AllChildrenComplete(p, on, off, x, c);
      forall c' | 0 <= c' < upTo && Allowed(p, x, c')
        ensures ChildOf(p, on, off, x, c') in AllChildren(p, on, off, x, upTo)
      {
        if c' < c {
          AllChildrenGrow(p, on, off, x, c, ChildOf(p, on, off, x, c'));
        } else {
          AllChildrenLast(p, on, off, x, c);
        }
      }
    }
  }

  /** A child below `c + 1` is a child below `c` or the permitted child
      that activates `c`. */
  lemma AllChildrenSplit(p: Problem, on: seq<seq<real>>, off: seq<seq<real>>, x: Parent, c: nat, n: Node)
    requires ParentOk(p, on, off, x) && c < p.nC && n in AllChildren(p, on, off, x, c + 1)
    ensures n in AllChildren(p, on, off, x, c) || (Allowed(p, x, c) && n == ChildOf(p, on, off, x, c))
  {
    var prefix := AllChildren(p, on, off, x, c);
    assert AllChildren(p, on, off, x, c + 1) ==
      prefix + (if Allowed(p, x, c) then [ChildOf(p, on, off, x, c)] else []);
  }

  /** A child below `c` is a child below `c + 1`. */
  lemma AllChildrenGrow(p: Problem, on: seq<seq<real>>, off: seq<seq<real>>, x: Parent, c: nat, n: Node)
    requires ParentOk(p, on, off, x) && c < p.nC && n in AllChildren(p, on, off, x, c)
    ensures n in AllChildren(p, on, off, x, c + 1)
  {
    var prefix := AllChildren(p, on, off, x, c);
    assert AllChildren(p, on, off, x, c + 1) ==
      prefix + (if Allowed(p, x, c) then [ChildOf(p, on, off, x, c)] else []);
  }

  /** The permitted child that activates `c` is a child below `c + 1`. */
  lemma AllChildrenLast(p: Problem, on: seq<seq<real>>, off: seq<seq<real>>, x: Parent, c: nat)
    requires ParentOk(p, on, off, x) && c < p.nC && Allowed(p, x, c)
    ensures ChildOf(p, on, off, x, c) in AllChildren(p, on, off, x, c + 1)
  {
    var n := ChildOf(p, on, off, x, c);
    assert AllChildren(p, on, off, x, c + 1) == AllChildren(p, on, off, x, c) + [n];
  }

  /** The nodes whose bound is below `ub`, in order. */
  function Admitted(s: seq<Node>, ub: real): (r: seq<Node>)
    ensures |r| <= |s|
  {
    if |s| == 0 then []
    else Admitted(s[..|s| - 1], ub) + (if s[|s| - 1].lb < ub then [s[|s| - 1]] else [])
  }

  /** `Admitted` keeps exactly the nodes with a bound below `ub`. */
  lemma {:induction false} AdmittedMembers(s: seq<Node>, ub: real)
    ensures forall n :: n in Admitted(s, ub) <==> n in s && n.lb < ub
  {
    if |s| > 0 {
      var init := s[..|s| - 1];
      AdmittedMembers(init, ub);
      assert s == init + [s[|s| - 1]];
    }
  }

  /** One permitted child is well shaped and deeper than its parent. */
  lemma ChildInAllShaped(p: Problem, on: seq<seq<real>>, off: seq<seq<real>>, x: Parent, n: Node)
    requires ParentOk(p, on, off, x) && n in AllChildren(p, on, off, x, p.nC)
    ensures NodeShaped(p, n) && x.depth < n.depth <= p.nT && n.lb >= x.lb
  {
    AllChildrenSound(p, on, off, x, p.nC);
    var c :| 0 <= c < p.nC && Allowed(p, x, c) && n == ChildOf(p, on, off, x, c);
    ChildOfShaped(p, on, off, x, c);
  }

  /** Every permitted child is well shaped and deeper than its parent. */
  lemma AllChildrenShaped(p: Problem, on: seq<seq<real>>, off: seq<seq<real>>, x: Parent, ub: real)
    requires ParentOk(p, on, off, x)
    ensures forall n :: n in AllChildren(p, on, off, x, p.nC) ==>
      NodeShaped(p, n) && x.depth < n.depth <= p.nT && n.lb >= x.lb
    ensures AllShaped(p, Admitted(AllChildren(p, on, off, x, p.nC), ub))
  {
    var all := AllChildren(p, on, off, x, p.nC);
    AdmittedMembers(all, ub);
    forall n | n in all ensures NodeShaped(p, n) && x.depth < n.depth <= p.nT && n.lb >= x.lb {
      ChildInAllShaped(p, on, off, x, n);
    }
  }

  // ---------------------------------------------------------------------
  // Termination: every node weighs (nC + 1)^(nT - depth); expanding a
  // node replaces it by at most nC strictly deeper ones.

  function Weight(p: Problem, n: Node): nat
  {
    if n.depth <= p.nT then Pow(p.nC + 1, p.nT - n.depth) else 0
  }

  function Potential(p: Problem, s: seq<Node>): nat
  {
    if |s| == 0 then 0 else Potential(p, s[..|s| - 1]) + Weight(p, s[|s| - 1])
  }

  lemma {:induction false} PotentialConcat(p: Problem, s: seq<Node>, t: seq<Node>)
    ensures Potential(p, s + t) == Potential(p, s) + Potential(p, t)
    decreases |t|
  {
    if |t| > 0 {
      assert (s + t)[..|s + t| - 1] == s + t[..|t| - 1];
      assert (s + t)[|s + t| - 1] == t[|t| - 1];
      PotentialConcat(p, s, t[..|t| - 1]);
    } else {
      assert s + t == s;
    }
  }

  lemma RemoveAtPotential(p: Problem, s: seq<Node>, i: nat)
    requires i < |s|
    ensures Potential(p, RemoveAt(s, i)) + Weight(p, s[i]) == Potential(p, s)
  {
    assert s == s[..i] + [s[i]] + s[i + 1..];
    PotentialConcat(p, s[..i] + [s[i]], s[i + 1..]);
    PotentialConcat(p, s[..i], [s[i]]);
    PotentialConcat(p, s[..i], s[i + 1..]);
    assert Potential(p, [s[i]]) == Weight(p, s[i]) by {
      assert [s[i]][..0] == [];
    }
  }

  /** Nodes no shallower than `d + 1` and at most `nT` deep, at most
      `m` of them, weigh at most `m` times the weight of depth `d + 1`. */
  lemma {:induction false} PotentialBound(p: Problem, s: seq<Node>, d: nat)
    requires d < p.nT
    requires forall k :: 0 <= k < |s| ==> d < s[k].depth <= p.nT
    ensures Potential(p, s) <= |s| * Pow(p.nC + 1, p.nT - d - 1)
    decreases |s|
  {
    if |s| > 0 {
      var init := s[..|s| - 1];
      var m := Pow(p.nC + 1, p.nT - d - 1);
      assert forall k :: 0 <= k < |init| ==> init[k] == s[k];
      PotentialBound(p, init, d);
      PowMonotone(p.nC + 1, p.nT - s[|s| - 1].depth, p.nT - d - 1);
      assert Weight(p, s[|s| - 1]) <= m;
      MulSucc(|init|, m);
    }
  }

  /** Expanding a node lowers the potential of the queue. */
  lemma ExpansionLowersPotential(p: Problem, on: seq<seq<real>>, off: seq<seq<real>>, n: Node, ub: real)
    requires ParentOk(p, on, off, NodeParent(n))
    ensures Potential(p, Admitted(AllChildren(p, on, off, NodeParent(n), p.nC), ub)) < Weight(p, n)
  {
    var x := NodeParent(n);
    var a := Admitted(AllChildren(p, on, off, x, p.nC), ub);
    AllChildrenShaped(p, on, off, x, ub);
    AdmittedMembers(AllChildren(p, on, off, x, p.nC), ub);
    assert forall k :: 0 <= k < |a| ==> n.depth < a[k].depth <= p.nT by {
      forall k | 0 <= k < |a| ensures n.depth < a[k].depth <= p.nT {
        assert a[k] in a;
      }
    }
    DeeperBatchLighter(p, a, n);
  }

  /** At most `nC` nodes, all strictly deeper than `n`, weigh less than `n`. */
  lemma DeeperBatchLighter(p: Problem, a: seq<Node>, n: Node)
    requires n.depth < p.nT && |a| <= p.nC
    requires forall k :: 0 <= k < |a| ==> n.depth < a[k].depth <= p.nT
    ensures Potential(p, a) < Weight(p, n)
  {
    PotentialBound(p, a, n.depth);
    var w := Pow(p.nC + 1, p.nT - n.depth - 1);
    PowSucc(p.nC + 1, p.nT - n.depth - 1);
    assert Weight(p, n) == (p.nC + 1) * w;
    FewerThanNext(Potential(p, a), |a|, p.nC, w);
  }

  // ---------------------------------------------------------------------
  // The search tree.  `Below(x, y, k)`: `y` is reached from `x` by `k`
  // expansions, ignoring the bound test.  Its leaves are the nodes at
  // depth `nT`, the candidate solutions.

  function Roots(p: Problem, on: seq<seq<real>>, off: seq<seq<real>>): seq<Node>
    requires WellFormed(p) && TableShaped(p, on, off)
  {
    RootParentOk(p, on, off);
    AllChildren(p, on, off, RootParent(p), p.nC)
  }

  lemma RootParentOk(p: Problem, on: seq<seq<real>>, off: seq<seq<real>>)
    requires WellFormed(p) && TableShaped(p, on, off)
    ensures ParentOk(p, on, off, RootParent(p))
  {
  }

  /** A well-shaped node that is not a leaf can be expanded. */
  lemma ShapedIsParent(p: Problem, on: seq<seq<real>>, off: seq<seq<real>>, n: Node)
    requires WellFormed(p) && TableShaped(p, on, off) && NodeShaped(p, n) && n.depth < p.nT
    ensures ParentOk(p, on, off, NodeParent(n))
  {
    var ch := FullChain(n);
    forall k | 0 <= k < |ch| ensures ch[k].depth <= n.depth {
      if k < |ch| - 1 {
        assert ch[k].depth < ch[|ch| - 1].depth;
      }
    }
  }

  ghost predicate Below(p: Problem, on: seq<seq<real>>, off: seq<seq<real>>, x: Node, y: Node, k: nat)
    decreases k
  {
    if k == 0 then x == y
    else
      ParentOk(p, on, off, NodeParent(x)) &&
      exists c :: c in AllChildren(p, on, off, NodeParent(x), p.nC) && Below(p, on, off, c, y, k - 1)
  }

  /** Bounds never decrease down the tree. */
  lemma {:induction false} BelowBoundMonotone(p: Problem, on: seq<seq<real>>, off: seq<seq<real>>, x: Node, y: Node, k: nat)
    requires Below(p, on, off, x, y, k)
    ensures y.lb >= x.lb
    decreases k
  {
    if k > 0 {
      var c :| c in AllChildren(p, on, off, NodeParent(x), p.nC) && Below(p, on, off, c, y, k - 1);
      ChildInAllShaped(p, on, off, NodeParent(x), c);
      BelowBoundMonotone(p, on, off, c, y, k - 1);
    }
  }

  /** One more expansion at the bottom of a path is still a path. */
  lemma {:induction false} BelowExtend(p: Problem, on: seq<seq<real>>, off: seq<seq<real>>, x: Node, y: Node, k: nat, c: Node)
    requires Below(p, on, off, x, y, k)
    requires ParentOk(p, on, off, NodeParent(y)) && c in AllChildren(p, on, off, NodeParent(y), p.nC)
    ensures Below(p, on, off, x, c, k + 1)
    decreases k
  {
    if k == 0 {
      assert Below(p, on, off, c, c, 0);
    } else {
      var m :| m in AllChildren(p, on, off, NodeParent(x), p.nC) && Below(p, on, off, m, y, k - 1);
      BelowExtend(p, on, off, m, y, k - 1, c);
    }
  }

  predicate Leaf(p: Problem, n: Node)
  {
    n.depth == p.nT
  }

  /** A node of the search tree. */
  ghost predicate Reachable(p: Problem, on: seq<seq<real>>, off: seq<seq<real>>, n: Node)
    requires WellFormed(p) && TableShaped(p, on, off)
  {
    exists r: Node, k: nat :: r in Roots(p, on, off) && Below(p, on, off, r, n, k)
  }

  /** Some queued node still leads to `y`. */
  ghost predicate Pending(p: Problem, on: seq<seq<real>>, off: seq<seq<real>>, q: seq<Node>, y: Node)
  {
    exists n: Node, k: nat :: n in q && Below(p, on, off, n, y, k)
  }

  /** The search has lost no leaf that could beat `ub`: each one is either
      no better than `ub` or still below a queued node. */
  ghost predicate Complete(p: Problem, on: seq<seq<real>>, off: seq<seq<real>>, q: seq<Node>, ub: real)
    requires WellFormed(p) && TableShaped(p, on, off)
  {
    forall y :: Reachable(p, on, off, y) && Leaf(p, y) ==> y.lb >= ub || Pending(p, on, off, q, y)
  }

  /** Queuing the admitted roots makes a search complete. */
  lemma RootsComplete(p: Problem, on: seq<seq<real>>, off: seq<seq<real>>, q: seq<Node>, ub: real)
    requires WellFormed(p) && TableShaped(p, on, off)
    ensures Complete(p, on, off, q + Admitted(Roots(p, on, off), ub), ub)
  {
    var q' := q + Admitted(Roots(p, on, off), ub);
    AdmittedMembers(Roots(p, on, off), ub);
    forall y | Reachable(p, on, off, y) && Leaf(p, y) && y.lb < ub
      ensures Pending(p, on, off, q', y)
    {
      var r: Node, k: nat :| r in Roots(p, on, off) && Below(p, on, off, r, y, k);
      BelowBoundMonotone(p, on, off, r, y, k);
      assert r in q';
    }
  }

  /** Dropping a queued node whose bound is no better than `ub` keeps the
      search complete. */
  lemma DiscardComplete(p: Problem, on: seq<seq<real>>, off: seq<seq<real>>, q: seq<Node>, t: nat, ub: real)
    requires WellFormed(p) && TableShaped(p, on, off) && t < |q|
    requires Complete(p, on, off, q, ub) && q[t].lb >= ub
    ensures Complete(p, on, off, RemoveAt(q, t), ub)
  {
    var q' := RemoveAt(q, t);
    forall y | Reachable(p, on, off, y) && Leaf(p, y) && y.lb < ub
      ensures Pending(p, on, off, q', y)
    {
      var n: Node, k: nat :| n in q && Below(p, on, off, n, y, k);
      BelowBoundMonotone(p, on, off, n, y, k);
      InRemoveAt(q, t, n);
    }
  }

  /** Taking a leaf as the new incumbent keeps the search complete. */
  lemma LeafComplete(p: Problem, on: seq<seq<real>>, off: seq<seq<real>>, q: seq<Node>, t: nat, ub: real)
    requires WellFormed(p) && TableShaped(p, on, off) && t < |q|
    requires Complete(p, on, off, q, ub) && Leaf(p, q[t]) && q[t].lb < ub
    ensures Complete(p, on, off, RemoveAt(q, t), q[t].lb)
  {
    var q' := RemoveAt(q, t);
    forall y | Reachable(p, on, off, y) && Leaf(p, y) && y.lb < q[t].lb
      ensures Pending(p, on, off, q', y)
    {
      var n: Node, k: nat :| n in q && Below(p, on, off, n, y, k);
      InRemoveAt(q, t, n);
    }
  }

  /** Replacing a node by its admitted children keeps the search complete. */
  lemma ExpandComplete(p: Problem, on: seq<seq<real>>, off: seq<seq<real>>, q: seq<Node>, t: nat, ub: real)
    requires WellFormed(p) && TableShaped(p, on, off) && t < |q|
    requires Complete(p, on, off, q, ub) && ParentOk(p, on, off, NodeParent(q[t]))
    ensures Complete(p, on, off, RemoveAt(q, t) + Admitted(AllChildren(p, on, off, NodeParent(q[t]), p.nC), ub), ub)
  {
    var kids := AllChildren(p, on, off, NodeParent(q[t]), p.nC);
    var q' := RemoveAt(q, t) + Admitted(kids, ub);
    AdmittedMembers(kids, ub);
    forall y | Reachable(p, on, off, y) && Leaf(p, y) && y.lb < ub
      ensures Pending(p, on, off, q', y)
    {
      var n: Node, k: nat :| n in q && Below(p, on, off, n, y, k);
      if n == q[t] {
        StrictlyBelow(p, on, off, n, y, k);
        var c :| c in kids && Below(p, on, off, c, y, k - 1);
        BelowBoundMonotone(p, on, off, c, y, k - 1);
        assert c in q';
      } else {
        InRemoveAt(q, t, n);
      }
    }
  }

  /** A leaf below a node that is not a leaf is at least one expansion away. */
  lemma StrictlyBelow(p: Problem, on: seq<seq<real>>, off: seq<seq<real>>, x: Node, y: Node, k: nat)
    requires Below(p, on, off, x, y, k) && Leaf(p, y) && x.depth < p.nT
    ensures k > 0
  {
  }

  lemma InRemoveAt(q: seq<Node>, t: nat, n: Node)
    requires t < |q| && n in q && n != q[t]
    ensures n in RemoveAt(q, t)
  {
    var j :| 0 <= j < |q| && q[j] == n;
    if j < t {
      assert RemoveAt(q, t)[j] == n;
    } else {
      assert RemoveAt(q, t)[j - 1] == n;
    }
  }

  // ---------------------------------------------------------------------
  // Reconstructing the control sequence from a chain of blocks

  /** First interval of block `k`: where the previous block ended. */
  function BlockStart(chain: seq<Block>, k: nat): nat
    requires k < |chain|
  {
    if k == 0 then 0 else chain[k - 1].depth
  }

  /** Some control is active on interval `i`. */
  ghost predicate Covered(chain: seq<Block>, nC: nat, i: nat)
  {
    exists c: nat :: c < nC && ActiveFrom(chain, 0, c, i)
  }

  /** Control `c` is active on interval `i` according to blocks `from..`. */
  ghost predicate ActiveFrom(chain: seq<Block>, from: nat, c: nat, i: nat)
  {
    exists k :: from <= k < |chain| && chain[k].control == c && BlockStart(chain, k) <= i < chain[k].depth
  }

  /** A chain that ends at the horizon puts exactly one control on every
      interval. */
  lemma OneControlPerInterval(chain: seq<Block>, nC: nat, nT: nat)
    requires ChainOk(chain, nC, nT) && |chain| > 0 && chain[|chain| - 1].depth == nT
    ensures forall i: nat :: i < nT ==> Covered(chain, nC, i)
    ensures forall c1: nat, c2: nat, i: nat :: ActiveFrom(chain, 0, c1, i) && ActiveFrom(chain, 0, c2, i) ==> c1 == c2
  {
    forall i: nat | i < nT ensures Covered(chain, nC, i) {
      var k := CoveringBlock(chain, nC, nT, i, 0);
      assert ActiveFrom(chain, 0, chain[k].control, i);
    }
    forall c1: nat, c2: nat, i: nat | ActiveFrom(chain, 0, c1, i) && ActiveFrom(chain, 0, c2, i) ensures c1 == c2 {
      var k1 :| 0 <= k1 < |chain| && chain[k1].control == c1 && BlockStart(chain, k1) <= i < chain[k1].depth;
      var k2 :| 0 <= k2 < |chain| && chain[k2].control == c2 && BlockStart(chain, k2) <= i < chain[k2].depth;
    }
  }

  /** The block covering interval `i`, searched from block `k` on. */
  lemma {:induction false} CoveringBlock(chain: seq<Block>, nC: nat, nT: nat, i: nat, k: nat) returns (j: nat)
    requires ChainOk(chain, nC, nT) && k < |chain| && chain[|chain| - 1].depth == nT
    requires BlockStart(chain, k) <= i < nT
    ensures k <= j < |chain| && BlockStart(chain, j) <= i < chain[j].depth
    decreases |chain| - k
  {
    if i < chain[k].depth {
      j := k;
    } else {
      j := CoveringBlock(chain, nC, nT, i, k + 1);
    }
  }

  /** `b_bin[c][lo..hi] = 1`, written from the top index down. */
  method MarkBlock(b: seq<seq<nat>>, c: nat, lo: nat, hi: nat) returns (b': seq<seq<nat>>)
    requires c < |b| && lo <= hi <= |b[c]|
    ensures |b'| == |b| && forall r :: 0 <= r < |b| ==> |b'[r]| == |b[r]|
    ensures forall r, i :: 0 <= r < |b| && 0 <= i < |b[r]| ==>
      b'[r][i] == if r == c && lo <= i < hi then 1 else b[r][i]
  {
    b' := b;
    var i: int := hi as int - 1;
    while i >= lo as int
      invariant lo as int - 1 <= i < hi && |b'| == |b|
      invariant forall r :: 0 <= r < |b| ==> |b'[r]| == |b[r]|
      invariant forall r, j :: 0 <= r < |b| && 0 <= j < |b[r]| ==>
        b'[r][j] == if r == c && i < j < hi then 1 else b[r][j]
    {
      b' := b'[c := b'[c][i := 1]];
      i := i - 1;
    }
  }

  // ---------------------------------------------------------------------
  // The solver object

  /** How `run_bnb` ends, by its closing message: the iteration limit
      is reported first, then the CPU time, then a user interrupt. */
  datatype ExitStatus = IterationLimit | CpuTimeLimit | Interrupted | Optimal

  function ExitStatusOf(nIter: int, maxIter: int, runtime: real, maxCpuTime: real, interrupted: bool): (r: ExitStatus)
    ensures r == IterationLimit <==> nIter >= maxIter
    ensures r == CpuTimeLimit <==> nIter < maxIter && runtime >= maxCpuTime
    ensures r == Interrupted <==> nIter < maxIter && runtime < maxCpuTime && interrupted
    ensures r == Optimal <==> nIter < maxIter && runtime < maxCpuTime && !interrupted
  {
    if nIter >= maxIter then IterationLimit
    else if runtime >= maxCpuTime then CpuTimeLimit
    else if interrupted then Interrupted
    else Optimal
  }

  /** What the solver prints: the table header (every tenth row), one row
      per incumbent update (`U`) or per million iterations, and the
      closing summary. */
  datatype Line =
    | Header
    | Progress(solutionUpdate: bool, nIter: int, ub: real, branches: nat, runtime: real)
    | Summary(ub: real, nIter: int, runtime: real, status: ExitStatus)

  /** `(long)` of a double: truncation toward zero. */
  function TruncateToLong(x: real): (r: int)
    ensures x >= 0.0 ==> r >= 0 && r as real <= x < r as real + 1.0
    ensures x < 0.0 ==> r <= 0 && r as real - 1.0 < x <= r as real
  {
    if x >= 0.0 then x.Floor else -((-x).Floor)
  }

  /** `bnb_opts[key]`: `std::map::operator[]` yields 0 for a missing key. */
  function OptionValue(opts: map<string, real>, key: string): real
  {
    if key in opts then opts[key] else 0.0
  }

  class CombinaBnBSolver {
    const prob: Problem
    const sumOn: seq<seq<real>>
    const sumOff: seq<seq<real>>
    var ub: real
    var best: Option<Node>
    var bBin: seq<seq<nat>>
    var nIter: int
    var nPrint: int
    var maxIter: int
    var maxCpuTime: real
    var terminate: bool
    var userInterrupt: bool
    var queue: seq<Node>
    var log: seq<Line>

    /** The problem data and its tail tables, fixed at construction. */
    ghost predicate Ready()
    {
      WellFormed(prob) && TailTables(prob, sumOn, sumOff)
    }

    ghost predicate Valid()
      reads this
    {
      Ready() && AllShaped(prob, queue) &&
      (best.Some? ==> NodeShaped(prob, best.value) && Leaf(prob, best.value) && best.value.lb == ub) &&
      |bBin| == prob.nC && (forall c :: 0 <= c < prob.nC ==> |bBin[c]| == prob.nT) &&
      nIter >= 0 && nPrint >= 0
    }

    /** Every queued node and the incumbent belong to the search tree. */
    ghost predicate InTree()
      reads this
      requires Valid()
    {
      AllReachable(prob, sumOn, sumOff, queue) && IncumbentInTree(prob, sumOn, sumOff, best)
    }

    /** The constructor with `prepare_bnb`. */
    constructor(p: Problem)
      requires WellFormed(p)
      ensures Valid() && InTree() && prob == p
      ensures ub == SumRange(p.dt, 0, p.nT) && best.None? && queue == []
      ensures bBin == Repeat(Repeat<nat>(0, p.nT), p.nC)
      ensures nIter == 0 && nPrint == 0 && !terminate && !userInterrupt && log == []
    {
      prob := p;
      var u := ComputeInitialUpperBound(p);
      var on, off := PrecomputeSumOfEtas(p);
      sumOn, sumOff := on, off;
      ub := u;
      best := None;
      bBin := Repeat(Repeat<nat>(0, p.nT), p.nC);
      nIter, nPrint := 0, 0;
      maxIter, maxCpuTime := 0, 0.0;
      terminate, userInterrupt := false, false;
      queue, log := [], [];
    }

    /** `set_solver_settings`. */
    method SetSolverSettings(opts: map<string, real>)
      modifies this`maxIter, this`maxCpuTime
      ensures maxIter == TruncateToLong(OptionValue(opts, "max_iter"))
      ensures maxCpuTime == OptionValue(opts, "max_cpu_time")
    {
      maxIter := TruncateToLong(OptionValue(opts, "max_iter"));
      maxCpuTime := OptionValue(opts, "max_cpu_time");
    }

    /** `add_child_node_to_queue`: throws when a switch count exceeds its
        budget, else queues the child iff its bound is below `ub_bnb`. */
    method AddChildNodeToQueue(chain: seq<Block>, c: nat, child: ChildState) returns (r: Result<bool, SolverError>)
      requires WellFormed(prob) && |child.sigma| == prob.nC
      modifies this`queue
      ensures r.Err? <==> !WithinBudget(prob, child.sigma)
      ensures r.Err? ==> r.error == SwitchLimitExceeded
      ensures r.Ok? ==> (r.value <==> child.lb < ub)
      ensures queue == old(queue) +
        (if r == Ok(true) then [Node(chain, c, child.sigma, child.mdt, child.depth, child.eta, child.lb)] else [])
    {
      var i := 0;
      while i < prob.nC
        invariant 0 <= i <= prob.nC
        invariant forall j :: 0 <= j < i ==> child.sigma[j] <= prob.nMaxSwitches[j]
      {
        if child.sigma[i] > prob.nMaxSwitches[i] {
          return Err(SwitchLimitExceeded);
        }
        i := i + 1;
      }
      if child.lb < ub {
        queue := queue + [Node(chain, c, child.sigma, child.mdt, child.depth, child.eta, child.lb)];
        return Ok(true);
      }
      return Ok(false);
    }

    /** One round of the loop shared by `add_initial_nodes_to_queue` and
        `add_nodes_to_queue`: compute the child that activates `c`, unless
        that is forbidden, and offer it to the queue; `outs[c]` is what
        this round computes.  The switch-limit exception can never fire. */
    method OfferChild(x: Parent, c: nat, ghost outs: seq<Outcome>) returns (err: Option<SolverError>)
      requires Ready() && AllShaped(prob, queue) && ParentOk(prob, sumOn, sumOff, x) && c < prob.nC
      requires Outcomes(prob, sumOn, sumOff, x, outs)
      modifies this`queue
      ensures AllShaped(prob, queue)
      ensures err.None? <==> outs[c].Ok?
      ensures err.None? ==> queue == old(queue) + Admitted(outs[c].value, ub)
      ensures err.Some? ==> outs[c] == Err(err.value) && queue == old(queue)
    {
      assert outs[c] == Offer(prob, sumOn, sumOff, x, c);
      if ControlActivationForbidden(prob, c, x.control, x.sigma, x.mdt) {
        return None;
      }
      var r := ComputeChildNodeProperties(prob, sumOn, sumOff, c, x.control, x.eta, x.sigma, x.mdt, x.depth, x.lb, x.lbInit);
      if r.Err? {
        return Some(r.error);
      }
      ChildNodePropertiesInRange(prob, sumOn, sumOff, c, x.control, x.eta, x.sigma, x.mdt, x.depth, x.lb, x.lbInit);
      AllowedChildWithinBudget(prob, sumOn, sumOff, c, x.control, x.eta, x.sigma, x.mdt, x.depth, x.lb, x.lbInit);
      ChildOfShaped(prob, sumOn, sumOff, x, c);
      var added := AddChildNodeToQueue(x.chain, c, r.value);
      assert added.Ok?;
      return None;
    }

    /** The loop shared by `add_initial_nodes_to_queue` and
        `add_nodes_to_queue`: every control is offered in order; the first
        out-of-range tail read ends it. */
    method AddChildren(x: Parent, ghost outs: seq<Outcome>) returns (err: Option<SolverError>)
      requires Ready() && AllShaped(prob, queue) && ParentOk(prob, sumOn, sumOff, x)
      requires Outcomes(prob, sumOn, sumOff, x, outs)
      modifies this`queue
      ensures AllShaped(prob, queue)
      ensures err.None? <==> Collect(outs).Ok?
      ensures err.None? ==> queue == old(queue) + Admitted(Collect(outs).value, ub)
      ensures err.Some? ==> Collect(outs) == Err(err.value)
    {
      var c := 0;
      while c < prob.nC
        invariant 0 <= c <= prob.nC && AllShaped(prob, queue)
        invariant Collect(outs[..c]).Ok?
        invariant queue == old(queue) + Admitted(Collect(outs[..c]).value, ub)
      {
        ghost var done := Collect(outs[..c]).value;
        CollectNext(outs, c);
        err := OfferChild(x, c, outs);
        if err.Some? {
          CollectKeepsError(outs, c + 1);
          return;
        }
        AdmittedConcat(done, outs[c].value, ub);
        assert queue == old(queue) + (Admitted(done, ub) + Admitted(outs[c].value, ub));
        c := c + 1;
      }
      assert outs[..c] == outs;
      err := None;
    }

    /** `add_initial_nodes_to_queue`: the roots are the children of the
        state before the horizon starts. */
    method AddInitialNodesToQueue() returns (err: Option<SolverError>)
      requires Valid()
      modifies this`queue
      ensures Valid() && ParentOk(prob, sumOn, sumOff, RootParent(prob))
      ensures err.None? <==> NoOverreadBelow(prob, sumOn, sumOff, RootParent(prob), prob.nC)
      ensures err.None? ==> queue == old(queue) + Admitted(Roots(prob, sumOn, sumOff), ub)
      ensures err.Some? ==> err.value == SumEtaOutOfRange
    {
      RootParentOk(prob, sumOn, sumOff);
      ghost var outs := OutcomesOf(prob, sumOn, sumOff, RootParent(prob));
      err := AddChildren(RootParent(prob), outs);
      CollectAgree(prob, sumOn, sumOff, RootParent(prob), outs, prob.nC);
      assert outs[..prob.nC] == outs;
    }

    /** `add_nodes_to_queue`. */
    method AddNodesToQueue(n: Node) returns (err: Option<SolverError>)
      requires Valid() && NodeShaped(prob, n) && n.depth < prob.nT
      modifies this`queue
      ensures Valid() && ParentOk(prob, sumOn, sumOff, NodeParent(n))
      ensures err.None? <==> NoOverreadBelow(prob, sumOn, sumOff, NodeParent(n), prob.nC)
      ensures err.None? ==> queue == old(queue) + Admitted(AllChildren(prob, sumOn, sumOff, NodeParent(n), prob.nC), ub)
      ensures err.Some? ==> err.value == SumEtaOutOfRange
    {
      ShapedIsParent(prob, sumOn, sumOff, n);
      ghost var outs := OutcomesOf(prob, sumOn, sumOff, NodeParent(n));
      err := AddChildren(NodeParent(n), outs);
      CollectAgree(prob, sumOn, sumOff, NodeParent(n), outs, prob.nC);
      assert outs[..prob.nC] == outs;
    }

    /** `set_new_best_node`. */
    method SetNewBestNode(n: Node)
      modifies this`best, this`ub
      ensures best == Some(n) && ub == n.lb
    {
      best := Some(n);
      ub := n.lb;
    }

    /** `display_solution_update`. */
    method DisplaySolutionUpdate(solutionUpdate: bool, runtime: real)
      modifies this`nPrint, this`log
      ensures nPrint == old(nPrint) + 1
      ensures log == old(log) + (if old(nPrint) % 10 == 0 then [Header] else []) +
        [Progress(solutionUpdate, nIter, ub, |queue|, runtime)]
    {
      if nPrint % 10 == 0 {
        log := log + [Header];
      }
      nPrint := nPrint + 1;
      log := log + [Progress(solutionUpdate, nIter, ub, |queue|, runtime)];
    }

    /** `check_it_termination_criterion_reached`: once set, `terminate`
        stays set. */
    method CheckTermination(elapsed: real)
      modifies this`terminate
      ensures terminate == (old(terminate) || nIter >= maxIter || elapsed >= maxCpuTime || userInterrupt)
    {
      if !terminate {
        terminate := nIter >= maxIter || elapsed >= maxCpuTime || userInterrupt;
      }
    }

    /** The start of a pass of the `run_bnb` loop: check termination and
        count the iteration unless the search is stopped. */
    method CountIteration(elapsed: real)
      modifies this`terminate, this`nIter
      ensures terminate == (old(terminate) || old(nIter) >= maxIter || elapsed >= maxCpuTime || userInterrupt)
      ensures nIter == if terminate then old(nIter) else old(nIter) + 1
    {
      CheckTermination(elapsed);
      if !terminate {
        nIter := nIter + 1;
      }
    }

    /** The rest of a pass: pop the top node (the `t`-th of the queue) and
        process it; every millionth iteration prints a progress row. */
    method PopAndProcess(elapsed: real) returns (err: Option<SolverError>, ghost t: nat)
      requires Valid() && |queue| > 0
      modifies this`queue, this`best, this`ub, this`nPrint, this`log
      ensures Valid() && AllHaveSigma(old(queue)) && IsMinimal(old(queue), t)
      ensures best == if Improves(prob, old(queue)[t], old(ub), terminate) then Some(old(queue)[t]) else old(best)
      ensures ub == if Improves(prob, old(queue)[t], old(ub), terminate) then old(queue)[t].lb else old(ub)
      ensures err.Some? ==> err.value == SumEtaOutOfRange && Expands(prob, old(queue)[t], old(ub), terminate)
      ensures err.None? && !Expands(prob, old(queue)[t], old(ub), terminate) ==> queue == RemoveAt(old(queue), t)
      ensures err.None? && Expands(prob, old(queue)[t], old(ub), terminate) ==>
        ParentOk(prob, sumOn, sumOff, NodeParent(old(queue)[t])) &&
        queue == RemoveAt(old(queue), t) +
          Admitted(AllChildren(prob, sumOn, sumOff, NodeParent(old(queue)[t]), prob.nC), old(ub))
    {
      var active;
      active, t := PopTop();
      err := ProcessNode(active, elapsed);
      if err.None? && !terminate && nIter % 1000000 == 0 {
        DisplaySolutionUpdate(false, elapsed);
      }
    }

    /** One pass of the `run_bnb` loop, `elapsed` seconds after its start:
        check termination, count the iteration, pop the top node (the
        `t`-th of the queue) and process it. */
    method Iterate(elapsed: real) returns (err: Option<SolverError>, ghost t: nat)
      requires Valid() && |queue| > 0
      modifies this`terminate, this`nIter, this`queue, this`best, this`ub, this`nPrint, this`log
      ensures Valid() && AllHaveSigma(old(queue)) && IsMinimal(old(queue), t)
      ensures terminate == (old(terminate) || old(nIter) >= maxIter || elapsed >= maxCpuTime || userInterrupt)
      ensures nIter == if terminate then old(nIter) else old(nIter) + 1
      ensures best == if Improves(prob, old(queue)[t], old(ub), terminate) then Some(old(queue)[t]) else old(best)
      ensures ub == if Improves(prob, old(queue)[t], old(ub), terminate) then old(queue)[t].lb else old(ub)
      ensures err.Some? ==> err.value == SumEtaOutOfRange && Expands(prob, old(queue)[t], old(ub), terminate)
      ensures err.None? && !Expands(prob, old(queue)[t], old(ub), terminate) ==> queue == RemoveAt(old(queue), t)
      ensures err.None? && Expands(prob, old(queue)[t], old(ub), terminate) ==>
        ParentOk(prob, sumOn, sumOff, NodeParent(old(queue)[t])) &&
        queue == RemoveAt(old(queue), t) +
          Admitted(AllChildren(prob, sumOn, sumOff, NodeParent(old(queue)[t]), prob.nC), old(ub))
    {
      CountIteration(elapsed);
      err, t := PopAndProcess(elapsed);
    }

    /** A pass of the `run_bnb` loop together with what the loop keeps:
        the incumbent only improves, the iteration count stays within
        `max_iter`, a stopped search stays stopped and changes nothing but
        the queue, and a pass without error shrinks the potential of the
        queue and keeps the search complete. */
    method SearchStep(elapsed: real) returns (err: Option<SolverError>)
      requires Valid() && InTree() && |queue| > 0
      modifies this`terminate, this`nIter, this`queue, this`best, this`ub, this`nPrint, this`log
      ensures Valid()
      ensures err.Some? ==> err.value == SumEtaOutOfRange
      ensures ub <= old(ub) && (best.None? ==> ub == old(ub) && old(best).None?)
      ensures old(nIter) <= nIter && (nIter == old(nIter) || nIter <= maxIter)
      ensures old(terminate) ==> terminate && best == old(best) && ub == old(ub) && nIter == old(nIter)
      ensures err.None? ==> InTree() && Potential(prob, queue) < Potential(prob, old(queue))
      ensures err.None? && !terminate && Complete(prob, sumOn, sumOff, old(queue), old(ub)) ==>
        Complete(prob, sumOn, sumOff, queue, ub)
    {
      ghost var q0, ub0, best0 := queue, ub, best;
      ghost var t;
      err, t := Iterate(elapsed);
      if err.None? {
        StepFacts(prob, sumOn, sumOff, q0, t, ub0, best0, terminate, queue, ub, best);
      }
    }

    /** `run_bnb`: pass after pass until the queue is empty, then the
        summary.  `elapsed(k)` is the time the `k`-th termination check
        reads, `runtime` the total run time the summary reports.  Once
        stopped, every pass only drops the top node; a run that was not
        stopped leaves no leaf of the search tree better than `ub_bnb`. */
    method RunBnB(elapsed: nat -> real, runtime: real) returns (r: Result<ExitStatus, SolverError>)
      requires Valid() && InTree()
      modifies this`terminate, this`nIter, this`queue, this`best, this`ub, this`nPrint, this`log
      ensures Valid()
      ensures r.Err? ==> r.error == SumEtaOutOfRange
      ensures r.Ok? ==> InTree() && queue == [] && r.value == ExitStatusOf(nIter, maxIter, runtime, maxCpuTime, userInterrupt)
      ensures r.Ok? ==> |log| > 0 && log[|log| - 1] == Summary(ub, nIter, runtime, r.value)
      ensures ub <= old(ub) && (best.None? ==> ub == old(ub)) && (old(best).Some? ==> best.Some?)
      ensures old(nIter) <= nIter && (nIter == old(nIter) || nIter <= maxIter)
      ensures old(terminate) ==> terminate && best == old(best) && ub == old(ub) && nIter == old(nIter)
      ensures r.Ok? && !terminate && Complete(prob, sumOn, sumOff, old(queue), old(ub)) ==>
        NoBetterLeaf(prob, sumOn, sumOff, ub)
    {
      var k: nat := 0;
      while |queue| > 0
        invariant Valid() && InTree()
        invariant ub <= old(ub) && (best.None? ==> ub == old(ub)) && (old(best).Some? ==> best.Some?)
        invariant old(nIter) <= nIter && (nIter == old(nIter) || nIter <= maxIter)
        invariant old(terminate) ==> terminate && best == old(best) && ub == old(ub) && nIter == old(nIter)
        invariant !terminate && Complete(prob, sumOn, sumOff, old(queue), old(ub)) ==>
          Complete(prob, sumOn, sumOff, queue, ub)
        decreases Potential(prob, queue)
      {
        var e := SearchStep(elapsed(k));
        if e.Some? {
          return Err(e.value);
        }
        k := k + 1;
      }
      var status := Summarize(runtime);
      r := Ok(status);
    }

    /** The closing summary of `run_bnb`. */
    method Summarize(runtime: real) returns (status: ExitStatus)
      modifies this`log
      ensures status == ExitStatusOf(nIter, maxIter, runtime, maxCpuTime, userInterrupt)
      ensures log == old(log) + [Summary(ub, nIter, runtime, status)]
    {
      status := ExitStatusOf(nIter, maxIter, runtime, maxCpuTime, userInterrupt);
      log := log + [Summary(ub, nIter, runtime, status)];
    }

    /** `retrieve_solution`: walk from the incumbent up to the root and
        set `b_bin` to 1 on every block of the chain, for the block's
        control, from its last interval down to its first; then drop the
        incumbent. */
    method RetrieveSolution()
      requires Valid()
      modifies this`bBin, this`best
      ensures Valid() && best.None?
      ensures old(best).None? ==> bBin == old(bBin)
      ensures old(best).Some? ==> Painted(prob, old(bBin), FullChain(old(best).value), bBin)
      ensures old(best).Some? && old(InTree()) && old(bBin) == Repeat(Repeat<nat>(0, prob.nT), prob.nC) ==>
        ub <= BinaryObjective(prob, bBin) &&
        (InputsInRange(prob) && EveryControlSwitches(prob) ==> ub == BinaryObjective(prob, bBin))
    {
      ghost var inTree := InTree();
      if best.Some? {
        var chain := FullChain(best.value);
        ghost var b0, leaf := bBin, best.value;
        var m := |chain|;
        while m > 0
          invariant 0 <= m <= |chain| && |bBin| == prob.nC
          invariant forall c :: 0 <= c < prob.nC ==> |bBin[c]| == prob.nT
          invariant forall c: nat, i: nat :: c < prob.nC && i < prob.nT ==>
            bBin[c][i] == if ActiveFrom(chain, m, c, i) then 1 else b0[c][i]
        {
          m := m - 1;
          var begin := if m == 0 then 0 else chain[m - 1].depth;
          bBin := MarkBlock(bBin, chain[m].control, begin, chain[m].depth);
          forall c: nat, i: nat | c < prob.nC && i < prob.nT
            ensures bBin[c][i] == if ActiveFrom(chain, m, c, i) then 1 else b0[c][i]
          {
            ActiveFromStep(chain, m, c, i);
          }
        }
        if inTree && b0 == Repeat(Repeat<nat>(0, prob.nT), prob.nC) {
          IncumbentBound(prob, sumOn, sumOff, leaf, bBin);
        }
      }
      best := None;
    }

    /** The tail `run` and `stop` share: finish the loop, then retrieve
        the incumbent into `b_bin`. */
    method SearchAndRetrieve(elapsed: nat -> real, runtime: real) returns (r: Result<ExitStatus, SolverError>)
      requires Valid() && InTree()
      modifies this`terminate, this`nIter, this`queue, this`best, this`ub, this`nPrint, this`log, this`bBin
      ensures Valid()
      ensures r.Err? ==> r.error == SumEtaOutOfRange
      ensures r.Ok? ==> queue == [] && best.None? && r.value == ExitStatusOf(nIter, maxIter, runtime, maxCpuTime, userInterrupt)
      ensures r.Ok? && !terminate && Complete(prob, sumOn, sumOff, old(queue), old(ub)) ==>
        NoBetterLeaf(prob, sumOn, sumOff, ub)
      ensures r.Ok? ==> Retrieved(prob, sumOn, sumOff, old(bBin), bBin, old(ub), ub)
      ensures r.Ok? && ub < old(ub) && old(bBin) == Repeat(Repeat<nat>(0, prob.nT), prob.nC) ==>
        ub <= BinaryObjective(prob, bBin) &&
        (InputsInRange(prob) && EveryControlSwitches(prob) ==> ub == BinaryObjective(prob, bBin))
    {
      r := RunBnB(elapsed, runtime);
      if r.Ok? {
        ghost var found := best;
        RetrieveSolution();
        RetrievedFrom(prob, sumOn, sumOff, old(bBin), bBin, old(ub), ub, found);
        if ub < old(ub) && old(bBin) == Repeat(Repeat<nat>(0, prob.nT), prob.nC) {
          RetrievedBound(prob, sumOn, sumOff, bBin, old(ub), ub);
        }
      }
    }

    /** `stop`: raise the user interrupt, finish the loop (every pass now
        only drops a node) and retrieve the incumbent. */
    method Stop(elapsed: nat -> real, runtime: real) returns (r: Result<ExitStatus, SolverError>)
      requires Valid() && InTree()
      modifies this`userInterrupt, this`terminate, this`nIter, this`queue, this`best, this`ub,
        this`nPrint, this`log, this`bBin
      ensures Valid() && userInterrupt
      ensures r.Err? ==> r.error == SumEtaOutOfRange
      ensures r.Ok? ==> queue == [] && best.None? && r.value == ExitStatusOf(nIter, maxIter, runtime, maxCpuTime, true)
      ensures r.Ok? ==> r.value != Optimal
      ensures r.Ok? ==> Retrieved(prob, sumOn, sumOff, old(bBin), bBin, old(ub), ub)
      ensures r.Ok? && ub < old(ub) && old(bBin) == Repeat(Repeat<nat>(0, prob.nT), prob.nC) ==>
        ub <= BinaryObjective(prob, bBin) &&
        (InputsInRange(prob) && EveryControlSwitches(prob) ==> ub == BinaryObjective(prob, bBin))
    {
      userInterrupt := true;
      r := SearchAndRetrieve(elapsed, runtime);
    }

    /** `run`: read the settings, queue the roots, search, retrieve.  A run
        the limits did not stop ends with no leaf of the search tree
        better than the returned bound. */
    method Run(opts: map<string, real>, elapsed: nat -> real, runtime: real) returns (r: Result<ExitStatus, SolverError>)
      requires Valid() && InTree()
      modifies this`maxIter, this`maxCpuTime, this`terminate, this`nIter, this`queue, this`best, this`ub,
        this`nPrint, this`log, this`bBin
      ensures Valid()
      ensures maxIter == TruncateToLong(OptionValue(opts, "max_iter"))
      ensures maxCpuTime == OptionValue(opts, "max_cpu_time")
      ensures r.Err? ==> r.error == SumEtaOutOfRange
      ensures r.Ok? ==> queue == [] && best.None? && r.value == ExitStatusOf(nIter, maxIter, runtime, maxCpuTime, userInterrupt)
      ensures r.Ok? && !terminate ==> NoBetterLeaf(prob, sumOn, sumOff, ub)
      ensures r.Ok? ==> Retrieved(prob, sumOn, sumOff, old(bBin), bBin, old(ub), ub)
      ensures r.Ok? && ub < old(ub) && old(bBin) == Repeat(Repeat<nat>(0, prob.nT), prob.nC) ==>
        ub <= BinaryObjective(prob, bBin) &&
        (InputsInRange(prob) && EveryControlSwitches(prob) ==> ub == BinaryObjective(prob, bBin))
    {
      SetSolverSettings(opts);
      var err := AddInitialNodesToQueue();
      if err.Some? {
        return Err(err.value);
      }
      RootsReachable(prob, sumOn, sumOff, old(queue), ub);
      RootsComplete(prob, sumOn, sumOff, old(queue), ub);
      r := SearchAndRetrieve(elapsed, runtime);
    }

    /** `get_eta`. */
    function GetEta(): (r: real)
      reads this
      ensures r == ub
    {
      ub
    }

    /** `get_b_bin`. */
    function GetBBin(): (r: seq<seq<nat>>)
      reads this
      ensures r == bBin
    {
      bBin
    }

    /** `node_queue.top()` and `node_queue.pop()`: the popped node is one no
        queued node precedes. */
    method PopTop() returns (active: Node, ghost t: nat)
      requires Valid() && |queue| > 0
      modifies this`queue
      ensures Valid() && AllHaveSigma(old(queue)) && IsMinimal(old(queue), t)
      ensures active == old(queue)[t] && queue == RemoveAt(old(queue), t)
    {
      AllShapedHaveSigma(prob, queue);
      assert IsMinimal(queue, TopIndex(queue));
      var top :| 0 <= top < |queue| && IsMinimal(queue, top);
      t := top;
      active := queue[top];
      RemoveAtShaped(prob, queue, top);
      queue := RemoveAt(queue, top);
    }

    /** The body of the `run_bnb` loop after the pop: a node better than
        the incumbent becomes the incumbent if it is a leaf and is
        expanded otherwise; any other node is dropped. */
    method ProcessNode(active: Node, elapsed: real) returns (err: Option<SolverError>)
      requires Valid() && NodeShaped(prob, active)
      modifies this`queue, this`best, this`ub, this`nPrint, this`log
      ensures Valid()
      ensures best == if Improves(prob, active, old(ub), terminate) then Some(active) else old(best)
      ensures ub == if Improves(prob, active, old(ub), terminate) then active.lb else old(ub)
      ensures err.Some? ==> err.value == SumEtaOutOfRange && Expands(prob, active, old(ub), terminate)
      ensures err.None? && !Expands(prob, active, old(ub), terminate) ==> queue == old(queue)
      ensures err.None? && Expands(prob, active, old(ub), terminate) ==>
        ParentOk(prob, sumOn, sumOff, NodeParent(active)) &&
        queue == old(queue) + Admitted(AllChildren(prob, sumOn, sumOff, NodeParent(active), prob.nC), old(ub))
    {
      err := None;
      if !terminate && active.lb < ub {
        if active.depth == prob.nT {
          SetNewBestNode(active);
          DisplaySolutionUpdate(true, elapsed);
        } else {
          err := AddNodesToQueue(active);
        }
      }
    }
  }

  /** What `add_nodes_to_queue` computes for control `c`: nothing when
      activating `c` is forbidden, else its child, or the error of a tail
      read out of range. */
  function Offer(p: Problem, on: seq<seq<real>>, off: seq<seq<real>>, x: Parent, c: nat): (r: Result<seq<Node>, SolverError>)
    requires ParentOk(p, on, off, x) && c < p.nC
    ensures r.Ok? ==> |r.value| <= 1
  {
    if !Allowed(p, x, c) then Ok([])
    else
      var child := ChildNodeProperties(p, on, off, c, x.control, x.eta, x.sigma, x.mdt, x.depth, x.lb, x.lbInit);
      if child.Err? then Err(child.error) else Ok([ChildOf(p, on, off, x, c)])
  }

  type Outcome = Result<seq<Node>, SolverError>

  /** The loop over the controls: the concatenation of what each round
      queues for consideration, or the error of the first failing round. */
  function Collect(outs: seq<Outcome>): (r: Outcome)
    ensures r.Ok? ==> forall k :: 0 <= k < |outs| ==> outs[k].Ok?
  {
    if |outs| == 0 then Ok([])
    else
      var prev := Collect(outs[..|outs| - 1]);
      var o := outs[|outs| - 1];
      if prev.Err? then prev else if o.Err? then Err(o.error) else Ok(prev.value + o.value)
  }

  /** Round `k` extends the collection of the rounds before it. */
  lemma CollectNext(outs: seq<Outcome>, k: nat)
    requires k < |outs|
    ensures Collect(outs[..k + 1]) ==
      if Collect(outs[..k]).Err? then Collect(outs[..k])
      else if outs[k].Err? then Err(outs[k].error)
      else Ok(Collect(outs[..k]).value + outs[k].value)
  {
    assert outs[..k + 1][..k] == outs[..k];
  }

  /** Once a round has failed, later rounds do not change the error. */
  lemma {:induction false} CollectKeepsError(outs: seq<Outcome>, k: nat)
    requires k <= |outs| && Collect(outs[..k]).Err?
    ensures Collect(outs) == Collect(outs[..k])
    decreases |outs| - k
  {
    if k < |outs| {
      CollectNext(outs, k);
      CollectKeepsError(outs, k + 1);
    } else {
      assert outs[..k] == outs;
    }
  }

  /** `outs[c]` is what round `c` computes for parent `x`. */
  ghost predicate Outcomes(p: Problem, on: seq<seq<real>>, off: seq<seq<real>>, x: Parent, outs: seq<Outcome>)
    requires ParentOk(p, on, off, x)
  {
    |outs| == p.nC &&
    forall c {:trigger Offer(p, on, off, x, c)} :: 0 <= c < p.nC ==> outs[c] == Offer(p, on, off, x, c)
  }

  ghost function OutcomesOf(p: Problem, on: seq<seq<real>>, off: seq<seq<real>>, x: Parent): (outs: seq<Outcome>)
    requires ParentOk(p, on, off, x)
    ensures Outcomes(p, on, off, x, outs)
  {
    seq(p.nC, c requires 0 <= c < p.nC => Offer(p, on, off, x, c))
  }

  /** Computing the child for `c` reads past the end of a tail table. */
  ghost predicate Overreads(p: Problem, on: seq<seq<real>>, off: seq<seq<real>>, x: Parent, c: nat)
    requires ParentOk(p, on, off, x) && c < p.nC
  {
    Allowed(p, x, c) && ChildNodeProperties(p, on, off, c, x.control, x.eta, x.sigma, x.mdt, x.depth, x.lb, x.lbInit).Err?
  }

  /** No control below `upTo` overreads. */
  ghost predicate NoOverreadBelow(p: Problem, on: seq<seq<real>>, off: seq<seq<real>>, x: Parent, upTo: nat)
    requires ParentOk(p, on, off, x) && upTo <= p.nC
  {
    forall c: nat :: c < upTo ==> !Overreads(p, on, off, x, c)
  }

  /** The loop fails exactly when some permitted control overreads, always
      with `SumEtaOutOfRange`, and otherwise yields every permitted child. */
  lemma {:induction false} CollectAgree(p: Problem, on: seq<seq<real>>, off: seq<seq<real>>, x: Parent,
    outs: seq<Outcome>, k: nat)
    requires ParentOk(p, on, off, x) && Outcomes(p, on, off, x, outs) && k <= p.nC
    ensures Collect(outs[..k]).Ok? <==> NoOverreadBelow(p, on, off, x, k)
    ensures Collect(outs[..k]).Ok? ==> Collect(outs[..k]).value == AllChildren(p, on, off, x, k)
    ensures Collect(outs[..k]).Err? ==> Collect(outs[..k]).error == SumEtaOutOfRange
  {
    if k > 0 {
      var c := k - 1;
      CollectAgree(p, on, off, x, outs, c);
      CollectNext(outs, c);
      OfferAgrees(p, on, off, x, outs, c);
      if !NoOverreadBelow(p, on, off, x, c) {
        var d: nat :| d < c && Overreads(p, on, off, x, d);
        assert !NoOverreadBelow(p, on, off, x, k);
      } else if Overreads(p, on, off, x, c) {
        assert !NoOverreadBelow(p, on, off, x, k);
      }
    } else {
      assert outs[..k] == [];
    }
  }

  /** Round `c` fails exactly when its control overreads, and otherwise
      yields the child `AllChildren` adds for `c`. */
  lemma OfferAgrees(p: Problem, on: seq<seq<real>>, off: seq<seq<real>>, x: Parent, outs: seq<Outcome>, c: nat)
    requires ParentOk(p, on, off, x) && Outcomes(p, on, off, x, outs) && c < p.nC
    ensures outs[c].Err? <==> Overreads(p, on, off, x, c)
    ensures outs[c].Err? ==> outs[c].error == SumEtaOutOfRange
    ensures outs[c].Ok? ==> AllChildren(p, on, off, x, c + 1) == AllChildren(p, on, off, x, c) + outs[c].value
  {
    assert outs[c] == Offer(p, on, off, x, c);
    ChildNodePropertiesOverread(p, on, off, c, x.control, x.eta, x.sigma, x.mdt, x.depth, x.lb, x.lbInit);
  }

  /** `Admitted` distributes over concatenation. */
  lemma {:induction false} AdmittedConcat(s: seq<Node>, t: seq<Node>, ub: real)
    ensures Admitted(s + t, ub) == Admitted(s, ub) + Admitted(t, ub)
    decreases |t|
  {
    if |t| > 0 {
      var init := t[..|t| - 1];
      assert (s + t)[..|s + t| - 1] == s + init;
      AdmittedConcat(s, init, ub);
    } else {
      assert s + t == s;
    }
  }

  // ---------------------------------------------------------------------
  // Facts about one pass of the search loop

  /** Every node of `q` belongs to the search tree. */
  ghost predicate AllReachable(p: Problem, on: seq<seq<real>>, off: seq<seq<real>>, q: seq<Node>)
    requires WellFormed(p) && TableShaped(p, on, off)
  {
    forall k: nat {:trigger Slot(q, k)} :: k < |q| ==> Reachable(p, on, off, Slot(q, k))
  }

  /** `q[k]`; `AllReachable` speaks of `Slot(q, k)` so that its facts are
      only drawn where a proof names a slot. */
  function Slot(q: seq<Node>, k: nat): Node
    requires k < |q|
  {
    q[k]
  }

  /** The incumbent, if any, belongs to the search tree. */
  ghost predicate IncumbentInTree(p: Problem, on: seq<seq<real>>, off: seq<seq<real>>, best: Option<Node>)
    requires WellFormed(p) && TableShaped(p, on, off)
  {
    best.Some? ==> AllReachable(p, on, off, [best.value])
  }

  lemma AllShapedHaveSigma(p: Problem, q: seq<Node>)
    requires AllShaped(p, q)
    ensures AllHaveSigma(q)
  {
    forall j | 0 <= j < |q| ensures HasSigma(q[j]) {
      assert NodeShaped(p, q[j]);
    }
  }

  /** Popping a node keeps the rest of the queue shaped. */
  lemma RemoveAtShaped(p: Problem, q: seq<Node>, t: nat)
    requires t < |q| && AllShaped(p, q)
    ensures AllShaped(p, RemoveAt(q, t))
  {
    var r := RemoveAt(q, t);
    forall k | 0 <= k < |r| ensures r[k] == q[if k < t then k else k + 1] {
    }
  }

  /** Popping a node keeps the rest of the queue in the tree. */
  lemma RemoveAtReachable(p: Problem, on: seq<seq<real>>, off: seq<seq<real>>, q: seq<Node>, t: nat)
    requires WellFormed(p) && TableShaped(p, on, off) && t < |q| && AllReachable(p, on, off, q)
    ensures AllReachable(p, on, off, RemoveAt(q, t))
  {
    var r := RemoveAt(q, t);
    forall k: nat | k < |r| ensures Reachable(p, on, off, Slot(r, k)) {
      assert Slot(r, k) == Slot(q, if k < t then k else k + 1);
    }
  }

  /** The admitted roots belong to the search tree. */
  lemma RootsReachable(p: Problem, on: seq<seq<real>>, off: seq<seq<real>>, q: seq<Node>, ub: real)
    requires WellFormed(p) && TableShaped(p, on, off) && AllReachable(p, on, off, q)
    ensures AllReachable(p, on, off, q + Admitted(Roots(p, on, off), ub))
  {
    var a := Admitted(Roots(p, on, off), ub);
    AdmittedMembers(Roots(p, on, off), ub);
    forall j | 0 <= j < |a| ensures Reachable(p, on, off, a[j]) {
      assert a[j] in a;
      assert Below(p, on, off, a[j], a[j], 0);
    }
    var q' := q + a;
    forall k: nat | k < |q'| ensures Reachable(p, on, off, Slot(q', k)) {
      if k >= |q| {
        assert q'[k] == a[k - |q|];
      } else {
        assert Slot(q', k) == Slot(q, k);
      }
    }
  }

  /** The admitted children of a node of the tree belong to the tree. */
  lemma ExpandReachable(p: Problem, on: seq<seq<real>>, off: seq<seq<real>>, q: seq<Node>, n: Node, ub: real)
    requires WellFormed(p) && TableShaped(p, on, off) && AllReachable(p, on, off, q)
    requires Reachable(p, on, off, n) && ParentOk(p, on, off, NodeParent(n))
    ensures AllReachable(p, on, off, q + Admitted(AllChildren(p, on, off, NodeParent(n), p.nC), ub))
  {
    var kids := AllChildren(p, on, off, NodeParent(n), p.nC);
    var a := Admitted(kids, ub);
    AdmittedMembers(kids, ub);
    var r: Node, k: nat :| r in Roots(p, on, off) && Below(p, on, off, r, n, k);
    forall j | 0 <= j < |a| ensures Reachable(p, on, off, a[j]) {
      assert a[j] in a;
      BelowExtend(p, on, off, r, n, k, a[j]);
    }
    var q' := q + a;
    forall i: nat | i < |q'| ensures Reachable(p, on, off, Slot(q', i)) {
      if i >= |q| {
        assert q'[i] == a[i - |q|];
      } else {
        assert Slot(q', i) == Slot(q, i);
      }
    }
  }

  /** A pass of the loop that was not told to stop keeps the search
      complete, whichever way it treats the popped node. */
  lemma StepComplete(p: Problem, on: seq<seq<real>>, off: seq<seq<real>>, q0: seq<Node>, t: nat, ub0: real,
                     terminate: bool, q: seq<Node>, ub: real)
    requires WellFormed(p) && TableShaped(p, on, off) && t < |q0| && !terminate
    requires Complete(p, on, off, q0, ub0)
    requires ub == if Improves(p, q0[t], ub0, terminate) then q0[t].lb else ub0
    requires !Expands(p, q0[t], ub0, terminate) ==> q == RemoveAt(q0, t)
    requires Expands(p, q0[t], ub0, terminate) ==>
      ParentOk(p, on, off, NodeParent(q0[t])) &&
      q == RemoveAt(q0, t) + Admitted(AllChildren(p, on, off, NodeParent(q0[t]), p.nC), ub0)
    ensures Complete(p, on, off, q, ub)
  {
    if Improves(p, q0[t], ub0, terminate) {
      LeafComplete(p, on, off, q0, t, ub0);
    } else if Expands(p, q0[t], ub0, terminate) {
      ExpandComplete(p, on, off, q0, t, ub0);
    } else {
      DiscardComplete(p, on, off, q0, t, ub0);
    }
  }

  /** What one pass of the loop preserves: the queue and the incumbent
      stay in the search tree, the potential drops, and a pass that was
      not told to stop keeps the search complete. */
  lemma StepFacts(p: Problem, on: seq<seq<real>>, off: seq<seq<real>>, q0: seq<Node>, t: nat, ub0: real,
                  best0: Option<Node>, terminate: bool, q: seq<Node>, ub: real, best: Option<Node>)
    requires WellFormed(p) && TableShaped(p, on, off) && t < |q0| && AllShaped(p, q0)
    requires AllReachable(p, on, off, q0) && IncumbentInTree(p, on, off, best0)
    requires best == if Improves(p, q0[t], ub0, terminate) then Some(q0[t]) else best0
    requires ub == if Improves(p, q0[t], ub0, terminate) then q0[t].lb else ub0
    requires !Expands(p, q0[t], ub0, terminate) ==> q == RemoveAt(q0, t)
    requires Expands(p, q0[t], ub0, terminate) ==>
      ParentOk(p, on, off, NodeParent(q0[t])) &&
      q == RemoveAt(q0, t) + Admitted(AllChildren(p, on, off, NodeParent(q0[t]), p.nC), ub0)
    ensures AllReachable(p, on, off, q) && IncumbentInTree(p, on, off, best)
    ensures Potential(p, q) < Potential(p, q0)
    ensures !terminate && Complete(p, on, off, q0, ub0) ==> Complete(p, on, off, q, ub)
  {
    var a := q0[t];
    assert NodeShaped(p, a);
    assert a.depth <= p.nT by {
      assert FullChain(a)[|FullChain(a)| - 1].depth == a.depth;
    }
    assert Reachable(p, on, off, Slot(q0, t));
    RemoveAtReachable(p, on, off, q0, t);
    RemoveAtPotential(p, q0, t);
    if Improves(p, a, ub0, terminate) {
      assert Slot([a], 0) == a;
    }
    if Expands(p, a, ub0, terminate) {
      var kids := Admitted(AllChildren(p, on, off, NodeParent(a), p.nC), ub0);
      ExpandReachable(p, on, off, RemoveAt(q0, t), a, ub0);
      ExpansionLowersPotential(p, on, off, a, ub0);
      PotentialConcat(p, RemoveAt(q0, t), kids);
    }
    if !terminate && Complete(p, on, off, q0, ub0) {
      StepComplete(p, on, off, q0, t, ub0, terminate, q, ub);
    }
  }

  /** No leaf of the search tree is better than `ub`. */
  ghost predicate NoBetterLeaf(p: Problem, on: seq<seq<real>>, off: seq<seq<real>>, ub: real)
    requires WellFormed(p) && TableShaped(p, on, off)
  {
    forall y :: Reachable(p, on, off, y) && Leaf(p, y) ==> y.lb >= ub
  }

  /** The popped node leads to an improvement of the incumbent. */
  predicate Improves(p: Problem, a: Node, ub: real, terminate: bool)
  {
    !terminate && a.lb < ub && Leaf(p, a)
  }

  /** The popped node is expanded. */
  predicate Expands(p: Problem, a: Node, ub: real, terminate: bool)
  {
    !terminate && a.lb < ub && !Leaf(p, a)
  }

  // ---------------------------------------------------------------------
  // The retrieved solution

  /** `b` is `b0` with `1` written on every interval of every block of
      `chain`, for the block's control. */
  ghost predicate Painted(p: Problem, b0: seq<seq<nat>>, chain: seq<Block>, b: seq<seq<nat>>)
  {
    |b0| == p.nC && |b| == p.nC &&
    (forall c :: 0 <= c < p.nC ==> |b0[c]| == p.nT && |b[c]| == p.nT) &&
    (forall c: nat, i: nat :: c < p.nC && i < p.nT ==>
      b[c][i] == if ActiveFrom(chain, 0, c, i) then 1 else b0[c][i])
  }

  /** Blocks `from..` are block `from` and blocks `from + 1..`. */
  lemma ActiveFromStep(chain: seq<Block>, from: nat, c: nat, i: nat)
    requires from < |chain|
    ensures ActiveFrom(chain, from, c, i) <==>
      (chain[from].control == c && BlockStart(chain, from) <= i < chain[from].depth) ||
      ActiveFrom(chain, from + 1, c, i)
  {
    if ActiveFrom(chain, from, c, i) {
      var k :| from <= k < |chain| && chain[k].control == c && BlockStart(chain, k) <= i < chain[k].depth;
      if k > from {
        assert ActiveFrom(chain, from + 1, c, i);
      }
    }
  }

  /** Exactly one control is `1` on interval `i`, all others `0`. */
  ghost predicate OneHotColumn(b: seq<seq<nat>>, nC: nat, i: nat)
    requires |b| == nC && forall c :: 0 <= c < nC ==> i < |b[c]|
  {
    exists c :: 0 <= c < nC && b[c][i] == 1 && forall d :: 0 <= d < nC && d != c ==> b[d][i] == 0
  }

  /** Painting a full chain onto the zero matrix of the constructor gives
      a binary solution with exactly one active control per interval. */
  lemma PaintedSolutionOneHot(p: Problem, chain: seq<Block>, b: seq<seq<nat>>)
    requires WellFormed(p) && ChainOk(chain, p.nC, p.nT) && |chain| > 0 && chain[|chain| - 1].depth == p.nT
    requires Painted(p, Repeat(Repeat<nat>(0, p.nT), p.nC), chain, b)
    ensures forall i :: 0 <= i < p.nT ==> OneHotColumn(b, p.nC, i)
  {
    var b0 := Repeat(Repeat<nat>(0, p.nT), p.nC);
    OneControlPerInterval(chain, p.nC, p.nT);
    forall i | 0 <= i < p.nT ensures OneHotColumn(b, p.nC, i) {
      assert Covered(chain, p.nC, i);
      var c: nat :| c < p.nC && ActiveFrom(chain, 0, c, i);
      forall d | 0 <= d < p.nC && d != c ensures b[d][i] == 0 {
        assert b0[d][i] == 0;
      }
    }
  }

  /** What `run` leaves in `ub_bnb` and `b_bin`: either both as before, or
      the bound of a leaf of the search tree no worse than before and that
      leaf painted onto the previous matrix. */
  ghost predicate Retrieved(p: Problem, on: seq<seq<real>>, off: seq<seq<real>>,
                            b0: seq<seq<nat>>, b: seq<seq<nat>>, ub0: real, ub: real)
    requires WellFormed(p) && TableShaped(p, on, off)
  {
    (b == b0 && ub == ub0) ||
    exists y :: Reachable(p, on, off, y) && NodeShaped(p, y) && Leaf(p, y) && y.lb == ub && ub <= ub0 &&
      Painted(p, b0, FullChain(y), b)
  }

  /** Retrieving the incumbent a search left behind gives `Retrieved`. */
  lemma RetrievedFrom(p: Problem, on: seq<seq<real>>, off: seq<seq<real>>,
                      b0: seq<seq<nat>>, b: seq<seq<nat>>, ub0: real, ub: real, best: Option<Node>)
    requires WellFormed(p) && TableShaped(p, on, off) && IncumbentInTree(p, on, off, best) && ub <= ub0
    requires best.None? ==> b == b0 && ub == ub0
    requires best.Some? ==>
      (NodeShaped(p, best.value) && Leaf(p, best.value) && best.value.lb == ub &&
       Painted(p, b0, FullChain(best.value), b))
    ensures Retrieved(p, on, off, b0, b, ub0, ub)
  {
    if best.Some? {
      assert Reachable(p, on, off, Slot([best.value], 0));
    }
  }

  /** An improved bound retrieved onto the zero matrix is a one-hot
      binary control. */
  lemma RetrievedOneHot(p: Problem, on: seq<seq<real>>, off: seq<seq<real>>, b: seq<seq<nat>>, ub0: real, ub: real)
    requires WellFormed(p) && TableShaped(p, on, off)
    requires Retrieved(p, on, off, Repeat(Repeat<nat>(0, p.nT), p.nC), b, ub0, ub) && ub < ub0
    ensures |b| == p.nC && forall c :: 0 <= c < p.nC ==> |b[c]| == p.nT
    ensures forall i :: 0 <= i < p.nT ==> OneHotColumn(b, p.nC, i)
  {
    var y :| Reachable(p, on, off, y) && NodeShaped(p, y) && Leaf(p, y) && y.lb == ub && ub <= ub0 &&
      Painted(p, Repeat(Repeat<nat>(0, p.nT), p.nC), FullChain(y), b);
    PaintedSolutionOneHot(p, FullChain(y), b);
  }

  // ---------------------------------------------------------------------
  // The bound of a leaf and the solution it paints

  /** The bound covers every deviation of the painted solution up to the
      node's depth. */
  ghost predicate BoundCovers(p: Problem, x: Parent)
    requires WellFormed(p) && x.depth <= p.nT
  {
    forall i, k :: 0 <= i < p.nC && 0 <= k <= x.depth ==> Abs(Deviation(p, x.chain, i, k)) <= x.lb
  }

  /** The bound is 0, the size of some `eta`, or the size of some deviation
      so far: it never exceeds what it measures. */
  ghost predicate BoundAttained(p: Problem, x: Parent)
    requires WellFormed(p) && x.depth <= p.nT && |x.eta| == p.nC
  {
    x.lb == 0.0 ||
    (exists i :: 0 <= i < p.nC && x.lb == Abs(x.eta[i])) ||
    (exists i, k :: 0 <= i < p.nC && 0 <= k <= x.depth && x.lb == Abs(Deviation(p, x.chain, i, k)))
  }

  /** What every node of the search keeps: `eta` means what `EtaMeaning`
      says, the bound is attained, and on inputs in range it covers every
      deviation so far, unless a control without any switch was left
      unsettled. */
  ghost predicate BoundInv(p: Problem, x: Parent, settled: bool)
  {
    WellFormed(p) && ChainEnd(x.chain) == x.depth && x.depth <= p.nT &&
    |x.eta| == p.nC && |x.sigma| == p.nC && x.lbInit == x.lb && x.lb >= 0.0 &&
    (forall i :: 0 <= i < p.nC ==> x.eta[i] == EtaMeaning(p, x.chain, x.control, x.sigma, x.depth, i, settled)) &&
    BoundAttained(p, x) &&
    (InputsInRange(p) && (settled || EveryControlSwitches(p)) ==> BoundCovers(p, x))
  }

  /** The virtual parent of the initial nodes keeps the invariant, with
      controls without any switch left unsettled. */
  lemma RootBoundInv(p: Problem)
    requires WellFormed(p)
    ensures BoundInv(p, RootParent(p), false)
  {
    var x := RootParent(p);
    forall i | 0 <= i < p.nC ensures x.eta[i] == EtaMeaning(p, x.chain, x.control, x.sigma, x.depth, i, false) {
      assert Deviation(p, x.chain, i, 0) == 0.0;
    }
  }

  /** The initial state as intended: a control without any switch can
      never change, so its deviation over the whole horizon is settled
      from the tail tables before the search starts, as a spent budget is
      settled during it. */
  function IntendedRootParent(p: Problem, on: seq<seq<real>>, off: seq<seq<real>>): (x: Parent)
    requires WellFormed(p) && TableShaped(p, on, off)
    ensures ParentOk(p, on, off, x) && x.depth == 0 && x.lb == 0.0
    ensures forall i :: 0 <= i < p.nC && p.nMaxSwitches[i] > 0 ==> x.eta[i] == RootParent(p).eta[i]
  {
    var eta := seq(p.nC, i requires 0 <= i < p.nC =>
      if p.nMaxSwitches[i] > 0 then 0.0 else if i == p.bActivePre then off[i][0] else on[i][0]);
    Parent([], p.bActivePre, eta, Repeat(0, p.nC), p.minDownTimePre, 0, 0.0, 0.0)
  }

  /** The intended initial state keeps the invariant with every control
      settled. */
  lemma IntendedRootBoundInv(p: Problem, on: seq<seq<real>>, off: seq<seq<real>>)
    requires WellFormed(p) && TailTables(p, on, off)
    ensures BoundInv(p, IntendedRootParent(p, on, off), true)
  {
    var x := IntendedRootParent(p, on, off);
    forall i | 0 <= i < p.nC ensures x.eta[i] == EtaMeaning(p, x.chain, x.control, x.sigma, x.depth, i, true) {
      assert Deviation(p, x.chain, i, 0) == 0.0;
      assert DevTerms(p, p.bActivePre, i) == if i == p.bActivePre then OffTerms(p, i) else OnTerms(p, i);
    }
  }

  /** Each control's `eta` in a permitted child means what `EtaMeaning`
      says for the child's chain. */
  lemma ChildEtaMeaning(p: Problem, on: seq<seq<real>>, off: seq<seq<real>>, x: Parent, c: nat, settled: bool, i: nat)
    requires ParentOk(p, on, off, x) && TailTables(p, on, off) && c < p.nC && Allowed(p, x, c)
    requires ChainEnd(x.chain) == x.depth && i < p.nC
    requires x.eta[i] == EtaMeaning(p, x.chain, x.control, x.sigma, x.depth, i, settled)
    ensures var r := IntendedChild(p, on, off, c, x.control, x.eta, x.sigma, x.mdt, x.depth, x.lb, x.lbInit);
      r.depth <= p.nT &&
      r.eta[i] == EtaMeaning(p, x.chain + [Block(c, r.depth)], c, r.sigma, r.depth, i, settled)
  {
    var r := IntendedChild(p, on, off, c, x.control, x.eta, x.sigma, x.mdt, x.depth, x.lb, x.lbInit);
    ChildEtaCase(p, on, off, c, x.control, x.eta, x.sigma, x.mdt, x.depth, x.lb, x.lbInit, i);
    ChildDepthRange(p, on, off, c, x.control, x.eta, x.sigma, x.mdt, x.depth, x.lb, x.lbInit);
    ChildSwitchCounts(p, on, off, c, x.control, x.eta, x.sigma, x.mdt, x.depth, x.lb, x.lbInit);
    DeviationExtend(p, x.chain, Block(c, r.depth), i, r.depth);
    var terms := DevTerms(p, c, i);
    if x.sigma[i] >= p.nMaxSwitches[i] {
      assert c != i && x.control != i;
      if p.nMaxSwitches[i] > 0 || settled {
        assert terms == DevTerms(p, x.control, i);
        SumRangeSplit(terms, x.depth, r.depth, p.nT);
      }
    } else if r.sigma[i] >= p.nMaxSwitches[i] {
      SumRangeSplit(terms, x.depth, r.depth, p.nT);
    }
  }

  /** The bound of a permitted child is attained. */
  lemma ChildAttained(p: Problem, on: seq<seq<real>>, off: seq<seq<real>>, x: Parent, c: nat, settled: bool)
    requires ParentOk(p, on, off, x) && TailTables(p, on, off) && c < p.nC && Allowed(p, x, c)
    requires BoundInv(p, x, settled)
    ensures BoundAttained(p, NodeParent(ChildOf(p, on, off, x, c)))
  {
    var r := IntendedChild(p, on, off, c, x.control, x.eta, x.sigma, x.mdt, x.depth, x.lb, x.lbInit);
    var y := NodeParent(ChildOf(p, on, off, x, c));
    var b := Block(c, r.depth);
    ChildEtaCases(p, on, off, c, x.control, x.eta, x.sigma, x.mdt, x.depth, x.lb, x.lbInit);
    ChildAdvances(p, on, off, c, x.control, x.eta, x.sigma, x.mdt, x.depth, x.lb, x.lbInit);
    assert y.chain == x.chain + [b] && y.eta == r.eta && y.lb == r.lb && y.depth == r.depth;
    var f := FoldMaxAbs(x.lb, r.eta);
    assert r.lb == f;
    if f != x.lb {
      var j :| 0 <= j < |r.eta| && f == Abs(r.eta[j]);
      assert y.lb == Abs(y.eta[j]);
    } else if x.lb == 0.0 {
    } else if i :| 0 <= i < p.nC && x.lb == Abs(x.eta[i]) {
      if x.sigma[i] >= p.nMaxSwitches[i] {
        assert y.lb == Abs(y.eta[i]);
      } else {
        DeviationPrefix(p, x.chain, b, i, x.depth);
        assert y.lb == Abs(Deviation(p, y.chain, i, x.depth));
      }
    } else {
      var i, k :| 0 <= i < p.nC && 0 <= k <= x.depth && x.lb == Abs(Deviation(p, x.chain, i, k));
      DeviationPrefix(p, x.chain, b, i, k);
      assert y.lb == Abs(Deviation(p, y.chain, i, k));
    }
  }

  /** On inputs in range the bound of a permitted child covers each
      deviation up to the child's depth: within the child's block a
      deviation moves one way, so it lies between its value where the
      block starts, covered by the parent's bound, and the child's `eta`. */
  lemma ChildCovers(p: Problem, on: seq<seq<real>>, off: seq<seq<real>>, x: Parent, c: nat, settled: bool, i: nat, k: nat)
    requires ParentOk(p, on, off, x) && TailTables(p, on, off) && c < p.nC && Allowed(p, x, c)
    requires InputsInRange(p) && (settled || EveryControlSwitches(p)) && i < p.nC
    requires ChainEnd(x.chain) == x.depth && x.eta[i] == EtaMeaning(p, x.chain, x.control, x.sigma, x.depth, i, settled)
    requires BoundCovers(p, x)
    ensures var r := IntendedChild(p, on, off, c, x.control, x.eta, x.sigma, x.mdt, x.depth, x.lb, x.lbInit);
      r.depth <= p.nT &&
      (k <= r.depth ==> Abs(Deviation(p, x.chain + [Block(c, r.depth)], i, k)) <= r.lb)
  {
    var r := IntendedChild(p, on, off, c, x.control, x.eta, x.sigma, x.mdt, x.depth, x.lb, x.lbInit);
    var b := Block(c, r.depth);
    ChildEtaCases(p, on, off, c, x.control, x.eta, x.sigma, x.mdt, x.depth, x.lb, x.lbInit);
    ChildAdvances(p, on, off, c, x.control, x.eta, x.sigma, x.mdt, x.depth, x.lb, x.lbInit);
    if k <= x.depth {
      DeviationPrefix(p, x.chain, b, i, k);
    } else if k <= r.depth {
      ChildSwitchCounts(p, on, off, c, x.control, x.eta, x.sigma, x.mdt, x.depth, x.lb, x.lbInit);
      assert Abs(Deviation(p, x.chain, i, x.depth)) <= r.lb;
      if x.sigma[i] >= p.nMaxSwitches[i] {
        assert c != i && x.control != i && (p.nMaxSwitches[i] > 0 || settled);
        assert DevTerms(p, c, i) == DevTerms(p, x.control, i);
        BlockCovered(p, x.chain, b, i, k, p.nT, r.eta[i], r.lb);
      } else if r.sigma[i] >= p.nMaxSwitches[i] {
        BlockCovered(p, x.chain, b, i, k, p.nT, r.eta[i], r.lb);
      } else {
        BlockCovered(p, x.chain, b, i, k, r.depth, r.eta[i], r.lb);
      }
    }
  }

  /** Every permitted child keeps the invariant of its parent. */
  lemma ChildBoundInv(p: Problem, on: seq<seq<real>>, off: seq<seq<real>>, x: Parent, c: nat, settled: bool)
    requires ParentOk(p, on, off, x) && TailTables(p, on, off) && c < p.nC && Allowed(p, x, c)
    requires BoundInv(p, x, settled)
    ensures BoundInv(p, NodeParent(ChildOf(p, on, off, x, c)), settled)
  {
    var r := IntendedChild(p, on, off, c, x.control, x.eta, x.sigma, x.mdt, x.depth, x.lb, x.lbInit);
    var y := NodeParent(ChildOf(p, on, off, x, c));
    ChildAdvances(p, on, off, c, x.control, x.eta, x.sigma, x.mdt, x.depth, x.lb, x.lbInit);
    assert y.chain == x.chain + [Block(c, r.depth)] && y.eta == r.eta && y.sigma == r.sigma;
    forall i | 0 <= i < p.nC ensures y.eta[i] == EtaMeaning(p, y.chain, y.control, y.sigma, y.depth, i, settled) {
      ChildEtaMeaning(p, on, off, x, c, settled, i);
    }
    ChildAttained(p, on, off, x, c, settled);
    if InputsInRange(p) && (settled || EveryControlSwitches(p)) {
      forall i, k | 0 <= i < p.nC && 0 <= k <= y.depth ensures Abs(Deviation(p, y.chain, i, k)) <= y.lb {
        ChildCovers(p, on, off, x, c, settled, i, k);
      }
    }
  }

  /** Every node below a node that keeps the invariant keeps it. */
  lemma {:induction false} BelowBoundInv(p: Problem, on: seq<seq<real>>, off: seq<seq<real>>, x: Node, y: Node, k: nat, settled: bool)
    requires WellFormed(p) && TailTables(p, on, off) && Below(p, on, off, x, y, k)
    requires BoundInv(p, NodeParent(x), settled)
    ensures BoundInv(p, NodeParent(y), settled)
    decreases k
  {
    if k > 0 {
      var m := BelowStepBoundInv(p, on, off, x, y, k, settled);
      BelowBoundInv(p, on, off, m, y, k - 1, settled);
    } else {
      assert x == y;
    }
  }

  /** The first step of a path keeps the invariant. */
  lemma BelowStepBoundInv(p: Problem, on: seq<seq<real>>, off: seq<seq<real>>, x: Node, y: Node, k: nat, settled: bool)
    returns (m: Node)
    requires WellFormed(p) && TailTables(p, on, off) && Below(p, on, off, x, y, k) && k > 0
    requires BoundInv(p, NodeParent(x), settled)
    ensures Below(p, on, off, m, y, k - 1) && BoundInv(p, NodeParent(m), settled)
  {
    var px := NodeParent(x);
    m :| m in AllChildren(p, on, off, px, p.nC) && Below(p, on, off, m, y, k - 1);
    AllChildrenSound(p, on, off, px, p.nC);
    var c :| 0 <= c < p.nC && Allowed(p, px, c) && m == ChildOf(p, on, off, px, c);
    ChildBoundInv(p, on, off, px, c, settled);
  }

  /** At the horizon the bound of a node is at most the objective of the
      solution its chain paints, and equal to it when the bound covers
      every deviation. */
  lemma LeafBound(p: Problem, x: Parent, settled: bool)
    requires BoundInv(p, x, settled) && x.depth == p.nT
    ensures x.lb <= Objective(p, x.chain)
    ensures InputsInRange(p) && (settled || EveryControlSwitches(p)) ==> x.lb == Objective(p, x.chain)
  {
    if x.lb != 0.0 {
      if i :| 0 <= i < p.nC && x.lb == Abs(x.eta[i]) {
        assert x.eta[i] == 0.0 || x.eta[i] == Deviation(p, x.chain, i, p.nT);
        WithinObjective(p, x.chain, i, p.nT);
      } else {
        var i, k :| 0 <= i < p.nC && 0 <= k <= x.depth && x.lb == Abs(Deviation(p, x.chain, i, k));
        WithinObjective(p, x.chain, i, k);
      }
    }
    if InputsInRange(p) && (settled || EveryControlSwitches(p)) {
      ObjectiveCovered(p, x.chain, x.lb);
    }
  }

  /** Every root keeps the invariant with controls without any switch
      unsettled. */
  lemma RootsBoundInv(p: Problem, on: seq<seq<real>>, off: seq<seq<real>>, r: Node)
    requires WellFormed(p) && TailTables(p, on, off) && r in Roots(p, on, off)
    ensures BoundInv(p, NodeParent(r), false)
  {
    RootParentOk(p, on, off);
    RootBoundInv(p);
    AllChildrenSound(p, on, off, RootParent(p), p.nC);
    var c :| 0 <= c < p.nC && Allowed(p, RootParent(p), c) && r == ChildOf(p, on, off, RootParent(p), c);
    ChildBoundInv(p, on, off, RootParent(p), c, false);
  }

  /** The bound of every leaf of the search tree is at most the max-norm
      deviation of the solution it paints, and equal to it when every
      control may switch at least once. */
  lemma ReachableLeafBound(p: Problem, on: seq<seq<real>>, off: seq<seq<real>>, y: Node)
    requires WellFormed(p) && TailTables(p, on, off) && Reachable(p, on, off, y) && Leaf(p, y)
    ensures y.lb <= Objective(p, FullChain(y))
    ensures InputsInRange(p) && EveryControlSwitches(p) ==> y.lb == Objective(p, FullChain(y))
  {
    var r: Node, k: nat :| r in Roots(p, on, off) && Below(p, on, off, r, y, k);
    RootsBoundInv(p, on, off, r);
    BelowBoundInv(p, on, off, r, y, k, false);
    LeafBound(p, NodeParent(y), false);
  }

  /** A node of the search tree grown from the intended initial state. */
  ghost predicate IntendedReachable(p: Problem, on: seq<seq<real>>, off: seq<seq<real>>, n: Node)
    requires WellFormed(p) && TableShaped(p, on, off)
  {
    exists r: Node, k: nat ::
      r in AllChildren(p, on, off, IntendedRootParent(p, on, off), p.nC) && Below(p, on, off, r, n, k)
  }

  /** From the intended initial state, the bound of every leaf is exactly
      the max-norm deviation of the solution it paints, whatever the
      switch budgets. */
  lemma IntendedLeafBound(p: Problem, on: seq<seq<real>>, off: seq<seq<real>>, y: Node)
    requires InputsInRange(p) && TailTables(p, on, off) && IntendedReachable(p, on, off, y) && Leaf(p, y)
    ensures y.lb == Objective(p, FullChain(y))
  {
    var r: Node, k: nat :| r in AllChildren(p, on, off, IntendedRootParent(p, on, off), p.nC) && Below(p, on, off, r, y, k);
    IntendedRootsBoundInv(p, on, off, r);
    BelowBoundInv(p, on, off, r, y, k, true);
    LeafBound(p, NodeParent(y), true);
  }

  /** Every intended root keeps the invariant with every control settled. */
  lemma IntendedRootsBoundInv(p: Problem, on: seq<seq<real>>, off: seq<seq<real>>, r: Node)
    requires WellFormed(p) && TailTables(p, on, off) && r in AllChildren(p, on, off, IntendedRootParent(p, on, off), p.nC)
    ensures BoundInv(p, NodeParent(r), true)
  {
    var x := IntendedRootParent(p, on, off);
    IntendedRootBoundInv(p, on, off);
    AllChildrenSound(p, on, off, x, p.nC);
    var c :| 0 <= c < p.nC && Allowed(p, x, c) && r == ChildOf(p, on, off, x, c);
    ChildBoundInv(p, on, off, x, c, true);
  }

  /** With a control that may never switch, the engine as written can
      report a bound below the objective of the solution it returns: the
      one root of this problem is a leaf with bound 0, yet control 1 stays
      off for a whole interval on which its relaxation is 1. */
  lemma UnswitchableControlUnderReported()
    ensures var p := Problem([1.0], [[1.0], [1.0]], 2, 1, [1, 0], [0.0, 0.0], [0.0, 0.0], [], [0.0, 0.0], 0);
      var on := [[1.0], [1.0]];
      var off := [[0.0], [0.0]];
      var y := ChildOf(p, on, off, RootParent(p), 0);
      InputsInRange(p) && TailTables(p, on, off) &&
      Reachable(p, on, off, y) && Leaf(p, y) && y.lb == 0.0 && Objective(p, FullChain(y)) == 1.0
  {
    var p := Problem([1.0], [[1.0], [1.0]], 2, 1, [1, 0], [0.0, 0.0], [0.0, 0.0], [], [0.0, 0.0], 0);
    UnderReportedLeaf(p, [[1.0], [1.0]], [[0.0], [0.0]]);
  }

  /** The leaf of the problem above, for the problem given as a value. */
  lemma UnderReportedLeaf(p: Problem, on: seq<seq<real>>, off: seq<seq<real>>)
    requires p == Problem([1.0], [[1.0], [1.0]], 2, 1, [1, 0], [0.0, 0.0], [0.0, 0.0], [], [0.0, 0.0], 0)
    requires on == [[1.0], [1.0]] && off == [[0.0], [0.0]]
    ensures var y := ChildOf(p, on, off, RootParent(p), 0);
      InputsInRange(p) && TailTables(p, on, off) &&
      Reachable(p, on, off, y) && Leaf(p, y) && y.lb == 0.0 && Objective(p, FullChain(y)) == 1.0
  {
    UnderReportedRoot(p, on, off);
    var y := ChildOf(p, on, off, RootParent(p), 0);
    assert y in Roots(p, on, off) && Below(p, on, off, y, y, 0);
    assert FullChain(y) == [Block(0, 1)];
    UnderReportedObjective(p);
  }

  /** The tail tables of the problem above. */
  lemma UnderReportedTables(p: Problem, on: seq<seq<real>>, off: seq<seq<real>>)
    requires p == Problem([1.0], [[1.0], [1.0]], 2, 1, [1, 0], [0.0, 0.0], [0.0, 0.0], [], [0.0, 0.0], 0)
    requires on == [[1.0], [1.0]] && off == [[0.0], [0.0]]
    ensures TailTables(p, on, off)
  {
    assert SumRange(OnTerms(p, 0), 0, 1) == 1.0 by { assert OnTerms(p, 0)[0] == 1.0; }
    assert SumRange(OnTerms(p, 1), 0, 1) == 1.0 by { assert OnTerms(p, 1)[0] == 1.0; }
    assert SumRange(OffTerms(p, 0), 0, 1) == 0.0 by { assert OffTerms(p, 0)[0] == 0.0; }
    assert SumRange(OffTerms(p, 1), 0, 1) == 0.0 by { assert OffTerms(p, 1)[0] == 0.0; }
  }

  /** The root of the problem above that activates control 0: a queued
      leaf with bound 0. */
  lemma UnderReportedRoot(p: Problem, on: seq<seq<real>>, off: seq<seq<real>>)
    requires p == Problem([1.0], [[1.0], [1.0]], 2, 1, [1, 0], [0.0, 0.0], [0.0, 0.0], [], [0.0, 0.0], 0)
    requires on == [[1.0], [1.0]] && off == [[0.0], [0.0]]
    ensures TailTables(p, on, off)
    ensures var y := ChildOf(p, on, off, RootParent(p), 0);
      y in Roots(p, on, off) && y.lb == 0.0 && y.depth == 1 && y.ancestors == [] && y.bActive == 0
  {
    UnderReportedTables(p, on, off);
    var x := RootParent(p);
    RootParentOk(p, on, off);
    var y := ChildOf(p, on, off, x, 0);
    UnderReportedChild(p, on, off);
    AllChildrenLast(p, on, off, x, 0);
    AllChildrenGrow(p, on, off, x, 1, y);
  }

  /** The child of the problem above that activates control 0 reaches the
      horizon with `eta` and bound 0. */
  lemma UnderReportedChild(p: Problem, on: seq<seq<real>>, off: seq<seq<real>>)
    requires p == Problem([1.0], [[1.0], [1.0]], 2, 1, [1, 0], [0.0, 0.0], [0.0, 0.0], [], [0.0, 0.0], 0)
    requires on == [[1.0], [1.0]] && off == [[0.0], [0.0]] && TailTables(p, on, off)
    ensures var x := RootParent(p);
      var r := IntendedChild(p, on, off, 0, x.control, x.eta, x.sigma, x.mdt, x.depth, x.lb, x.lbInit);
      r.depth == 1 && r.lb == 0.0
  {
    var x := RootParent(p);
    var r := IntendedChild(p, on, off, 0, x.control, x.eta, x.sigma, x.mdt, x.depth, x.lb, x.lbInit);
    ChildEtaCase(p, on, off, 0, x.control, x.eta, x.sigma, x.mdt, x.depth, x.lb, x.lbInit, 0);
    ChildEtaCase(p, on, off, 0, x.control, x.eta, x.sigma, x.mdt, x.depth, x.lb, x.lbInit, 1);
    ChildDepthRange(p, on, off, 0, x.control, x.eta, x.sigma, x.mdt, x.depth, x.lb, x.lbInit);
    ChildSwitchCounts(p, on, off, 0, x.control, x.eta, x.sigma, x.mdt, x.depth, x.lb, x.lbInit);
    assert DevTerms(p, 0, 0)[0] == 0.0;
    assert r.eta[0] == 0.0 && r.eta[1] == 0.0;
    assert r.eta[..1][..0] == [];
    assert FoldMaxAbs(0.0, r.eta) == 0.0;
  }

  /** Painting control 0 on the single interval of the problem above
      leaves control 1 a whole interval behind. */
  lemma UnderReportedObjective(p: Problem)
    requires p == Problem([1.0], [[1.0], [1.0]], 2, 1, [1, 0], [0.0, 0.0], [0.0, 0.0], [], [0.0, 0.0], 0)
    ensures Objective(p, [Block(0, 1)]) == 1.0
  {
    var chain := [Block(0, 1)];
    assert chain[..0] == [];
    assert Active(chain, 0, 0) && !Active(chain, 1, 0);
    var rows := PaintedRows(p, chain);
    assert rows[0] == [1.0] && rows[1] == [0.0];
    var d := SUR.Deviations(p.bRel, rows, p.dt, 1);
    assert d[0] == SUR.Deviation(p.bRel[0], rows[0], p.dt, 0) + 1.0 * 1.0 - 1.0 * 1.0 == 0.0;
    assert d[1] == SUR.Deviation(p.bRel[1], rows[1], p.dt, 0) + 1.0 * 1.0 - 0.0 * 1.0 == 1.0;
    assert d == [0.0, 1.0];
    assert MaxAbs(d) == 1.0 by { assert d[..1] == [0.0]; assert [0.0][..0] == []; }
  }

  /** Under a chain whose blocks keep their order, the blocks from `0`
      on paint exactly what `Active` says. */
  lemma {:induction false} ActiveFromIsActive(chain: seq<Block>, nC: nat, nT: nat, c: nat, i: nat)
    requires ChainOk(chain, nC, nT)
    ensures ActiveFrom(chain, 0, c, i) <==> Active(chain, c, i)
    decreases |chain|
  {
    if |chain| > 0 {
      var init := chain[..|chain| - 1];
      var last := chain[|chain| - 1];
      assert ChainOk(init, nC, nT);
      ActiveFromIsActive(init, nC, nT, c, i);
      ActiveFromSnoc(chain, c, i);
      if ChainEnd(init) <= i {
        EndsBefore(init, nC, nT, c, i);
      }
    }
  }

  /** The blocks of a chain are those of its prefix and its last one. */
  lemma ActiveFromSnoc(chain: seq<Block>, c: nat, i: nat)
    requires |chain| > 0
    ensures var init := chain[..|chain| - 1];
      ActiveFrom(chain, 0, c, i) <==>
        ActiveFrom(init, 0, c, i) ||
        (chain[|chain| - 1].control == c && ChainEnd(init) <= i < chain[|chain| - 1].depth)
  {
    var init := chain[..|chain| - 1];
    var n := |chain| - 1;
    if ActiveFrom(chain, 0, c, i) {
      var k :| 0 <= k < |chain| && chain[k].control == c && BlockStart(chain, k) <= i < chain[k].depth;
      if k < n {
        assert init[k] == chain[k] && BlockStart(init, k) == BlockStart(chain, k);
      }
    }
    if ActiveFrom(init, 0, c, i) {
      var k :| 0 <= k < |init| && init[k].control == c && BlockStart(init, k) <= i < init[k].depth;
      assert init[k] == chain[k] && BlockStart(init, k) == BlockStart(chain, k);
    }
    if chain[n].control == c && ChainEnd(init) <= i < chain[n].depth {
      assert BlockStart(chain, n) <= i;
    }
  }

  /** No block of a chain reaches past its end. */
  lemma EndsBefore(chain: seq<Block>, nC: nat, nT: nat, c: nat, i: nat)
    requires ChainOk(chain, nC, nT) && ChainEnd(chain) <= i
    ensures !ActiveFrom(chain, 0, c, i)
  {
    forall k | 0 <= k < |chain| ensures chain[k].depth <= i {
      if k < |chain| - 1 {
        assert chain[k].depth < chain[|chain| - 1].depth;
      }
    }
  }

  /** A chain painted onto the zero matrix of the constructor has the
      objective of the chain. */
  lemma PaintedObjective(p: Problem, chain: seq<Block>, b: seq<seq<nat>>)
    requires WellFormed(p) && ChainOk(chain, p.nC, p.nT)
    requires Painted(p, Repeat(Repeat<nat>(0, p.nT), p.nC), chain, b)
    ensures BinaryObjective(p, b) == Objective(p, chain)
  {
    forall c: nat, i: nat | c < p.nC && i < p.nT ensures b[c][i] == if Active(chain, c, i) then 1 else 0 {
      ActiveFromIsActive(chain, p.nC, p.nT, c, i);
    }
    RowsAgree(p, chain, b);
  }

  /** An improved bound retrieved onto the zero matrix is at most the
      max-norm deviation of the retrieved `b_bin`, and equal to it when
      every control may switch at least once. */
  lemma RetrievedBound(p: Problem, on: seq<seq<real>>, off: seq<seq<real>>, b: seq<seq<nat>>, ub0: real, ub: real)
    requires WellFormed(p) && TailTables(p, on, off)
    requires Retrieved(p, on, off, Repeat(Repeat<nat>(0, p.nT), p.nC), b, ub0, ub) && ub < ub0
    ensures |b| == p.nC && forall c :: 0 <= c < p.nC ==> |b[c]| == p.nT
    ensures ub <= BinaryObjective(p, b)
    ensures InputsInRange(p) && EveryControlSwitches(p) ==> ub == BinaryObjective(p, b)
  {
    var y :| Reachable(p, on, off, y) && NodeShaped(p, y) && Leaf(p, y) && y.lb == ub && ub <= ub0 &&
      Painted(p, Repeat(Repeat<nat>(0, p.nT), p.nC), FullChain(y), b);
    ReachableLeafBound(p, on, off, y);
    PaintedObjective(p, FullChain(y), b);
  }

  /** The incumbent painted onto the zero matrix: its bound is at most the
      max-norm deviation of `b_bin`, and equal to it when every control
      may switch at least once. */
  lemma IncumbentBound(p: Problem, on: seq<seq<real>>, off: seq<seq<real>>, y: Node, b: seq<seq<nat>>)
    requires WellFormed(p) && TailTables(p, on, off) && IncumbentInTree(p, on, off, Some(y))
    requires NodeShaped(p, y) && Leaf(p, y) && Painted(p, Repeat(Repeat<nat>(0, p.nT), p.nC), FullChain(y), b)
    ensures y.lb <= BinaryObjective(p, b)
    ensures InputsInRange(p) && EveryControlSwitches(p) ==> y.lb == BinaryObjective(p, b)
  {
    assert Reachable(p, on, off, Slot([y], 0));
    ReachableLeafBound(p, on, off, y);
    PaintedObjective(p, FullChain(y), b);
  }
}
