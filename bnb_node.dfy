// The child-counting nodes of the native engine and their priority order
// (src/combina_bnb_solver/BnBNode.cpp and BnBNodeComparison.cpp).  A node
// counts its live children: building a child increments the parent's
// counter, destroying it decrements the counter.  The self-deletion when
// the counter reaches zero is commented out in this file, so a node with
// no children left stays alive.  Pointers become ids in an arena `nodes`.

module BnBNodes {
  import opened Common
  import opened Nodes

  /** `BnBNode`: parent, active control, switch counts, depth, accumulated
      deviations, branch bound and the live-children counter. */
  datatype BnBNode = BnBNode(
    parent: Option<nat>,
    activeControl: nat,
    sigma: seq<nat>,
    depth: nat,
    etaNode: seq<real>,
    lbBranch: real,
    nActiveChildren: nat)

  /** The live nodes whose parent is `p`. */
  function ChildrenOf(nodes: map<nat, BnBNode>, p: nat): set<nat>
  {
    set c | c in nodes && nodes[c].parent == Some(p)
  }

  /** Every live node's parent is another live node, and every counter is
      the number of live children. */
  predicate Counted(nodes: map<nat, BnBNode>)
  {
    (forall c :: c in nodes && nodes[c].parent.Some? ==>
      nodes[c].parent.value != c && nodes[c].parent.value in nodes) &&
    (forall p :: p in nodes ==> nodes[p].nActiveChildren == |ChildrenOf(nodes, p)|)
  }

  /** Adding a node `id` with parent `p` adds it to `p`'s children only. */
  lemma ChildrenAfterAdd(nodes: map<nat, BnBNode>, id: nat, n: BnBNode, q: nat)
    requires id !in nodes
    ensures ChildrenOf(nodes[id := n], q) ==
      if n.parent == Some(q) then ChildrenOf(nodes, q) + {id} else ChildrenOf(nodes, q)
  {
  }

  /** Changing a node's counter leaves every set of children as it was. */
  lemma ChildrenAfterCount(nodes: map<nat, BnBNode>, p: nat, k: nat, q: nat)
    requires p in nodes
    ensures ChildrenOf(nodes[p := nodes[p].(nActiveChildren := k)], q) == ChildrenOf(nodes, q)
  {
  }

  /** Removing node `id` removes it from its parent's children only. */
  lemma ChildrenAfterRemove(nodes: map<nat, BnBNode>, id: nat, q: nat)
    requires id in nodes
    ensures ChildrenOf(nodes - {id}, q) ==
      if nodes[id].parent == Some(q) then ChildrenOf(nodes, q) - {id} else ChildrenOf(nodes, q)
  {
  }

  /** The arena after building node `id`: the new node has no live child
      and its parent counts one more. */
  function Built(nodes: map<nat, BnBNode>, id: nat, n: BnBNode): map<nat, BnBNode>
    requires n.parent.Some? ==> n.parent.value in nodes
  {
    if n.parent.Some? then
      var p := n.parent.value;
      nodes[id := n][p := nodes[p].(nActiveChildren := nodes[p].nActiveChildren + 1)]
    else nodes[id := n]
  }

  /** The arena after destroying node `id` without deleting anything else:
      its parent counts one fewer. */
  function Destroyed(nodes: map<nat, BnBNode>, id: nat): (r: map<nat, BnBNode>)
    requires id in nodes
    ensures r.Keys == nodes.Keys - {id}
  {
    var rest := nodes - {id};
    var p := nodes[id].parent;
    if p.Some? && p.value in rest && rest[p.value].nActiveChildren > 0 then
      rest[p.value := rest[p.value].(nActiveChildren := rest[p.value].nActiveChildren - 1)]
    else rest
  }

  /** Building a node with counter zero under a live parent keeps every
      counter exact. */
  lemma BuiltCounted(nodes: map<nat, BnBNode>, id: nat, n: BnBNode)
    requires Counted(nodes) && id !in nodes && n.nActiveChildren == 0
    requires n.parent.Some? ==> n.parent.value in nodes
    ensures Counted(Built(nodes, id, n))
  {
    var m := Built(nodes, id, n);
    forall q | q in m ensures m[q].nActiveChildren == |ChildrenOf(m, q)| {
      BuiltCount(nodes, id, n, q);
    }
  }

  lemma BuiltCount(nodes: map<nat, BnBNode>, id: nat, n: BnBNode, q: nat)
    requires Counted(nodes) && id !in nodes && n.nActiveChildren == 0
    requires n.parent.Some? ==> n.parent.value in nodes
    requires q in Built(nodes, id, n)
    ensures Built(nodes, id, n)[q].nActiveChildren == |ChildrenOf(Built(nodes, id, n), q)|
  {
    ChildrenAfterAdd(nodes, id, n, q);
    if n.parent.Some? {
      var p := n.parent.value;
      ChildrenAfterCount(nodes[id := n], p, nodes[p].nActiveChildren + 1, q);
    }
    if q == id {
      assert forall c :: c in nodes ==> nodes[c].parent != Some(id);
      assert ChildrenOf(nodes, id) == {};
    } else if n.parent == Some(q) {
      assert id !in ChildrenOf(nodes, q);
    }
  }

  /** Destroying a node with no live child keeps every counter exact. */
  lemma DestroyedCounted(nodes: map<nat, BnBNode>, id: nat)
    requires Counted(nodes) && id in nodes && nodes[id].nActiveChildren == 0
    ensures Counted(Destroyed(nodes, id))
  {
    var m := Destroyed(nodes, id);
    forall c | c in m && m[c].parent.Some?
      ensures m[c].parent.value != c && m[c].parent.value in m
    {
      DestroyedParent(nodes, id, c);
    }
    forall q | q in m ensures m[q].nActiveChildren == |ChildrenOf(m, q)| {
      DestroyedCount(nodes, id, q);
    }
  }

  lemma DestroyedParent(nodes: map<nat, BnBNode>, id: nat, c: nat)
    requires Counted(nodes) && id in nodes && nodes[id].nActiveChildren == 0
    requires c in Destroyed(nodes, id) && Destroyed(nodes, id)[c].parent.Some?
    ensures Destroyed(nodes, id)[c].parent.value != c
    ensures Destroyed(nodes, id)[c].parent.value in Destroyed(nodes, id)
  {
    assert ChildrenOf(nodes, id) == {};
    assert c !in ChildrenOf(nodes, id);
  }

  lemma DestroyedCount(nodes: map<nat, BnBNode>, id: nat, q: nat)
    requires Counted(nodes) && id in nodes && nodes[id].nActiveChildren == 0
    requires q in Destroyed(nodes, id)
    ensures Destroyed(nodes, id)[q].nActiveChildren == |ChildrenOf(Destroyed(nodes, id), q)|
  {
    if nodes[id].parent == Some(q) {
      DestroyedCountParent(nodes, id, q);
    } else {
      DestroyedCountOther(nodes, id, q);
    }
  }

  lemma DestroyedCountParent(nodes: map<nat, BnBNode>, id: nat, q: nat)
    requires id in nodes && q in nodes && q != id && nodes[id].parent == Some(q)
    requires nodes[q].nActiveChildren == |ChildrenOf(nodes, q)|
    ensures q in Destroyed(nodes, id)
    ensures Destroyed(nodes, id)[q].nActiveChildren == |ChildrenOf(Destroyed(nodes, id), q)|
  {
    var rest := nodes - {id};
    var kids := ChildrenOf(nodes, q);
    assert id in kids;
    assert |kids - {id}| == |kids| - 1;
    var k := rest[q].nActiveChildren;
    assert k == |kids|;
    var m := rest[q := rest[q].(nActiveChildren := k - 1)];
    assert Destroyed(nodes, id) == m;
    ChildrenAfterRemove(nodes, id, q);
    ChildrenAfterCount(rest, q, k - 1, q);
  }

  lemma DestroyedCountOther(nodes: map<nat, BnBNode>, id: nat, q: nat)
    requires id in nodes && q in nodes && q != id && nodes[id].parent != Some(q)
    requires nodes[q].nActiveChildren == |ChildrenOf(nodes, q)|
    ensures q in Destroyed(nodes, id)
    ensures Destroyed(nodes, id)[q].nActiveChildren == |ChildrenOf(Destroyed(nodes, id), q)|
  {
    var rest := nodes - {id};
    var p := nodes[id].parent;
    ChildrenAfterRemove(nodes, id, q);
    assert ChildrenOf(rest, q) == ChildrenOf(nodes, q);
    if p.Some? && p.value in rest && rest[p.value].nActiveChildren > 0 {
      var m := rest[p.value := rest[p.value].(nActiveChildren := rest[p.value].nActiveChildren - 1)];
      assert Destroyed(nodes, id) == m;
      assert m[q] == nodes[q];
      ChildrenAfterCount(rest, p.value, rest[p.value].nActiveChildren - 1, q);
    } else {
      assert Destroyed(nodes, id) == rest;
      assert rest[q] == nodes[q];
    }
  }

  /** The arena of live counted nodes. */
  class BnBNodeArena {
    var nodes: map<nat, BnBNode>

    ghost predicate Valid()
      reads this
    {
      Counted(nodes)
    }

    constructor ()
      ensures Valid() && nodes == map[]
    {
      nodes := map[];
    }

    /** `BnBNode(ptr_parent_node, ...)`: the counter starts at zero and the
        parent's `child_node_becomes_active` increments its counter. */
    method Create(id: nat, parent: Option<nat>, activeControl: nat, sigma: seq<nat>, depth: nat,
                  etaNode: seq<real>, lbBranch: real)
      requires Valid() && id !in nodes && (parent.Some? ==> parent.value in nodes)
      modifies this
      ensures Valid()
      ensures nodes == Built(old(nodes), id, BnBNode(parent, activeControl, sigma, depth, etaNode, lbBranch, 0))
      ensures nodes[id].nActiveChildren == 0
      ensures parent.Some? ==>
        nodes[parent.value].nActiveChildren == old(nodes)[parent.value].nActiveChildren + 1
    {
      var n := BnBNode(parent, activeControl, sigma, depth, etaNode, lbBranch, 0);
      BuiltCounted(nodes, id, n);
      nodes := nodes[id := n];
      if parent.Some? {
        var p := parent.value;
        nodes := nodes[p := nodes[p].(nActiveChildren := nodes[p].nActiveChildren + 1)];
      }
    }

    /** `~BnBNode()` of a node with no live child: the parent's
        `child_node_becomes_inactive` decrements its counter; reaching zero
        deletes nothing, because the `delete this` is commented out. */
    method Destroy(id: nat)
      requires Valid() && id in nodes && nodes[id].nActiveChildren == 0
      modifies this
      ensures Valid()
      ensures nodes == Destroyed(old(nodes), id)
      ensures id !in nodes
      ensures old(nodes)[id].parent.Some? ==>
        var p := old(nodes)[id].parent.value;
        p in nodes && nodes[p].nActiveChildren == old(nodes)[p].nActiveChildren - 1
    {
      DestroyedCounted(nodes, id);
      var parent := nodes[id].parent;
      if parent.Some? {
        assert id in ChildrenOf(nodes, parent.value);
      }
      nodes := Destroyed(nodes, id);
    }
  }

  /** `get_max_sigma` of a node. */
  function MaxSigmaOf(n: BnBNode): nat
    requires |n.sigma| > 0
  {
    MaxSigma(n.sigma)
  }

  /** The order the comparator encodes, stated on keys: a node is better
      when its branch bound is smaller, then when it is deeper, then when
      its largest switch count is smaller. */
  predicate Better(a: BnBNode, b: BnBNode)
    requires |a.sigma| > 0 && |b.sigma| > 0
  {
    a.lbBranch < b.lbBranch ||
    (a.lbBranch == b.lbBranch && a.depth > b.depth) ||
    (a.lbBranch == b.lbBranch && a.depth == b.depth && MaxSigmaOf(a) < MaxSigmaOf(b))
  }

  /** `BnBNodeComparison::operator()(a, b)`: `a` ranks below `b` in the
      priority queue exactly when `b` is the better node. */
  function BnBNodeComparison(a: BnBNode, b: BnBNode): (r: bool)
    requires |a.sigma| > 0 && |b.sigma| > 0
    ensures r <==> Better(b, a)
  {
    if a.lbBranch != b.lbBranch then a.lbBranch > b.lbBranch
    else if a.depth != b.depth then a.depth < b.depth
    else MaxSigmaOf(a) > MaxSigmaOf(b)
  }

  /** The comparator is a strict weak order, as `std::priority_queue`
      requires; equivalent nodes agree on all three keys. */
  lemma ComparisonStrictWeakOrder(a: BnBNode, b: BnBNode, c: BnBNode)
    requires |a.sigma| > 0 && |b.sigma| > 0 && |c.sigma| > 0
    ensures !BnBNodeComparison(a, a)
    ensures BnBNodeComparison(a, b) && BnBNodeComparison(b, c) ==> BnBNodeComparison(a, c)
    ensures !BnBNodeComparison(a, b) && !BnBNodeComparison(b, a) <==>
      a.lbBranch == b.lbBranch && a.depth == b.depth && MaxSigmaOf(a) == MaxSigmaOf(b)
  {
  }

  /** The queue's top, a node no other node outranks, has the smallest
      branch bound, then the largest depth, then the fewest switches. */
  lemma TopIsLowestThenDeepest(s: seq<BnBNode>, t: nat)
    requires t < |s| && forall j :: 0 <= j < |s| ==> |s[j].sigma| > 0
    requires forall j :: 0 <= j < |s| ==> !BnBNodeComparison(s[t], s[j])
    ensures forall j :: 0 <= j < |s| ==> s[t].lbBranch <= s[j].lbBranch
    ensures forall j :: 0 <= j < |s| && s[j].lbBranch == s[t].lbBranch ==> s[t].depth >= s[j].depth
    ensures forall j :: 0 <= j < |s| && s[j].lbBranch == s[t].lbBranch && s[j].depth == s[t].depth ==>
      MaxSigmaOf(s[t]) <= MaxSigmaOf(s[j])
  {
    forall j | 0 <= j < |s| ensures s[t].lbBranch <= s[j].lbBranch {
      assert !Better(s[j], s[t]);
    }
  }
}
