// The child-counting nodes of the legacy native solver
// (pycombina/src/BnBNode.cpp).  They carry the same data as the engine's
// nodes (module BnBNodes; the bound field holds `eta_branch`) and count
// their live children the same way, but here a node whose counter drops
// to zero deletes itself, and its destructor in turn decrements its own
// parent: destroying a leaf can delete a whole chain of ancestors.

module LegacyNodes {
  import opened Common
  import opened BnBNodes

  /** The arena after `delete` of node `id`: the destructor decrements the
      parent, and a parent whose counter drops from one to zero is deleted
      the same way. */
  function Cascade(nodes: map<nat, BnBNode>, id: nat): (r: map<nat, BnBNode>)
    requires id in nodes
    ensures id !in r && r.Keys <= nodes.Keys
    decreases |nodes.Keys|
  {
    var m := Destroyed(nodes, id);
    var p := nodes[id].parent;
    assert |m.Keys| < |nodes.Keys| by {
      assert m.Keys < nodes.Keys;
    }
    if p.Some? && p.value in m && nodes[p.value].nActiveChildren == 1 then Cascade(m, p.value)
    else m
  }

  /** The nodes deleted by `delete` of node `id`, in deletion order. */
  function Doomed(nodes: map<nat, BnBNode>, id: nat): (r: seq<nat>)
    requires id in nodes
    ensures |r| >= 1 && r[0] == id
    ensures forall k :: 0 <= k < |r| ==> r[k] in nodes
    decreases |nodes.Keys|
  {
    var m := Destroyed(nodes, id);
    var p := nodes[id].parent;
    assert |m.Keys| < |nodes.Keys| by {
      assert m.Keys < nodes.Keys;
    }
    [id] + (if p.Some? && p.value in m && nodes[p.value].nActiveChildren == 1 then Doomed(m, p.value)
            else [])
  }

  /** Destroying one node changes no field of a surviving node but the
      counter. */
  lemma DestroyedKeepsFields(nodes: map<nat, BnBNode>, id: nat, q: nat)
    requires id in nodes && q in Destroyed(nodes, id)
    ensures Destroyed(nodes, id)[q] == nodes[q].(nActiveChildren := Destroyed(nodes, id)[q].nActiveChildren)
  {
  }

  /** Inside a counted arena, destroying a node whose parent counts more
      than one live child only decrements that parent. */
  lemma DestroyedParentCount(nodes: map<nat, BnBNode>, id: nat)
    requires Counted(nodes) && id in nodes && nodes[id].parent.Some?
    ensures nodes[id].parent.value in Destroyed(nodes, id)
    ensures Destroyed(nodes, id)[nodes[id].parent.value].nActiveChildren
      == nodes[nodes[id].parent.value].nActiveChildren - 1
  {
    var p := nodes[id].parent.value;
    assert id in ChildrenOf(nodes, p);
  }

  /** Deleting a childless node keeps every counter of a counted arena
      exact, however far the deletion cascades. */
  lemma {:induction false} CascadeCounted(nodes: map<nat, BnBNode>, id: nat)
    requires Counted(nodes) && id in nodes && nodes[id].nActiveChildren == 0
    ensures Counted(Cascade(nodes, id))
    decreases |nodes.Keys|
  {
    var m := Destroyed(nodes, id);
    DestroyedCounted(nodes, id);
    var p := nodes[id].parent;
    assert m.Keys < nodes.Keys;
    if p.Some? && p.value in m && nodes[p.value].nActiveChildren == 1 {
      DestroyedParentCount(nodes, id);
      CascadeCounted(m, p.value);
    }
  }

  /** The deleted nodes are `id` followed by its ancestors, each the parent
      of the one before. */
  lemma {:induction false} DoomedChain(nodes: map<nat, BnBNode>, id: nat)
    requires id in nodes
    ensures forall k :: 0 <= k < |Doomed(nodes, id)| - 1 ==>
      nodes[Doomed(nodes, id)[k]].parent == Some(Doomed(nodes, id)[k + 1])
    decreases |nodes.Keys|
  {
    var m := Destroyed(nodes, id);
    var p := nodes[id].parent;
    assert m.Keys < nodes.Keys;
    if p.Some? && p.value in m && nodes[p.value].nActiveChildren == 1 {
      DoomedChain(m, p.value);
      var d := Doomed(m, p.value);
      assert Doomed(nodes, id) == [id] + d;
      forall k | 0 <= k < |d| - 1
        ensures nodes[d[k]].parent == Some(d[k + 1])
      {
        DestroyedKeepsFields(nodes, id, d[k]);
      }
    }
  }

  /** Exactly the doomed nodes disappear from the arena. */
  lemma {:induction false} CascadeKeys(nodes: map<nat, BnBNode>, id: nat)
    requires id in nodes
    ensures Cascade(nodes, id).Keys == nodes.Keys - (set k | k in Doomed(nodes, id))
    decreases |nodes.Keys|
  {
    var m := Destroyed(nodes, id);
    var p := nodes[id].parent;
    assert m.Keys < nodes.Keys;
    if p.Some? && p.value in m && nodes[p.value].nActiveChildren == 1 {
      CascadeKeys(m, p.value);
      assert Doomed(nodes, id) == [id] + Doomed(m, p.value);
    } else {
      assert Doomed(nodes, id) == [id];
    }
  }

  /** A surviving node keeps every field but its counter. */
  lemma {:induction false} CascadeKeepsFields(nodes: map<nat, BnBNode>, id: nat, q: nat)
    requires id in nodes && q in Cascade(nodes, id)
    ensures Cascade(nodes, id)[q] == nodes[q].(nActiveChildren := Cascade(nodes, id)[q].nActiveChildren)
    decreases |nodes.Keys|
  {
    var m := Destroyed(nodes, id);
    var p := nodes[id].parent;
    assert m.Keys < nodes.Keys;
    if p.Some? && p.value in m && nodes[p.value].nActiveChildren == 1 {
      CascadeKeepsFields(m, p.value, q);
    }
    DestroyedKeepsFields(nodes, id, q);
  }

  /** A node is deleted only once every one of its live children has been
      deleted before it. */
  lemma {:induction false} DoomedChildless(nodes: map<nat, BnBNode>, id: nat, q: nat)
    requires Counted(nodes) && id in nodes && nodes[id].nActiveChildren == 0
    requires q in Doomed(nodes, id)
    ensures ChildrenOf(nodes, q) <= (set k | k in Doomed(nodes, id))
    decreases |nodes.Keys|
  {
    var m := Destroyed(nodes, id);
    var p := nodes[id].parent;
    assert m.Keys < nodes.Keys;
    if q == id {
      assert ChildrenOf(nodes, id) == {};
    } else {
      assert p.Some? && p.value in m && nodes[p.value].nActiveChildren == 1;
      assert Doomed(nodes, id) == [id] + Doomed(m, p.value);
      DestroyedCounted(nodes, id);
      DestroyedParentCount(nodes, id);
      DoomedChildless(m, p.value, q);
      forall c | c in ChildrenOf(nodes, q) && c != id
        ensures c in ChildrenOf(m, q)
      {
        DestroyedKeepsFields(nodes, id, c);
      }
    }
  }

  /** The last node a deletion of `id` removes. */
  function LastDoomed(nodes: map<nat, BnBNode>, id: nat): (r: nat)
    requires id in nodes
    ensures r in nodes
  {
    var d := Doomed(nodes, id);
    d[|d| - 1]
  }

  /** The parent of the last deleted node, when it is live, survives the
      deletion with a positive counter. */
  ghost predicate StopsAtLiveParent(nodes: map<nat, BnBNode>, id: nat)
    requires id in nodes
  {
    var top := nodes[LastDoomed(nodes, id)].parent;
    top.Some? && top.value in nodes ==>
      top.value in Cascade(nodes, id) && Cascade(nodes, id)[top.value].nActiveChildren > 0
  }

  /** The deletion climbs as far as it must: the first surviving ancestor
      still has a live child, so its counter stays positive. */
  lemma {:induction false} CascadeStops(nodes: map<nat, BnBNode>, id: nat)
    requires Counted(nodes) && id in nodes && nodes[id].nActiveChildren == 0
    ensures StopsAtLiveParent(nodes, id)
    decreases |nodes.Keys|
  {
    var m := Destroyed(nodes, id);
    var p := nodes[id].parent;
    assert m.Keys < nodes.Keys;
    if p.Some? && p.value in m && nodes[p.value].nActiveChildren == 1 {
      DestroyedCounted(nodes, id);
      DestroyedParentCount(nodes, id);
      CascadeStops(m, p.value);
      CascadeStopsStep(nodes, id);
    } else {
      CascadeStopsHere(nodes, id);
    }
  }

  lemma CascadeStopsStep(nodes: map<nat, BnBNode>, id: nat)
    requires Counted(nodes) && id in nodes && nodes[id].nActiveChildren == 0
    requires var p := nodes[id].parent;
      p.Some? && p.value in Destroyed(nodes, id) && nodes[p.value].nActiveChildren == 1
    requires StopsAtLiveParent(Destroyed(nodes, id), nodes[id].parent.value)
    ensures StopsAtLiveParent(nodes, id)
  {
    var m := Destroyed(nodes, id);
    var p := nodes[id].parent.value;
    var d := Doomed(m, p);
    assert Doomed(nodes, id) == [id] + d;
    var last := LastDoomed(m, p);
    assert LastDoomed(nodes, id) == last;
    assert Cascade(nodes, id) == Cascade(m, p);
    DestroyedKeepsFields(nodes, id, last);
    var top := nodes[last].parent;
    assert m[last].parent == top;
    if top.Some? && top.value in nodes {
      assert top.value != id by {
        NoChildOfChildless(nodes, id, last);
      }
      assert top.value in m;
    }
  }

  /** In a counted arena, nothing names a node with a zero counter as its
      parent. */
  lemma NoChildOfChildless(nodes: map<nat, BnBNode>, id: nat, c: nat)
    requires Counted(nodes) && id in nodes && nodes[id].nActiveChildren == 0 && c in nodes
    ensures nodes[c].parent != Some(id)
  {
    assert ChildrenOf(nodes, id) == {};
    assert c !in ChildrenOf(nodes, id);
  }

  lemma CascadeStopsHere(nodes: map<nat, BnBNode>, id: nat)
    requires Counted(nodes) && id in nodes && nodes[id].nActiveChildren == 0
    requires var p := nodes[id].parent;
      !(p.Some? && p.value in Destroyed(nodes, id) && nodes[p.value].nActiveChildren == 1)
    ensures StopsAtLiveParent(nodes, id)
  {
    assert Doomed(nodes, id) == [id];
    var p := nodes[id].parent;
    if p.Some? && p.value in nodes {
      DestroyedParentCount(nodes, id);
      assert nodes[p.value].nActiveChildren >= 1 by {
        assert id in ChildrenOf(nodes, p.value);
      }
    }
  }

  /** A live sibling keeps the parent alive: the deletion stops after
      decrementing the parent's counter. */
  lemma SiblingStopsCascade(nodes: map<nat, BnBNode>, id: nat, sibling: nat)
    requires Counted(nodes) && id in nodes && sibling in nodes && sibling != id
    requires nodes[id].parent.Some? && nodes[sibling].parent == nodes[id].parent
    ensures Cascade(nodes, id) == Destroyed(nodes, id)
    ensures Doomed(nodes, id) == [id]
  {
    var p := nodes[id].parent.value;
    assert {id, sibling} <= ChildrenOf(nodes, p);
    assert |{id, sibling}| == 2;
    CardinalityMonotone({id, sibling}, ChildrenOf(nodes, p));
  }

  /** An only child takes its parent with it. */
  lemma OnlyChildTakesParent(nodes: map<nat, BnBNode>, id: nat)
    requires Counted(nodes) && id in nodes && nodes[id].parent.Some?
    requires nodes[nodes[id].parent.value].nActiveChildren == 1
    ensures nodes[id].parent.value !in Cascade(nodes, id)
    ensures |Doomed(nodes, id)| >= 2 && Doomed(nodes, id)[1] == nodes[id].parent.value
  {
    var p := nodes[id].parent.value;
    var m := Destroyed(nodes, id);
    assert p in m;
  }

  lemma CardinalityMonotone(a: set<nat>, b: set<nat>)
    requires a <= b
    ensures |a| <= |b|
  {
    assert b == a + (b - a);
  }

  /** The arena of live legacy nodes. */
  class LegacyNodeArena {
    var nodes: map<nat, BnBNode>

    ghost predicate Valid()
      reads this
    {
      Counted(nodes)
    }

    constructor ()
      ensures Valid() && nodes == map[]
    {
      nodes := map[];
    }

    /** `BnBNode(ptr_parent_node, ...)`: the new node stores its arguments
        with a zero counter, and a parent's `child_node_becomes_active`
        increments the parent's counter. */
    method Create(id: nat, parent: Option<nat>, activeControl: nat, sigma: seq<nat>, depth: nat,
                  etaNode: seq<real>, etaBranch: real)
      requires Valid() && id !in nodes && (parent.Some? ==> parent.value in nodes)
      modifies this
      ensures Valid()
      ensures nodes == Built(old(nodes), id, BnBNode(parent, activeControl, sigma, depth, etaNode, etaBranch, 0))
      ensures nodes[id] == BnBNode(parent, activeControl, sigma, depth, etaNode, etaBranch, 0)
      ensures parent.Some? ==>
        nodes[parent.value].nActiveChildren == old(nodes)[parent.value].nActiveChildren + 1
    {
      var n := BnBNode(parent, activeControl, sigma, depth, etaNode, etaBranch, 0);
      BuiltCounted(nodes, id, n);
      nodes := Built(nodes, id, n);
    }

    /** `delete` of a node with no live child: `~BnBNode` calls the parent's
        `child_node_becomes_inactive`, which decrements the counter and, at
        zero, deletes the parent in turn. */
    method Destroy(id: nat)
      requires Valid() && id in nodes && nodes[id].nActiveChildren == 0
      modifies this
      ensures Valid()
      ensures nodes == Cascade(old(nodes), id)
    {
      var cur := id;
      var going := true;
      ghost var target := Cascade(nodes, id);
      while going
        invariant going ==> Counted(nodes) && cur in nodes && nodes[cur].nActiveChildren == 0
        invariant going ==> Cascade(nodes, cur) == target
        invariant !going ==> nodes == target && Counted(nodes)
        decreases |nodes.Keys|, going
      {
        CascadeCounted(nodes, cur);
        DestroyedCounted(nodes, cur);
        ghost var before := nodes;
        var parent := nodes[cur].parent;
        nodes := nodes - {cur};
        if parent.Some? && parent.value in nodes {
          var p := parent.value;
          DestroyedParentCount(before, cur);
          var k := nodes[p].nActiveChildren - 1;
          nodes := nodes[p := nodes[p].(nActiveChildren := k)];
          assert nodes == Destroyed(before, cur);
          if k == 0 {
            cur := p;
          } else {
            going := false;
          }
        } else {
          assert nodes == Destroyed(before, cur);
          going := false;
        }
      }
    }
  }
}
