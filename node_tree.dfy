// The child-slot bookkeeping of the native engine's nodes
// (src/combina_bnb_solver/Node.cpp): every node holds one slot per
// control for the child that control started; a node registers itself in
// its parent's slot when it is built, clears that slot when it is
// destroyed, and a node whose last slot is cleared deletes itself, which
// clears a slot of its own parent in turn.  Pointers become node ids in an
// arena `nodes`; a node that is not in the arena has been deleted.

module NodeTrees {
  import opened Common

  /** The bookkeeping part of a node: its parent, the control it was
      built for and its child slots. */
  datatype TreeNode = TreeNode(parent: Option<nat>, bActive: nat, slots: seq<Option<nat>>)

  /** `no_children_left` as a property: every slot is null. */
  predicate AllNone(slots: seq<Option<nat>>)
  {
    forall j :: 0 <= j < |slots| ==> slots[j].None?
  }

  /** Parent pointers and child slots agree: a live node's parent is
      another live node and holds it in slot `bActive`, and a filled slot
      names a live node built for that slot. */
  predicate Linked(nodes: map<nat, TreeNode>)
  {
    (forall c :: c in nodes && nodes[c].parent.Some? ==>
      nodes[c].parent.value != c && nodes[c].parent.value in nodes &&
      nodes[c].bActive < |nodes[nodes[c].parent.value].slots| &&
      nodes[nodes[c].parent.value].slots[nodes[c].bActive] == Some(c)) &&
    (forall p, j :: p in nodes && 0 <= j < |nodes[p].slots| && nodes[p].slots[j].Some? ==>
      nodes[p].slots[j].value in nodes &&
      nodes[nodes[p].slots[j].value].parent == Some(p) &&
      nodes[nodes[p].slots[j].value].bActive == j)
  }

  /** Destroying node `id`: it leaves the arena and its parent's slot
      `bActive` is set to null, the first half of `~Node`. */
  function Detach(nodes: map<nat, TreeNode>, id: nat): (r: map<nat, TreeNode>)
    requires id in nodes
    ensures r.Keys == nodes.Keys - {id}
  {
    var n := nodes[id];
    var rest := nodes - {id};
    if n.parent.Some? && n.parent.value in rest && n.bActive < |rest[n.parent.value].slots| then
      var p := n.parent.value;
      rest[p := rest[p].(slots := rest[p].slots[n.bActive := None])]
    else rest
  }

  /** `delete` of node `id` with everything it sets off: the destructor
      clears the parent's slot and, when that was the parent's last child,
      `set_child` deletes the parent the same way. */
  function Cascade(nodes: map<nat, TreeNode>, id: nat): (r: map<nat, TreeNode>)
    requires id in nodes
    decreases |nodes.Keys|
  {
    var m := Detach(nodes, id);
    assert |m.Keys| < |nodes.Keys| by {
      assert m.Keys + {id} == nodes.Keys;
    }
    var p := nodes[id].parent;
    if p.Some? && p.value in m && AllNone(m[p.value].slots) then Cascade(m, p.value) else m
  }

  /** `a` is `x` or one of its ancestors. */
  predicate AncestorOrSelf(nodes: map<nat, TreeNode>, a: nat, x: nat)
    decreases |nodes.Keys|
  {
    a == x ||
    (x in nodes && nodes[x].parent.Some? &&
     (assert |(nodes - {x}).Keys| < |nodes.Keys| by {
        assert (nodes - {x}).Keys + {x} == nodes.Keys;
      }
      AncestorOrSelf(nodes - {x}, a, nodes[x].parent.value)))
  }

  /** In a linked arena no live node has a childless node as its parent. */
  lemma ChildlessHasNoChildren(nodes: map<nat, TreeNode>, id: nat)
    requires Linked(nodes) && id in nodes && AllNone(nodes[id].slots)
    ensures forall c :: c in nodes ==> nodes[c].parent != Some(id)
  {
    forall c | c in nodes
      ensures nodes[c].parent != Some(id)
    {
      assert nodes[c].parent.Some? ==> nodes[nodes[c].parent.value].slots[nodes[c].bActive] == Some(c);
    }
  }

  /** Destroying a childless node keeps the arena linked. */
  lemma DetachLinked(nodes: map<nat, TreeNode>, id: nat)
    requires Linked(nodes) && id in nodes && AllNone(nodes[id].slots)
    ensures Linked(Detach(nodes, id))
  {
    DetachKeepsParents(nodes, id);
    DetachKeepsSlots(nodes, id);
  }

  lemma DetachKeepsParents(nodes: map<nat, TreeNode>, id: nat)
    requires Linked(nodes) && id in nodes && AllNone(nodes[id].slots)
    ensures var m := Detach(nodes, id);
      forall c :: c in m && m[c].parent.Some? ==>
        m[c].parent.value != c && m[c].parent.value in m &&
        m[c].bActive < |m[m[c].parent.value].slots| &&
        m[m[c].parent.value].slots[m[c].bActive] == Some(c)
  {
    ChildlessHasNoChildren(nodes, id);
    var m := Detach(nodes, id);
    var n := nodes[id];
    forall c | c in m && m[c].parent.Some?
      ensures m[c].parent.value != c && m[c].parent.value in m && m[c].bActive < |m[m[c].parent.value].slots| &&
        m[m[c].parent.value].slots[m[c].bActive] == Some(c)
    {
      assert m[c].parent == nodes[c].parent && m[c].bActive == nodes[c].bActive;
      var p := nodes[c].parent.value;
      assert p != id;
      if n.parent == Some(p) {
        assert nodes[p].slots[n.bActive] == Some(id);
        assert n.bActive != nodes[c].bActive;
      }
    }
  }

  lemma DetachKeepsSlots(nodes: map<nat, TreeNode>, id: nat)
    requires Linked(nodes) && id in nodes && AllNone(nodes[id].slots)
    ensures var m := Detach(nodes, id);
      forall p, j :: p in m && 0 <= j < |m[p].slots| && m[p].slots[j].Some? ==>
        m[p].slots[j].value in m &&
        m[m[p].slots[j].value].parent == Some(p) &&
        m[m[p].slots[j].value].bActive == j
  {
    var m := Detach(nodes, id);
    forall p, j | p in m && 0 <= j < |m[p].slots| && m[p].slots[j].Some?
      ensures m[p].slots[j].value in m && m[m[p].slots[j].value].parent == Some(p) &&
        m[m[p].slots[j].value].bActive == j
    {
      assert nodes[p].slots[j] == m[p].slots[j];
      var c := nodes[p].slots[j].value;
      assert nodes[c].parent == Some(p) && nodes[c].bActive == j;
      if c == id {
        assert false;
      }
    }
  }

  /** The cascade keeps the arena linked. */
  lemma {:induction false} CascadeLinked(nodes: map<nat, TreeNode>, id: nat)
    requires Linked(nodes) && id in nodes && AllNone(nodes[id].slots)
    ensures Linked(Cascade(nodes, id))
    decreases |nodes.Keys|
  {
    DetachLinked(nodes, id);
    var m := Detach(nodes, id);
    assert m.Keys + {id} == nodes.Keys;
    var p := nodes[id].parent;
    if p.Some? && p.value in m && AllNone(m[p.value].slots) {
      CascadeLinked(m, p.value);
    }
  }

  /** The cascade deletes `id`. */
  lemma {:induction false} CascadeRemovesSelf(nodes: map<nat, TreeNode>, id: nat)
    requires id in nodes
    ensures id !in Cascade(nodes, id)
    decreases |nodes.Keys|
  {
    var m := Detach(nodes, id);
    assert m.Keys + {id} == nodes.Keys;
    var p := nodes[id].parent;
    if p.Some? && p.value in m && AllNone(m[p.value].slots) {
      CascadeOnly(m, p.value);
    }
  }

  /** The cascade deletes nothing but `id` and some of its ancestors and
      adds nothing. */
  lemma {:induction false} CascadeOnly(nodes: map<nat, TreeNode>, id: nat)
    requires id in nodes
    ensures Cascade(nodes, id).Keys <= nodes.Keys
    ensures forall k :: k in nodes && k !in Cascade(nodes, id) ==> AncestorOrSelf(nodes, k, id)
    decreases |nodes.Keys|
  {
    var m := Detach(nodes, id);
    assert m.Keys + {id} == nodes.Keys;
    var p := nodes[id].parent;
    if p.Some? && p.value in m && AllNone(m[p.value].slots) {
      CascadeOnly(m, p.value);
      forall k | k in nodes && k !in Cascade(nodes, id)
        ensures AncestorOrSelf(nodes, k, id)
      {
        if k != id {
          assert k in m;
          AncestorOrSelfFrame(m, nodes - {id}, k, p.value);
        }
      }
    }
  }

  /** Ancestry depends only on the parent pointers. */
  lemma {:induction false} AncestorOrSelfFrame(m: map<nat, TreeNode>, n: map<nat, TreeNode>, a: nat, x: nat)
    requires m.Keys == n.Keys && forall k :: k in m ==> m[k].parent == n[k].parent
    requires AncestorOrSelf(m, a, x)
    ensures AncestorOrSelf(n, a, x)
    decreases |m.Keys|
  {
    if a != x {
      assert (m - {x}).Keys + {x} == m.Keys;
      AncestorOrSelfFrame(m - {x}, n - {x}, a, m[x].parent.value);
    }
  }

  /** A node that is not `id` or one of its ancestors, nor the parent whose
      slot the cascade clears last, is untouched. */
  lemma {:induction false} CascadeKeepsUnrelated(nodes: map<nat, TreeNode>, id: nat, k: nat)
    requires id in nodes && k in nodes && !AncestorOrSelf(nodes, k, id)
    requires forall c :: c in nodes && nodes[c].parent == Some(k) ==> !AncestorOrSelf(nodes, c, id)
    ensures k in Cascade(nodes, id) && Cascade(nodes, id)[k] == nodes[k]
    decreases |nodes.Keys|
  {
    var m := Detach(nodes, id);
    assert m.Keys + {id} == nodes.Keys;
    assert k != id;
    var p := nodes[id].parent;
    if p.Some? {
      assert p.value != k;
    }
    assert m[k] == nodes[k];
    if p.Some? && p.value in m && AllNone(m[p.value].slots) {
      if AncestorOrSelf(m, k, p.value) {
        AncestorsOf(nodes, m, id, k);
      }
      forall c | c in m && m[c].parent == Some(k)
        ensures !AncestorOrSelf(m, c, p.value)
      {
        assert nodes[c].parent == Some(k);
        if AncestorOrSelf(m, c, p.value) {
          AncestorsOf(nodes, m, id, c);
        }
      }
      CascadeKeepsUnrelated(m, p.value, k);
    }
  }

  /** An ancestor of `id`'s parent in the detached arena is an ancestor of
      `id`. */
  lemma AncestorsOf(nodes: map<nat, TreeNode>, m: map<nat, TreeNode>, id: nat, k: nat)
    requires id in nodes && nodes[id].parent.Some? && m == Detach(nodes, id)
    requires AncestorOrSelf(m, k, nodes[id].parent.value)
    ensures AncestorOrSelf(nodes, k, id)
  {
    var p := nodes[id].parent.value;
    assert m.Keys == (nodes - {id}).Keys;
    AncestorOrSelfFrame(m, nodes - {id}, k, p);
  }

  /** The arena of live nodes. */
  class NodeArena {
    var nodes: map<nat, TreeNode>

    ghost predicate Valid()
      reads this
    {
      Linked(nodes)
    }

    /** No node built yet. */
    constructor ()
      ensures Valid() && nodes == map[]
    {
      nodes := map[];
    }

    /** `Node(parent_node, b_active, n_c, ...)`: all `n_c` slots null, then
        `parent_node->set_child(this, b_active)`, which fills the parent's
        slot and, since the slot is now filled, never deletes the parent.
        The slot must be free: the engine builds at most one child per
        control of a parent. */
    method Create(id: nat, parent: Option<nat>, bActive: nat, nC: nat)
      requires Valid() && id !in nodes
      requires parent.Some? ==>
        parent.value in nodes && bActive < |nodes[parent.value].slots| && nodes[parent.value].slots[bActive].None?
      modifies this
      ensures Valid()
      ensures id in nodes && nodes[id] == TreeNode(parent, bActive, Repeat(None, nC))
      ensures AllNone(nodes[id].slots) && |nodes[id].slots| == nC
      ensures parent.None? ==> nodes == old(nodes)[id := TreeNode(parent, bActive, Repeat(None, nC))]
      ensures parent.Some? ==> nodes == old(nodes)[id := TreeNode(parent, bActive, Repeat(None, nC))]
        [parent.value := old(nodes)[parent.value].(slots := old(nodes)[parent.value].slots[bActive := Some(id)])]
    {
      var slots: seq<Option<nat>> := [];
      for i := 0 to nC
        invariant slots == Repeat(None, i)
      {
        slots := slots + [None];
      }
      var made := TreeNode(parent, bActive, slots);
      if parent.Some? {
        var p := parent.value;
        var pn := nodes[p];
        nodes := nodes[id := made][p := pn.(slots := pn.slots[bActive := Some(id)])];
        CreateLinked(old(nodes), id, made);
      } else {
        nodes := nodes[id := made];
        CreateRootLinked(old(nodes), id, made);
      }
    }

    /** `no_children_left`: scan the slots for a non-null child. */
    method NoChildrenLeft(id: nat) returns (b: bool)
      requires id in nodes
      ensures b <==> AllNone(nodes[id].slots)
    {
      var slots := nodes[id].slots;
      for j := 0 to |slots|
        invariant forall i :: 0 <= i < j ==> slots[i].None?
      {
        if slots[j].Some? {
          return false;
        }
      }
      return true;
    }

    /** `delete` of a childless node (the engine deletes only nodes with
        no live child): the destructor clears the parent's slot through
        `set_child(nullptr, b_active)`, which deletes the parent in turn
        when that was its last child, and so on up the chain. */
    method Delete(id: nat)
      requires Valid() && id in nodes && AllNone(nodes[id].slots)
      modifies this
      ensures Valid()
      ensures nodes == Cascade(old(nodes), id)
    {
      var cur := id;
      var done := false;
      while !done
        invariant Valid()
        invariant !done ==>
          cur in nodes && AllNone(nodes[cur].slots) && Cascade(old(nodes), id) == Cascade(nodes, cur)
        invariant done ==> nodes == Cascade(old(nodes), id)
        decreases |nodes.Keys|, !done
      {
        var n := nodes[cur];
        DetachLinked(nodes, cur);
        ghost var before := nodes;
        nodes := Detach(nodes, cur);
        assert nodes.Keys + {cur} == before.Keys;
        if n.parent.Some? && n.parent.value in nodes {
          var childless := NoChildrenLeft(n.parent.value);
          if childless {
            cur := n.parent.value;
          } else {
            done := true;
          }
        } else {
          done := true;
        }
      }
    }
  }

  /** Building a child of a live parent in a free slot keeps the arena
      linked. */
  lemma CreateLinked(nodes: map<nat, TreeNode>, id: nat, made: TreeNode)
    requires Linked(nodes) && id !in nodes && AllNone(made.slots) && made.parent.Some?
    requires made.parent.value in nodes && made.bActive < |nodes[made.parent.value].slots|
    requires nodes[made.parent.value].slots[made.bActive].None?
    ensures var p := made.parent.value;
      Linked(nodes[id := made][p := nodes[p].(slots := nodes[p].slots[made.bActive := Some(id)])])
  {
    var p := made.parent.value;
    var m := nodes[id := made][p := nodes[p].(slots := nodes[p].slots[made.bActive := Some(id)])];
    forall c | c in m && m[c].parent.Some?
      ensures m[c].parent.value != c && m[c].parent.value in m && m[c].bActive < |m[m[c].parent.value].slots| &&
        m[m[c].parent.value].slots[m[c].bActive] == Some(c)
    {
      if c != id {
        assert m[c].parent == nodes[c].parent && m[c].bActive == nodes[c].bActive;
        var q := nodes[c].parent.value;
        assert nodes[q].slots[nodes[c].bActive] == Some(c);
        if q == p {
          assert nodes[c].bActive != made.bActive;
        }
      }
    }
    forall q, j | q in m && 0 <= j < |m[q].slots| && m[q].slots[j].Some?
      ensures m[q].slots[j].value in m && m[m[q].slots[j].value].parent == Some(q) &&
        m[m[q].slots[j].value].bActive == j
    {
      if q == id {
        assert false;
      } else if q == p && j == made.bActive {
        assert m[q].slots[j] == Some(id);
      } else {
        assert m[q].slots[j] == nodes[q].slots[j];
        var c := nodes[q].slots[j].value;
        assert c != id && c in nodes;
        if c == p {
          assert m[c].parent == nodes[c].parent && m[c].bActive == nodes[c].bActive;
        }
      }
    }
  }

  /** Building a root keeps the arena linked. */
  lemma CreateRootLinked(nodes: map<nat, TreeNode>, id: nat, made: TreeNode)
    requires Linked(nodes) && id !in nodes && AllNone(made.slots) && made.parent.None?
    ensures Linked(nodes[id := made])
  {
    var m := nodes[id := made];
    forall q, j | q in m && 0 <= j < |m[q].slots| && m[q].slots[j].Some?
      ensures m[q].slots[j].value in m && m[m[q].slots[j].value].parent == Some(q) &&
        m[m[q].slots[j].value].bActive == j
    {
      assert q != id;
      var c := nodes[q].slots[j].value;
      assert c != id;
    }
  }

  /** Deleting a node whose parent still has another child only clears the
      parent's slot: the deletion stops there. */
  lemma SiblingStopsCascade(nodes: map<nat, TreeNode>, id: nat, j: nat)
    requires Linked(nodes) && id in nodes && nodes[id].parent.Some?
    requires var p := nodes[id].parent.value;
      j < |nodes[p].slots| && j != nodes[id].bActive && nodes[p].slots[j].Some?
    ensures var p := nodes[id].parent.value;
      Cascade(nodes, id) ==
        (nodes - {id})[p := nodes[p].(slots := nodes[p].slots[nodes[id].bActive := None])]
  {
    var p := nodes[id].parent.value;
    var m := Detach(nodes, id);
    assert p != id;
    assert m[p].slots[j].Some?;
    assert !AllNone(m[p].slots);
  }

  /** Deleting the only child of a root deletes the root as well. */
  lemma OnlyChildTakesRoot(nodes: map<nat, TreeNode>, id: nat, p: nat)
    requires Linked(nodes) && id in nodes && nodes[id].parent == Some(p)
    requires nodes[p].parent.None?
    requires forall j :: 0 <= j < |nodes[p].slots| && j != nodes[id].bActive ==> nodes[p].slots[j].None?
    ensures Cascade(nodes, id) == nodes - {id, p}
  {
    OnlyChildOfRoot(nodes, id, p);
  }

  lemma OnlyChildOfRoot(nodes: map<nat, TreeNode>, id: nat, p: nat)
    requires id in nodes && p in nodes && p != id && nodes[id].parent == Some(p)
    requires nodes[id].bActive < |nodes[p].slots| && nodes[p].parent.None?
    requires forall j :: 0 <= j < |nodes[p].slots| && j != nodes[id].bActive ==> nodes[p].slots[j].None?
    ensures Cascade(nodes, id) == nodes - {id, p}
  {
    var m := Detach(nodes, id);
    var b := nodes[id].bActive;
    assert m[p] == nodes[p].(slots := nodes[p].slots[b := None]);
    assert AllNone(m[p].slots) by {
      forall j | 0 <= j < |m[p].slots| ensures m[p].slots[j].None? {
        if j != b {
          assert m[p].slots[j] == nodes[p].slots[j];
        }
      }
    }
    CascadeStep(nodes, id);
    RootCascade(m, p);
    DetachElsewhere(nodes, id, p);
  }

  /** When the parent is left childless the cascade goes on from it. */
  lemma CascadeStep(nodes: map<nat, TreeNode>, id: nat)
    requires id in nodes && nodes[id].parent.Some?
    requires var m := Detach(nodes, id); nodes[id].parent.value in m && AllNone(m[nodes[id].parent.value].slots)
    ensures Cascade(nodes, id) == Cascade(Detach(nodes, id), nodes[id].parent.value)
  {
  }

  /** Detaching changes no node but the parent. */
  lemma DetachElsewhere(nodes: map<nat, TreeNode>, id: nat, p: nat)
    requires id in nodes && nodes[id].parent == Some(p)
    ensures Detach(nodes, id) - {p} == nodes - {id, p}
  {
    var m := Detach(nodes, id);
    forall k | k in m && k != p ensures m[k] == nodes[k] {
    }
    assert (m - {p}).Keys == (nodes - {id, p}).Keys;
  }

  /** Deleting a root takes nothing else with it. */
  lemma RootCascade(m: map<nat, TreeNode>, p: nat)
    requires p in m && m[p].parent.None?
    ensures Cascade(m, p) == m - {p}
  {
    assert Detach(m, p) == m - {p};
  }
}
