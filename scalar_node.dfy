// The priority order of the grid solver's nodes
// (pycombina/BnBNodeComparison.cpp).  These nodes carry one switch count
// `sigma` instead of one per control; the comparator reads the lower
// bound `lb`, the depth and `sigma`, nothing else.

module ScalarNodes {

  /** The fields of a node the comparator reads, with the value `p` the
      node fixes. */
  datatype ScalarNode = ScalarNode(p: nat, sigma: nat, depth: nat, lb: real)

  /** The order the comparator encodes, stated on keys: a node is better
      when its lower bound is smaller, then when it is deeper, then when
      it has fewer switches. */
  predicate Better(a: ScalarNode, b: ScalarNode)
  {
    a.lb < b.lb ||
    (a.lb == b.lb && a.depth > b.depth) ||
    (a.lb == b.lb && a.depth == b.depth && a.sigma < b.sigma)
  }

  /** `BnBNodeComparison::operator()(a, b)`: `a` ranks below `b` in the
      priority queue exactly when `b` is the better node. */
  function BnBNodeComparison(a: ScalarNode, b: ScalarNode): (r: bool)
    ensures r <==> Better(b, a)
  {
    if a.lb == b.lb then
      if a.depth == b.depth then a.sigma > b.sigma else a.depth < b.depth
    else a.lb > b.lb
  }

  /** The comparator is a strict weak order, as `std::priority_queue`
      requires; equivalent nodes agree on all three keys. */
  lemma ComparisonStrictWeakOrder(a: ScalarNode, b: ScalarNode, c: ScalarNode)
    ensures !BnBNodeComparison(a, a)
    ensures BnBNodeComparison(a, b) && BnBNodeComparison(b, c) ==> BnBNodeComparison(a, c)
    ensures BnBNodeComparison(a, b) ==> !BnBNodeComparison(b, a)
    ensures !BnBNodeComparison(a, b) && !BnBNodeComparison(b, a) <==>
      a.lb == b.lb && a.depth == b.depth && a.sigma == b.sigma
  {
  }

  /** The queue's top, a node no other node outranks, has the smallest
      lower bound, then the largest depth, then the fewest switches. */
  lemma TopIsLowestThenDeepest(s: seq<ScalarNode>, t: nat)
    requires t < |s|
    requires forall j :: 0 <= j < |s| ==> !BnBNodeComparison(s[t], s[j])
    ensures forall j :: 0 <= j < |s| ==> s[t].lb <= s[j].lb
    ensures forall j :: 0 <= j < |s| && s[j].lb == s[t].lb ==> s[t].depth >= s[j].depth
    ensures forall j :: 0 <= j < |s| && s[j].lb == s[t].lb && s[j].depth == s[t].depth ==>
      s[t].sigma <= s[j].sigma
  {
    forall j | 0 <= j < |s| ensures s[t].lb <= s[j].lb {
      assert !Better(s[j], s[t]);
    }
  }
}
