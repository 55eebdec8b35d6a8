// The first single-control solvers (pycombina/cia.cpp and the top-level
// cia.cpp).  Both approximate one relaxed control `b` on unit intervals by
// a 0/1 sequence with at most `sigma_max` switches, by best-first search
// over nodes that fix one more interval.  A node stores its interval `d`,
// the accumulated deviation `eta`, the bound `priority`, its number `k`,
// its parent's number `k_prev`, its value `p` and its switch count
// `sigma`.  A child whose switch count reaches `sigma_max` jumps to the
// end (`d = size`), adding the deviation of holding its value to the end.
// The popped nodes are kept in a map by number, from which the solution is
// read back along the `k_prev` links.
//
// Ghost bookkeeping: every node number `k` has a control path `ctls[k]`,
// the values of the node's ancestors from the root down to the node.
// The source never stores it; it is what the `k_prev` links encode.

module SingleCia {
  import opened Common
  import Nodes

  /** `bnb_node` (pycombina/cia.hpp) and `node` of cia.cpp. */
  datatype SNode = SNode(priority: real, d: int, k: int, eta: real, kPrev: int, p: int, sigma: int)

  /** The table a read runs past the end of. */
  datatype Table = Relaxed | Tail

  /** How a run ends instead of returning a solution: the range check
      rejects `b_rel`, the input is empty, or the search reads one entry
      past the end of the relaxed values or of a tail-sum table. */
  datatype CiaFault = InvalidArgument | EmptyInput | ReadPastEnd(table: Table)

  // ---------------------------------------------------------------------
  // Input validation and the preparation phase

  /** `input_validation`: every entry lies in `[0, 1]`. */
  predicate InUnitInterval(b: seq<real>)
  {
    forall j :: 0 <= j < |b| ==> 0.0 <= b[j] <= 1.0
  }

  /** The deviation of holding value `p` on the intervals `from..` to the
      end: `delta_b_bin_p_k_true` for `p = 1`, `..._false` for `p = 0`. */
  function TailSum(b: seq<real>, from: nat, p: int): real
    requires from <= |b|
    decreases |b| - from
  {
    if from == |b| then 0.0 else (b[from] - p as real) + TailSum(b, from + 1, p)
  }

  /** The two tail tables differ by the number of intervals they cover. */
  lemma {:induction false} TailTablesDiffer(b: seq<real>, from: nat)
    requires from <= |b|
    ensures TailSum(b, from, 0) - TailSum(b, from, 1) == |b| as real - from as real
    decreases |b| - from
  {
    if from < |b| {
      TailTablesDiffer(b, from + 1);
    }
  }

  /** Both tables hold the tail sums of `b`. */
  predicate TailTables(b: seq<real>, dTrue: seq<real>, dFalse: seq<real>)
  {
    |dTrue| == |b| && |dFalse| == |b| &&
    forall i :: 0 <= i < |b| ==> dTrue[i] == TailSum(b, i, 1) && dFalse[i] == TailSum(b, i, 0)
  }

  // ---------------------------------------------------------------------
  // Control paths

  /** The accumulated deviation `sum_j (b[j] - ctl[j])` of a path. */
  function Dev(b: seq<real>, ctl: seq<int>): real
    requires |ctl| <= |b|
  {
    if |ctl| == 0 then 0.0 else Dev(b, ctl[..|ctl| - 1]) + (b[|ctl| - 1] - ctl[|ctl| - 1] as real)
  }

  /** The number of value changes along a path. */
  function SwitchCount(ctl: seq<int>): nat
  {
    if |ctl| <= 1 then 0
    else SwitchCount(ctl[..|ctl| - 1]) + (if ctl[|ctl| - 2] != ctl[|ctl| - 1] then 1 else 0)
  }

  /** A path held at its last value up to length `n`: the solution a node
      that jumped to the end stands for. */
  function Held(ctl: seq<int>, n: nat): (r: seq<int>)
    requires 0 < |ctl| <= n
    ensures |r| == n && r[..|ctl|] == ctl
  {
    ctl + Repeat(ctl[|ctl| - 1], n - |ctl|)
  }

  /** A path padded up to length `n` with its FIRST value, as both
      post-processing loops do (the padding value is the `p` of the last
      node the chain walk reached, the root). */
  function PaddedWithRoot(ctl: seq<int>, n: nat): (r: seq<int>)
    requires 0 < |ctl| <= n
    ensures |r| == n && r[..|ctl|] == ctl
  {
    ctl + Repeat(ctl[0], n - |ctl|)
  }

  /** Appending a value extends the deviation by one term. */
  lemma DevSnoc(b: seq<real>, ctl: seq<int>, p: int)
    requires |ctl| < |b|
    ensures Dev(b, ctl + [p]) == Dev(b, ctl) + (b[|ctl|] - p as real)
  {
    assert (ctl + [p])[..|ctl|] == ctl;
  }

  /** Holding value `p` after `ctl` to the end adds the tail sum of `p`. */
  lemma {:induction false} DevHold(b: seq<real>, ctl: seq<int>, p: int, m: nat)
    requires |ctl| + m <= |b|
    ensures Dev(b, ctl + Repeat(p, m)) + TailSum(b, |ctl| + m, p) == Dev(b, ctl) + TailSum(b, |ctl|, p)
    decreases m
  {
    if m > 0 {
      DevHold(b, ctl, p, m - 1);
      assert ctl + Repeat(p, m) == (ctl + Repeat(p, m - 1)) + [p];
      DevSnoc(b, ctl + Repeat(p, m - 1), p);
    } else {
      assert ctl + Repeat(p, 0) == ctl;
    }
  }

  /** Disagreeing in the `n - |ctl|` held entries, the root padding and
      the held path differ in deviation by one per entry when the first
      and last values of `ctl` differ by one. */
  lemma PaddingGap(b: seq<real>, ctl: seq<int>, n: nat)
    requires 0 < |ctl| <= n <= |b|
    ensures ctl[0] == ctl[|ctl| - 1] ==> Dev(b, PaddedWithRoot(ctl, n)) == Dev(b, Held(ctl, n))
    ensures ctl[|ctl| - 1] == ctl[0] + 1 ==>
      Dev(b, PaddedWithRoot(ctl, n)) == Dev(b, Held(ctl, n)) + (n - |ctl|) as real
    ensures ctl[0] == ctl[|ctl| - 1] + 1 ==>
      Dev(b, PaddedWithRoot(ctl, n)) == Dev(b, Held(ctl, n)) - (n - |ctl|) as real
  {
    if ctl[|ctl| - 1] == ctl[0] + 1 {
      LowerPaddingGap(b, ctl, n);
    } else if ctl[0] == ctl[|ctl| - 1] + 1 {
      UpperPaddingGap(b, ctl, n);
    }
  }

  /** Padding with the smaller value of the two overshoots the held path. */
  lemma LowerPaddingGap(b: seq<real>, ctl: seq<int>, n: nat)
    requires 0 < |ctl| <= n <= |b| && ctl[|ctl| - 1] == ctl[0] + 1
    ensures Dev(b, PaddedWithRoot(ctl, n)) == Dev(b, Held(ctl, n)) + (n - |ctl|) as real
  {
    PaddedDev(b, ctl, n);
    HeldDev(b, ctl, n);
    TailSumStep(b, |ctl|, n, ctl[0]);
  }

  /** Padding with the greater value of the two undershoots the held path. */
  lemma UpperPaddingGap(b: seq<real>, ctl: seq<int>, n: nat)
    requires 0 < |ctl| <= n <= |b| && ctl[0] == ctl[|ctl| - 1] + 1
    ensures Dev(b, PaddedWithRoot(ctl, n)) == Dev(b, Held(ctl, n)) - (n - |ctl|) as real
  {
    PaddedDev(b, ctl, n);
    HeldDev(b, ctl, n);
    TailSumStep(b, |ctl|, n, ctl[|ctl| - 1]);
  }

  /** The deviation of the root padding, through the tail sums. */
  lemma PaddedDev(b: seq<real>, ctl: seq<int>, n: nat)
    requires 0 < |ctl| <= n <= |b|
    ensures Dev(b, PaddedWithRoot(ctl, n)) + TailSum(b, n, ctl[0]) == Dev(b, ctl) + TailSum(b, |ctl|, ctl[0])
  {
    DevHold(b, ctl, ctl[0], n - |ctl|);
  }

  /** The deviation of the held path, through the tail sums. */
  lemma HeldDev(b: seq<real>, ctl: seq<int>, n: nat)
    requires 0 < |ctl| <= n <= |b|
    ensures Dev(b, Held(ctl, n)) + TailSum(b, n, ctl[|ctl| - 1]) ==
      Dev(b, ctl) + TailSum(b, |ctl|, ctl[|ctl| - 1])
  {
    DevHold(b, ctl, ctl[|ctl| - 1], n - |ctl|);
  }

  /** Raising the held value by one over `from..to` lowers that stretch
      of the tail sum by its length. */
  lemma {:induction false} TailSumStep(b: seq<real>, from: nat, to: nat, p: int)
    requires from <= to <= |b|
    ensures TailSum(b, from, p) - TailSum(b, to, p) ==
      TailSum(b, from, p + 1) - TailSum(b, to, p + 1) + (to - from) as real
    decreases |b| - from
  {
    if from < to {
      TailSumStep(b, from + 1, to, p);
    }
  }

  /** Holding the last value adds no switch. */
  lemma {:induction false} HeldSwitches(ctl: seq<int>, n: nat)
    requires 0 < |ctl| <= n
    ensures SwitchCount(Held(ctl, n)) == SwitchCount(ctl)
    decreases n
  {
    if n > |ctl| {
      HeldSwitches(ctl, n - 1);
      var h := Held(ctl, n);
      assert h[..n - 1] == Held(ctl, n - 1);
      assert h[n - 2] == h[n - 1] == ctl[|ctl| - 1];
    } else {
      assert Held(ctl, n) == ctl;
    }
  }

  /** What a node stands for, given its control path `ctl`: the values and
      switches of the path, and either a node at interval `d = |ctl| - 1`
      whose `eta` is the deviation of the path, or a node that jumped to
      the end with its budget spent, whose `eta` is the deviation of the
      path held at its last value. */
  predicate NodeOk(b: seq<real>, sigmaMax: int, n: SNode, ctl: seq<int>)
  {
    1 <= |ctl| && IsBinaryVector(ctl) && n.p == ctl[|ctl| - 1] && n.sigma == SwitchCount(ctl) &&
    Abs(n.eta) <= n.priority && (n.kPrev == -1 <==> |ctl| == 1) &&
    ((n.d == |ctl| - 1 && n.d < |b| && n.eta == Dev(b, ctl)) ||
     (n.d == |b| && |ctl| < |b| && n.sigma == sigmaMax && n.eta == Dev(b, Held(ctl, |b|))))
  }

  // ---------------------------------------------------------------------
  // The priority order (node_comparison in cia.cpp,
  // bnb_node_priority_comparison in pycombina/cia.cpp)

  /** `comparison(a, b)`: `a` leaves the queue after `b`. */
  predicate RanksBelow(a: SNode, b: SNode)
  {
    if a.priority != b.priority then a.priority > b.priority
    else if a.d != b.d then a.d < b.d
    else a.k > b.k
  }

  /** The comparison is a strict order, total on nodes with distinct
      numbers: smaller priority first, then greater `d`, then smaller `k`. */
  lemma RanksBelowStrictTotal(a: SNode, b: SNode, c: SNode)
    ensures !RanksBelow(a, a)
    ensures RanksBelow(a, b) && RanksBelow(b, c) ==> RanksBelow(a, c)
    ensures a.k != b.k ==> RanksBelow(a, b) || RanksBelow(b, a)
    ensures RanksBelow(a, b) ==> !RanksBelow(b, a)
  {
  }

  /** The position of `top()`: no queued node outranks it. */
  function TopIndex(q: seq<SNode>): (i: nat)
    requires |q| > 0
    ensures i < |q|
    ensures forall j :: 0 <= j < |q| ==> !RanksBelow(q[i], q[j])
  {
    if |q| == 1 then 0
    else
      var i := TopIndex(q[..|q| - 1]);
      assert forall j :: 0 <= j < |q| - 1 ==> q[..|q| - 1][j] == q[j];
      if RanksBelow(q[i], q[|q| - 1]) then |q| - 1 else i
  }

  /** With distinct numbers the top is the greatest node, so it is the one
      `std::priority_queue` returns; it has the smallest priority. */
  lemma TopIsGreatest(q: seq<SNode>)
    requires |q| > 0
    requires forall i, j :: 0 <= i < j < |q| ==> q[i].k < q[j].k
    ensures forall j :: 0 <= j < |q| && j != TopIndex(q) ==> RanksBelow(q[j], q[TopIndex(q)])
    ensures forall j :: 0 <= j < |q| ==> q[TopIndex(q)].priority <= q[j].priority
  {
    var t := TopIndex(q);
    forall j | 0 <= j < |q| && j != t
      ensures RanksBelow(q[j], q[t])
    {
      RanksBelowStrictTotal(q[j], q[t], q[t]);
      assert q[j].k != q[t].k by {
        if j < t {
          assert q[j].k < q[t].k;
        } else {
          assert q[t].k < q[j].k;
        }
      }
    }
  }

  // ---------------------------------------------------------------------
  // Children

  /** The child with value `pk` and number `k` of node `a`, or the read
      past the end its computation makes: `b[d]` for `d = a.d + 1 = size`,
      and the tail table at `d + 1 = size` for a child that spends its
      budget on the last interval. */
  function Child(b: seq<real>, dTrue: seq<real>, dFalse: seq<real>, sigmaMax: int, a: SNode,
                 pk: int, k: int): (r: Result<SNode, CiaFault>)
    requires TailTables(b, dTrue, dFalse) && 0 <= a.d < |b| && (pk == 0 || pk == 1)
    ensures r.Err? ==> r.error == ReadPastEnd(Relaxed) || r.error == ReadPastEnd(Tail)
    ensures a.d + 1 == |b| <==> r.Err? && r.error == ReadPastEnd(Relaxed)
    ensures r.Ok? ==> a.d < r.value.d <= |b| && a.priority <= r.value.priority
  {
    var d := a.d + 1;
    if d == |b| then Err(ReadPastEnd(Relaxed))
    else
      var eta := a.eta + (b[d] - pk as real);
      var sigma := a.sigma + (if a.p - pk < 0 then pk - a.p else a.p - pk);
      if sigma == sigmaMax then
        if d + 1 == |b| then Err(ReadPastEnd(Tail))
        else
          var eta' := eta + (if pk == 0 then dFalse[d + 1] else dTrue[d + 1]);
          Ok(SNode(Max(a.priority, Abs(eta')), |b|, k, eta', a.k, pk, sigma))
      else Ok(SNode(Max(a.priority, Abs(eta)), d, k, eta, a.k, pk, sigma))
  }

  /** A root: interval 0 fixed to `pk`. */
  function Root(b: seq<real>, pk: int, k: int): (r: SNode)
    requires |b| > 0 && (pk == 0 || pk == 1)
    ensures NodeOk(b, r.sigma, r, [pk]) && r.d == 0
  {
    var eta := b[0] - pk as real;
    assert Dev(b, [pk]) == eta by {
      assert [pk][..0] == [];
    }
    SNode(Max(0.0, Abs(eta)), 0, k, eta, -1, pk, 0)
  }

  /** A child stands for its parent's path extended by its value; its
      bound is at least its parent's. */
  lemma ChildOk(b: seq<real>, dTrue: seq<real>, dFalse: seq<real>, sigmaMax: int, a: SNode,
                ctl: seq<int>, pk: int, k: int)
    requires TailTables(b, dTrue, dFalse) && 0 <= a.d < |b| && (pk == 0 || pk == 1)
    requires NodeOk(b, sigmaMax, a, ctl) && a.d == |ctl| - 1 && a.k != -1
    requires Child(b, dTrue, dFalse, sigmaMax, a, pk, k).Ok?
    ensures var c := Child(b, dTrue, dFalse, sigmaMax, a, pk, k).value;
      NodeOk(b, sigmaMax, c, ctl + [pk]) && c.k == k && c.kPrev == a.k &&
      a.priority <= c.priority && a.d < c.d <= |b|
  {
    var c := Child(b, dTrue, dFalse, sigmaMax, a, pk, k).value;
    var ext := ctl + [pk];
    assert ext[..|ext| - 1] == ctl;
    assert SwitchCount(ext) == c.sigma;
    DevSnoc(b, ctl, pk);
    if c.d == |b| {
      var d := a.d + 1;
      assert |ext| == d + 1 < |b|;
      DevHold(b, ext, pk, |b| - |ext|);
      assert Held(ext, |b|) == ext + Repeat(pk, |b| - |ext|);
    }
  }

  /** A child numbered past every existing number is fresh. */
  lemma ChildNumbers(b: seq<real>, dTrue: seq<real>, dFalse: seq<real>, sigmaMax: int, a: SNode,
                     pk: int, k: int)
    requires TailTables(b, dTrue, dFalse) && 0 <= a.d < |b| && (pk == 0 || pk == 1)
    requires Child(b, dTrue, dFalse, sigmaMax, a, pk, k).Ok?
    ensures Child(b, dTrue, dFalse, sigmaMax, a, pk, k).value.k == k
    ensures Child(b, dTrue, dFalse, sigmaMax, a, pk, k).value.kPrev == a.k
  {
  }

  /** The deviation the search reports for a node that jumped to the end
      is the deviation of its path held at the last value, and that path
      spends exactly the budget. */
  lemma HeldSolution(b: seq<real>, sigmaMax: int, n: SNode, ctl: seq<int>)
    requires NodeOk(b, sigmaMax, n, ctl) && n.d == |b|
    ensures Dev(b, Held(ctl, |b|)) == n.eta
    ensures SwitchCount(Held(ctl, |b|)) == sigmaMax
    ensures IsBinaryVector(Held(ctl, |b|))
  {
    HeldSwitches(ctl, |b|);
  }

  /** A root stands for the one-entry path of its value. */
  lemma RootOk(b: seq<real>, sigmaMax: int, pk: int, k: int)
    requires |b| > 0 && (pk == 0 || pk == 1)
    ensures NodeOk(b, sigmaMax, Root(b, pk, k), [pk])
  {
  }

  // ---------------------------------------------------------------------
  // The search state

  /** Node `n` stands for its path, and its parent, when it has one, was
      popped earlier, stands for the path without its last entry and has
      no greater bound. */
  ghost predicate LinkedNode(b: seq<real>, sigmaMax: int, tree: map<int, SNode>,
                             ctls: map<int, seq<int>>, n: SNode)
  {
    n.k in ctls && NodeOk(b, sigmaMax, n, ctls[n.k]) &&
    (n.kPrev != -1 ==>
      n.kPrev in tree && n.kPrev in ctls && n.kPrev < n.k &&
      ctls[n.kPrev] == ctls[n.k][..|ctls[n.k]| - 1] && tree[n.kPrev].priority <= n.priority)
  }

  /** Every popped node is stored under its own number and is linked. */
  ghost predicate TreeOk(b: seq<real>, sigmaMax: int, tree: map<int, SNode>, ctls: map<int, seq<int>>)
  {
    forall key :: key in tree ==> tree[key].k == key && LinkedNode(b, sigmaMax, tree, ctls, tree[key])
  }

  /** The loop invariant of the main phase: the popped nodes are linked
      and were all incomplete; the queued nodes are linked, not yet
      popped, in increasing number, and none has a smaller bound than a
      popped node; every number used is at most the counter `k`. */
  ghost predicate SearchInvariant(b: seq<real>, sigmaMax: int, tree: map<int, SNode>,
                                  ctls: map<int, seq<int>>, queue: seq<SNode>, counter: int)
  {
    TreeOk(b, sigmaMax, tree, ctls) && TreeNumbers(b, tree, ctls, counter) &&
    QueueLinked(b, sigmaMax, tree, ctls, queue, counter) && IncreasingNumbers(queue) &&
    PoppedFirst(tree, queue)
  }

  /** The popped nodes are incomplete and, like the paths, numbered up to
      the counter. */
  ghost predicate TreeNumbers(b: seq<real>, tree: map<int, SNode>, ctls: map<int, seq<int>>, counter: int)
  {
    (forall key :: key in tree ==> 0 <= key <= counter && tree[key].d < |b|) &&
    (forall key :: key in ctls ==> 0 <= key <= counter)
  }

  /** The queued nodes are linked, not popped, and numbered up to the
      counter. */
  ghost predicate QueueLinked(b: seq<real>, sigmaMax: int, tree: map<int, SNode>,
                              ctls: map<int, seq<int>>, queue: seq<SNode>, counter: int)
  {
    forall i :: 0 <= i < |queue| ==>
      LinkedNode(b, sigmaMax, tree, ctls, queue[i]) && queue[i].k !in tree && 0 <= queue[i].k <= counter
  }

  predicate IncreasingNumbers(queue: seq<SNode>)
  {
    forall i, j :: 0 <= i < j < |queue| ==> queue[i].k < queue[j].k
  }

  /** No queued node has a smaller bound than a popped one. */
  predicate PoppedFirst(tree: map<int, SNode>, queue: seq<SNode>)
  {
    forall key, i :: key in tree && 0 <= i < |queue| ==> tree[key].priority <= queue[i].priority
  }

  /** How the main phase ends with a solution: `last` is stored under its
      number, it is the only popped node that reached the end, no popped
      node has a greater bound and no node left in the queue a smaller
      one. */
  ghost predicate Found(b: seq<real>, sigmaMax: int, tree: map<int, SNode>, ctls: map<int, seq<int>>,
                        last: SNode, open: seq<SNode>)
  {
    TreeOk(b, sigmaMax, tree, ctls) && last.k in tree && tree[last.k] == last && last.d == |b| &&
    (forall key :: key in tree && key != last.k ==> tree[key].d < |b|) &&
    (forall key :: key in tree ==> tree[key].priority <= last.priority) &&
    (forall i :: 0 <= i < |open| ==> last.priority <= open[i].priority)
  }

  /** The two roots start the search. */
  lemma RootsSearch(b: seq<real>, sigmaMax: int)
    requires |b| > 0
    ensures SearchInvariant(b, sigmaMax, map[], map[0 := [0], 1 := [1]], [Root(b, 0, 0), Root(b, 1, 1)], 1)
  {
    RootOk(b, sigmaMax, 0, 0);
    RootOk(b, sigmaMax, 1, 1);
  }

  /** A linked node stays linked when a fresh node is stored. */
  lemma LinkedInsert(b: seq<real>, sigmaMax: int, tree: map<int, SNode>, ctls: map<int, seq<int>>,
                     n: SNode, a: SNode)
    requires LinkedNode(b, sigmaMax, tree, ctls, n) && a.k !in tree
    ensures LinkedNode(b, sigmaMax, tree[a.k := a], ctls, n)
  {
    if n.kPrev != -1 {
      assert tree[a.k := a][n.kPrev] == tree[n.kPrev];
    }
  }

  /** Storing a fresh linked node keeps the tree linked. */
  lemma TreeInsert(b: seq<real>, sigmaMax: int, tree: map<int, SNode>, ctls: map<int, seq<int>>, a: SNode)
    requires TreeOk(b, sigmaMax, tree, ctls) && LinkedNode(b, sigmaMax, tree, ctls, a) && a.k !in tree
    ensures TreeOk(b, sigmaMax, tree[a.k := a], ctls)
  {
    var tree' := tree[a.k := a];
    forall key | key in tree'
      ensures tree'[key].k == key && LinkedNode(b, sigmaMax, tree', ctls, tree'[key])
    {
      if key == a.k {
        LinkedInsert(b, sigmaMax, tree, ctls, a, a);
      } else {
        LinkedInsert(b, sigmaMax, tree, ctls, tree[key], a);
      }
    }
  }

  /** The entries of a sequence after removing position `t`. */
  lemma RemoveAtEntries(q: seq<SNode>, t: nat)
    requires t < |q|
    ensures forall i :: 0 <= i < |q| - 1 ==> Nodes.RemoveAt(q, t)[i] == (if i < t then q[i] else q[i + 1])
  {
    assert Nodes.RemoveAt(q, t) == q[..t] + q[t + 1..];
  }

  /** The rest of the queue stays linked to the grown tree. */
  lemma QueueAfterPop(b: seq<real>, sigmaMax: int, tree: map<int, SNode>, ctls: map<int, seq<int>>,
                      queue: seq<SNode>, counter: int, t: nat)
    requires QueueLinked(b, sigmaMax, tree, ctls, queue, counter) && IncreasingNumbers(queue)
    requires t < |queue|
    ensures QueueLinked(b, sigmaMax, tree[queue[t].k := queue[t]], ctls, Nodes.RemoveAt(queue, t), counter)
    ensures IncreasingNumbers(Nodes.RemoveAt(queue, t))
  {
    var a := queue[t];
    var rest := Nodes.RemoveAt(queue, t);
    RemoveAtEntries(queue, t);
    forall i | 0 <= i < |rest|
      ensures LinkedNode(b, sigmaMax, tree[a.k := a], ctls, rest[i]) && rest[i].k !in tree[a.k := a]
    {
      LinkedInsert(b, sigmaMax, tree, ctls, rest[i], a);
      assert rest[i].k != a.k;
    }
  }

  /** After the pop, the popped nodes, now including the top, still come
      first. */
  lemma PriorityAfterPop(tree: map<int, SNode>, queue: seq<SNode>)
    requires PoppedFirst(tree, queue) && IncreasingNumbers(queue) && |queue| > 0
    ensures var a := queue[TopIndex(queue)];
      PoppedFirst(tree[a.k := a], Nodes.RemoveAt(queue, TopIndex(queue))) &&
      (forall key :: key in tree ==> tree[key].priority <= a.priority)
  {
    var t := TopIndex(queue);
    var a := queue[t];
    var rest := Nodes.RemoveAt(queue, t);
    TopBelowRest(queue);
    PoppedFirstRemove(tree, queue, t);
    PoppedFirstInsert(tree, rest, a);
  }

  /** Removing a queued node keeps the popped nodes first. */
  lemma PoppedFirstRemove(tree: map<int, SNode>, queue: seq<SNode>, t: nat)
    requires PoppedFirst(tree, queue) && t < |queue|
    ensures PoppedFirst(tree, Nodes.RemoveAt(queue, t))
    ensures forall key :: key in tree ==> tree[key].priority <= queue[t].priority
  {
    RemoveAtEntries(queue, t);
  }

  /** Storing a node no later queued node undercuts keeps the popped
      nodes first. */
  lemma PoppedFirstInsert(tree: map<int, SNode>, rest: seq<SNode>, a: SNode)
    requires PoppedFirst(tree, rest)
    requires forall i :: 0 <= i < |rest| ==> a.priority <= rest[i].priority
    ensures PoppedFirst(tree[a.k := a], rest)
  {
    var tree' := tree[a.k := a];
    forall key, i | key in tree' && 0 <= i < |rest|
      ensures tree'[key].priority <= rest[i].priority
    {
      if key != a.k {
        assert tree'[key] == tree[key];
      }
    }
  }

  /** The top has no greater bound than any node left in the queue. */
  lemma TopBelowRest(queue: seq<SNode>)
    requires IncreasingNumbers(queue) && |queue| > 0
    ensures forall i :: 0 <= i < |queue| - 1 ==>
      queue[TopIndex(queue)].priority <= Nodes.RemoveAt(queue, TopIndex(queue))[i].priority
  {
    TopIsGreatest(queue);
    RemoveAtEntries(queue, TopIndex(queue));
  }

  /** What the invariant says about one queued node. */
  lemma QueuedFacts(b: seq<real>, sigmaMax: int, tree: map<int, SNode>, ctls: map<int, seq<int>>,
                    queue: seq<SNode>, counter: int, t: nat)
    requires QueueLinked(b, sigmaMax, tree, ctls, queue, counter) && t < |queue|
    ensures queue[t].k !in tree && LinkedNode(b, sigmaMax, tree, ctls, queue[t])
    ensures 0 <= queue[t].k <= counter && 0 <= queue[t].d <= |b| && queue[t].k in ctls
  {
  }

  /** Storing a fresh, linked, incomplete node keeps the tree linked and
      numbered. */
  lemma PopTree(b: seq<real>, sigmaMax: int, tree: map<int, SNode>, ctls: map<int, seq<int>>,
                counter: int, a: SNode)
    requires TreeOk(b, sigmaMax, tree, ctls) && TreeNumbers(b, tree, ctls, counter)
    requires LinkedNode(b, sigmaMax, tree, ctls, a) && a.k !in tree && 0 <= a.k <= counter && a.d < |b|
    ensures TreeOk(b, sigmaMax, tree[a.k := a], ctls) && TreeNumbers(b, tree[a.k := a], ctls, counter)
  {
    TreeInsert(b, sigmaMax, tree, ctls, a);
  }

  /** Popping the top `t` and storing it keeps the invariant, and the top
      has the greatest bound of the popped nodes. */
  lemma PopStep(b: seq<real>, sigmaMax: int, tree: map<int, SNode>, ctls: map<int, seq<int>>,
                queue: seq<SNode>, counter: int, t: nat)
    requires SearchInvariant(b, sigmaMax, tree, ctls, queue, counter) && |queue| > 0
    requires t == TopIndex(queue) && queue[t].d < |b|
    ensures queue[t].k !in tree
    ensures SearchInvariant(b, sigmaMax, tree[queue[t].k := queue[t]], ctls, Nodes.RemoveAt(queue, t), counter)
    ensures forall key :: key in tree ==> tree[key].priority <= queue[t].priority
  {
    var a := queue[t];
    QueuedFacts(b, sigmaMax, tree, ctls, queue, counter, t);
    PopTree(b, sigmaMax, tree, ctls, counter, a);
    QueueAfterPop(b, sigmaMax, tree, ctls, queue, counter, t);
    PriorityAfterPop(tree, queue);
  }

  /** The bounds part of `Found` after the final pop. */
  lemma FoundBounds(tree: map<int, SNode>, queue: seq<SNode>, t: nat)
    requires PoppedFirst(tree, queue) && IncreasingNumbers(queue) && |queue| > 0 && t == TopIndex(queue)
    ensures forall key :: key in tree ==> tree[key].priority <= queue[t].priority
    ensures forall i :: 0 <= i < |queue| - 1 ==> queue[t].priority <= Nodes.RemoveAt(queue, t)[i].priority
  {
    PriorityAfterPop(tree, queue);
    TopBelowRest(queue);
  }

  /** Popping the top `t`, a node that reached the end, concludes the
      search. */
  lemma FoundStep(b: seq<real>, sigmaMax: int, tree: map<int, SNode>, ctls: map<int, seq<int>>,
                  queue: seq<SNode>, counter: int, t: nat)
    requires SearchInvariant(b, sigmaMax, tree, ctls, queue, counter) && |queue| > 0
    requires t == TopIndex(queue) && queue[t].d == |b|
    ensures queue[t].k !in tree
    ensures Found(b, sigmaMax, tree[queue[t].k := queue[t]], ctls, queue[t], Nodes.RemoveAt(queue, t))
  {
    var a := queue[t];
    QueuedFacts(b, sigmaMax, tree, ctls, queue, counter, t);
    TreeInsert(b, sigmaMax, tree, ctls, a);
    FoundBounds(tree, queue, t);
  }

  /** The paths of the two children of `a`, numbered `k0 + 1` and `k0 + 2`. */
  function WithChildPaths(ctls: map<int, seq<int>>, a: SNode, k0: int): map<int, seq<int>>
    requires a.k in ctls
  {
    ctls[k0 + 1 := ctls[a.k] + [0]][k0 + 2 := ctls[a.k] + [1]]
  }

  /** A linked node stays linked when paths are added for new numbers. */
  lemma LinkedMorePaths(b: seq<real>, sigmaMax: int, tree: map<int, SNode>, ctls: map<int, seq<int>>,
                        ctls': map<int, seq<int>>, n: SNode)
    requires LinkedNode(b, sigmaMax, tree, ctls, n)
    requires forall key :: key in ctls ==> key in ctls' && ctls'[key] == ctls[key]
    ensures LinkedNode(b, sigmaMax, tree, ctls', n)
  {
  }

  /** A child of a popped node is linked once its path is recorded. */
  lemma ChildLinked(b: seq<real>, dTrue: seq<real>, dFalse: seq<real>, sigmaMax: int,
                    tree: map<int, SNode>, ctls: map<int, seq<int>>, a: SNode, k0: int, pk: int)
    requires TailTables(b, dTrue, dFalse) && 0 <= a.d < |b| && (pk == 0 || pk == 1)
    requires a.k in tree && tree[a.k] == a && LinkedNode(b, sigmaMax, tree, ctls, a)
    requires 0 <= a.k <= k0
    requires Child(b, dTrue, dFalse, sigmaMax, a, pk, k0 + 1 + pk).Ok?
    ensures LinkedNode(b, sigmaMax, tree, WithChildPaths(ctls, a, k0),
      Child(b, dTrue, dFalse, sigmaMax, a, pk, k0 + 1 + pk).value)
  {
    var ctls' := WithChildPaths(ctls, a, k0);
    var c := Child(b, dTrue, dFalse, sigmaMax, a, pk, k0 + 1 + pk).value;
    ChildOk(b, dTrue, dFalse, sigmaMax, a, ctls[a.k], pk, k0 + 1 + pk);
    assert ctls'[c.k] == ctls[a.k] + [pk];
    assert ctls'[a.k] == ctls[a.k];
    assert (ctls[a.k] + [pk])[..|ctls[a.k]|] == ctls[a.k];
  }

  /** Recording the children's paths keeps the tree linked. */
  lemma TreeMorePaths(b: seq<real>, sigmaMax: int, tree: map<int, SNode>, ctls: map<int, seq<int>>,
                      a: SNode, k0: int)
    requires TreeOk(b, sigmaMax, tree, ctls) && a.k in ctls
    requires forall key :: key in ctls ==> key <= k0
    ensures TreeOk(b, sigmaMax, tree, WithChildPaths(ctls, a, k0))
  {
    var ctls' := WithChildPaths(ctls, a, k0);
    forall key | key in tree
      ensures tree[key].k == key && LinkedNode(b, sigmaMax, tree, ctls', tree[key])
    {
      LinkedMorePaths(b, sigmaMax, tree, ctls, ctls', tree[key]);
    }
  }

  /** A child `c` of the popped node, numbered `k0 + 1 + pk`, is linked
      under the recorded paths and new to the tree. */
  lemma ChildEntry(b: seq<real>, dTrue: seq<real>, dFalse: seq<real>, sigmaMax: int,
                   tree: map<int, SNode>, ctls: map<int, seq<int>>, k0: int, a: SNode, pk: int, c: SNode)
    requires TailTables(b, dTrue, dFalse) && 0 <= a.d < |b| && (pk == 0 || pk == 1)
    requires a.k in tree && tree[a.k] == a && LinkedNode(b, sigmaMax, tree, ctls, a) && 0 <= a.k <= k0
    requires forall key :: key in tree ==> key <= k0
    requires Child(b, dTrue, dFalse, sigmaMax, a, pk, k0 + 1 + pk) == Ok(c)
    ensures LinkedNode(b, sigmaMax, tree, WithChildPaths(ctls, a, k0), c)
    ensures c.k == k0 + 1 + pk && c.k !in tree && a.priority <= c.priority
  {
    ChildLinked(b, dTrue, dFalse, sigmaMax, tree, ctls, a, k0, pk);
    ChildNumbers(b, dTrue, dFalse, sigmaMax, a, pk, k0 + 1 + pk);
  }

  /** The queue after the two pushes is linked. */
  lemma QueueAfterPush(b: seq<real>, sigmaMax: int, tree: map<int, SNode>, ctls: map<int, seq<int>>,
                       ctls': map<int, seq<int>>, rest: seq<SNode>, k0: int, c0: SNode, c1: SNode)
    requires QueueLinked(b, sigmaMax, tree, ctls, rest, k0) && 0 <= k0
    requires forall key :: key in ctls ==> key in ctls' && ctls'[key] == ctls[key]
    requires LinkedNode(b, sigmaMax, tree, ctls', c0) && c0.k == k0 + 1 && c0.k !in tree
    requires LinkedNode(b, sigmaMax, tree, ctls', c1) && c1.k == k0 + 2 && c1.k !in tree
    ensures QueueLinked(b, sigmaMax, tree, ctls', rest + [c0, c1], k0 + 2)
  {
    var q := rest + [c0, c1];
    forall i | 0 <= i < |q|
      ensures LinkedNode(b, sigmaMax, tree, ctls', q[i]) && q[i].k !in tree && 0 <= q[i].k <= k0 + 2
    {
      if i < |rest| {
        assert q[i] == rest[i];
        LinkedMorePaths(b, sigmaMax, tree, ctls, ctls', rest[i]);
      } else if i == |rest| {
        assert q[i] == c0;
      } else {
        assert q[i] == c1;
      }
    }
  }

  /** Queueing both children `c0`, `c1` of the popped node `a`, once
      they are linked (`ChildrenLinked`), keeps the invariant. */
  lemma PushStep(b: seq<real>, sigmaMax: int, tree: map<int, SNode>, ctls: map<int, seq<int>>,
                 rest: seq<SNode>, k0: int, a: SNode, c0: SNode, c1: SNode)
    requires SearchInvariant(b, sigmaMax, tree, ctls, rest, k0)
    requires a.k in tree && tree[a.k] == a
    requires forall key :: key in tree ==> tree[key].priority <= a.priority
    requires LinkedNode(b, sigmaMax, tree, WithChildPaths(ctls, a, k0), c0) && c0.k == k0 + 1 && c0.k !in tree
    requires LinkedNode(b, sigmaMax, tree, WithChildPaths(ctls, a, k0), c1) && c1.k == k0 + 2 && c1.k !in tree
    requires a.priority <= c0.priority && a.priority <= c1.priority
    ensures SearchInvariant(b, sigmaMax, tree, WithChildPaths(ctls, a, k0), rest + [c0, c1], k0 + 2)
  {
    PoppedLinked(b, sigmaMax, tree, ctls, k0, a);
    PushLinks(b, sigmaMax, tree, ctls, rest, k0, a, c0, c1);
    IncreasingAfterPush(rest, k0, c0, c1);
    PoppedFirstAfterPush(tree, rest, a, c0, c1);
  }

  /** The two children of the popped node `a`, numbered `k0 + 1` and
      `k0 + 2`, are linked once their paths are recorded. */
  lemma ChildrenLinked(b: seq<real>, dTrue: seq<real>, dFalse: seq<real>, sigmaMax: int,
                       tree: map<int, SNode>, ctls: map<int, seq<int>>, k0: int, a: SNode, c0: SNode, c1: SNode)
    requires TailTables(b, dTrue, dFalse) && 0 <= a.d < |b|
    requires TreeOk(b, sigmaMax, tree, ctls) && TreeNumbers(b, tree, ctls, k0)
    requires a.k in tree && tree[a.k] == a
    requires Child(b, dTrue, dFalse, sigmaMax, a, 0, k0 + 1) == Ok(c0)
    requires Child(b, dTrue, dFalse, sigmaMax, a, 1, k0 + 2) == Ok(c1)
    ensures LinkedNode(b, sigmaMax, tree, WithChildPaths(ctls, a, k0), c0) && c0.k == k0 + 1 && c0.k !in tree
    ensures LinkedNode(b, sigmaMax, tree, WithChildPaths(ctls, a, k0), c1) && c1.k == k0 + 2 && c1.k !in tree
    ensures a.priority <= c0.priority && a.priority <= c1.priority
  {
    PoppedLinked(b, sigmaMax, tree, ctls, k0, a);
    ChildEntry(b, dTrue, dFalse, sigmaMax, tree, ctls, k0, a, 0, c0);
    ChildEntry(b, dTrue, dFalse, sigmaMax, tree, ctls, k0, a, 1, c1);
  }

  /** A popped node is linked and numbered within the counter. */
  lemma PoppedLinked(b: seq<real>, sigmaMax: int, tree: map<int, SNode>, ctls: map<int, seq<int>>,
                     k0: int, a: SNode)
    requires TreeOk(b, sigmaMax, tree, ctls) && TreeNumbers(b, tree, ctls, k0)
    requires a.k in tree && tree[a.k] == a
    ensures LinkedNode(b, sigmaMax, tree, ctls, a) && 0 <= a.k <= k0
  {
  }

  /** The linking part of `PushStep`, once both children are linked. */
  lemma PushLinks(b: seq<real>, sigmaMax: int, tree: map<int, SNode>, ctls: map<int, seq<int>>,
                  rest: seq<SNode>, k0: int, a: SNode, c0: SNode, c1: SNode)
    requires TreeOk(b, sigmaMax, tree, ctls) && TreeNumbers(b, tree, ctls, k0)
    requires QueueLinked(b, sigmaMax, tree, ctls, rest, k0)
    requires a.k in ctls && 0 <= k0
    requires LinkedNode(b, sigmaMax, tree, WithChildPaths(ctls, a, k0), c0) && c0.k == k0 + 1 && c0.k !in tree
    requires LinkedNode(b, sigmaMax, tree, WithChildPaths(ctls, a, k0), c1) && c1.k == k0 + 2 && c1.k !in tree
    ensures TreeOk(b, sigmaMax, tree, WithChildPaths(ctls, a, k0))
    ensures TreeNumbers(b, tree, WithChildPaths(ctls, a, k0), k0 + 2)
    ensures QueueLinked(b, sigmaMax, tree, WithChildPaths(ctls, a, k0), rest + [c0, c1], k0 + 2)
  {
    TreeMorePaths(b, sigmaMax, tree, ctls, a, k0);
    NumbersAfterPush(b, tree, ctls, a, k0);
    QueueAfterPush(b, sigmaMax, tree, ctls, WithChildPaths(ctls, a, k0), rest, k0, c0, c1);
  }

  /** The children's numbers stay within the raised counter. */
  lemma NumbersAfterPush(b: seq<real>, tree: map<int, SNode>, ctls: map<int, seq<int>>, a: SNode, k0: int)
    requires TreeNumbers(b, tree, ctls, k0) && a.k in ctls && 0 <= k0
    ensures TreeNumbers(b, tree, WithChildPaths(ctls, a, k0), k0 + 2)
    ensures forall key :: key in ctls ==>
      key in WithChildPaths(ctls, a, k0) && WithChildPaths(ctls, a, k0)[key] == ctls[key]
  {
  }

  lemma IncreasingAfterPush(rest: seq<SNode>, k0: int, c0: SNode, c1: SNode)
    requires IncreasingNumbers(rest) && (forall i :: 0 <= i < |rest| ==> rest[i].k <= k0)
    requires c0.k == k0 + 1 && c1.k == k0 + 2
    ensures IncreasingNumbers(rest + [c0, c1])
  {
  }

  lemma PoppedFirstAfterPush(tree: map<int, SNode>, rest: seq<SNode>, a: SNode, c0: SNode, c1: SNode)
    requires PoppedFirst(tree, rest)
    requires forall key :: key in tree ==> tree[key].priority <= a.priority
    requires a.priority <= c0.priority && a.priority <= c1.priority
    ensures PoppedFirst(tree, rest + [c0, c1])
  {
    var q := rest + [c0, c1];
    forall key, i | key in tree && 0 <= i < |q|
      ensures tree[key].priority <= q[i].priority
    {
      if i < |rest| {
        assert q[i] == rest[i];
      }
    }
  }

  // ---------------------------------------------------------------------
  // Termination: a node at interval d weighs 3^(size - d); expanding a
  // node replaces it by two strictly later ones.

  function Weight(b: seq<real>, n: SNode): nat
  {
    if 0 <= n.d <= |b| then Pow(3, |b| - n.d) else 0
  }

  function Potential(b: seq<real>, q: seq<SNode>): nat
  {
    if |q| == 0 then 0 else Potential(b, q[..|q| - 1]) + Weight(b, q[|q| - 1])
  }

  lemma {:induction false} PotentialConcat(b: seq<real>, s: seq<SNode>, t: seq<SNode>)
    ensures Potential(b, s + t) == Potential(b, s) + Potential(b, t)
    decreases |t|
  {
    if |t| > 0 {
      assert (s + t)[..|s + t| - 1] == s + t[..|t| - 1];
      assert (s + t)[|s + t| - 1] == t[|t| - 1];
      PotentialConcat(b, s, t[..|t| - 1]);
    } else {
      assert s + t == s;
    }
  }

  /** Removing position `t` takes that node's weight off the potential. */
  lemma RemoveAtPotential(b: seq<real>, q: seq<SNode>, t: nat)
    requires t < |q|
    ensures Potential(b, Nodes.RemoveAt(q, t)) + Weight(b, q[t]) == Potential(b, q)
  {
    assert q == q[..t] + [q[t]] + q[t + 1..];
    assert Nodes.RemoveAt(q, t) == q[..t] + q[t + 1..];
    PotentialConcat(b, q[..t] + [q[t]], q[t + 1..]);
    PotentialConcat(b, q[..t], [q[t]]);
    PotentialConcat(b, q[..t], q[t + 1..]);
    assert Potential(b, [q[t]]) == Weight(b, q[t]) by {
      assert [q[t]][..0] == [];
    }
  }

  /** Two nodes later than `d < size - 1` weigh less than one at `d`. */
  lemma PairLighter(b: seq<real>, n: SNode, c0: SNode, c1: SNode)
    requires 0 <= n.d && n.d + 1 < |b|
    requires n.d < c0.d <= |b| && n.d < c1.d <= |b|
    ensures Weight(b, c0) + Weight(b, c1) < Weight(b, n)
  {
    var m := |b| - n.d - 1;
    PowMonotone(3, |b| - c0.d, m);
    PowMonotone(3, |b| - c1.d, m);
    PowSucc(3, m);
  }

  /** Replacing a node at interval `d < size - 1` by two nodes later than
      `d` lowers the potential. */
  lemma ExpandLighter(b: seq<real>, q: seq<SNode>, t: nat, c0: SNode, c1: SNode)
    requires t < |q| && 0 <= q[t].d && q[t].d + 1 < |b|
    requires q[t].d < c0.d <= |b| && q[t].d < c1.d <= |b|
    ensures Potential(b, Nodes.RemoveAt(q, t) + [c0, c1]) < Potential(b, q)
  {
    RemoveAtPotential(b, q, t);
    PotentialConcat(b, Nodes.RemoveAt(q, t), [c0, c1]);
    assert Potential(b, [c0, c1]) == Weight(b, c0) + Weight(b, c1) by {
      assert [c0, c1][..1] == [c0];
      assert [c0][..0] == [];
      assert Potential(b, [c0]) == Weight(b, c0);
    }
    PairLighter(b, q[t], c0, c1);
  }

  // ---------------------------------------------------------------------
  // The main phase

  /** The inner `for (p_k = 0; p_k <= 1; p_k++)` loop: number, build and
      queue both children of `a`, stopping at the first child whose
      computation reads past an end. */
  method ExpandNode(b: seq<real>, dTrue: seq<real>, dFalse: seq<real>, sigmaMax: int, a: SNode,
                    k0: int, queue0: seq<SNode>, ghost ctls0: map<int, seq<int>>)
    returns (fault: Option<CiaFault>, queue: seq<SNode>, k: int, ghost ctls: map<int, seq<int>>)
    requires TailTables(b, dTrue, dFalse) && 0 <= a.d < |b| && a.k in ctls0
    ensures fault.None? ==>
      Child(b, dTrue, dFalse, sigmaMax, a, 0, k0 + 1).Ok? &&
      Child(b, dTrue, dFalse, sigmaMax, a, 1, k0 + 2).Ok? &&
      queue == queue0 + [Child(b, dTrue, dFalse, sigmaMax, a, 0, k0 + 1).value,
                         Child(b, dTrue, dFalse, sigmaMax, a, 1, k0 + 2).value] &&
      k == k0 + 2 && ctls == WithChildPaths(ctls0, a, k0)
    ensures fault.Some? ==>
      fault.value == ReadPastEnd(Relaxed) || fault.value == ReadPastEnd(Tail)
    ensures fault.Some? && a.d + 1 == |b| ==> fault.value == ReadPastEnd(Relaxed)
  {
    fault, queue, k, ctls := None, queue0, k0, ctls0;
    var pk := 0;
    while pk <= 1
      invariant 0 <= pk <= 2 && k == k0 + pk
      invariant pk >= 1 ==> Child(b, dTrue, dFalse, sigmaMax, a, 0, k0 + 1).Ok?
      invariant pk == 0 ==> queue == queue0 && ctls == ctls0
      invariant pk == 1 ==> queue == queue0 + [Child(b, dTrue, dFalse, sigmaMax, a, 0, k0 + 1).value]
      invariant pk == 1 ==> ctls == ctls0[k0 + 1 := ctls0[a.k] + [0]]
      invariant pk == 2 ==> Child(b, dTrue, dFalse, sigmaMax, a, 1, k0 + 2).Ok?
      invariant pk == 2 ==> queue == queue0 + [Child(b, dTrue, dFalse, sigmaMax, a, 0, k0 + 1).value,
                                               Child(b, dTrue, dFalse, sigmaMax, a, 1, k0 + 2).value]
      invariant pk == 2 ==> ctls == WithChildPaths(ctls0, a, k0)
    {
      k := k + 1;
      var c := Child(b, dTrue, dFalse, sigmaMax, a, pk, k);
      if c.Err? {
        return Some(c.error), queue, k, ctls;
      }
      queue := queue + [c.value];
      ctls := ctls[k := ctls0[a.k] + [pk]];
      pk := pk + 1;
    }
  }

  // ---------------------------------------------------------------------
  // The phases of pycombina/cia.cpp

  /** `input_validation`: rejects the input iff some entry lies outside
      `[0, 1]`. */
  method InputValidation(b: seq<real>) returns (fault: Option<CiaFault>)
    ensures fault.None? <==> InUnitInterval(b)
    ensures fault.Some? ==> fault.value == InvalidArgument
  {
    for i := 0 to |b|
      invariant forall j :: 0 <= j < i ==> 0.0 <= b[j] <= 1.0
    {
      if 0.0 > b[i] || b[i] > 1.0 {
        return Some(InvalidArgument);
      }
    }
    return None;
  }

  /** `cia_preparation_phase`: fills both tail tables from the back.  The
      first write indexes `size - 1`, which fails on an empty input. */
  method PreparationPhase(b: seq<real>) returns (r: Result<(seq<real>, seq<real>), CiaFault>)
    ensures r.Err? <==> |b| == 0
    ensures r.Err? ==> r.error == EmptyInput
    ensures r.Ok? ==> TailTables(b, r.value.0, r.value.1)
  {
    if |b| == 0 {
      return Err(EmptyInput);
    }
    var n := |b|;
    var dTrue := new real[n];
    var dFalse := new real[n];
    dTrue[n - 1] := b[n - 1] - 1.0;
    dFalse[n - 1] := b[n - 1];
    for i := n - 1 downto 0
      invariant forall j :: i <= j < n ==> dTrue[j] == TailSum(b, j, 1) && dFalse[j] == TailSum(b, j, 0)
    {
      dTrue[i] := dTrue[i + 1] + b[i] - 1.0;
      dFalse[i] := dFalse[i + 1] + b[i];
    }
    return Ok((dTrue[..], dFalse[..]));
  }

  /** The two roots and their paths, built by the first `for (p_k ...)`
      loop; it reads `b[0]`, which an empty input does not have. */
  method PushRoots(b: seq<real>) returns (fault: Option<CiaFault>, queue: seq<SNode>, k: int,
                                         ghost ctls: map<int, seq<int>>)
    ensures fault.Some? <==> |b| == 0
    ensures fault.Some? ==> fault.value == ReadPastEnd(Relaxed)
    ensures fault.None? ==>
      queue == [Root(b, 0, 0), Root(b, 1, 1)] && k == 1 && ctls == map[0 := [0], 1 := [1]]
  {
    fault, queue, k, ctls := None, [], -1, map[];
    var pk := 0;
    while pk <= 1
      invariant 0 <= pk <= 2 && k == pk - 1 && (pk > 0 ==> |b| > 0)
      invariant pk == 0 ==> queue == [] && ctls == map[]
      invariant pk == 1 ==> queue == [Root(b, 0, 0)] && ctls == map[0 := [0]]
      invariant pk == 2 ==> queue == [Root(b, 0, 0), Root(b, 1, 1)] && ctls == map[0 := [0], 1 := [1]]
    {
      k := k + 1;
      if |b| == 0 {
        return Some(ReadPastEnd(Relaxed)), queue, k, ctls;
      }
      queue := queue + [Root(b, pk, k)];
      ctls := ctls[k := [pk]];
      pk := pk + 1;
    }
  }

  /** The search of `cia_main_phase` (and of the loop in cia.cpp): pop the
      top, store it, stop when it reached the end, otherwise queue both
      children.  The queue never runs empty, since every pop that does not
      stop the search pushes two children, so the loop is unbounded over
      the queue and ends by the potential `Potential(b, queue)`.  On
      success the result is the final tree and the node that ended the
      search; `ctls` are the paths and `open` is what stayed queued. */
  method MainPhase(b: seq<real>, sigmaMax: int, dTrue: seq<real>, dFalse: seq<real>)
    returns (r: Result<(map<int, SNode>, SNode), CiaFault>, ghost ctls: map<int, seq<int>>,
             ghost open: seq<SNode>)
    requires TailTables(b, dTrue, dFalse)
    ensures r.Err? ==> r.error == ReadPastEnd(Relaxed) || r.error == ReadPastEnd(Tail)
    ensures |b| <= 1 ==> r == Err(ReadPastEnd(Relaxed))
    ensures r.Ok? ==> Found(b, sigmaMax, r.value.0, ctls, r.value.1, open)
  {
    var fault, queue, k;
    fault, queue, k, ctls := PushRoots(b);
    if fault.Some? {
      return Err(fault.value), ctls, queue;
    }
    RootsSearch(b, sigmaMax);
    var tree: map<int, SNode> := map[];
    while true
      invariant SearchInvariant(b, sigmaMax, tree, ctls, queue, k) && |queue| > 0
      invariant |b| == 1 ==> tree == map[] && queue == [Root(b, 0, 0), Root(b, 1, 1)]
      decreases Potential(b, queue)
    {
      var t := TopIndex(queue);
      var a := queue[t];
      ghost var queue0, tree0, ctls0, k0 := queue, tree, ctls, k;
      if a.d == |b| {
        FoundStep(b, sigmaMax, tree, ctls, queue, k, t);
      } else {
        QueuedFacts(b, sigmaMax, tree, ctls, queue, k, t);
        PopStep(b, sigmaMax, tree, ctls, queue, k, t);
      }
      queue := Nodes.RemoveAt(queue, t);
      if a.k !in tree {
        tree := tree[a.k := a];
      }
      if a.d == |b| {
        return Ok((tree, a)), ctls, queue;
      }
      fault, queue, k, ctls := ExpandNode(b, dTrue, dFalse, sigmaMax, a, k, queue, ctls);
      if fault.Some? {
        return Err(fault.value), ctls, queue;
      }
      ghost var c0 := Child(b, dTrue, dFalse, sigmaMax, a, 0, k0 + 1).value;
      ghost var c1 := Child(b, dTrue, dFalse, sigmaMax, a, 1, k0 + 2).value;
      ChildrenLinked(b, dTrue, dFalse, sigmaMax, tree0[a.k := a], ctls0, k0, a, c0, c1);
      PushStep(b, sigmaMax, tree0[a.k := a], ctls0, Nodes.RemoveAt(queue0, t), k0, a, c0, c1);
      ExpandLighter(b, queue0, t, c0, c1);
    }
  }

  /** `std::max_element` over the tree with the comparison on `d`: the
      first entry, in increasing key order, of greatest `d`.  The tree is
      not empty: it holds `w`. */
  method DeepestEntry(tree: map<int, SNode>, ghost w: int) returns (key: int)
    requires w in tree
    ensures key in tree
    ensures forall j :: j in tree ==> tree[j].d <= tree[key].d
    ensures forall j :: j in tree && tree[j].d == tree[key].d ==> key <= j
  {
    assert w in tree.Keys;
    key :| key in tree.Keys;
    var left := tree.Keys - {key};
    while true
      invariant left <= tree.Keys && key in tree && key !in left
      invariant forall j :: j in tree && j !in left ==>
        tree[j].d <= tree[key].d && (tree[j].d == tree[key].d ==> key <= j)
      decreases |left|
    {
      if j :| j in left {
        if tree[j].d > tree[key].d || (tree[j].d == tree[key].d && j < key) {
          key := j;
        }
        left := left - {j};
      } else {
        break;
      }
    }
  }

  /** The part of `TreeOk` the walk back along `k_prev` relies on: every
      stored node has a path ending in its value, a root's path is its
      value alone, and any other node's parent is stored with the path
      one shorter. */
  ghost predicate ChainLinked(tree: map<int, SNode>, ctls: map<int, seq<int>>)
  {
    forall key :: key in tree ==>
      tree[key].k == key && key in ctls && 1 <= |ctls[key]| &&
      tree[key].p == ctls[key][|ctls[key]| - 1] &&
      (tree[key].kPrev == -1 ==> |ctls[key]| == 1) &&
      (tree[key].kPrev != -1 ==>
        tree[key].kPrev in tree && tree[key].kPrev in ctls &&
        ctls[tree[key].kPrev] == ctls[key][..|ctls[key]| - 1])
  }

  lemma TreeChained(b: seq<real>, sigmaMax: int, tree: map<int, SNode>, ctls: map<int, seq<int>>)
    requires TreeOk(b, sigmaMax, tree, ctls)
    ensures ChainLinked(tree, ctls)
  {
    forall key | key in tree
      ensures tree[key].k == key && key in ctls && 1 <= |ctls[key]| &&
        tree[key].p == ctls[key][|ctls[key]| - 1] &&
        (tree[key].kPrev == -1 ==> |ctls[key]| == 1) &&
        (tree[key].kPrev != -1 ==>
          tree[key].kPrev in tree && tree[key].kPrev in ctls &&
          ctls[tree[key].kPrev] == ctls[key][..|ctls[key]| - 1])
    {
      assert LinkedNode(b, sigmaMax, tree, ctls, tree[key]);
    }
  }

  /** One step of the walk: the parent of `a` holds the path one shorter,
      whose last value is the entry before. */
  lemma WalkStep(tree: map<int, SNode>, ctls: map<int, seq<int>>, full: seq<int>, a: SNode)
    requires ChainLinked(tree, ctls)
    requires a.k in tree && tree[a.k] == a && a.kPrev != -1
    requires a.k in ctls && 1 <= |ctls[a.k]| <= |full| && ctls[a.k] == full[..|ctls[a.k]|]
    ensures a.kPrev in tree && tree[a.kPrev].k == a.kPrev && a.kPrev in ctls
    ensures var c := ctls[a.kPrev];
      |c| == |ctls[a.k]| - 1 && 1 <= |c| && c == full[..|c|] && tree[a.kPrev].p == full[|c| - 1]
  {
    assert a.kPrev in tree;
  }

  /** The walk from the node that ended the search to its root: the path
      of the final node, and the root reached. */
  method WalkChain(tree: map<int, SNode>, a0: SNode, ghost ctls: map<int, seq<int>>)
    returns (bin: seq<int>, root: SNode)
    requires ChainLinked(tree, ctls) && a0.k in tree && tree[a0.k] == a0
    ensures a0.k in ctls && bin == ctls[a0.k] && root.p == bin[0]
  {
    ghost var full := ctls[a0.k];
    var a := a0;
    bin := [a.p];
    assert full[..|full|] == full;
    ghost var n := |full|;
    while a.kPrev != -1
      invariant a.k in tree && tree[a.k] == a && a.k in ctls && n == |ctls[a.k]|
      invariant 1 <= n <= |full| && ctls[a.k] == full[..n] && bin == full[n - 1..]
      decreases n
    {
      WalkStep(tree, ctls, full, a);
      PrependStep(full, n, tree[a.kPrev].p, bin);
      a := tree[a.kPrev];
      bin := [a.p] + bin;
      n := n - 1;
    }
    WalkEnd(tree, ctls, full, a, n);
    root := a;
  }

  /** Prepending the parent's value extends the read-back suffix. */
  lemma PrependStep(full: seq<int>, n: nat, p: int, bin: seq<int>)
    requires 2 <= n <= |full| && p == full[n - 2] && bin == full[n - 1..]
    ensures [p] + bin == full[n - 2..]
  {
  }

  /** The walk ends at a root, whose path is the first entry alone. */
  lemma WalkEnd(tree: map<int, SNode>, ctls: map<int, seq<int>>, full: seq<int>, a: SNode, n: nat)
    requires ChainLinked(tree, ctls) && a.k in tree && tree[a.k] == a && a.kPrev == -1
    requires a.k in ctls && n == |ctls[a.k]| && 1 <= n <= |full| && ctls[a.k] == full[..n]
    ensures n == 1 && a.p == full[0]
  {
    assert a.k in tree;
  }

  /** Appending `x` to a sequence padded with `x` pads one further. */
  lemma PadSnoc(ctl: seq<int>, x: int, m: nat)
    ensures ctl + Repeat(x, m) + [x] == ctl + Repeat(x, m + 1)
  {
  }

  /** `cia_postprocessing_phase` as written: the deepest stored node, its
      path read back along `k_prev`, and then padding up to that node's
      `d` with the `p` of the root the walk ended on. */
  method PostprocessingPhase(tree: map<int, SNode>, ghost b: seq<real>, ghost sigmaMax: int,
                             ghost ctls: map<int, seq<int>>, ghost last: SNode, ghost open: seq<SNode>)
    returns (bin: seq<int>)
    requires Found(b, sigmaMax, tree, ctls, last, open)
    ensures last.k in ctls && 0 < |ctls[last.k]| < |b|
    ensures bin == PaddedWithRoot(ctls[last.k], |b|)
  {
    var key := DeepestEntry(tree, last.k);
    assert key == last.k;
    var a := tree[key];
    var nB := a.d;
    var root;
    TreeChained(b, sigmaMax, tree, ctls);
    bin, root := WalkChain(tree, a, ctls);
    assert LinkedNode(b, sigmaMax, tree, ctls, a);
    ghost var full := bin;
    while |bin| < nB
      invariant |full| <= |bin| <= nB && bin == full + Repeat(full[0], |bin| - |full|)
    {
      PadSnoc(full, full[0], |bin| - |full|);
      bin := bin + [root.p];
    }
  }

  /** The post-processing as evidently intended: the path of the final
      node held at ITS value up to the end, which is the solution whose
      deviation the search computed. */
  method PostprocessingHeld(tree: map<int, SNode>, ghost b: seq<real>, ghost sigmaMax: int,
                            ghost ctls: map<int, seq<int>>, ghost last: SNode, ghost open: seq<SNode>)
    returns (bin: seq<int>)
    requires Found(b, sigmaMax, tree, ctls, last, open)
    ensures last.k in ctls && 0 < |ctls[last.k]| < |b|
    ensures bin == Held(ctls[last.k], |b|)
    ensures Dev(b, bin) == last.eta && SwitchCount(bin) == sigmaMax && IsBinaryVector(bin)
  {
    var key := DeepestEntry(tree, last.k);
    assert key == last.k;
    var a := tree[key];
    var nB := a.d;
    var root;
    TreeChained(b, sigmaMax, tree, ctls);
    bin, root := WalkChain(tree, a, ctls);
    assert LinkedNode(b, sigmaMax, tree, ctls, a);
    ghost var full := bin;
    while |bin| < nB
      invariant |full| <= |bin| <= nB && bin == full + Repeat(a.p, |bin| - |full|)
    {
      PadSnoc(full, a.p, |bin| - |full|);
      bin := bin + [a.p];
    }
    HeldSolution(b, sigmaMax, a, full);
  }

  // ---------------------------------------------------------------------
  // The retrieval of cia.cpp

  /** The retrieval in the stopping branch of cia.cpp as written: the
      popped node's path read back along `k_prev` while a counter `i`
      goes down from `n_b - 1`, then `i` more entries of the `p` of the
      root the walk ended on. */
  method RetrieveSolution(tree: map<int, SNode>, a0: SNode, nB: int, ghost b: seq<real>,
                          ghost sigmaMax: int, ghost ctls: map<int, seq<int>>, ghost open: seq<SNode>)
    returns (bin: seq<int>)
    requires Found(b, sigmaMax, tree, ctls, a0, open) && nB == |b|
    ensures a0.k in ctls && 0 < |ctls[a0.k]| < |b|
    ensures bin == PaddedWithRoot(ctls[a0.k], nB)
  {
    var a, i;
    TreeChained(b, sigmaMax, tree, ctls);
    bin, a, i := WalkChainCounting(tree, a0, nB, ctls);
    assert LinkedNode(b, sigmaMax, tree, ctls, a0);
    ghost var full := bin;
    while i > 0
      invariant |full| <= |bin| <= nB && i == nB - |bin| && bin == full + Repeat(full[0], |bin| - |full|)
    {
      PadSnoc(full, full[0], |bin| - |full|);
      bin := bin + [a.p];
      i := i - 1;
    }
  }

  /** The retrieval as evidently intended: padding with the popped node's
      value, so the output is the solution whose deviation was reported. */
  method RetrieveHeld(tree: map<int, SNode>, a0: SNode, nB: int, ghost b: seq<real>,
                      ghost sigmaMax: int, ghost ctls: map<int, seq<int>>, ghost open: seq<SNode>)
    returns (bin: seq<int>)
    requires Found(b, sigmaMax, tree, ctls, a0, open) && nB == |b|
    ensures a0.k in ctls && 0 < |ctls[a0.k]| < |b|
    ensures bin == Held(ctls[a0.k], nB)
    ensures Dev(b, bin) == a0.eta && SwitchCount(bin) == sigmaMax && IsBinaryVector(bin)
  {
    var a, i;
    TreeChained(b, sigmaMax, tree, ctls);
    bin, a, i := WalkChainCounting(tree, a0, nB, ctls);
    assert LinkedNode(b, sigmaMax, tree, ctls, a0);
    ghost var full := bin;
    while i > 0
      invariant |full| <= |bin| <= nB && i == nB - |bin| && bin == full + Repeat(a0.p, |bin| - |full|)
    {
      PadSnoc(full, a0.p, |bin| - |full|);
      bin := bin + [a0.p];
      i := i - 1;
    }
    HeldSolution(b, sigmaMax, a0, full);
  }

  /** The `while (k_prev != -1)` walk of cia.cpp with its counter: the
      path of `a0`, the root reached, and `n_b` minus the path length. */
  method WalkChainCounting(tree: map<int, SNode>, a0: SNode, nB: int, ghost ctls: map<int, seq<int>>)
    returns (bin: seq<int>, root: SNode, i: int)
    requires ChainLinked(tree, ctls) && a0.k in tree && tree[a0.k] == a0
    ensures a0.k in ctls && bin == ctls[a0.k] && root.p == bin[0] && i == nB - |bin|
  {
    ghost var full := ctls[a0.k];
    var a := a0;
    bin := [a.p];
    var kPrev := a.kPrev;
    i := nB - 1;
    assert full[..|full|] == full;
    ghost var n := |full|;
    while kPrev != -1
      invariant a.k in tree && tree[a.k] == a && a.k in ctls && n == |ctls[a.k]| && kPrev == a.kPrev
      invariant 1 <= n <= |full| && ctls[a.k] == full[..n] && bin == full[n - 1..]
      invariant i == nB - |bin|
      decreases n
    {
      WalkStep(tree, ctls, full, a);
      PrependStep(full, n, tree[kPrev].p, bin);
      a := tree[kPrev];
      i := i - 1;
      bin := [a.p] + bin;
      kPrev := a.kPrev;
      n := n - 1;
    }
    WalkEnd(tree, ctls, full, a, n);
    root := a;
  }

  // ---------------------------------------------------------------------
  // The two solvers end to end

  /** `cia` of pycombina/cia.cpp: validation, preparation, search and the
      post-processing as written.  On success the search ended on a node
      that jumped to the end, whose bound covers its deviation and is
      no larger than any bound left in the queue; its path held at its
      value spends exactly `sigma_max` switches with that deviation, but
      the output is the path padded with the ROOT's value: the held path
      when `sigma_max` is even, and one with an extra switch otherwise. */
  method PyCia(b: seq<real>, sigmaMax: int)
    returns (r: Result<seq<int>, CiaFault>, ghost last: SNode, ghost ctl: seq<int>, ghost open: seq<SNode>)
    ensures r == Err(InvalidArgument) <==> !InUnitInterval(b)
    ensures InUnitInterval(b) && |b| == 0 ==> r == Err(EmptyInput)
    ensures InUnitInterval(b) && |b| == 1 ==> r == Err(ReadPastEnd(Relaxed))
    ensures r.Err? ==> r.error != ReadPastEnd(Tail) || 2 <= |b|
    ensures r.Ok? ==>
      NodeOk(b, sigmaMax, last, ctl) && last.d == |b| && 0 < |ctl| < |b| &&
      r.value == PaddedWithRoot(ctl, |b|) && IsBinaryVector(r.value) &&
      Dev(b, Held(ctl, |b|)) == last.eta && Abs(last.eta) <= last.priority &&
      SwitchCount(Held(ctl, |b|)) == sigmaMax &&
      (sigmaMax % 2 == 0 ==> r.value == Held(ctl, |b|)) &&
      (sigmaMax % 2 == 1 ==> SwitchCount(r.value) == sigmaMax + 1 && r.value != Held(ctl, |b|)) &&
      (forall i :: 0 <= i < |open| ==> last.priority <= open[i].priority)
  {
    last, ctl, open := SNode(0.0, 0, 0, 0.0, -1, 0, 0), [], [];
    var v := InputValidation(b);
    if v.Some? {
      return Err(v.value), last, ctl, open;
    }
    var prep := PreparationPhase(b);
    if prep.Err? {
      return Err(prep.error), last, ctl, open;
    }
    var m;
    ghost var ctls;
    m, ctls, open := MainPhase(b, sigmaMax, prep.value.0, prep.value.1);
    if m.Err? {
      return Err(m.error), last, ctl, open;
    }
    var tree := m.value.0;
    last := m.value.1;
    var bin := PostprocessingPhase(tree, b, sigmaMax, ctls, last, open);
    ctl := ctls[last.k];
    assert LinkedNode(b, sigmaMax, tree, ctls, last);
    RootPaddedSolution(b, sigmaMax, last, ctl);
    return Ok(bin), last, ctl, open;
  }

  /** `cia` of cia.cpp writing the solution into the output buffer, with
      the retrieval as written; there is no range check, and on a fault
      the buffer is left as it was.  On success the buffer holds the
      path of the popped node padded with the root's value, which is the
      held path spending `sigma_max` switches exactly when `sigma_max` is
      even. */
  method RootCia(b: seq<real>, sigmaMax: int, out: array<int>)
    returns (fault: Option<CiaFault>, ghost last: SNode, ghost ctl: seq<int>, ghost open: seq<SNode>)
    requires out.Length == |b|
    modifies out
    ensures fault.Some? ==> out[..] == old(out[..])
    ensures fault.Some? ==> fault.value != InvalidArgument
    ensures |b| == 0 <==> fault == Some(EmptyInput)
    ensures |b| == 1 ==> fault == Some(ReadPastEnd(Relaxed))
    ensures fault.None? ==>
      NodeOk(b, sigmaMax, last, ctl) && last.d == |b| && 0 < |ctl| < |b| &&
      out[..] == PaddedWithRoot(ctl, |b|) && IsBinaryVector(out[..]) &&
      Dev(b, Held(ctl, |b|)) == last.eta && SwitchCount(Held(ctl, |b|)) == sigmaMax &&
      (sigmaMax % 2 == 0 ==> out[..] == Held(ctl, |b|)) &&
      (sigmaMax % 2 == 1 ==> SwitchCount(out[..]) == sigmaMax + 1) &&
      (forall i :: 0 <= i < |open| ==> last.priority <= open[i].priority)
  {
    last, ctl, open := SNode(0.0, 0, 0, 0.0, -1, 0, 0), [], [];
    var prep := PreparationPhase(b);
    if prep.Err? {
      return Some(prep.error), last, ctl, open;
    }
    var m;
    ghost var ctls;
    m, ctls, open := MainPhase(b, sigmaMax, prep.value.0, prep.value.1);
    if m.Err? {
      return Some(m.error), last, ctl, open;
    }
    var tree := m.value.0;
    var a := m.value.1;
    last := a;
    var bin := RetrieveSolution(tree, a, |b|, b, sigmaMax, ctls, open);
    ctl := ctls[last.k];
    assert LinkedNode(b, sigmaMax, tree, ctls, last);
    RootPaddedSolution(b, sigmaMax, last, ctl);
    var bOpt := ToBuffer(bin);
    WriteOut(bOpt, out);
    return None, last, ctl, open;
  }

  /** The loop copying the retrieved entries into the stack array `b_opt`. */
  method ToBuffer(bin: seq<int>) returns (bOpt: array<int>)
    ensures fresh(bOpt) && bOpt[..] == bin
  {
    bOpt := new int[|bin|];
    for j := 0 to |bin|
      invariant bOpt[..j] == bin[..j]
    {
      bOpt[j] := bin[j];
    }
  }

  /** The loop writing `b_opt` into the output buffer. */
  method WriteOut(bOpt: array<int>, out: array<int>)
    requires bOpt != out && bOpt.Length == out.Length
    modifies out
    ensures out[..] == bOpt[..]
  {
    for j := 0 to out.Length
      invariant out[..j] == bOpt[..j]
    {
      out[j] := bOpt[j];
    }
  }

  // ---------------------------------------------------------------------
  // The padding defect

  /** On a 0/1 path, the first and last values agree iff the number of
      switches is even. */
  lemma {:induction false} SwitchParity(ctl: seq<int>)
    requires IsBinaryVector(ctl) && 1 <= |ctl|
    ensures ctl[0] == ctl[|ctl| - 1] <==> SwitchCount(ctl) % 2 == 0
    decreases |ctl|
  {
    if |ctl| > 1 {
      var pre := ctl[..|ctl| - 1];
      SwitchParity(pre);
      assert pre[0] == ctl[0] && pre[|pre| - 1] == ctl[|ctl| - 2];
    }
  }

  /** Padding with the root's value adds a switch whenever the path has
      an odd number of switches, so with an odd `sigma_max` every solution
      the post-processing as written returns has `sigma_max + 1`
      switches and disagrees with the held path. */
  lemma RootPaddingOverspends(ctl: seq<int>, n: nat)
    requires IsBinaryVector(ctl) && 0 < |ctl| < n && SwitchCount(ctl) % 2 == 1
    ensures SwitchCount(PaddedWithRoot(ctl, n)) == SwitchCount(ctl) + 1
    ensures PaddedWithRoot(ctl, n) != Held(ctl, n)
  {
    SwitchParity(ctl);
    var ext := ctl + [ctl[0]];
    ExtendedSwitches(ctl, ctl[0]);
    RootPaddingHeld(ctl, n);
    HeldSwitches(ext, n);
    assert PaddedWithRoot(ctl, n)[|ctl|] != Held(ctl, n)[|ctl|];
  }

  /** Appending a value different from the last adds one switch. */
  lemma ExtendedSwitches(ctl: seq<int>, x: int)
    requires 0 < |ctl| && x != ctl[|ctl| - 1]
    ensures SwitchCount(ctl + [x]) == SwitchCount(ctl) + 1
  {
    assert (ctl + [x])[..|ctl|] == ctl;
  }

  /** Padding with the first value is holding the path extended by it. */
  lemma RootPaddingHeld(ctl: seq<int>, n: nat)
    requires 0 < |ctl| < n
    ensures PaddedWithRoot(ctl, n) == Held(ctl + [ctl[0]], n)
  {
    var ext := ctl + [ctl[0]];
    assert ext[|ext| - 1] == ctl[0];
    assert Repeat(ctl[0], n - |ctl|) == [ctl[0]] + Repeat(ctl[0], n - |ext|);
  }

  /** What the root padding returns for a node that jumped to the end:
      a 0/1 vector that is the held path when the budget is even, and
      one switch over budget, away from the held path, when it is odd. */
  lemma RootPaddedSolution(b: seq<real>, sigmaMax: int, n: SNode, ctl: seq<int>)
    requires NodeOk(b, sigmaMax, n, ctl) && n.d == |b|
    ensures 0 < |ctl| < |b| && IsBinaryVector(PaddedWithRoot(ctl, |b|))
    ensures Dev(b, Held(ctl, |b|)) == n.eta && SwitchCount(Held(ctl, |b|)) == sigmaMax
    ensures sigmaMax % 2 == 0 ==> PaddedWithRoot(ctl, |b|) == Held(ctl, |b|)
    ensures sigmaMax % 2 == 1 ==>
      SwitchCount(PaddedWithRoot(ctl, |b|)) == sigmaMax + 1 && PaddedWithRoot(ctl, |b|) != Held(ctl, |b|)
  {
    HeldSolution(b, sigmaMax, n, ctl);
    SwitchParity(ctl);
    if sigmaMax % 2 == 1 {
      RootPaddingOverspends(ctl, |b|);
    }
    var r := PaddedWithRoot(ctl, |b|);
    forall j | 0 <= j < |r| ensures r[j] == 0 || r[j] == 1 {
      if j >= |ctl| {
        assert r[j] == ctl[0];
      } else {
        assert r[j] == r[..|ctl|][j];
      }
    }
  }

  /** A concrete case: for `b = [0, 1, 1]` and `sigma_max = 1` the node
      with path `[0, 1]` that jumped to the end reports deviation 0, but
      the post-processing as written returns `[0, 1, 0]`, which has two
      switches and deviation 1. */
  lemma RootPaddingExample()
    ensures var b := [0.0, 1.0, 1.0];
      var n := SNode(0.0, 3, 2, 0.0, 0, 1, 1);
      NodeOk(b, 1, n, [0, 1]) &&
      PaddedWithRoot([0, 1], 3) == [0, 1, 0] && SwitchCount([0, 1, 0]) == 2 &&
      Dev(b, [0, 1, 0]) == 1.0 && Held([0, 1], 3) == [0, 1, 1] && Dev(b, [0, 1, 1]) == 0.0
  {
    ExampleHeld();
    ExamplePadded();
  }

  /** The held half of `RootPaddingExample`. */
  lemma ExampleHeld()
    ensures Held([0, 1], 3) == [0, 1, 1] && Dev([0.0, 1.0, 1.0], [0, 1, 1]) == 0.0
    ensures NodeOk([0.0, 1.0, 1.0], 1, SNode(0.0, 3, 2, 0.0, 0, 1, 1), [0, 1])
  {
    var b := [0.0, 1.0, 1.0];
    assert Repeat(1, 1) == [1];
    assert [0, 1, 1][..2] == [0, 1] && [0, 1][..1] == [0] && [0][..0] == [];
    assert Dev(b, [0]) == 0.0;
    assert Dev(b, [0, 1]) == 0.0;
    assert SwitchCount([0, 1]) == 1;
  }

  /** The padded half of `RootPaddingExample`. */
  lemma ExamplePadded()
    ensures PaddedWithRoot([0, 1], 3) == [0, 1, 0] && SwitchCount([0, 1, 0]) == 2
    ensures Dev([0.0, 1.0, 1.0], [0, 1, 0]) == 1.0
  {
    var b := [0.0, 1.0, 1.0];
    assert Repeat(0, 1) == [0];
    assert [0, 1, 0][..2] == [0, 1] && [0, 1][..1] == [0] && [0][..0] == [];
    assert Dev(b, [0, 1]) == 0.0;
    assert SwitchCount([0, 1]) == 1;
  }
}
