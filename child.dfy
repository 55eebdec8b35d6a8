// Problem data, precomputed tail sums and child-node construction of the
// native branch-and-bound engine
// (src/combina_bnb_solver/CombinaBnBSolver.cpp).

module ChildNodes {
  import opened Common

  /** The solver's inputs, as handed to the `CombinaBnBSolver`
      constructor.  `minDownTime` and `bValid` are stored but never read
      by the search; down times are enforced only through
      `minDownTimePre`. */
  datatype Problem = Problem(
    dt: seq<real>,
    bRel: seq<seq<real>>,
    nC: nat,
    nT: nat,
    nMaxSwitches: seq<nat>,
    minUpTime: seq<real>,
    minDownTime: seq<real>,
    bValid: seq<seq<nat>>,
    minDownTimePre: seq<real>,
    bActivePre: nat)

  /** The shapes the constructor relies on: `b_rel[0]` exists, every row
      and `dt` have `n_t` entries, and the per-control vectors `n_c`. */
  predicate WellFormed(p: Problem)
  {
    p.nC > 0 && p.nT > 0 && |p.dt| == p.nT && |p.bRel| == p.nC &&
    (forall i :: 0 <= i < p.nC ==> |p.bRel[i]| == p.nT) &&
    |p.nMaxSwitches| == p.nC && |p.minUpTime| == p.nC && |p.minDownTimePre| == p.nC
  }

  /** `dt[k] * b_rel[i][k]`: control `i` off while its relaxation is on. */
  function OnTerms(p: Problem, i: nat): (r: seq<real>)
    requires WellFormed(p) && i < p.nC
    ensures |r| == p.nT
  {
    seq(p.nT, k requires 0 <= k < p.nT => p.dt[k] * p.bRel[i][k])
  }

  /** `dt[k] * (b_rel[i][k] - 1)`: control `i` on. */
  function OffTerms(p: Problem, i: nat): (r: seq<real>)
    requires WellFormed(p) && i < p.nC
    ensures |r| == p.nT
  {
    seq(p.nT, k requires 0 <= k < p.nT => p.dt[k] * (p.bRel[i][k] - 1.0))
  }

  /** `sum_eta[0]` and `sum_eta[1]` have one row of `n_t` entries per
      control. */
  predicate TableShaped(p: Problem, on: seq<seq<real>>, off: seq<seq<real>>)
  {
    |on| == p.nC && |off| == p.nC &&
    (forall i :: 0 <= i < p.nC ==> |on[i]| == p.nT && |off[i]| == p.nT)
  }

  /** `sum_eta[0]` and `sum_eta[1]` hold the tail sums of the two term
      sequences. */
  predicate TailTables(p: Problem, on: seq<seq<real>>, off: seq<seq<real>>)
    requires WellFormed(p)
  {
    TableShaped(p, on, off) &&
    (forall i, j :: 0 <= i < p.nC && 0 <= j < p.nT ==>
      on[i][j] == SumRange(OnTerms(p, i), j, p.nT) &&
      off[i][j] == SumRange(OffTerms(p, i), j, p.nT))
  }

  /** `compute_initial_upper_bound`: `ub_bnb` (0 on construction) plus every
      interval length. */
  method ComputeInitialUpperBound(p: Problem) returns (ub: real)
    requires WellFormed(p)
    ensures ub == SumRange(p.dt, 0, p.nT)
  {
    ub := 0.0;
    var i := 0;
    while i < p.nT
      invariant 0 <= i <= p.nT
      invariant ub == SumRange(p.dt, 0, i)
    {
      SumRangeSnoc(p.dt, 0, i + 1);
      ub := ub + p.dt[i];
      i := i + 1;
    }
  }

  /** One row of `precompute_sum_of_etas`: the last entry, then backwards. */
  method TailRow(terms: seq<real>) returns (row: seq<real>)
    requires |terms| > 0
    ensures |row| == |terms|
    ensures forall j :: 0 <= j < |terms| ==> row[j] == SumRange(terms, j, |terms|)
  {
    var n := |terms|;
    row := Repeat(0.0, n);
    row := row[n - 1 := terms[n - 1]];
    var j: int := n - 2;
    while j >= 0
      invariant -1 <= j <= n - 2 && |row| == n
      invariant forall k :: j < k < n ==> row[k] == SumRange(terms, k, n)
    {
      row := row[j := row[j + 1] + terms[j]];
      j := j - 1;
    }
  }

  /** `precompute_sum_of_etas`. */
  method PrecomputeSumOfEtas(p: Problem) returns (on: seq<seq<real>>, off: seq<seq<real>>)
    requires WellFormed(p)
    ensures TailTables(p, on, off)
  {
    on, off := [], [];
    var i := 0;
    while i < p.nC
      invariant 0 <= i <= p.nC && |on| == i && |off| == i
      invariant forall c :: 0 <= c < i ==> |on[c]| == p.nT && |off[c]| == p.nT
      invariant forall c, j :: 0 <= c < i && 0 <= j < p.nT ==>
        on[c][j] == SumRange(OnTerms(p, c), j, p.nT) &&
        off[c][j] == SumRange(OffTerms(p, c), j, p.nT)
    {
      var rowOn := TailRow(OnTerms(p, i));
      var rowOff := TailRow(OffTerms(p, i));
      on := on + [rowOn];
      off := off + [rowOff];
      i := i + 1;
    }
  }

  /** The two tables differ by the remaining horizon: switching a control
      on for the rest of the horizon instead of off changes its deviation
      by exactly the time left. */
  lemma {:induction false} TailTablesDiffer(p: Problem, i: nat, j: nat)
    requires WellFormed(p) && i < p.nC && j <= p.nT
    ensures SumRange(OnTerms(p, i), j, p.nT) - SumRange(OffTerms(p, i), j, p.nT) == SumRange(p.dt, j, p.nT)
    decreases p.nT - j
  {
    if j < p.nT {
      TailTablesDiffer(p, i, j + 1);
    }
  }

  // ---------------------------------------------------------------------
  // Feasibility of a child

  /** `control_activation_forbidden`: the child's own budget is spent, a
      real parent's budget is spent, or the child must still stay down. */
  predicate ControlActivationForbidden(p: Problem, child: nat, parent: nat,
    sigma: seq<nat>, minDownTimeParent: seq<real>)
    requires WellFormed(p) && child < p.nC && |sigma| == p.nC && |minDownTimeParent| == p.nC
  {
    sigma[child] >= p.nMaxSwitches[child] ||
    (parent < p.nC && sigma[parent] >= p.nMaxSwitches[parent]) ||
    minDownTimeParent[child] > 0.0
  }

  /** Switch counts within every budget. */
  predicate WithinBudget(p: Problem, sigma: seq<nat>)
    requires WellFormed(p) && |sigma| == p.nC
  {
    forall i :: 0 <= i < p.nC ==> sigma[i] <= p.nMaxSwitches[i]
  }

  // ---------------------------------------------------------------------
  // The covering loop of `compute_child_node_properties`

  function Indicator(b: bool): real
  {
    if b then 1.0 else 0.0
  }

  /** `dt[k] * (b_rel[i][k] - [child == i])`: the deviation of control `i`
      on interval `k` while `child` is active. */
  function DevTerms(p: Problem, child: nat, i: nat): (r: seq<real>)
    requires WellFormed(p) && i < p.nC
    ensures |r| == p.nT
    ensures forall k :: 0 <= k < p.nT ==> r[k] == p.dt[k] * (p.bRel[i][k] - Indicator(child == i))
  {
    if child == i then OffTerms(p, i) else OnTerms(p, i)
  }

  /** The loop state of the do-while: `eta_child`, `min_down_time_child`,
      `min_up_time_fulfilled` and `*depth_child`. */
  datatype Coverage = Coverage(eta: seq<real>, mdt: seq<real>, fulfilled: real, depth: nat)

  predicate CoverageShaped(p: Problem, c: Coverage)
  {
    |c.eta| == p.nC && |c.mdt| == p.nC && c.depth < p.nT
  }

  /** One pass of the do-while body over interval `c.depth`. */
  function CoverStep(p: Problem, child: nat, sigma: seq<nat>, c: Coverage): (r: Coverage)
    requires WellFormed(p) && |sigma| == p.nC && CoverageShaped(p, c)
    ensures |r.eta| == p.nC && |r.mdt| == p.nC && r.depth == c.depth + 1
  {
    var d := c.depth;
    Coverage(
      seq(p.nC, i requires 0 <= i < p.nC =>
        if sigma[i] < p.nMaxSwitches[i] then c.eta[i] + DevTerms(p, child, i)[d] else c.eta[i]),
      seq(p.nC, i requires 0 <= i < p.nC => c.mdt[i] - p.dt[d]),
      c.fulfilled + p.dt[d],
      d + 1)
  }

  /** The do-while: cover intervals until the minimum up time of `child`
      is fulfilled or the horizon ends. */
  function Cover(p: Problem, child: nat, sigma: seq<nat>, c: Coverage): (r: Coverage)
    requires WellFormed(p) && child < p.nC && |sigma| == p.nC && CoverageShaped(p, c)
    ensures |r.eta| == p.nC && |r.mdt| == p.nC && c.depth < r.depth <= p.nT
    decreases p.nT - c.depth
  {
    var next := CoverStep(p, child, sigma, c);
    if p.minUpTime[child] > next.fulfilled && next.depth < p.nT then Cover(p, child, sigma, next)
    else next
  }

  /** The block covers at least one interval and stays within the
      horizon; it ends at the horizon or once the up time is fulfilled, and
      not one interval earlier. */
  lemma {:induction false} CoverExtent(p: Problem, child: nat, sigma: seq<nat>, c: Coverage)
    requires WellFormed(p) && child < p.nC && |sigma| == p.nC && CoverageShaped(p, c)
    ensures var r := Cover(p, child, sigma, c);
      c.depth < r.depth <= p.nT &&
      r.fulfilled == c.fulfilled + SumRange(p.dt, c.depth, r.depth) &&
      (r.depth == p.nT || r.fulfilled >= p.minUpTime[child]) &&
      (forall k :: c.depth < k < r.depth ==> c.fulfilled + SumRange(p.dt, c.depth, k) < p.minUpTime[child])
    decreases p.nT - c.depth
  {
    var next := CoverStep(p, child, sigma, c);
    assert SumRange(p.dt, c.depth, c.depth + 1) == p.dt[c.depth];
    if p.minUpTime[child] > next.fulfilled && next.depth < p.nT {
      CoverExtent(p, child, sigma, next);
      var r := Cover(p, child, sigma, c);
      SumRangeSplit(p.dt, c.depth, c.depth + 1, r.depth);
      forall k | c.depth < k < r.depth
        ensures c.fulfilled + SumRange(p.dt, c.depth, k) < p.minUpTime[child]
      {
        SumRangeSplit(p.dt, c.depth, c.depth + 1, k);
      }
    }
  }

  /** Every control's remaining down time drops by the covered time, and
      `eta` changes exactly for the controls below budget, by their
      deviation over the covered intervals. */
  lemma {:induction false} CoverUpdates(p: Problem, child: nat, sigma: seq<nat>, c: Coverage)
    requires WellFormed(p) && child < p.nC && |sigma| == p.nC && CoverageShaped(p, c)
    ensures var r := Cover(p, child, sigma, c);
      c.depth < r.depth <= p.nT &&
      (forall i :: 0 <= i < p.nC ==> r.mdt[i] == c.mdt[i] - SumRange(p.dt, c.depth, r.depth)) &&
      (forall i :: 0 <= i < p.nC ==> r.eta[i] == if sigma[i] < p.nMaxSwitches[i]
        then c.eta[i] + SumRange(DevTerms(p, child, i), c.depth, r.depth) else c.eta[i])
    decreases p.nT - c.depth
  {
    var next := CoverStep(p, child, sigma, c);
    CoverExtent(p, child, sigma, c);
    var r := Cover(p, child, sigma, c);
    forall i | 0 <= i < p.nC ensures SumRange(DevTerms(p, child, i), c.depth, c.depth + 1) == DevTerms(p, child, i)[c.depth] {
    }
    assert SumRange(p.dt, c.depth, c.depth + 1) == p.dt[c.depth];
    if p.minUpTime[child] > next.fulfilled && next.depth < p.nT {
      CoverUpdates(p, child, sigma, next);
      SumRangeSplit(p.dt, c.depth, c.depth + 1, r.depth);
      forall i | 0 <= i < p.nC
        ensures SumRange(DevTerms(p, child, i), c.depth, r.depth) ==
          DevTerms(p, child, i)[c.depth] + SumRange(DevTerms(p, child, i), c.depth + 1, r.depth)
      {
        SumRangeSplit(DevTerms(p, child, i), c.depth, c.depth + 1, r.depth);
      }
    }
  }

  /** The body of the do-while: the loop over all controls for one
      interval. */
  method CoverOneInterval(p: Problem, child: nat, sigma: seq<nat>, before: Coverage) returns (after: Coverage)
    requires WellFormed(p) && child < p.nC && |sigma| == p.nC && CoverageShaped(p, before)
    ensures after == CoverStep(p, child, sigma, before)
  {
    ghost var want := CoverStep(p, child, sigma, before);
    var eta, mdt, depth := before.eta, before.mdt, before.depth;
    var i := 0;
    while i < p.nC
      invariant 0 <= i <= p.nC && |eta| == p.nC && |mdt| == p.nC
      invariant forall k :: 0 <= k < i ==> eta[k] == want.eta[k] && mdt[k] == want.mdt[k]
      invariant forall k :: i <= k < p.nC ==> eta[k] == before.eta[k] && mdt[k] == before.mdt[k]
    {
      if sigma[i] < p.nMaxSwitches[i] {
        eta := eta[i := eta[i] + p.dt[depth] * (p.bRel[i][depth] - Indicator(child == i))];
      }
      mdt := mdt[i := mdt[i] - p.dt[depth]];
      i := i + 1;
    }
    after := Coverage(eta, mdt, before.fulfilled + p.dt[depth], depth + 1);
  }

  /** The do-while of `compute_child_node_properties`. */
  method CoverIntervals(p: Problem, child: nat, sigma: seq<nat>, c0: Coverage) returns (c: Coverage)
    requires WellFormed(p) && child < p.nC && |sigma| == p.nC && CoverageShaped(p, c0)
    ensures c == Cover(p, child, sigma, c0)
  {
    c := c0;
    while true
      invariant CoverageShaped(p, c)
      invariant Cover(p, child, sigma, c) == Cover(p, child, sigma, c0)
      decreases p.nT - c.depth
    {
      var next := CoverOneInterval(p, child, sigma, c);
      if !(p.minUpTime[child] > next.fulfilled && next.depth < p.nT) {
        return next;
      }
      c := next;
    }
  }

  /** The `fmax` fold of `|eta[j]|` over all controls, starting from the
      value `*lb_child` holds on entry. */
  function FoldMaxAbs(init: real, s: seq<real>): (r: real)
    ensures r >= init
    ensures forall j :: 0 <= j < |s| ==> Abs(s[j]) <= r
    ensures r == init || exists j :: 0 <= j < |s| && r == Abs(s[j])
  {
    if |s| == 0 then init else Max(FoldMaxAbs(init, s[..|s| - 1]), Abs(s[|s| - 1]))
  }

  /** The closing loop of `compute_child_node_properties`. */
  method FoldMaxAbsLoop(init: real, eta: seq<real>) returns (lb: real)
    ensures lb == FoldMaxAbs(init, eta)
  {
    lb := init;
    for j := 0 to |eta|
      invariant lb == FoldMaxAbs(init, eta[..j])
    {
      assert eta[..j + 1][..j] == eta[..j];
      lb := Max(lb, Abs(eta[j]));
    }
    assert eta[..|eta|] == eta;
  }

  /** The final bound: never below the parent's, nor below any deviation. */
  function LowerBound(lbParent: real, lbInit: real, eta: seq<real>): (r: real)
    ensures r >= lbParent && r >= lbInit
    ensures forall j :: 0 <= j < |eta| ==> Abs(eta[j]) <= r
  {
    Max(lbParent, Abs(FoldMaxAbs(lbInit, eta)))
  }

  /** What `compute_child_node_properties` writes through its reference
      and pointer arguments. */
  datatype ChildState = ChildState(eta: seq<real>, sigma: seq<nat>, mdt: seq<real>, depth: nat, lb: real)

  /** Outcomes of the native engine that the C++ code does not define or
      reports by throwing. */
  datatype SolverError = SumEtaOutOfRange | SwitchLimitExceeded

  /** A real switch: the child differs from a parent that is a control. */
  predicate Switches(p: Problem, child: nat, parent: nat)
  {
    child != parent && parent < p.nC
  }

  /** Shapes with which a child may be computed from a node. */
  predicate ChildArgs(p: Problem, on: seq<seq<real>>, off: seq<seq<real>>, child: nat,
    eta: seq<real>, sigma: seq<nat>, mdt: seq<real>, depth: nat)
  {
    WellFormed(p) && TableShaped(p, on, off) && child < p.nC &&
    |eta| == p.nC && |sigma| == p.nC && |mdt| == p.nC && depth < p.nT
  }

  /** The covering block of a child, before the switch bookkeeping. */
  function ChildBlock(p: Problem, child: nat, parent: nat,
    eta: seq<real>, sigma: seq<nat>, mdt: seq<real>, depth: nat): (c: Coverage)
    requires WellFormed(p) && child < p.nC && |eta| == p.nC && |sigma| == p.nC && |mdt| == p.nC && depth < p.nT
    ensures |c.eta| == p.nC && |c.mdt| == p.nC && depth < c.depth <= p.nT
  {
    Cover(p, child, sigma, Coverage(eta, mdt, if child == parent then p.minUpTime[child] else 0.0, depth))
  }

  /** The switch makes control `i` reach its budget. */
  predicate Spends(p: Problem, sigma: seq<nat>, i: nat)
    requires |sigma| == p.nC == |p.nMaxSwitches| && i < p.nC
  {
    sigma[i] + 1 == p.nMaxSwitches[i]
  }

  /** The bookkeeping after a switch from `parent` to `child`, given the
      tail sums added for a spent budget. */
  function SettleSwitch(p: Problem, c: Coverage, child: nat, parent: nat, sigma: seq<nat>,
    lbParent: real, lbInit: real, tailOn: real, tailOff: real): (r: ChildState)
    requires WellFormed(p) && child < p.nC && parent < p.nC && child != parent
    requires |c.eta| == p.nC && |c.mdt| == p.nC && |sigma| == p.nC
    ensures |r.eta| == p.nC && |r.sigma| == p.nC && |r.mdt| == p.nC
  {
    var s := sigma[parent := sigma[parent] + 1][child := sigma[child] + 1];
    var e1 := if Spends(p, sigma, parent) then c.eta[parent := c.eta[parent] + tailOn] else c.eta;
    var e2 := if Spends(p, sigma, child) then e1[child := e1[child] + tailOff] else e1;
    ChildState(e2, s, c.mdt, if s == p.nMaxSwitches then p.nT else c.depth, LowerBound(lbParent, lbInit, e2))
  }

  /** `compute_child_node_properties` as written: once the block has reached
      the end of the horizon, a budget spent by the switch makes it read
      `sum_eta[..][..][n_t]`, one past the end of a row. */
  function ChildNodeProperties(p: Problem, on: seq<seq<real>>, off: seq<seq<real>>,
    child: nat, parent: nat, eta: seq<real>, sigma: seq<nat>, mdt: seq<real>, depth: nat,
    lbParent: real, lbInit: real): (r: Result<ChildState, SolverError>)
    requires ChildArgs(p, on, off, child, eta, sigma, mdt, depth)
    ensures r.Err? ==> r.error == SumEtaOutOfRange && Switches(p, child, parent)
  {
    ChildFromBlock(p, on, off, ChildBlock(p, child, parent, eta, sigma, mdt, depth), child, parent, sigma, lbParent, lbInit)
  }

  /** What `compute_child_node_properties` does after the covering loop,
      as written. */
  function ChildFromBlock(p: Problem, on: seq<seq<real>>, off: seq<seq<real>>, c: Coverage,
    child: nat, parent: nat, sigma: seq<nat>, lbParent: real, lbInit: real): (r: Result<ChildState, SolverError>)
    requires WellFormed(p) && TableShaped(p, on, off) && child < p.nC
    requires |c.eta| == p.nC && |c.mdt| == p.nC && |sigma| == p.nC && c.depth <= p.nT
    ensures r.Err? ==> r.error == SumEtaOutOfRange && Switches(p, child, parent)
  {
    if Switches(p, child, parent) then
      var needsTail := Spends(p, sigma, parent) || Spends(p, sigma, child);
      if needsTail && c.depth == p.nT then Err(SumEtaOutOfRange)
      else
        Ok(SettleSwitch(p, c, child, parent, sigma, lbParent, lbInit,
          if Spends(p, sigma, parent) then on[parent][c.depth] else 0.0,
          if Spends(p, sigma, child) then off[child][c.depth] else 0.0))
    else
      Ok(ChildState(c.eta, sigma, c.mdt, c.depth, LowerBound(lbParent, lbInit, c.eta)))
  }

  /** The tail lookups as intended: at the end of the horizon nothing is
      left to add. */
  function Tail(row: seq<real>, d: nat): real
  {
    if d < |row| then row[d] else 0.0
  }

  /** `compute_child_node_properties` with the tail lookup defined at the
      end of the horizon. */
  function IntendedChild(p: Problem, on: seq<seq<real>>, off: seq<seq<real>>,
    child: nat, parent: nat, eta: seq<real>, sigma: seq<nat>, mdt: seq<real>, depth: nat,
    lbParent: real, lbInit: real): (r: ChildState)
    requires ChildArgs(p, on, off, child, eta, sigma, mdt, depth)
    ensures |r.eta| == p.nC && |r.sigma| == p.nC && |r.mdt| == p.nC
  {
    var c := ChildBlock(p, child, parent, eta, sigma, mdt, depth);
    if Switches(p, child, parent) then
      SettleSwitch(p, c, child, parent, sigma, lbParent, lbInit,
        if Spends(p, sigma, parent) then Tail(on[parent], c.depth) else 0.0,
        if Spends(p, sigma, child) then Tail(off[child], c.depth) else 0.0)
    else
      ChildState(c.eta, sigma, c.mdt, c.depth, LowerBound(lbParent, lbInit, c.eta))
  }

  /** The switch branch of `compute_child_node_properties`; `overread`
      reports a tail lookup at depth `n_t`. */
  method SwitchBookkeeping(p: Problem, on: seq<seq<real>>, off: seq<seq<real>>, c: Coverage,
    child: nat, parent: nat, sigma0: seq<nat>) returns (overread: bool, eta: seq<real>, sigma: seq<nat>, depth: nat)
    requires WellFormed(p) && TableShaped(p, on, off) && child < p.nC && parent < p.nC && child != parent
    requires |c.eta| == p.nC && |c.mdt| == p.nC && |sigma0| == p.nC && c.depth <= p.nT
    ensures overread <==> (Spends(p, sigma0, parent) || Spends(p, sigma0, child)) && c.depth == p.nT
    ensures !overread ==>
      var r := SettleSwitch(p, c, child, parent, sigma0, 0.0, 0.0,
        if Spends(p, sigma0, parent) then Tail(on[parent], c.depth) else 0.0,
        if Spends(p, sigma0, child) then Tail(off[child], c.depth) else 0.0);
      eta == r.eta && sigma == r.sigma && depth == r.depth
  {
    overread := false;
    eta, sigma, depth := c.eta, sigma0, c.depth;
    sigma := sigma[parent := sigma[parent] + 1];
    sigma := sigma[child := sigma[child] + 1];
    assert sigma == sigma0[parent := sigma0[parent] + 1][child := sigma0[child] + 1];
    if sigma[parent] == p.nMaxSwitches[parent] {
      if depth >= |on[parent]| {
        overread := true;
        return;
      }
      eta := eta[parent := eta[parent] + on[parent][depth]];
    }
    if sigma[child] == p.nMaxSwitches[child] {
      if depth >= |off[child]| {
        overread := true;
        return;
      }
      eta := eta[child := eta[child] + off[child][depth]];
    }
    if sigma == p.nMaxSwitches {
      depth := p.nT;
    }
  }

  /** `compute_child_node_properties`, with the read past the tail tables
      as an error outcome. */
  method ComputeChildNodeProperties(p: Problem, on: seq<seq<real>>, off: seq<seq<real>>,
    child: nat, parent: nat, eta0: seq<real>, sigma0: seq<nat>, mdt0: seq<real>, depth0: nat,
    lbParent: real, lbInit: real) returns (r: Result<ChildState, SolverError>)
    requires ChildArgs(p, on, off, child, eta0, sigma0, mdt0, depth0)
    ensures r == ChildNodeProperties(p, on, off, child, parent, eta0, sigma0, mdt0, depth0, lbParent, lbInit)
  {
    var fulfilled := 0.0;
    if child == parent {
      fulfilled := p.minUpTime[child];
    }
    var c := CoverIntervals(p, child, sigma0, Coverage(eta0, mdt0, fulfilled, depth0));
    assert c == ChildBlock(p, child, parent, eta0, sigma0, mdt0, depth0);
    r := FinishChild(p, on, off, c, child, parent, sigma0, lbParent, lbInit);
  }

  /** The switch bookkeeping and the bound, after the covering loop. */
  method FinishChild(p: Problem, on: seq<seq<real>>, off: seq<seq<real>>, c: Coverage,
    child: nat, parent: nat, sigma0: seq<nat>, lbParent: real, lbInit: real) returns (r: Result<ChildState, SolverError>)
    requires WellFormed(p) && TableShaped(p, on, off) && child < p.nC
    requires |c.eta| == p.nC && |c.mdt| == p.nC && |sigma0| == p.nC && c.depth <= p.nT
    ensures r == ChildFromBlock(p, on, off, c, child, parent, sigma0, lbParent, lbInit)
  {
    if child != parent && parent < p.nC {
      r := FinishSwitch(p, on, off, c, child, parent, sigma0, lbParent, lbInit);
    } else {
      var lb := ComputeLowerBound(lbParent, lbInit, c.eta);
      r := Ok(ChildState(c.eta, sigma0, c.mdt, c.depth, lb));
    }
  }

  /** The bound of the child: the parent's bound or the largest absolute
      deviation, whichever is larger. */
  method ComputeLowerBound(lbParent: real, lbInit: real, eta: seq<real>) returns (lb: real)
    ensures lb == LowerBound(lbParent, lbInit, eta)
  {
    lb := FoldMaxAbsLoop(lbInit, eta);
    lb := Max(lbParent, Abs(lb));
  }

  /** `FinishChild` after a switch from `parent` to `child`. */
  method FinishSwitch(p: Problem, on: seq<seq<real>>, off: seq<seq<real>>, c: Coverage,
    child: nat, parent: nat, sigma0: seq<nat>, lbParent: real, lbInit: real) returns (r: Result<ChildState, SolverError>)
    requires WellFormed(p) && TableShaped(p, on, off) && child < p.nC && parent < p.nC && child != parent
    requires |c.eta| == p.nC && |c.mdt| == p.nC && |sigma0| == p.nC && c.depth <= p.nT
    ensures r == ChildFromBlock(p, on, off, c, child, parent, sigma0, lbParent, lbInit)
  {
    var overread, eta, sigma, depth := SwitchBookkeeping(p, on, off, c, child, parent, sigma0);
    if overread {
      return Err(SumEtaOutOfRange);
    }
    TailInRange(on, off, parent, child, c.depth, p.nT);
    var lb := ComputeLowerBound(lbParent, lbInit, eta);
    SettleSwitchBound(p, c, child, parent, sigma0, lbParent, lbInit,
      if Spends(p, sigma0, parent) then Tail(on[parent], c.depth) else 0.0,
      if Spends(p, sigma0, child) then Tail(off[child], c.depth) else 0.0);
    r := Ok(ChildState(eta, sigma, c.mdt, depth, lb));
  }

  /** The switch bookkeeping does not depend on the bounds it is given. */
  lemma SettleSwitchBound(p: Problem, c: Coverage, child: nat, parent: nat, sigma: seq<nat>,
    lbParent: real, lbInit: real, tailOn: real, tailOff: real)
    requires WellFormed(p) && child < p.nC && parent < p.nC && child != parent
    requires |c.eta| == p.nC && |c.mdt| == p.nC && |sigma| == p.nC
    ensures var r0 := SettleSwitch(p, c, child, parent, sigma, 0.0, 0.0, tailOn, tailOff);
      SettleSwitch(p, c, child, parent, sigma, lbParent, lbInit, tailOn, tailOff) ==
        ChildState(r0.eta, r0.sigma, c.mdt, r0.depth, LowerBound(lbParent, lbInit, r0.eta))
  {
  }

  /** On every input where the code as written stays in range it computes
      the corrected child. */
  lemma ChildNodePropertiesInRange(p: Problem, on: seq<seq<real>>, off: seq<seq<real>>,
    child: nat, parent: nat, eta: seq<real>, sigma: seq<nat>, mdt: seq<real>, depth: nat,
    lbParent: real, lbInit: real)
    requires ChildArgs(p, on, off, child, eta, sigma, mdt, depth)
    requires ChildNodeProperties(p, on, off, child, parent, eta, sigma, mdt, depth, lbParent, lbInit).Ok?
    ensures ChildNodeProperties(p, on, off, child, parent, eta, sigma, mdt, depth, lbParent, lbInit).value ==
      IntendedChild(p, on, off, child, parent, eta, sigma, mdt, depth, lbParent, lbInit)
  {
    var c := ChildBlock(p, child, parent, eta, sigma, mdt, depth);
    TailInRange(on, off, parent, child, c.depth, p.nT);
  }

  lemma TailInRange(on: seq<seq<real>>, off: seq<seq<real>>, parent: nat, child: nat, d: nat, n: nat)
    requires parent < |on| ==> |on[parent]| == n
    requires child < |off| ==> |off[child]| == n
    ensures d < n && parent < |on| ==> Tail(on[parent], d) == on[parent][d]
    ensures d < n && child < |off| ==> Tail(off[child], d) == off[child][d]
  {
  }

  /** The code as written leaves the tables exactly when a switch spends a
      budget in a block that reaches the horizon. */
  lemma ChildNodePropertiesOverread(p: Problem, on: seq<seq<real>>, off: seq<seq<real>>,
    child: nat, parent: nat, eta: seq<real>, sigma: seq<nat>, mdt: seq<real>, depth: nat,
    lbParent: real, lbInit: real)
    requires ChildArgs(p, on, off, child, eta, sigma, mdt, depth)
    ensures ChildNodeProperties(p, on, off, child, parent, eta, sigma, mdt, depth, lbParent, lbInit).Err? <==>
      (Switches(p, child, parent) &&
       ChildBlock(p, child, parent, eta, sigma, mdt, depth).depth == p.nT &&
       (Spends(p, sigma, parent) || Spends(p, sigma, child)))
  {
  }

  /** Two controls with one switch each over a single interval, the first
      active before the horizon: switching to the second is allowed, and
      the code as written then reads past the end of the tail tables. */
  lemma SumEtaOverreadReachable()
    ensures var p := Problem([1.0], [[0.5], [0.5]], 2, 1, [1, 1], [0.0, 0.0], [0.0, 0.0], [], [0.0, 0.0], 0);
      var on := [[0.5], [0.5]];
      var off := [[-0.5], [-0.5]];
      WellFormed(p) && TailTables(p, on, off) &&
      !ControlActivationForbidden(p, 1, 0, [0, 0], [0.0, 0.0]) &&
      ChildNodeProperties(p, on, off, 1, 0, [0.0, 0.0], [0, 0], [0.0, 0.0], 0, 0.0, 0.0) == Err(SumEtaOutOfRange)
  {
    var p := Problem([1.0], [[0.5], [0.5]], 2, 1, [1, 1], [0.0, 0.0], [0.0, 0.0], [], [0.0, 0.0], 0);
    var on := [[0.5], [0.5]];
    var off := [[-0.5], [-0.5]];
    assert SumRange(OnTerms(p, 0), 0, 1) == 0.5 by { assert OnTerms(p, 0)[0] == 0.5; }
    assert SumRange(OnTerms(p, 1), 0, 1) == 0.5 by { assert OnTerms(p, 1)[0] == 0.5; }
    assert SumRange(OffTerms(p, 0), 0, 1) == -0.5 by { assert OffTerms(p, 0)[0] == -0.5; }
    assert SumRange(OffTerms(p, 1), 0, 1) == -0.5 by { assert OffTerms(p, 1)[0] == -0.5; }
    var c := ChildBlock(p, 1, 0, [0.0, 0.0], [0, 0], [0.0, 0.0], 0);
    assert c.depth == 1;
  }

  /** The child's block starts where the parent ended and reaches at most
      the horizon; its bound never falls below the parent's nor below any
      deviation; remaining down times drop by the covered time; the block
      ends early only when the minimum up time is fulfilled. */
  lemma ChildAdvances(p: Problem, on: seq<seq<real>>, off: seq<seq<real>>,
    child: nat, parent: nat, eta: seq<real>, sigma: seq<nat>, mdt: seq<real>, depth: nat,
    lbParent: real, lbInit: real)
    requires ChildArgs(p, on, off, child, eta, sigma, mdt, depth)
    ensures var r := IntendedChild(p, on, off, child, parent, eta, sigma, mdt, depth, lbParent, lbInit);
      var c := ChildBlock(p, child, parent, eta, sigma, mdt, depth);
      depth < r.depth <= p.nT &&
      (r.depth == c.depth || r.depth == p.nT) &&
      r.lb >= lbParent && r.lb >= lbInit &&
      (forall j :: 0 <= j < p.nC ==> Abs(r.eta[j]) <= r.lb) &&
      (forall i :: 0 <= i < p.nC ==> r.mdt[i] == mdt[i] - SumRange(p.dt, depth, c.depth)) &&
      (c.depth < p.nT ==> (if child == parent then p.minUpTime[child] else 0.0) + SumRange(p.dt, depth, c.depth) >= p.minUpTime[child])
  {
    var start := if child == parent then p.minUpTime[child] else 0.0;
    CoverExtent(p, child, sigma, Coverage(eta, mdt, start, depth));
    CoverUpdates(p, child, sigma, Coverage(eta, mdt, start, depth));
  }

  /** The child's block starts where the parent ended and reaches at most
      the horizon. */
  lemma ChildDepthRange(p: Problem, on: seq<seq<real>>, off: seq<seq<real>>,
    child: nat, parent: nat, eta: seq<real>, sigma: seq<nat>, mdt: seq<real>, depth: nat,
    lbParent: real, lbInit: real)
    requires ChildArgs(p, on, off, child, eta, sigma, mdt, depth)
    ensures depth < IntendedChild(p, on, off, child, parent, eta, sigma, mdt, depth, lbParent, lbInit).depth <= p.nT
  {
    ChildAdvances(p, on, off, child, parent, eta, sigma, mdt, depth, lbParent, lbInit);
  }

  /** A switch from one control to another counts once for each of them;
      staying with the same control, or starting without a previous one,
      counts nothing. */
  lemma ChildSwitchCounts(p: Problem, on: seq<seq<real>>, off: seq<seq<real>>,
    child: nat, parent: nat, eta: seq<real>, sigma: seq<nat>, mdt: seq<real>, depth: nat,
    lbParent: real, lbInit: real)
    requires ChildArgs(p, on, off, child, eta, sigma, mdt, depth)
    ensures var r := IntendedChild(p, on, off, child, parent, eta, sigma, mdt, depth, lbParent, lbInit);
      forall i :: 0 <= i < p.nC ==>
        r.sigma[i] == sigma[i] + (if Switches(p, child, parent) && (i == parent || i == child) then 1 else 0)
  {
  }

  /** A child that `control_activation_forbidden` admits keeps every switch
      count within budget, so the `runtime_error` of
      `add_child_node_to_queue` cannot fire. */
  lemma AllowedChildWithinBudget(p: Problem, on: seq<seq<real>>, off: seq<seq<real>>,
    child: nat, parent: nat, eta: seq<real>, sigma: seq<nat>, mdt: seq<real>, depth: nat,
    lbParent: real, lbInit: real)
    requires ChildArgs(p, on, off, child, eta, sigma, mdt, depth)
    requires WithinBudget(p, sigma) && !ControlActivationForbidden(p, child, parent, sigma, mdt)
    ensures WithinBudget(p, IntendedChild(p, on, off, child, parent, eta, sigma, mdt, depth, lbParent, lbInit).sigma)
  {
    ChildSwitchCounts(p, on, off, child, parent, eta, sigma, mdt, depth, lbParent, lbInit);
  }

  /** A control whose last switch is spent stays as it is for the rest of
      the horizon, and its deviation already accounts for all of it: the
      previous control as off, the new one as on. */
  lemma ExhaustedControlsAccountTail(p: Problem, on: seq<seq<real>>, off: seq<seq<real>>,
    child: nat, parent: nat, eta: seq<real>, sigma: seq<nat>, mdt: seq<real>, depth: nat,
    lbParent: real, lbInit: real)
    requires ChildArgs(p, on, off, child, eta, sigma, mdt, depth) && TailTables(p, on, off) && Switches(p, child, parent)
    ensures var r := IntendedChild(p, on, off, child, parent, eta, sigma, mdt, depth, lbParent, lbInit);
      (sigma[parent] + 1 == p.nMaxSwitches[parent] ==>
        r.eta[parent] == eta[parent] + SumRange(OnTerms(p, parent), depth, p.nT)) &&
      (sigma[child] + 1 == p.nMaxSwitches[child] ==>
        r.eta[child] == eta[child] + SumRange(OffTerms(p, child), depth, p.nT)) &&
      (r.sigma == p.nMaxSwitches ==> r.depth == p.nT)
  {
    var c := ChildBlock(p, child, parent, eta, sigma, mdt, depth);
    CoverUpdates(p, child, sigma, Coverage(eta, mdt, 0.0, depth));
    SumRangeFrame(DevTerms(p, child, parent), OnTerms(p, parent), depth, c.depth);
    SumRangeFrame(DevTerms(p, child, child), OffTerms(p, child), depth, c.depth);
    SumRangeSplit(OnTerms(p, parent), depth, c.depth, p.nT);
    SumRangeSplit(OffTerms(p, child), depth, c.depth, p.nT);
  }

  /** What the child's `eta` holds for each control: unchanged when its
      budget was already spent; otherwise the parent's value plus the
      deviation over the child's block, and over the rest of the horizon
      when the switch spends the budget. */
  lemma ChildEtaCases(p: Problem, on: seq<seq<real>>, off: seq<seq<real>>,
    child: nat, parent: nat, eta: seq<real>, sigma: seq<nat>, mdt: seq<real>, depth: nat,
    lbParent: real, lbInit: real)
    requires ChildArgs(p, on, off, child, eta, sigma, mdt, depth) && TailTables(p, on, off)
    ensures var r := IntendedChild(p, on, off, child, parent, eta, sigma, mdt, depth, lbParent, lbInit);
      r.lb == LowerBound(lbParent, lbInit, r.eta) &&
      forall i :: 0 <= i < p.nC ==>
        r.eta[i] == (if sigma[i] >= p.nMaxSwitches[i] then eta[i]
          else if r.sigma[i] >= p.nMaxSwitches[i] then eta[i] + SumRange(DevTerms(p, child, i), depth, p.nT)
          else eta[i] + SumRange(DevTerms(p, child, i), depth, r.depth))
  {
    forall i | 0 <= i < p.nC
      ensures var r := IntendedChild(p, on, off, child, parent, eta, sigma, mdt, depth, lbParent, lbInit);
        r.eta[i] ==
          if sigma[i] >= p.nMaxSwitches[i] then eta[i]
          else if r.sigma[i] >= p.nMaxSwitches[i] then eta[i] + SumRange(DevTerms(p, child, i), depth, p.nT)
          else eta[i] + SumRange(DevTerms(p, child, i), depth, r.depth)
    {
      ChildEtaCase(p, on, off, child, parent, eta, sigma, mdt, depth, lbParent, lbInit, i);
    }
  }

  /** `ChildEtaCases` for one control. */
  lemma ChildEtaCase(p: Problem, on: seq<seq<real>>, off: seq<seq<real>>,
    child: nat, parent: nat, eta: seq<real>, sigma: seq<nat>, mdt: seq<real>, depth: nat,
    lbParent: real, lbInit: real, i: nat)
    requires ChildArgs(p, on, off, child, eta, sigma, mdt, depth) && TailTables(p, on, off) && i < p.nC
    ensures var r := IntendedChild(p, on, off, child, parent, eta, sigma, mdt, depth, lbParent, lbInit);
      r.eta[i] ==
        if sigma[i] >= p.nMaxSwitches[i] then eta[i]
        else if r.sigma[i] >= p.nMaxSwitches[i] then eta[i] + SumRange(DevTerms(p, child, i), depth, p.nT)
        else eta[i] + SumRange(DevTerms(p, child, i), depth, r.depth)
  {
    var r := IntendedChild(p, on, off, child, parent, eta, sigma, mdt, depth, lbParent, lbInit);
    var c := ChildBlock(p, child, parent, eta, sigma, mdt, depth);
    CoverUpdates(p, child, sigma, Coverage(eta, mdt, if child == parent then p.minUpTime[child] else 0.0, depth));
    ChildSwitchCounts(p, on, off, child, parent, eta, sigma, mdt, depth, lbParent, lbInit);
    if sigma[i] < p.nMaxSwitches[i] && r.sigma[i] >= p.nMaxSwitches[i] {
      assert Switches(p, child, parent) && (i == parent || i == child) && Spends(p, sigma, i);
      TailIsSum(p, on, off, i, c.depth);
      assert r.eta[i] == c.eta[i] + SumRange(DevTerms(p, child, i), c.depth, p.nT);
      SumRangeSplit(DevTerms(p, child, i), depth, c.depth, p.nT);
    } else {
      assert r.eta[i] == c.eta[i];
    }
  }

  /** The intended tail lookup is the tail sum, 0 at the horizon. */
  lemma TailIsSum(p: Problem, on: seq<seq<real>>, off: seq<seq<real>>, i: nat, d: nat)
    requires WellFormed(p) && TailTables(p, on, off) && i < p.nC && d <= p.nT
    ensures Tail(on[i], d) == SumRange(OnTerms(p, i), d, p.nT)
    ensures Tail(off[i], d) == SumRange(OffTerms(p, i), d, p.nT)
  {
  }
}
