// The first compiled solver generation (pycombina/src/CIA.cpp and
// pycombina/src/BnBNodeComparison.cpp): a branch and bound with one tree
// level per control interval, whose children are the controls
// 0 .. N_c, N_c standing for "no control active".  A node pointer becomes
// a node value carrying its chain of blocks; the self-deleting child
// counter of pycombina/src/BnBNode.cpp is the module LegacyNodes.

module LegacyCia {
  import opened Common
  import opened Nodes
  import ChildNodes

  /** The exceptions the constructor and `run_cia` raise. */
  datatype CiaError =
    | LengthError      // `Tg(T.size() - 1)` of an empty `T`
    | OutOfRange       // an `.at` past the end of a vector
    | InvalidArgument  // input rejected by the validation

  // ---------------------------------------------------------------------
  // Input validation (the constructor)

  predicate StrictlyIncreasing(t: seq<real>)
  {
    forall i :: 0 < i < |t| ==> t[i] - t[i - 1] > 0.0
  }

  predicate RowsOfLength(bRel: seq<seq<real>>, n: nat)
  {
    forall i :: 0 <= i < |bRel| ==> |bRel[i]| == n
  }

  predicate RowInUnitInterval(row: seq<real>)
  {
    forall j :: 0 <= j < |row| ==> 0.0 <= row[j] <= 1.0
  }

  predicate InUnitInterval(bRel: seq<seq<real>>)
  {
    forall i :: 0 <= i < |bRel| ==> RowInUnitInterval(bRel[i])
  }

  /** What the constructor accepts: a non-empty `T`, at least one control,
      `|T| - 1` entries per control, increasing time points and relaxed
      values in [0, 1]. */
  predicate ValidInput(t: seq<real>, bRel: seq<seq<real>>)
  {
    |t| > 0 && |bRel| > 0 && RowsOfLength(bRel, |t| - 1) &&
    StrictlyIncreasing(t) && InUnitInterval(bRel)
  }

  /** `validate_input_dimensions`. */
  method ValidateInputDimensions(bRel: seq<seq<real>>, nB: nat) returns (ok: bool)
    ensures ok <==> RowsOfLength(bRel, nB)
  {
    var i := 0;
    while i < |bRel|
      invariant 0 <= i <= |bRel|
      invariant forall k :: 0 <= k < i ==> |bRel[k]| == nB
    {
      if |bRel[i]| != nB {
        return false;
      }
      i := i + 1;
    }
    return true;
  }

  /** `validate_input_values_T`. */
  method ValidateInputValuesT(t: seq<real>) returns (ok: bool)
    ensures ok <==> StrictlyIncreasing(t)
  {
    var i := 1;
    while i < |t|
      invariant 1 <= i <= |t| || |t| == 0
      invariant forall k :: 0 < k < i && k < |t| ==> t[k] - t[k - 1] > 0.0
    {
      if t[i] - t[i - 1] <= 0.0 {
        return false;
      }
      i := i + 1;
    }
    return true;
  }

  /** The inner loop of `validate_input_values_b_rel`. */
  method ValidateRow(row: seq<real>) returns (ok: bool)
    ensures ok <==> RowInUnitInterval(row)
  {
    var j := 0;
    while j < |row|
      invariant 0 <= j <= |row|
      invariant forall k :: 0 <= k < j ==> 0.0 <= row[k] <= 1.0
    {
      if row[j] < 0.0 || row[j] > 1.0 {
        return false;
      }
      j := j + 1;
    }
    return true;
  }

  /** `validate_input_values_b_rel`. */
  method ValidateInputValuesBRel(bRel: seq<seq<real>>) returns (ok: bool)
    ensures ok <==> InUnitInterval(bRel)
  {
    var i := 0;
    while i < |bRel|
      invariant 0 <= i <= |bRel|
      invariant forall k :: 0 <= k < i ==> RowInUnitInterval(bRel[k])
    {
      var rowOk := ValidateRow(bRel[i]);
      if !rowOk {
        return false;
      }
      i := i + 1;
    }
    return true;
  }

  /** The checks of the constructor, in the order they run: the `Tg`
      allocation, the `b_rel.at(0)` of the `b_bin` allocation, then
      `validate_input_data`. */
  method ValidateInputData(t: seq<real>, bRel: seq<seq<real>>) returns (r: Option<CiaError>)
    ensures r.None? <==> ValidInput(t, bRel)
    ensures r == Some(LengthError) <==> |t| == 0
    ensures r == Some(OutOfRange) <==> |t| > 0 && |bRel| == 0
  {
    if |t| == 0 {
      return Some(LengthError);
    }
    if |bRel| == 0 {
      return Some(OutOfRange);
    }
    var ok := ValidateInputDimensions(bRel, |t| - 1);
    if !ok {
      return Some(InvalidArgument);
    }
    ok := ValidateInputValuesT(t);
    if !ok {
      return Some(InvalidArgument);
    }
    ok := ValidateInputValuesBRel(bRel);
    if !ok {
      return Some(InvalidArgument);
    }
    return None;
  }

  // ---------------------------------------------------------------------
  // The time grid and the initial bound

  /** `Tg[i - 1] = T[i] - T[i - 1]`. */
  function TimeGrid(t: seq<real>): seq<real>
    requires |t| > 0
  {
    seq(|t| - 1, i requires 0 <= i < |t| - 1 => t[i + 1] - t[i])
  }

  /** Increasing time points give positive interval lengths. */
  lemma TimeGridPositive(t: seq<real>)
    requires |t| > 0 && StrictlyIncreasing(t)
    ensures forall i :: 0 <= i < |t| - 1 ==> TimeGrid(t)[i] > 0.0
  {
    forall i | 0 <= i < |t| - 1 ensures TimeGrid(t)[i] > 0.0 {
      assert t[i + 1] - t[i] > 0.0;
    }
  }

  /** The interval lengths add up to the length of the horizon, so the
      initial `eta` is `T[N_b] - T[0]`. */
  lemma {:induction false} TimeGridTelescopes(t: seq<real>, k: nat)
    requires k < |t|
    ensures SumRange(TimeGrid(t), 0, k) == t[k] - t[0]
  {
    if k > 0 {
      TimeGridTelescopes(t, k - 1);
      SumRangeSnoc(TimeGrid(t), 0, k);
    }
  }

  // ---------------------------------------------------------------------
  // Nodes and the partial solutions they stand for

  /** A node of the search: the blocks of its ancestors (root first), the
      control active on its own block, switch counts, depth, accumulated
      deviations and the branch bound `eta_branch`. */
  datatype CiaNode = CiaNode(
    chain: seq<Block>,
    activeControl: nat,
    sigma: seq<nat>,
    depth: nat,
    etaNode: seq<real>,
    etaBranch: real)

  /** The blocks of the node's partial solution, its own block last. */
  function Blocks(n: CiaNode): seq<Block>
  {
    n.chain + [Block(n.activeControl, n.depth)]
  }

  /** The data the search reads: `N_c`, `N_b`, `Tg` and `b_rel`. */
  datatype Grid = Grid(nC: nat, nB: nat, tg: seq<real>, bRel: seq<seq<real>>)

  predicate GridShaped(g: Grid)
  {
    |g.tg| == g.nB && |g.bRel| == g.nC && RowsOfLength(g.bRel, g.nB)
  }

  /** Block ends increase and stay within the horizon. */
  predicate Tiled(blocks: seq<Block>, nB: nat)
  {
    (forall k :: 0 < k < |blocks| ==> blocks[k - 1].depth < blocks[k].depth) &&
    (|blocks| > 0 ==> blocks[|blocks| - 1].depth <= nB)
  }

  /** Where block `j` starts: the end of the block before it. */
  function Start(blocks: seq<Block>, j: nat): nat
    requires j < |blocks|
  {
    if j == 0 then 0 else blocks[j - 1].depth
  }

  predicate NodeShaped(g: Grid, n: CiaNode)
  {
    |n.sigma| == g.nC && |n.etaNode| == g.nC && n.activeControl <= g.nC &&
    Tiled(Blocks(n), g.nB)
  }

  /** `Tg[l] * (b_rel[i][l] - [ac == i])` for every interval `l`. */
  function DevRow(g: Grid, i: nat, ac: nat): seq<real>
    requires GridShaped(g) && i < g.nC
  {
    seq(g.nB, l requires 0 <= l < g.nB => g.tg[l] * (g.bRel[i][l] - ChildNodes.Indicator(ac == i)))
  }

  lemma TiledInit(blocks: seq<Block>, nB: nat)
    requires |blocks| > 0 && Tiled(blocks, nB)
    ensures Tiled(blocks[..|blocks| - 1], nB)
  {
    var init := blocks[..|blocks| - 1];
    if |init| > 0 {
      assert init[|init| - 1].depth < blocks[|blocks| - 1].depth;
    }
  }

  /** The deviation of control `i` accumulated over the blocks. */
  function EtaOf(g: Grid, blocks: seq<Block>, i: nat): real
    requires GridShaped(g) && i < g.nC && Tiled(blocks, g.nB)
    decreases |blocks|
  {
    if |blocks| == 0 then 0.0
    else
      var init := blocks[..|blocks| - 1];
      var b := blocks[|blocks| - 1];
      TiledInit(blocks, g.nB);
      EtaOf(g, init, i) + SumRange(DevRow(g, i, b.control), Start(blocks, |blocks| - 1), b.depth)
  }

  /** The node's deviations are those of its partial solution. */
  predicate Accumulated(g: Grid, n: CiaNode)
    requires GridShaped(g) && NodeShaped(g, n)
  {
    forall i :: 0 <= i < g.nC ==> n.etaNode[i] == EtaOf(g, Blocks(n), i)
  }

  /** A node the search may expand: shaped, accumulated, above the leaves. */
  predicate Expandable(g: Grid, parent: Option<CiaNode>)
  {
    GridShaped(g) &&
    (parent.Some? ==>
      NodeShaped(g, parent.value) && Accumulated(g, parent.value) && parent.value.depth < g.nB)
  }

  // ---------------------------------------------------------------------
  // Children (`add_nodes_to_bnb_queue`)

  /** The per-interval update of the deviations on interval `d - 1`. */
  function StepEta(g: Grid, etaParent: seq<real>, d: nat, ac: nat): seq<real>
    requires GridShaped(g) && |etaParent| == g.nC && 0 < d <= g.nB
  {
    seq(g.nC, i requires 0 <= i < g.nC => etaParent[i] + DevRow(g, i, ac)[d - 1])
  }

  /** The deviations of `ac` staying active on intervals `d .. N_b - 1`. */
  function TailEta(g: Grid, eta: seq<real>, d: nat, ac: nat): seq<real>
    requires GridShaped(g) && |eta| == g.nC && d <= g.nB
  {
    seq(g.nC, k requires 0 <= k < g.nC => eta[k] + SumRange(DevRow(g, k, ac), d, g.nB))
  }

  /** The switch counts after a change from `from` to `to`: each real
      control (index below `nC`) of the two gains one switch. */
  function Switched(sigma: seq<nat>, from: nat, to: nat): (r: seq<nat>)
    requires from != to
    ensures |r| == |sigma|
    ensures forall j :: 0 <= j < |sigma| ==>
      r[j] == sigma[j] + (if j == from || j == to then 1 else 0)
  {
    var s := if from < |sigma| then sigma[from := sigma[from] + 1] else sigma;
    if to < |s| then s[to := s[to] + 1] else s
  }

  /** A tail over no intervals changes nothing. */
  lemma TailEtaEmpty(g: Grid, eta: seq<real>, ac: nat)
    requires GridShaped(g) && |eta| == g.nC
    ensures TailEta(g, eta, g.nB, ac) == eta
  {
  }

  /** The scan `sigma_node.at(j) == sigma_max.at(j)` from `j` on: the first
      control at its budget answers true, a `sigma_max` shorter than the
      scan reaches throws. */
  function BudgetHit(sigma: seq<nat>, sigmaMax: seq<nat>, j: nat): Result<bool, CiaError>
    decreases |sigma| - j
  {
    if j >= |sigma| then Ok(false)
    else if j >= |sigmaMax| then Err(OutOfRange)
    else if sigma[j] == sigmaMax[j] then Ok(true)
    else BudgetHit(sigma, sigmaMax, j + 1)
  }

  /** With a budget for every control the scan answers whether some
      control from `j` on has reached its budget; with fewer budgets than
      controls it answers true when a budget it reads is reached and
      throws otherwise. */
  lemma {:induction false} BudgetHitMeaning(sigma: seq<nat>, sigmaMax: seq<nat>, j: nat)
    ensures |sigmaMax| >= |sigma| ==>
      BudgetHit(sigma, sigmaMax, j) == Ok(exists k :: j <= k < |sigma| && sigma[k] == sigmaMax[k])
    ensures |sigmaMax| < |sigma| && j <= |sigmaMax| ==>
      BudgetHit(sigma, sigmaMax, j) ==
        if exists k :: j <= k < |sigmaMax| && sigma[k] == sigmaMax[k] then Ok(true) else Err(OutOfRange)
    decreases |sigma| - j
  {
    if j < |sigma| && j < |sigmaMax| && sigma[j] != sigmaMax[j] {
      BudgetHitMeaning(sigma, sigmaMax, j + 1);
    }
  }

  /** The depth of a child of `parent`: one below it, 1 under the root. */
  function ChildDepth(parent: Option<CiaNode>): nat
  {
    if parent.Some? then parent.value.depth + 1 else 1
  }

  /** Whether the child switches away from the parent's control. */
  predicate Switches(parent: Option<CiaNode>, ac: nat)
  {
    parent.Some? && ac != parent.value.activeControl
  }

  /** The parent's blocks, none under the root. */
  function ParentChain(parent: Option<CiaNode>): seq<Block>
  {
    if parent.Some? then Blocks(parent.value) else []
  }

  /** `eta_parent`: the parent's deviations, zeros under the root. */
  function ParentDeviations(g: Grid, parent: Option<CiaNode>): seq<real>
  {
    if parent.Some? then parent.value.etaNode else Repeat(0.0, g.nC)
  }

  /** `sigma_node` after the switch bookkeeping. */
  function ChildSigma(g: Grid, parent: Option<CiaNode>, ac: nat): seq<nat>
  {
    if Switches(parent, ac) then Switched(parent.value.sigma, parent.value.activeControl, ac)
    else if parent.Some? then parent.value.sigma
    else Repeat(0, g.nC)
  }

  /** The budget scan, run only after a change of control. */
  function BudgetOutcome(sigmaMax: seq<nat>, sigma: seq<nat>, parent: Option<CiaNode>, ac: nat): Result<bool, CiaError>
  {
    if Switches(parent, ac) then BudgetHit(sigma, sigmaMax, 0) else Ok(false)
  }

  /** A child block ends one level below the parent or at the horizon. */
  predicate ChildEnd(g: Grid, parent: Option<CiaNode>, depth: nat)
  {
    ChildDepth(parent) <= g.nB && (depth == ChildDepth(parent) || depth == g.nB)
  }

  /** `eta_node` of a child ending at `depth`: the step on interval
      `d - 1`, then the tail when the block was extended to the horizon. */
  function ChildEta(g: Grid, parent: Option<CiaNode>, ac: nat, depth: nat): seq<real>
    requires Expandable(g, parent) && ChildEnd(g, parent, depth)
  {
    var d := ChildDepth(parent);
    var eta := StepEta(g, ParentDeviations(g, parent), d, ac);
    if depth == d then eta else TailEta(g, eta, d, ac)
  }

  /** The child node for control `ac` ending at `depth`. */
  function MakeChild(g: Grid, parent: Option<CiaNode>, ac: nat, sigma: seq<nat>, depth: nat): CiaNode
    requires Expandable(g, parent) && ChildEnd(g, parent, depth)
  {
    var eta := ChildEta(g, parent, ac, depth);
    var lbP := if parent.Some? then parent.value.etaBranch else 0.0;
    CiaNode(ParentChain(parent), ac, sigma, depth, eta, ChildNodes.LowerBound(lbP, 0.0, eta))
  }

  /** One pass of `add_nodes_to_bnb_queue` for control `ac`: `Tg.at(d - 1)`
      throws at the root of an empty horizon; the budget scan may throw;
      a change of control that reaches a budget extends the block to the
      horizon. */
  function ChildOf(g: Grid, sigmaMax: seq<nat>, parent: Option<CiaNode>, ac: nat): Result<CiaNode, CiaError>
    requires Expandable(g, parent) && ac <= g.nC
  {
    var d := ChildDepth(parent);
    if d > g.nB then Err(OutOfRange)
    else
      var sigma := ChildSigma(g, parent, ac);
      match BudgetOutcome(sigmaMax, sigma, parent, ac)
      case Err(e) => Err(e)
      case Ok(hit) => Ok(MakeChild(g, parent, ac, sigma, if hit then g.nB else d))
  }

  /** A child is refused only by the `Tg.at` at the root of an empty
      horizon or by a throwing budget scan after a change of control;
      otherwise it extends the parent's chain by one block, one level
      below the parent or, when the change reached a budget, up to the
      horizon. */
  lemma ChildShape(g: Grid, sigmaMax: seq<nat>, parent: Option<CiaNode>, ac: nat)
    requires Expandable(g, parent) && ac <= g.nC
    ensures ChildOf(g, sigmaMax, parent, ac).Err? <==>
      ChildDepth(parent) > g.nB ||
      (Switches(parent, ac) && BudgetHit(ChildSigma(g, parent, ac), sigmaMax, 0).Err?)
    ensures ChildOf(g, sigmaMax, parent, ac).Ok? ==>
      var c := ChildOf(g, sigmaMax, parent, ac).value;
      NodeShaped(g, c) && c.activeControl == ac && c.chain == ParentChain(parent) &&
      c.sigma == ChildSigma(g, parent, ac) &&
      c.depth == (if BudgetOutcome(sigmaMax, c.sigma, parent, ac) == Ok(true) then g.nB else ChildDepth(parent))
  {
    if ChildDepth(parent) <= g.nB {
      var sigma := ChildSigma(g, parent, ac);
      var o := BudgetOutcome(sigmaMax, sigma, parent, ac);
      if o.Ok? {
        var depth := if o.value then g.nB else ChildDepth(parent);
        MakeChildShaped(g, parent, ac, sigma, depth);
      }
    }
  }

  lemma MakeChildShaped(g: Grid, parent: Option<CiaNode>, ac: nat, sigma: seq<nat>, depth: nat)
    requires Expandable(g, parent) && ChildEnd(g, parent, depth) && ac <= g.nC
    requires |sigma| == g.nC
    ensures NodeShaped(g, MakeChild(g, parent, ac, sigma, depth))
  {
    var c := MakeChild(g, parent, ac, sigma, depth);
    assert Blocks(c) == ParentChain(parent) + [Block(ac, depth)];
    if parent.Some? {
      assert Blocks(parent.value)[|Blocks(parent.value)| - 1].depth == parent.value.depth;
    }
    TiledSnoc(ParentChain(parent), Block(ac, depth), g.nB);
  }

  /** A block ending past the last one, within the horizon, extends a
      tiling. */
  lemma TiledSnoc(chain: seq<Block>, b: Block, nB: nat)
    requires Tiled(chain, nB) && b.depth <= nB
    requires |chain| > 0 ==> chain[|chain| - 1].depth < b.depth
    ensures Tiled(chain + [b], nB)
  {
    var bs := chain + [b];
    forall k | 0 < k < |bs|
      ensures bs[k - 1].depth < bs[k].depth
    {
      if k < |chain| {
        assert bs[k - 1] == chain[k - 1] && bs[k] == chain[k];
      }
    }
  }

  /** Switch counts: each real control of a change gains one switch; a
      child that keeps the parent's control keeps its counts. */
  lemma ChildSwitchCounts(g: Grid, parent: Option<CiaNode>, ac: nat)
    requires Expandable(g, parent) && ac <= g.nC
    ensures Switches(parent, ac) ==>
      forall j :: 0 <= j < g.nC ==>
        ChildSigma(g, parent, ac)[j] == parent.value.sigma[j] +
          (if j == parent.value.activeControl || j == ac then 1 else 0)
    ensures !Switches(parent, ac) ==>
      ChildSigma(g, parent, ac) == (if parent.Some? then parent.value.sigma else Repeat(0, g.nC))
  {
  }

  /** The deviations of a child are those of its partial solution: the
      parent's plus the child's own block. */
  lemma ChildAccumulates(g: Grid, sigmaMax: seq<nat>, parent: Option<CiaNode>, ac: nat)
    requires Expandable(g, parent) && ac <= g.nC
    requires ChildOf(g, sigmaMax, parent, ac).Ok?
    ensures NodeShaped(g, ChildOf(g, sigmaMax, parent, ac).value)
    ensures Accumulated(g, ChildOf(g, sigmaMax, parent, ac).value)
  {
    ChildShape(g, sigmaMax, parent, ac);
    var c := ChildOf(g, sigmaMax, parent, ac).value;
    forall i | 0 <= i < g.nC ensures c.etaNode[i] == EtaOf(g, Blocks(c), i) {
      MakeChildEntry(g, parent, ac, c.sigma, c.depth, i);
    }
  }

  lemma MakeChildEntry(g: Grid, parent: Option<CiaNode>, ac: nat, sigma: seq<nat>, depth: nat, i: nat)
    requires Expandable(g, parent) && ChildEnd(g, parent, depth) && ac <= g.nC
    requires |sigma| == g.nC && i < g.nC
    ensures NodeShaped(g, MakeChild(g, parent, ac, sigma, depth))
    ensures MakeChild(g, parent, ac, sigma, depth).etaNode[i] ==
      EtaOf(g, Blocks(MakeChild(g, parent, ac, sigma, depth)), i)
  {
    MakeChildShaped(g, parent, ac, sigma, depth);
    var chain := ParentChain(parent);
    assert Blocks(MakeChild(g, parent, ac, sigma, depth)) == chain + [Block(ac, depth)];
    EtaOfSnoc(g, chain, Block(ac, depth), i);
    ParentEta(g, parent, i);
    ChildEtaValue(g, parent, ac, depth, i);
  }

  /** Appending a block adds its deviations over the intervals it covers. */
  lemma EtaOfSnoc(g: Grid, chain: seq<Block>, b: Block, i: nat)
    requires GridShaped(g) && i < g.nC && Tiled(chain + [b], g.nB)
    ensures Tiled(chain, g.nB)
    ensures EtaOf(g, chain + [b], i) ==
      EtaOf(g, chain, i) + SumRange(DevRow(g, i, b.control), Start(chain + [b], |chain|), b.depth)
  {
    var bs := chain + [b];
    assert bs[..|bs| - 1] == chain;
    TiledInit(bs, g.nB);
  }

  /** The deviations of the parent's chain, and where the child's block
      starts. */
  lemma ParentEta(g: Grid, parent: Option<CiaNode>, i: nat)
    requires Expandable(g, parent) && i < g.nC
    ensures Tiled(ParentChain(parent), g.nB)
    ensures EtaOf(g, ParentChain(parent), i) == ParentDeviations(g, parent)[i]
    ensures forall b: Block :: Start(ParentChain(parent) + [b], |ParentChain(parent)|) == ChildDepth(parent) - 1
  {
  }

  /** The child's deviation on control `i`: the parent's plus the block
      from `d - 1` to `depth`. */
  lemma ChildEtaValue(g: Grid, parent: Option<CiaNode>, ac: nat, depth: nat, i: nat)
    requires Expandable(g, parent) && ChildEnd(g, parent, depth) && i < g.nC
    ensures |ChildEta(g, parent, ac, depth)| == g.nC
    ensures ChildEta(g, parent, ac, depth)[i] ==
      ParentDeviations(g, parent)[i] + SumRange(DevRow(g, i, ac), ChildDepth(parent) - 1, depth)
  {
    var d := ChildDepth(parent);
    var dev := DevRow(g, i, ac);
    assert SumRange(dev, d - 1, depth) == dev[d - 1] + SumRange(dev, d, depth);
  }

  /** The bound of a child is at least the parent's and at least every
      absolute deviation of the child. */
  lemma ChildBound(g: Grid, sigmaMax: seq<nat>, parent: Option<CiaNode>, ac: nat)
    requires Expandable(g, parent) && ac <= g.nC
    requires ChildOf(g, sigmaMax, parent, ac).Ok?
    ensures parent.Some? ==> ChildOf(g, sigmaMax, parent, ac).value.etaBranch >= parent.value.etaBranch
    ensures ChildOf(g, sigmaMax, parent, ac).value.etaBranch >= 0.0
    ensures forall j :: 0 <= j < |ChildOf(g, sigmaMax, parent, ac).value.etaNode| ==>
      Abs(ChildOf(g, sigmaMax, parent, ac).value.etaNode[j]) <= ChildOf(g, sigmaMax, parent, ac).value.etaBranch
  {
  }

  // ---------------------------------------------------------------------
  // The batch of children pushed for one parent

  /** The outcome of every pass of the loop over the controls. */
  function ChildResults(g: Grid, sigmaMax: seq<nat>, parent: Option<CiaNode>): seq<Result<CiaNode, CiaError>>
    requires Expandable(g, parent)
  {
    seq(g.nC + 1, ac requires 0 <= ac < g.nC + 1 => ChildOf(g, sigmaMax, parent, ac))
  }

  /** The children of a run of passes; the first throwing pass ends the
      run with its exception. */
  function Collect(rs: seq<Result<CiaNode, CiaError>>): Result<seq<CiaNode>, CiaError>
  {
    if |rs| == 0 then Ok([])
    else
      match Collect(rs[..|rs| - 1])
      case Err(e) => Err(e)
      case Ok(s) =>
        match rs[|rs| - 1]
        case Err(e) => Err(e)
        case Ok(c) => Ok(s + [c])
  }

  /** A run succeeds exactly when every pass does, and then holds the node
      of pass `k` at position `k`. */
  lemma {:induction false} CollectMembers(rs: seq<Result<CiaNode, CiaError>>)
    ensures Collect(rs).Ok? <==> forall k :: 0 <= k < |rs| ==> rs[k].Ok?
    ensures Collect(rs).Ok? ==>
      |Collect(rs).value| == |rs| && forall k :: 0 <= k < |rs| ==> rs[k] == Ok(Collect(rs).value[k])
  {
    if |rs| > 0 {
      var init := rs[..|rs| - 1];
      CollectMembers(init);
      assert forall k :: 0 <= k < |init| ==> init[k] == rs[k];
    }
  }

  /** The nodes of `s` whose bound is below `eta`, in order. */
  function Admitted(s: seq<CiaNode>, eta: real): seq<CiaNode>
  {
    if |s| == 0 then []
    else Admitted(s[..|s| - 1], eta) + (if s[|s| - 1].etaBranch < eta then [s[|s| - 1]] else [])
  }

  /** `Admitted` keeps exactly the nodes with a bound below `eta`. */
  lemma {:induction false} AdmittedMembers(s: seq<CiaNode>, eta: real)
    ensures |Admitted(s, eta)| <= |s|
    ensures forall x :: x in Admitted(s, eta) <==> x in s && x.etaBranch < eta
  {
    if |s| > 0 {
      AdmittedMembers(s[..|s| - 1], eta);
      assert s == s[..|s| - 1] + [s[|s| - 1]];
    }
  }

  /** The nodes pushed for one parent: the children with a bound below
      the incumbent `eta`. */
  function Batch(g: Grid, sigmaMax: seq<nat>, parent: Option<CiaNode>, eta: real): Result<seq<CiaNode>, CiaError>
    requires Expandable(g, parent)
  {
    match Collect(ChildResults(g, sigmaMax, parent))
    case Err(e) => Err(e)
    case Ok(s) => Ok(Admitted(s, eta))
  }

  /** Entry `k` of a batch is the child of some pass, admitted by its
      bound. */
  lemma BatchMember(g: Grid, sigmaMax: seq<nat>, parent: Option<CiaNode>, eta: real, k: nat) returns (ac: nat)
    requires Expandable(g, parent)
    requires Batch(g, sigmaMax, parent, eta).Ok? && k < |Batch(g, sigmaMax, parent, eta).value|
    ensures ac <= g.nC && ChildOf(g, sigmaMax, parent, ac).Ok?
    ensures ChildOf(g, sigmaMax, parent, ac).value == Batch(g, sigmaMax, parent, eta).value[k]
    ensures Batch(g, sigmaMax, parent, eta).value[k].etaBranch < eta
  {
    var rs := ChildResults(g, sigmaMax, parent);
    var all := Collect(rs).value;
    CollectMembers(rs);
    AdmittedMembers(all, eta);
    var s := Batch(g, sigmaMax, parent, eta).value;
    assert s[k] in Admitted(all, eta);
    var i :| 0 <= i < |all| && all[i] == s[k];
    assert rs[i] == ChildOf(g, sigmaMax, parent, i);
    ac := i;
  }

  /** A batch holds at most one node per control and the no-control
      choice. */
  lemma BatchSize(g: Grid, sigmaMax: seq<nat>, parent: Option<CiaNode>, eta: real)
    requires Expandable(g, parent)
    requires Batch(g, sigmaMax, parent, eta).Ok?
    ensures |Batch(g, sigmaMax, parent, eta).value| <= g.nC + 1
  {
    var rs := ChildResults(g, sigmaMax, parent);
    CollectMembers(rs);
    AdmittedMembers(Collect(rs).value, eta);
  }

  /** Every node of a batch is a shaped, accumulated child that lies
      deeper than the parent and whose bound is at least the parent's. */
  lemma BatchShaped(g: Grid, sigmaMax: seq<nat>, parent: Option<CiaNode>, eta: real)
    requires Expandable(g, parent)
    requires Batch(g, sigmaMax, parent, eta).Ok?
    ensures var s := Batch(g, sigmaMax, parent, eta).value;
      forall k :: 0 <= k < |s| ==>
        NodeShaped(g, s[k]) && Accumulated(g, s[k]) && s[k].etaBranch < eta &&
        (parent.Some? ==> s[k].etaBranch >= parent.value.etaBranch)
  {
    var s := Batch(g, sigmaMax, parent, eta).value;
    forall k | 0 <= k < |s|
      ensures NodeShaped(g, s[k]) && Accumulated(g, s[k]) && s[k].etaBranch < eta &&
        (parent.Some? ==> s[k].etaBranch >= parent.value.etaBranch)
    {
      var ac := BatchMember(g, sigmaMax, parent, eta, k);
      ChildAccumulates(g, sigmaMax, parent, ac);
      ChildBound(g, sigmaMax, parent, ac);
    }
  }

  /** Every node of a batch lies below the parent and within the horizon. */
  lemma BatchDepths(g: Grid, sigmaMax: seq<nat>, parent: Option<CiaNode>, eta: real)
    requires Expandable(g, parent)
    requires Batch(g, sigmaMax, parent, eta).Ok?
    ensures var s := Batch(g, sigmaMax, parent, eta).value;
      forall k :: 0 <= k < |s| ==> ChildDepth(parent) <= s[k].depth <= g.nB
  {
    var s := Batch(g, sigmaMax, parent, eta).value;
    forall k | 0 <= k < |s|
      ensures ChildDepth(parent) <= s[k].depth <= g.nB
    {
      var ac := BatchMember(g, sigmaMax, parent, eta, k);
      ChildShape(g, sigmaMax, parent, ac);
    }
  }

  // ---------------------------------------------------------------------
  // The priority order (pycombina/src/BnBNodeComparison.cpp)

  /** `a` comes out of the queue before `b` on the two keys the
      comparator defines: smaller `eta_branch`, then greater depth. */
  predicate Outranks(a: CiaNode, b: CiaNode)
  {
    a.etaBranch < b.etaBranch || (a.etaBranch == b.etaBranch && a.depth > b.depth)
  }

  /** `BnBNodeComparison::operator()(a, b)`.  Its last key compares
      `max_element` iterators into two different vectors, which has no
      defined result; `tie` stands for that result. */
  function CiaNodeComparison(a: CiaNode, b: CiaNode, tie: bool): (r: bool)
    ensures (a.etaBranch != b.etaBranch || a.depth != b.depth) ==> (r <==> Outranks(b, a))
    ensures (a.etaBranch == b.etaBranch && a.depth == b.depth) ==> r == tie
  {
    if a.etaBranch != b.etaBranch then a.etaBranch > b.etaBranch
    else if a.depth != b.depth then a.depth < b.depth
    else tie
  }

  /** On the two defined keys the order is a strict weak order whose
      equivalent nodes agree on both keys. */
  lemma OutranksStrictWeakOrder(a: CiaNode, b: CiaNode, c: CiaNode)
    ensures !Outranks(a, a)
    ensures Outranks(a, b) && Outranks(b, c) ==> Outranks(a, c)
    ensures !Outranks(a, b) && !Outranks(b, a) <==> a.etaBranch == b.etaBranch && a.depth == b.depth
  {
  }

  /** The node `top()` returns: one no other node outranks; among nodes
      equal on both keys the model takes the first. */
  function TopIndexOf(s: seq<CiaNode>): (i: nat)
    requires |s| > 0
    ensures i < |s|
    ensures forall j :: 0 <= j < |s| ==> !Outranks(s[j], s[i])
    ensures forall j :: 0 <= j < i ==> Outranks(s[i], s[j])
  {
    if |s| == 1 then 0
    else
      var k := TopIndexOf(s[..|s| - 1]);
      assert forall j :: 0 <= j < |s| - 1 ==> s[..|s| - 1][j] == s[j];
      if Outranks(s[|s| - 1], s[k]) then |s| - 1 else k
  }

  /** The top has the smallest `eta_branch` of the queue and, among the
      nodes sharing it, the greatest depth. */
  lemma TopIsLowestThenDeepest(s: seq<CiaNode>)
    requires |s| > 0
    ensures forall j :: 0 <= j < |s| ==> s[TopIndexOf(s)].etaBranch <= s[j].etaBranch
    ensures forall j :: 0 <= j < |s| && s[j].etaBranch == s[TopIndexOf(s)].etaBranch ==>
      s[j].depth <= s[TopIndexOf(s)].depth
  {
  }

  // ---------------------------------------------------------------------
  // Termination: a node weighs (N_c + 2)^(N_b - depth); expanding a node
  // replaces it by at most N_c + 1 strictly deeper ones.

  function Weight(g: Grid, n: CiaNode): nat
  {
    if n.depth <= g.nB then Pow(g.nC + 2, g.nB - n.depth) else 0
  }

  function Potential(g: Grid, s: seq<CiaNode>): nat
  {
    if |s| == 0 then 0 else Potential(g, s[..|s| - 1]) + Weight(g, s[|s| - 1])
  }

  lemma {:induction false} PotentialConcat(g: Grid, s: seq<CiaNode>, t: seq<CiaNode>)
    ensures Potential(g, s + t) == Potential(g, s) + Potential(g, t)
    decreases |t|
  {
    if |t| > 0 {
      assert (s + t)[..|s + t| - 1] == s + t[..|t| - 1];
      assert (s + t)[|s + t| - 1] == t[|t| - 1];
      PotentialConcat(g, s, t[..|t| - 1]);
    } else {
      assert s + t == s;
    }
  }

  lemma RemoveAtPotential(g: Grid, s: seq<CiaNode>, i: nat)
    requires i < |s|
    ensures Potential(g, RemoveAt(s, i)) + Weight(g, s[i]) == Potential(g, s)
  {
    assert s == s[..i] + [s[i]] + s[i + 1..];
    PotentialConcat(g, s[..i] + [s[i]], s[i + 1..]);
    PotentialConcat(g, s[..i], [s[i]]);
    PotentialConcat(g, s[..i], s[i + 1..]);
    assert Potential(g, [s[i]]) == Weight(g, s[i]) by {
      assert [s[i]][..0] == [];
    }
  }

  /** Nodes deeper than `d`, at most `N_b` deep, weigh at most the weight
      of depth `d + 1` each. */
  lemma {:induction false} PotentialBound(g: Grid, s: seq<CiaNode>, d: nat)
    requires d < g.nB
    requires forall k :: 0 <= k < |s| ==> d < s[k].depth <= g.nB
    ensures Potential(g, s) <= |s| * Pow(g.nC + 2, g.nB - d - 1)
    decreases |s|
  {
    if |s| > 0 {
      var init := s[..|s| - 1];
      var m := Pow(g.nC + 2, g.nB - d - 1);
      assert forall k :: 0 <= k < |init| ==> init[k] == s[k];
      PotentialBound(g, init, d);
      PowMonotone(g.nC + 2, g.nB - s[|s| - 1].depth, g.nB - d - 1);
      MulSucc(|init|, m);
    }
  }

  /** A batch weighs less than the parent it replaces. */
  lemma BatchLighter(g: Grid, sigmaMax: seq<nat>, n: CiaNode, eta: real)
    requires Expandable(g, Some(n))
    requires Batch(g, sigmaMax, Some(n), eta).Ok?
    ensures Potential(g, Batch(g, sigmaMax, Some(n), eta).value) < Weight(g, n)
  {
    BatchSize(g, sigmaMax, Some(n), eta);
    BatchDepths(g, sigmaMax, Some(n), eta);
    LighterThanParent(g, Batch(g, sigmaMax, Some(n), eta).value, n);
  }

  /** At most `N_c + 1` nodes strictly deeper than `n` weigh less than `n`. */
  lemma LighterThanParent(g: Grid, s: seq<CiaNode>, n: CiaNode)
    requires n.depth < g.nB && |s| <= g.nC + 1
    requires forall k :: 0 <= k < |s| ==> n.depth < s[k].depth <= g.nB
    ensures Potential(g, s) < Weight(g, n)
  {
    PotentialBound(g, s, n.depth);
    var b := g.nC + 2;
    var e := g.nB - n.depth - 1;
    var w := Pow(b, e);
    PowSucc(b, e);
    assert Weight(g, n) == b * w;
    FewerThanNext(Potential(g, s), |s|, b - 1, w);
  }

  lemma {:induction false} CollectPrefixErr(rs: seq<Result<CiaNode, CiaError>>, k: nat)
    requires k <= |rs| && Collect(rs[..k]).Err?
    ensures Collect(rs) == Collect(rs[..k])
    decreases |rs| - k
  {
    if k < |rs| {
      assert rs[..k + 1][..k] == rs[..k];
      CollectPrefixErr(rs, k + 1);
    } else {
      assert rs[..k] == rs;
    }
  }

  /** A run extended by one pass, after a run that did not throw. */
  lemma CollectStep(rs: seq<Result<CiaNode, CiaError>>, k: nat)
    requires k < |rs| && Collect(rs[..k]).Ok?
    ensures rs[k].Err? ==> Collect(rs[..k + 1]) == Err(rs[k].error)
    ensures rs[k].Ok? ==> Collect(rs[..k + 1]) == Ok(Collect(rs[..k]).value + [rs[k].value])
  {
    assert rs[..k + 1][..k] == rs[..k];
    assert rs[..k + 1][k] == rs[k];
  }

  /** What one pass adds to the run: its exception, or its child,
      queued when its bound is below `eta`. */
  lemma QueueStep(g: Grid, sigmaMax: seq<nat>, parent: Option<CiaNode>, ac: nat, eta: real,
    base: seq<CiaNode>, queue: seq<CiaNode>)
    requires Expandable(g, parent) && ac <= g.nC
    requires Collect(ChildResults(g, sigmaMax, parent)[..ac]).Ok?
    requires queue == base + Admitted(Collect(ChildResults(g, sigmaMax, parent)[..ac]).value, eta)
    ensures ChildOf(g, sigmaMax, parent, ac).Err? ==>
      Collect(ChildResults(g, sigmaMax, parent)[..ac + 1]) == Err(ChildOf(g, sigmaMax, parent, ac).error)
    ensures ChildOf(g, sigmaMax, parent, ac).Ok? ==>
      var c := ChildOf(g, sigmaMax, parent, ac).value;
      NodeShaped(g, c) && Accumulated(g, c) &&
      Collect(ChildResults(g, sigmaMax, parent)[..ac + 1]).Ok? &&
      base + Admitted(Collect(ChildResults(g, sigmaMax, parent)[..ac + 1]).value, eta) ==
        queue + (if c.etaBranch < eta then [c] else [])
  {
    var rs := ChildResults(g, sigmaMax, parent);
    CollectStep(rs, ac);
    if rs[ac].Ok? {
      var c := rs[ac].value;
      var prev := Collect(rs[..ac]).value;
      AdmittedSnoc(prev, c, eta);
      ChildAccumulates(g, sigmaMax, parent, ac);
      ConcatAssoc(base, Admitted(prev, eta), if c.etaBranch < eta then [c] else []);
    }
  }

  /** Admitting one more node appends it when its bound is below `eta`. */
  lemma AdmittedSnoc(s: seq<CiaNode>, c: CiaNode, eta: real)
    ensures Admitted(s + [c], eta) == Admitted(s, eta) + (if c.etaBranch < eta then [c] else [])
  {
    assert (s + [c])[..|s|] == s;
  }

  // ---------------------------------------------------------------------
  // The retrieved solution

  /** Block ends increase along the whole chain, not just between
      neighbours. */
  lemma {:induction false} TiledMonotone(blocks: seq<Block>, nB: nat, a: nat, b: nat)
    requires Tiled(blocks, nB) && a <= b < |blocks|
    ensures blocks[a].depth <= blocks[b].depth
    decreases b - a
  {
    if a < b {
      TiledMonotone(blocks, nB, a, b - 1);
    }
  }

  /** `b_bin` holds the control of every block on the intervals it covers. */
  predicate Shows(bBin: seq<nat>, blocks: seq<Block>)
  {
    PaintedFrom(bBin, blocks, 0)
  }

  /** `b_bin` holds the control of blocks `j ..` on their intervals. */
  predicate PaintedFrom(bBin: seq<nat>, blocks: seq<Block>, j: nat)
  {
    forall m, k :: j <= m < |blocks| && Start(blocks, m) <= k < blocks[m].depth && k < |bBin| ==>
      bBin[k] == blocks[m].control
  }

  /** Block `j` covers `Start(j) .. depth - 1`, within the horizon. */
  lemma BlockRange(blocks: seq<Block>, nB: nat, j: nat)
    requires Tiled(blocks, nB) && j < |blocks|
    ensures Start(blocks, j) <= blocks[j].depth <= nB
  {
    TiledMonotone(blocks, nB, j, |blocks| - 1);
  }

  /** Painting block `j` over a `b_bin` that shows blocks `j + 1 ..`
      shows blocks `j ..`: later blocks start where block `j` ends. */
  lemma PaintStep(blocks: seq<Block>, nB: nat, j: nat, before: seq<nat>, after: seq<nat>)
    requires Tiled(blocks, nB) && j < |blocks| && |after| == |before|
    requires PaintedFrom(before, blocks, j + 1)
    requires forall k :: 0 <= k < |after| ==>
      after[k] == if Start(blocks, j) <= k < blocks[j].depth then blocks[j].control else before[k]
    ensures PaintedFrom(after, blocks, j)
  {
    forall m, k | j <= m < |blocks| && Start(blocks, m) <= k < blocks[m].depth && k < |after|
      ensures after[k] == blocks[m].control
    {
      if m > j {
        TiledMonotone(blocks, nB, j, m - 1);
        assert before[k] == blocks[m].control;
      }
    }
  }

  /** The end of the last block, 0 for no blocks. */
  function End(blocks: seq<Block>): nat
  {
    if |blocks| == 0 then 0 else blocks[|blocks| - 1].depth
  }

  /** `Tg[k] * (b_rel[i][k] - [b_bin[k] == i])`: the deviation of control
      `i` under a control sequence. */
  function BinDevRow(g: Grid, bBin: seq<nat>, i: nat): seq<real>
    requires GridShaped(g) && i < g.nC && |bBin| == g.nB
  {
    seq(g.nB, k requires 0 <= k < g.nB => g.tg[k] * (g.bRel[i][k] - ChildNodes.Indicator(bBin[k] == i)))
  }

  /** Showing the blocks shows every prefix of them. */
  lemma ShowsInit(bBin: seq<nat>, blocks: seq<Block>)
    requires |blocks| > 0 && Shows(bBin, blocks)
    ensures Shows(bBin, blocks[..|blocks| - 1])
  {
    var init := blocks[..|blocks| - 1];
    forall j, k | 0 <= j < |init| && Start(init, j) <= k < init[j].depth && k < |bBin|
      ensures bBin[k] == init[j].control
    {
      assert init[j] == blocks[j] && Start(init, j) == Start(blocks, j);
    }
  }

  /** On the last block the control sequence deviates as the block does. */
  lemma LastBlockDeviation(g: Grid, bBin: seq<nat>, blocks: seq<Block>, i: nat)
    requires GridShaped(g) && i < g.nC && |bBin| == g.nB && Tiled(blocks, g.nB) && |blocks| > 0
    requires Shows(bBin, blocks)
    ensures Start(blocks, |blocks| - 1) <= blocks[|blocks| - 1].depth <= g.nB
    ensures SumRange(BinDevRow(g, bBin, i), Start(blocks, |blocks| - 1), blocks[|blocks| - 1].depth) ==
      SumRange(DevRow(g, i, blocks[|blocks| - 1].control), Start(blocks, |blocks| - 1), blocks[|blocks| - 1].depth)
  {
    var last := |blocks| - 1;
    var lo := Start(blocks, last);
    var b := blocks[last];
    forall k | lo <= k < b.depth
      ensures BinDevRow(g, bBin, i)[k] == DevRow(g, i, b.control)[k]
    {
      assert bBin[k] == b.control;
    }
    SumRangeFrame(BinDevRow(g, bBin, i), DevRow(g, i, b.control), lo, b.depth);
  }

  /** The incumbent's deviations are those of a `b_bin` that shows its
      blocks. */
  lemma ShownDeviations(g: Grid, bBin: seq<nat>, n: CiaNode)
    requires GridShaped(g) && NodeShaped(g, n) && Accumulated(g, n) && n.depth == g.nB
    requires |bBin| == g.nB && Shows(bBin, Blocks(n))
    ensures forall i :: 0 <= i < g.nC ==> n.etaNode[i] == SumRange(BinDevRow(g, bBin, i), 0, g.nB)
  {
    forall i | 0 <= i < g.nC
      ensures n.etaNode[i] == SumRange(BinDevRow(g, bBin, i), 0, g.nB)
    {
      ShownDeviation(g, bBin, Blocks(n), i);
    }
  }

  /** A control sequence that shows the blocks has, up to their end, the
      deviation the blocks accumulate. */
  lemma {:induction false} ShownDeviation(g: Grid, bBin: seq<nat>, blocks: seq<Block>, i: nat)
    requires GridShaped(g) && i < g.nC && |bBin| == g.nB && Tiled(blocks, g.nB)
    requires Shows(bBin, blocks)
    ensures End(blocks) <= g.nB
    ensures EtaOf(g, blocks, i) == SumRange(BinDevRow(g, bBin, i), 0, End(blocks))
    decreases |blocks|
  {
    if |blocks| > 0 {
      var init := blocks[..|blocks| - 1];
      var b := blocks[|blocks| - 1];
      var lo := Start(blocks, |blocks| - 1);
      TiledInit(blocks, g.nB);
      ShowsInit(bBin, blocks);
      ShownDeviation(g, bBin, init, i);
      LastBlockDeviation(g, bBin, blocks, i);
      assert End(init) == lo;
      SumRangeSplit(BinDevRow(g, bBin, i), 0, lo, b.depth);
    }
  }

  /** Every node of `q` is shaped and accumulated. */
  predicate AllInTree(g: Grid, q: seq<CiaNode>)
    requires GridShaped(g)
  {
    forall k :: 0 <= k < |q| ==> NodeShaped(g, q[k]) && Accumulated(g, q[k])
  }

  /** Removing an entry keeps the rest in the tree; the removed one is in
      the tree and within the horizon. */
  lemma AllInTreeRemoveAt(g: Grid, q: seq<CiaNode>, i: nat)
    requires GridShaped(g) && AllInTree(g, q) && i < |q|
    ensures AllInTree(g, RemoveAt(q, i))
    ensures NodeShaped(g, q[i]) && Accumulated(g, q[i]) && q[i].depth <= g.nB
  {
    var r := RemoveAt(q, i);
    assert forall j :: 0 <= j < |r| ==> r[j] == q[if j < i then j else j + 1];
    assert Blocks(q[i])[|Blocks(q[i])| - 1].depth == q[i].depth;
  }

  /** The top of the queue has the least bound of all, and leaving the
      queue takes its weight with it. */
  lemma TopFacts(g: Grid, q: seq<CiaNode>)
    requires |q| > 0
    ensures var i := TopIndexOf(q);
      (forall j :: 0 <= j < |RemoveAt(q, i)| ==> q[i].etaBranch <= RemoveAt(q, i)[j].etaBranch) &&
      Potential(g, RemoveAt(q, i)) + Weight(g, q[i]) == Potential(g, q)
  {
    var i := TopIndexOf(q);
    var r := RemoveAt(q, i);
    TopIsLowestThenDeepest(q);
    assert forall j :: 0 <= j < |r| ==> r[j] == q[if j < i then j else j + 1];
    RemoveAtPotential(g, q, i);
  }

  /** Dropping a node, or replacing it by a lighter batch, lowers the
      potential. */
  lemma StepLighter(g: Grid, rest: seq<CiaNode>, batch: seq<CiaNode>, n: CiaNode, q: seq<CiaNode>)
    requires Potential(g, rest) + Weight(g, n) == Potential(g, q)
    requires Potential(g, batch) < Weight(g, n)
    ensures Potential(g, rest + batch) < Potential(g, q)
  {
    PotentialConcat(g, rest, batch);
  }

  /** Outcomes of one iteration of the `run_bnb` loop. */
  datatype StepOutcome = Continue | Found | Failed(error: CiaError)

  /** The solver object: the inputs, `N_c`, `N_b`, the incumbent bound
      `eta`, `Tg`, `sigma_max`, the node queue, the best node and
      `b_bin`.  The member scratch vectors of the C++ class are locals of
      the methods that use them. */
  class Cia {
    const t: seq<real>
    const bRel: seq<seq<real>>
    const nC: nat
    const nB: nat
    var eta: real
    var tg: seq<real>
    var sigmaMax: seq<nat>
    var queue: seq<CiaNode>
    var best: Option<CiaNode>
    var bBin: seq<nat>

    /** The grid the search reads once `Tg` is computed. */
    ghost function Prepared(): Grid
    {
      Grid(nC, nB, if |t| > 0 then TimeGrid(t) else [], bRel)
    }

    /** Every queued node is a shaped, accumulated node of the prepared
      grid. */
    ghost predicate InTree()
      reads this
    {
      GridShaped(Prepared()) && AllInTree(Prepared(), queue)
    }

    ghost predicate Valid()
      reads this
    {
      ValidInput(t, bRel) && nC == |bRel| && nB == |t| - 1 &&
      |tg| == nB && |bBin| == nB && InTree() &&
      (best.Some? ==>
        NodeShaped(Prepared(), best.value) && Accumulated(Prepared(), best.value) && best.value.depth == nB)
    }

    /** What the child computation reads: the shape of the inputs and the
        computed time grid. */
    ghost predicate Ready()
      reads this`tg
    {
      |t| > 0 && 0 < nC == |bRel| && nB == |t| - 1 && RowsOfLength(bRel, nB) && tg == TimeGrid(t)
    }

    /** The constructor after its validation succeeded: `eta` is 0, `Tg`
        and `b_bin` are zero vectors of length `N_b`, the queue is empty
        and there is no best node. */
    constructor (t0: seq<real>, bRel0: seq<seq<real>>)
      requires ValidInput(t0, bRel0)
      ensures Valid()
      ensures t == t0 && bRel == bRel0 && nC == |bRel0| && nB == |t0| - 1
      ensures eta == 0.0 && tg == Repeat(0.0, nB) && sigmaMax == []
      ensures queue == [] && best == None && bBin == Repeat(0, nB)
    {
      t := t0;
      bRel := bRel0;
      nC := |bRel0|;
      nB := |t0| - 1;
      eta := 0.0;
      tg := Repeat(0.0, |t0| - 1);
      sigmaMax := [];
      queue := [];
      best := None;
      bBin := Repeat(0, |t0| - 1);
    }

    /** `compute_time_grid_from_time_points`. */
    method ComputeTimeGrid()
      requires Valid()
      modifies this`tg
      ensures Valid() && tg == TimeGrid(t)
    {
      var i := 1;
      while i < nB + 1
        invariant 1 <= i <= nB + 1 && |tg| == nB
        invariant forall k :: 0 <= k < i - 1 ==> tg[k] == t[k + 1] - t[k]
      {
        tg := tg[i - 1 := t[i] - t[i - 1]];
        i := i + 1;
      }
      assert tg == TimeGrid(t);
    }

    /** `compute_initial_upper_bound`: adds every interval length to `eta`. */
    method ComputeInitialUpperBound()
      requires Valid()
      modifies this`eta
      ensures Valid() && eta == old(eta) + Sum(tg)
    {
      for i := 0 to nB
        invariant eta == old(eta) + SumRange(tg, 0, i)
      {
        SumRangeSnoc(tg, 0, i + 1);
        eta := eta + tg[i];
      }
    }

    /** `prepare_bnb_data`: the time grid, and `eta` grows by the length
        of the horizon. */
    method PrepareBnbData()
      requires Valid()
      modifies this`tg, this`eta
      ensures Valid() && tg == TimeGrid(t)
      ensures eta == old(eta) + (t[nB] - t[0])
    {
      ComputeTimeGrid();
      ComputeInitialUpperBound();
      TimeGridTelescopes(t, nB);
    }

    /** The step of `eta_node` on interval `d - 1` (lines 246-250). */
    method StepDeviations(etaP: seq<real>, d: nat, ac: nat) returns (eta: seq<real>)
      requires Ready() && |etaP| == nC && 0 < d <= nB
      ensures eta == StepEta(Prepared(), etaP, d, ac)
    {
      eta := etaP;
      for i := 0 to nC
        invariant |eta| == nC
        invariant forall k :: 0 <= k < i ==> eta[k] == etaP[k] + DevRow(Prepared(), k, ac)[d - 1]
      {
        eta := eta[i := etaP[i] + tg[d - 1] * (bRel[i][d - 1] - ChildNodes.Indicator(ac == i))];
      }
    }

    /** The inner tail loop for control `k`: the deviations of intervals
        `d .. N_b - 1` added to `e`. */
    method TailRow(e: real, k: nat, d: nat, ac: nat) returns (r: real)
      requires Ready() && k < nC && d <= nB
      ensures r == e + SumRange(DevRow(Prepared(), k, ac), d, nB)
    {
      r := e;
      var l := d;
      while l < nB
        invariant d <= l <= nB
        invariant r == e + SumRange(DevRow(Prepared(), k, ac), d, l)
      {
        SumRangeSnoc(DevRow(Prepared(), k, ac), d, l + 1);
        r := r + tg[l] * (bRel[k][l] - ChildNodes.Indicator(ac == k));
        l := l + 1;
      }
    }

    /** The tail added when a budget is reached (lines 274-280). */
    method AddTail(eta0: seq<real>, d: nat, ac: nat) returns (eta: seq<real>)
      requires Ready() && |eta0| == nC && d <= nB
      ensures eta == TailEta(Prepared(), eta0, d, ac)
    {
      eta := eta0;
      for k := 0 to nC
        invariant |eta| == nC
        invariant forall j :: 0 <= j < k ==> eta[j] == eta0[j] + SumRange(DevRow(Prepared(), j, ac), d, nB)
        invariant forall j :: k <= j < nC ==> eta[j] == eta0[j]
      {
        var e := TailRow(eta[k], k, d, ac);
        eta := eta[k := e];
      }
    }

    /** The scan of `sigma_max` for a reached budget (lines 270-286). */
    method ScanBudgets(sigma: seq<nat>) returns (r: Result<bool, CiaError>)
      requires |sigma| == nC
      ensures r == BudgetHit(sigma, sigmaMax, 0)
    {
      var j := 0;
      while j < nC
        invariant 0 <= j <= nC
        invariant BudgetHit(sigma, sigmaMax, 0) == BudgetHit(sigma, sigmaMax, j)
      {
        if j >= |sigmaMax| {
          return Err(OutOfRange);
        }
        if sigma[j] == sigmaMax[j] {
          return Ok(true);
        }
        j := j + 1;
      }
      return Ok(false);
    }

    /** One pass of the loop of `add_nodes_to_bnb_queue` for control `ac`
        (lines 228-301): the step, the switch bookkeeping repeated `N_c`
        times as in the source, the budget scan with its tail jump, and the
        bound. */
    method ComputeChild(parent: Option<CiaNode>, ac: nat) returns (r: Result<CiaNode, CiaError>)
      requires Ready() && Expandable(Prepared(), parent) && ac <= nC
      ensures r == ChildOf(Prepared(), sigmaMax, parent, ac)
    {
      var d := if parent.Some? then parent.value.depth + 1 else 1;
      var etaP := if parent.Some? then parent.value.etaNode else Repeat(0.0, nC);
      var lbP := if parent.Some? then parent.value.etaBranch else 0.0;
      if d > nB {
        return Err(OutOfRange);
      }
      var eta := StepDeviations(etaP, d, ac);
      var sigma := if parent.Some? then parent.value.sigma else Repeat(0, nC);
      var depth := d;
      ghost var outcome := BudgetOutcome(sigmaMax, ChildSigma(Prepared(), parent, ac), parent, ac);
      var i := 0;
      while i < nC
        invariant 0 <= i <= nC
        invariant depth == d || (outcome == Ok(true) && depth == nB)
        invariant eta == ChildEta(Prepared(), parent, ac, depth)
        invariant i > 0 ==> sigma == ChildSigma(Prepared(), parent, ac)
        invariant i > 0 ==> outcome.Ok? && depth == (if outcome.value then nB else d)
      {
        var err;
        sigma, eta, depth, err := SwitchPass(parent, ac, eta, depth);
        if err.Some? {
          return Err(err.value);
        }
        i := i + 1;
      }
      var lb := ChildNodes.ComputeLowerBound(lbP, 0.0, eta);
      r := Ok(CiaNode(ParentChain(parent), ac, sigma, depth, eta, lb));
    }

    /** The switch counts of lines 254-268: the parent's counts, each real
        control of a change gaining one switch. */
    method SwitchCounts(parent: Option<CiaNode>, ac: nat) returns (sigma: seq<nat>)
      requires Ready() && Expandable(Prepared(), parent) && ac <= nC
      ensures sigma == ChildSigma(Prepared(), parent, ac)
    {
      sigma := if parent.Some? then parent.value.sigma else Repeat(0, nC);
      if parent.Some? && ac != parent.value.activeControl {
        var pac := parent.value.activeControl;
        if pac != nC {
          sigma := sigma[pac := sigma[pac] + 1];
        }
        if ac != nC {
          sigma := sigma[ac := sigma[ac] + 1];
        }
        assert sigma == Switched(parent.value.sigma, pac, ac);
      }
    }

    /** One repetition of lines 254-288: recount the switches, scan the
        budgets after a change, and extend the block to the horizon when a
        budget is reached.  A repetition after the first changes nothing. */
    method SwitchPass(parent: Option<CiaNode>, ac: nat, eta0: seq<real>, depth0: nat)
      returns (sigma: seq<nat>, eta: seq<real>, depth: nat, err: Option<CiaError>)
      requires Ready() && Expandable(Prepared(), parent) && ac <= nC && ChildDepth(parent) <= nB
      requires depth0 == ChildDepth(parent) ||
        (BudgetOutcome(sigmaMax, ChildSigma(Prepared(), parent, ac), parent, ac) == Ok(true) && depth0 == nB)
      requires eta0 == ChildEta(Prepared(), parent, ac, depth0)
      ensures BudgetOutcome(sigmaMax, ChildSigma(Prepared(), parent, ac), parent, ac).Err? ==>
        err == Some(BudgetOutcome(sigmaMax, ChildSigma(Prepared(), parent, ac), parent, ac).error)
      ensures BudgetOutcome(sigmaMax, ChildSigma(Prepared(), parent, ac), parent, ac).Ok? ==>
        err.None? && sigma == ChildSigma(Prepared(), parent, ac) &&
        depth == (if BudgetOutcome(sigmaMax, ChildSigma(Prepared(), parent, ac), parent, ac).value
                  then nB else ChildDepth(parent)) &&
        eta == ChildEta(Prepared(), parent, ac, depth)
    {
      sigma := SwitchCounts(parent, ac);
      eta, depth, err := eta0, depth0, None;
      if parent.Some? && ac != parent.value.activeControl {
        var hit := ScanBudgets(sigma);
        if hit.Err? {
          err := Some(hit.error);
          return;
        }
        if hit.value {
          TailEtaEmpty(Prepared(), ChildEta(Prepared(), parent, ac, nB), ac);
          eta := AddTail(eta, depth, ac);
          depth := nB;
        }
      }
    }

    /** `add_nodes_to_bnb_queue`: every child whose bound is below `eta`
        is queued, in the order of the controls; a throwing pass stops the
        loop with its exception. */
    method AddNodesToBnbQueue(parent: Option<CiaNode>) returns (r: Option<CiaError>)
      requires Valid() && tg == TimeGrid(t) && Expandable(Prepared(), parent)
      modifies this`queue
      ensures Valid()
      ensures Batch(Prepared(), sigmaMax, parent, eta).Ok? ==>
        r == None && queue == old(queue) + Batch(Prepared(), sigmaMax, parent, eta).value
      ensures Batch(Prepared(), sigmaMax, parent, eta).Err? ==>
        r == Some(Batch(Prepared(), sigmaMax, parent, eta).error)
    {
      ghost var rs := ChildResults(Prepared(), sigmaMax, parent);
      var ac := 0;
      while ac <= nC
        invariant 0 <= ac <= nC + 1 && Valid()
        invariant Collect(rs[..ac]).Ok?
        invariant queue == old(queue) + Admitted(Collect(rs[..ac]).value, eta)
      {
        r := QueueChild(parent, ac, old(queue));
        if r.Some? {
          CollectPrefixErr(rs, ac + 1);
          return;
        }
        ac := ac + 1;
      }
      assert rs[..nC + 1] == rs;
      return None;
    }

    /** The pass for control `ac`: its child, queued when its bound is
        below `eta`, or the exception it throws. */
    method QueueChild(parent: Option<CiaNode>, ac: nat, ghost base: seq<CiaNode>) returns (r: Option<CiaError>)
      requires Valid() && tg == TimeGrid(t) && Expandable(Prepared(), parent) && ac <= nC
      requires Collect(ChildResults(Prepared(), sigmaMax, parent)[..ac]).Ok?
      requires queue == base + Admitted(Collect(ChildResults(Prepared(), sigmaMax, parent)[..ac]).value, eta)
      modifies this`queue
      ensures Valid()
      ensures r.Some? ==> Collect(ChildResults(Prepared(), sigmaMax, parent)[..ac + 1]) == Err(r.value)
      ensures r.None? ==> Collect(ChildResults(Prepared(), sigmaMax, parent)[..ac + 1]).Ok?
      ensures r.None? ==> queue == base + Admitted(Collect(ChildResults(Prepared(), sigmaMax, parent)[..ac + 1]).value, eta)
    {
      var c := ComputeChild(parent, ac);
      QueueStep(Prepared(), sigmaMax, parent, ac, eta, base, queue);
      if c.Err? {
        return Some(c.error);
      }
      Admit(c.value);
      return None;
    }

    /** The push of line 302, taken when the bound is below `eta`. */
    method Admit(c: CiaNode)
      requires Valid() && NodeShaped(Prepared(), c) && Accumulated(Prepared(), c)
      modifies this`queue
      ensures Valid()
      ensures queue == old(queue) + (if c.etaBranch < eta then [c] else [])
    {
      if c.etaBranch < eta {
        queue := queue + [c];
      }
    }

    /** `initialize_bnb_queue`: the children of the root. */
    method InitializeBnbQueue() returns (r: Option<CiaError>)
      requires Valid() && tg == TimeGrid(t)
      modifies this`queue
      ensures Valid()
      ensures Batch(Prepared(), sigmaMax, None, eta).Ok? ==>
        r == None && queue == old(queue) + Batch(Prepared(), sigmaMax, None, eta).value
      ensures Batch(Prepared(), sigmaMax, None, eta).Err? ==>
        r == Some(Batch(Prepared(), sigmaMax, None, eta).error)
    {
      r := AddNodesToBnbQueue(None);
    }

    /** One iteration of `run_bnb`: pop the top node; a leaf below `eta`
        becomes the incumbent, an inner node below `eta` is expanded, any
        other node is dropped. */
    method SearchStep() returns (o: StepOutcome)
      requires Valid() && tg == TimeGrid(t) && |queue| > 0
      modifies this`queue, this`best, this`eta
      ensures Valid()
      ensures o.Continue? ==>
        eta == old(eta) && best == old(best) && Potential(Prepared(), queue) < Potential(Prepared(), old(queue))
      ensures o.Found? ==>
        var top := old(queue)[TopIndexOf(old(queue))];
        best == Some(top) && top.depth == nB && eta == top.etaBranch < old(eta) &&
        queue == RemoveAt(old(queue), TopIndexOf(old(queue)))
      ensures o.Found? ==> forall j :: 0 <= j < |queue| ==> eta <= queue[j].etaBranch
      ensures o.Failed? ==> eta == old(eta) && best == old(best)
    {
      ghost var before := queue;
      var n := PopTop();
      TopFacts(Prepared(), before);
      if n.etaBranch < eta {
        if n.depth == nB {
          best := Some(n);
          eta := n.etaBranch;
          return Found;
        }
        ghost var rest := queue;
        var e := AddNodesToBnbQueue(Some(n));
        if e.Some? {
          return Failed(e.value);
        }
        BatchLighter(Prepared(), sigmaMax, n, eta);
        StepLighter(Prepared(), rest, Batch(Prepared(), sigmaMax, Some(n), eta).value, n, before);
        return Continue;
      }
      return Continue;
    }

    /** `top` followed by `pop`: the comparator's top node leaves the
        queue. */
    method PopTop() returns (n: CiaNode)
      requires Valid() && |queue| > 0
      modifies this`queue
      ensures Valid()
      ensures n == old(queue)[TopIndexOf(old(queue))] && queue == RemoveAt(old(queue), TopIndexOf(old(queue)))
      ensures NodeShaped(Prepared(), n) && Accumulated(Prepared(), n) && n.depth <= nB
    {
      var i := TopIndexOf(queue);
      n := queue[i];
      AllInTreeRemoveAt(Prepared(), queue, i);
      queue := RemoveAt(queue, i);
    }

    /** `run_bnb`: iterate until the queue is empty or a leaf below the
        incumbent bound is popped; that leaf becomes the incumbent, and
        no node left in the queue has a smaller bound. */
    method RunBnb() returns (r: Option<CiaError>)
      requires Valid() && tg == TimeGrid(t)
      modifies this`queue, this`best, this`eta
      ensures Valid()
      ensures r.Some? ==> eta == old(eta) && best == old(best)
      ensures r.None? ==>
        (queue == [] && best == old(best) && eta == old(eta)) ||
        (best.Some? && best.value.depth == nB && eta == best.value.etaBranch < old(eta) &&
         forall j :: 0 <= j < |queue| ==> eta <= queue[j].etaBranch)
    {
      while |queue| > 0
        invariant Valid() && eta == old(eta) && best == old(best)
        decreases Potential(Prepared(), queue)
      {
        var o := SearchStep();
        if o.Found? {
          return None;
        }
        if o.Failed? {
          return Some(o.error);
        }
      }
      return None;
    }

    /** Writes control `c` on the intervals `lo .. hi - 1`, walking down
        from the last (lines 420-423). */
    method PaintBlock(lo: nat, hi: nat, c: nat)
      requires Valid() && lo <= hi <= |bBin|
      modifies this`bBin
      ensures Valid()
      ensures |bBin| == old(|bBin|)
      ensures forall k :: 0 <= k < |bBin| ==> bBin[k] == if lo <= k < hi then c else old(bBin[k])
    {
      var i := hi;
      while i > lo
        invariant lo <= i <= hi && |bBin| == old(|bBin|) && Valid()
        invariant forall k :: 0 <= k < |bBin| ==> bBin[k] == if i <= k < hi then c else old(bBin[k])
      {
        i := i - 1;
        bBin := bBin[i := c];
      }
    }

    /** `retrieve_solution`: walks the incumbent's chain from its own block
        to the root, writing each block's control over its intervals.
        Without an incumbent `b_bin` is unchanged; with one, `b_bin` shows
        its blocks and has exactly the incumbent's deviations. */
    method RetrieveSolution()
      requires Valid()
      modifies this`bBin
      ensures Valid()
      ensures best.None? ==> bBin == old(bBin)
      ensures best.Some? ==> Shows(bBin, Blocks(best.value))
      ensures best.Some? ==> forall i :: 0 <= i < nC ==>
        best.value.etaNode[i] == SumRange(BinDevRow(Prepared(), bBin, i), 0, nB)
    {
      if best.None? {
        return;
      }
      var blocks := Blocks(best.value);
      var j := |blocks|;
      while j > 0
        invariant 0 <= j <= |blocks| && Valid() && best == old(best)
        invariant PaintedFrom(bBin, blocks, j)
      {
        j := j - 1;
        BlockRange(blocks, nB, j);
        ghost var before := bBin;
        PaintBlock(Start(blocks, j), blocks[j].depth, blocks[j].control);
        PaintStep(blocks, nB, j, before, bBin);
      }
      ShownDeviations(Prepared(), bBin, best.value);
    }

    /** What a search promises, from the bound `eta0`, the incumbent
        `best0` and the control sequence `bBin0` it started with: an
        exception changes none of them; otherwise either the queue ran
        empty and they are unchanged, or a leaf with a bound below `eta0`
        and no larger than any bound still queued became the incumbent,
        and `b_bin` shows the incumbent with exactly its deviations. */
    ghost predicate Concluded(r: Option<CiaError>, eta0: real, best0: Option<CiaNode>, bBin0: seq<nat>)
      reads this
      requires Valid()
    {
      (r.Some? ==> eta == eta0 && best == best0 && bBin == bBin0) &&
      (r.None? ==>
        (queue == [] && best == best0 && eta == eta0) ||
        (best.Some? && best.value.depth == nB && eta == best.value.etaBranch < eta0 &&
         forall j :: 0 <= j < |queue| ==> eta <= queue[j].etaBranch)) &&
      (r.None? && best.None? ==> bBin == bBin0) &&
      (r.None? && best.Some? ==> Shows(bBin, Blocks(best.value))) &&
      (r.None? && best.Some? ==>
        forall i :: 0 <= i < nC ==> best.value.etaNode[i] == SumRange(BinDevRow(Prepared(), bBin, i), 0, nB))
    }

    /** `run_cia`: store the budgets, prepare the grid and the bound, queue
        the root's children, search, and retrieve.  Neither `eta` nor the
        queue is reset, so a second run starts from what the first left. */
    method Run(nMaxSwitches: seq<nat>) returns (r: Option<CiaError>)
      requires Valid()
      modifies this`sigmaMax, this`tg, this`eta, this`queue, this`best, this`bBin
      ensures Valid() && sigmaMax == nMaxSwitches && tg == TimeGrid(t)
      ensures Concluded(r, old(eta) + (t[nB] - t[0]), old(best), old(bBin))
    {
      sigmaMax := nMaxSwitches;
      PrepareBnbData();
      r := Search();
    }

    /** Lines 146-148 of `run_cia`: the root's children, the search and
        the retrieval, on a prepared grid. */
    method Search() returns (r: Option<CiaError>)
      requires Valid() && tg == TimeGrid(t)
      modifies this`queue, this`best, this`eta, this`bBin
      ensures Valid() && Concluded(r, old(eta), old(best), old(bBin))
    {
      r := InitializeBnbQueue();
      if r.Some? {
        return;
      }
      r := RunBnb();
      if r.Some? {
        return;
      }
      RetrieveSolution();
    }
  }
}
