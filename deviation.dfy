// The solution a chain of blocks paints, as `retrieve_solution` of the
// branch-and-bound engine writes it into `b_bin`
// (src/combina_bnb_solver/CombinaBnBSolver.cpp), its deviation from the
// relaxation and its max-norm objective, the objective the engine
// minimises; and what the `eta` of a node says about that deviation
// (`compute_child_node_properties`).

module ChainDeviation {
  import opened Common
  import opened Nodes
  import opened ChildNodes
  import SUR = SumUpRounding

  /** Where the last block of a chain ends; 0 for the empty chain. */
  function ChainEnd(chain: seq<Block>): nat
  {
    if |chain| == 0 then 0 else chain[|chain| - 1].depth
  }

  /** Control `c` is active on interval `i` in the solution the chain
      paints: the block that covers `i` is a block of `c`. */
  function Active(chain: seq<Block>, c: nat, i: nat): bool
    decreases |chain|
  {
    if |chain| == 0 then false
    else
      var init := chain[..|chain| - 1];
      if ChainEnd(init) <= i < chain[|chain| - 1].depth then chain[|chain| - 1].control == c
      else Active(init, c, i)
  }

  /** The binary row of control `c` the chain paints. */
  function PaintedRow(p: Problem, chain: seq<Block>, c: nat): (r: seq<real>)
    ensures |r| == p.nT
  {
    seq(p.nT, i requires 0 <= i < p.nT => Indicator(Active(chain, c, i)))
  }

  /** The binary matrix the chain paints. */
  function PaintedRows(p: Problem, chain: seq<Block>): (r: seq<seq<real>>)
    ensures |r| == p.nC && forall c :: 0 <= c < p.nC ==> r[c] == PaintedRow(p, chain, c)
  {
    seq(p.nC, c requires 0 <= c < p.nC => PaintedRow(p, chain, c))
  }

  /** How far control `c` of the painted solution lags behind its
      relaxation after `k` intervals. */
  function Deviation(p: Problem, chain: seq<Block>, c: nat, k: nat): real
    requires WellFormed(p) && c < p.nC && k <= p.nT
  {
    SUR.Deviation(p.bRel[c], PaintedRow(p, chain, c), p.dt, k)
  }

  /** The max-norm objective of the painted solution. */
  function Objective(p: Problem, chain: seq<Block>): real
    requires WellFormed(p)
  {
    SUR.Objective(p.bRel, PaintedRows(p, chain), p.dt, p.nT)
  }

  /** A `b_bin` matrix as reals. */
  function AsReals(b: seq<seq<nat>>): (r: seq<seq<real>>)
    ensures |r| == |b| && forall c :: 0 <= c < |b| ==> |r[c]| == |b[c]|
  {
    seq(|b|, c requires 0 <= c < |b| => seq(|b[c]|, i requires 0 <= i < |b[c]| => b[c][i] as real))
  }

  /** The max-norm objective of a `b_bin` matrix: the largest absolute
      deviation of any control at any interval end. */
  function BinaryObjective(p: Problem, b: seq<seq<nat>>): real
    requires WellFormed(p) && |b| == p.nC && forall c :: 0 <= c < p.nC ==> |b[c]| == p.nT
  {
    SUR.Objective(p.bRel, AsReals(b), p.dt, p.nT)
  }

  /** Interval lengths are not negative and every relaxed value lies in
      `[0, 1]`, as the Python front ends ensure before the engine runs. */
  predicate InputsInRange(p: Problem)
  {
    WellFormed(p) &&
    (forall k :: 0 <= k < p.nT ==> p.dt[k] >= 0.0) &&
    (forall i, k :: 0 <= i < p.nC && 0 <= k < p.nT ==> 0.0 <= p.bRel[i][k] <= 1.0)
  }

  /** Every control may switch at least once. */
  predicate EveryControlSwitches(p: Problem)
  {
    forall i :: 0 <= i < |p.nMaxSwitches| ==> p.nMaxSwitches[i] >= 1
  }

  // ---------------------------------------------------------------------
  // Extending a chain by one block

  /** Below the end of a chain a new block changes nothing; on the new
      block its control is the active one. */
  lemma ActiveExtend(chain: seq<Block>, b: Block, c: nat, i: nat)
    ensures i < ChainEnd(chain) ==> Active(chain + [b], c, i) == Active(chain, c, i)
    ensures ChainEnd(chain) <= i < b.depth ==> Active(chain + [b], c, i) == (b.control == c)
  {
    assert (chain + [b])[..|chain|] == chain;
  }

  /** The deviation up to the end of a chain does not see a new block. */
  lemma DeviationPrefix(p: Problem, chain: seq<Block>, b: Block, c: nat, k: nat)
    requires WellFormed(p) && c < p.nC && k <= ChainEnd(chain) && k <= p.nT
    ensures Deviation(p, chain + [b], c, k) == Deviation(p, chain, c, k)
  {
    var r, r' := PaintedRow(p, chain, c), PaintedRow(p, chain + [b], c);
    forall i | 0 <= i < k ensures r'[i] == r[i] {
      ActiveExtend(chain, b, c, i);
    }
    assert r[..k] == r'[..k];
    SUR.DeviationFrame(p.bRel[c], r, r', p.dt, k);
  }

  /** On a new block the deviation grows by the block's terms. */
  lemma {:induction false} DeviationExtend(p: Problem, chain: seq<Block>, b: Block, c: nat, k: nat)
    requires WellFormed(p) && c < p.nC && ChainEnd(chain) <= k <= b.depth && k <= p.nT
    ensures Deviation(p, chain + [b], c, k) ==
      Deviation(p, chain, c, ChainEnd(chain)) + SumRange(DevTerms(p, b.control, c), ChainEnd(chain), k)
    decreases k
  {
    var d := ChainEnd(chain);
    if k == d {
      DeviationPrefix(p, chain, b, c, k);
    } else {
      DeviationExtend(p, chain, b, c, k - 1);
      ActiveExtend(chain, b, c, k - 1);
      SumRangeSnoc(DevTerms(p, b.control, c), d, k);
      DeviationSnoc(p, chain + [b], b.control, c, k);
    }
  }

  /** One more interval adds its term to the deviation. */
  lemma DeviationSnoc(p: Problem, chain: seq<Block>, control: nat, c: nat, k: nat)
    requires WellFormed(p) && c < p.nC && 0 < k <= p.nT
    requires Active(chain, c, k - 1) == (control == c)
    ensures Deviation(p, chain, c, k) == Deviation(p, chain, c, k - 1) + DevTerms(p, control, c)[k - 1]
  {
    var rel, dt, bin := p.bRel[c][k - 1], p.dt[k - 1], Indicator(control == c);
    assert PaintedRow(p, chain, c)[k - 1] == bin;
    Distribute(dt, rel, bin);
  }

  /** `rel·dt − bin·dt = dt·(rel − bin)`. */
  lemma Distribute(dt: real, rel: real, bin: real)
    ensures rel * dt - bin * dt == dt * (rel - bin)
  {
  }

  /** `dt·x` has the sign of `x` when `dt` is not negative. */
  lemma ScaledSign(dt: real, x: real)
    requires dt >= 0.0
    ensures x >= 0.0 ==> dt * x >= 0.0
    ensures x <= 0.0 ==> dt * x <= 0.0
  {
  }

  // ---------------------------------------------------------------------
  // What `eta` means

  /** What `eta[i]` of a node holds, for a node with the chain `chain`,
      the active control `control`, the switch counts `sigma` and the depth
      `depth`: while `i` has a switch left, its deviation so far; once its
      budget is spent, its deviation at the end of the horizon with `i`
      kept as it is now.  A control without any switch is never updated
      and stays 0, unless `settled` says it is counted like a spent one. */
  function EtaMeaning(p: Problem, chain: seq<Block>, control: nat, sigma: seq<nat>, depth: nat, i: nat,
    settled: bool): real
    requires WellFormed(p) && |sigma| == p.nC && i < p.nC && depth <= p.nT
  {
    if sigma[i] < p.nMaxSwitches[i] then Deviation(p, chain, i, depth)
    else if p.nMaxSwitches[i] == 0 && !settled then 0.0
    else Deviation(p, chain, i, depth) + SumRange(DevTerms(p, control, i), depth, p.nT)
  }

  /** On inputs in range the terms of a control have one sign over the
      horizon: never negative while it is off, never positive while it is
      on. */
  lemma {:induction false} TermsSign(p: Problem, control: nat, i: nat, lo: nat, hi: nat)
    requires InputsInRange(p) && i < p.nC && lo <= hi <= p.nT
    ensures control != i ==> SumRange(DevTerms(p, control, i), lo, hi) >= 0.0
    ensures control == i ==> SumRange(DevTerms(p, control, i), lo, hi) <= 0.0
    decreases hi - lo
  {
    if lo < hi {
      TermsSign(p, control, i, lo + 1, hi);
      ScaledSign(p.dt[lo], p.bRel[i][lo] - Indicator(control == i));
    }
  }

  /** A deviation that moves in one direction over a block lies between
      its values at the two ends, so its size there is at most the larger
      of theirs. */
  lemma BetweenEnds(p: Problem, control: nat, i: nat, a: real, d: nat, k: nat, e: nat)
    requires InputsInRange(p) && i < p.nC && d <= k <= e <= p.nT
    ensures Abs(a + SumRange(DevTerms(p, control, i), d, k)) <=
      Max(Abs(a), Abs(a + SumRange(DevTerms(p, control, i), d, e)))
  {
    SumRangeSplit(DevTerms(p, control, i), d, k, e);
    TermsSign(p, control, i, d, k);
    TermsSign(p, control, i, k, e);
  }

  /** A painted matrix onto the zero matrix is the chain's rows. */
  lemma RowsAgree(p: Problem, chain: seq<Block>, b: seq<seq<nat>>)
    requires WellFormed(p) && |b| == p.nC && forall c :: 0 <= c < p.nC ==> |b[c]| == p.nT
    requires forall c, i :: 0 <= c < p.nC && 0 <= i < p.nT ==> b[c][i] == if Active(chain, c, i) then 1 else 0
    ensures BinaryObjective(p, b) == Objective(p, chain)
  {
    var r, r' := AsReals(b), PaintedRows(p, chain);
    forall c | 0 <= c < p.nC ensures r[c] == r'[c] {
      assert forall i :: 0 <= i < p.nT ==> r[c][i] == r'[c][i];
    }
    assert r == r';
  }

  /** The objective bounds every deviation of the painted solution. */
  lemma WithinObjective(p: Problem, chain: seq<Block>, i: nat, k: nat)
    requires WellFormed(p) && i < p.nC && k <= p.nT
    ensures Abs(Deviation(p, chain, i, k)) <= Objective(p, chain)
  {
    if k > 0 {
      SUR.ObjectiveBounds(p.bRel, PaintedRows(p, chain), p.dt, p.nT, k, i);
    }
  }

  /** A bound on every deviation of the painted solution bounds its
      objective. */
  lemma ObjectiveCovered(p: Problem, chain: seq<Block>, bound: real)
    requires WellFormed(p) && bound >= 0.0
    requires forall i, k :: 0 <= i < p.nC && 0 <= k <= p.nT ==> Abs(Deviation(p, chain, i, k)) <= bound
    ensures Objective(p, chain) <= bound
  {
    var rows := PaintedRows(p, chain);
    forall k, j | 1 <= k <= p.nT && 0 <= j < p.nC
      ensures Abs(SUR.Deviation(p.bRel[j], rows[j], p.dt, k)) <= bound
    {
      assert Abs(Deviation(p, chain, j, k)) <= bound;
    }
    SUR.ObjectiveAtMost(p.bRel, rows, p.dt, p.nT, bound);
  }

  /** On inputs in range, a deviation over a new block stays within any
      bound on its value where the block starts and on its value `v` at
      some end `e` the block's control would reach. */
  lemma BlockCovered(p: Problem, chain: seq<Block>, b: Block, i: nat, k: nat, e: nat, v: real, bound: real)
    requires InputsInRange(p) && i < p.nC && ChainEnd(chain) <= k <= b.depth && k <= e <= p.nT
    requires Abs(Deviation(p, chain, i, ChainEnd(chain))) <= bound && Abs(v) <= bound
    requires v == Deviation(p, chain, i, ChainEnd(chain)) + SumRange(DevTerms(p, b.control, i), ChainEnd(chain), e)
    ensures Abs(Deviation(p, chain + [b], i, k)) <= bound
  {
    DeviationExtend(p, chain, b, i, k);
    BetweenEnds(p, b.control, i, Deviation(p, chain, i, ChainEnd(chain)), ChainEnd(chain), k, e);
  }
}
