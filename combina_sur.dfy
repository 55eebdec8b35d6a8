// The sum-up rounding front end on the preprocessed problem
// (pycombina/_combina_sur.py): the problem is reduced to its active
// controls, rounded by `SumUpRounding.RunSur`, inflated back and stored
// in the original problem object.

module CombinaSurFrontEnd {
  import opened Common
  import opened BinaryApproximation
  import Sur = SumUpRounding

  /** `_solver_status`: 1 after construction, 2 after `solve`. */
  function StatusMessage(code: int): (r: Result<string, Fault>)
    ensures r.Ok? <==> code == 1 || code == 2
    ensures code == 1 ==> r == Ok("Initialized")
    ensures code == 2 ==> r == Ok("Optimal solution found")
    ensures r.Err? ==> r.error == RuntimeError
  {
    if code == 1 then Ok("Initialized")
    else if code == 2 then Ok("Optimal solution found")
    else Err(RuntimeError)
  }

  /** A column `k` with a 1 in row `p` and zeros in every other row sums to
      1 over any prefix of rows that contains `p`. */
  lemma {:induction false} SingleOneColumn(b: seq<seq<real>>, k: nat, p: nat, n: nat)
    requires n <= |b| && forall j :: 0 <= j < n ==> k < |b[j]|
    requires forall j :: 0 <= j < n ==> b[j][k] == if j == p then 1.0 else 0.0
    ensures Sur.ColumnSum(b, k, n) == if p < n then 1.0 else 0.0
  {
    if n > 0 {
      SingleOneColumn(b, k, p, n - 1);
    }
  }

  /** A row of zeros against a relaxed row of zeros never deviates. */
  lemma {:induction false} ZeroDeviation(rel: seq<real>, bin: seq<real>, dt: seq<real>, i: nat)
    requires i <= |rel| && i <= |bin| && i <= |dt|
    requires forall k :: 0 <= k < i ==> rel[k] == 0.0 && bin[k] == 0.0
    ensures Sur.Deviation(rel, bin, dt, i) == 0.0
  {
    if i > 0 {
      ZeroDeviation(rel, bin, dt, i - 1);
    }
  }

  /** Spreading the entries of `s` over the positions `rows` of a longer
      vector `u` whose other entries are 0 keeps the largest absolute
      entry. */
  lemma MaxAbsSpread(s: seq<real>, u: seq<real>, rows: seq<nat>)
    requires |rows| == |s| && StrictlyIncreasing(rows)
    requires forall k :: 0 <= k < |rows| ==> rows[k] < |u|
    requires forall j :: 0 <= j < |u| ==> u[j] == if j in rows then s[Position(rows, j)] else 0.0
    ensures MaxAbs(u) == MaxAbs(s)
  {
    forall k | 0 <= k < |s| ensures Abs(s[k]) <= MaxAbs(u) {
      PositionOf(rows, k);
      assert u[rows[k]] == s[k];
    }
    if |s| > 0 {
      var k :| 0 <= k < |s| && MaxAbs(s) == Abs(s[k]);
      assert MaxAbs(s) <= MaxAbs(u);
    }
    if |u| > 0 {
      var j :| 0 <= j < |u| && MaxAbs(u) == Abs(u[j]);
      if j in rows {
        assert Abs(s[Position(rows, j)]) <= MaxAbs(s);
      }
    }
  }

  /** The shapes in which `full` is the inflation, on every interval, of a
      reduced solution `b` and `rel` is the relaxed matrix whose rows
      outside `rows` are zero. */
  predicate Embedded(rel: seq<seq<real>>, full: seq<seq<real>>, relP: seq<seq<real>>, b: seq<seq<real>>,
                     rows: seq<nat>, nR: nat, nT: nat)
  {
    |rel| == nR && |full| == nR && |relP| == |rows| && |b| == |rows| &&
    StrictlyIncreasing(rows) && (forall k :: 0 <= k < |rows| ==> rows[k] < nR) &&
    (forall j :: 0 <= j < nR ==> |rel[j]| == nT && |full[j]| == nT) &&
    (forall k :: 0 <= k < |rows| ==> |relP[k]| == nT && |b[k]| == nT) &&
    (forall k :: 0 <= k < |rows| ==> rel[rows[k]] == relP[k] && full[rows[k]] == b[k]) &&
    (forall j :: 0 <= j < nR && j !in rows ==> AllZero(rel[j]) && AllZero(full[j]))
  }

  /** Zero rows added on both sides change no deviation vector's norm. */
  lemma DeviationsSpread(rel: seq<seq<real>>, full: seq<seq<real>>, relP: seq<seq<real>>, b: seq<seq<real>>,
                         rows: seq<nat>, nR: nat, nT: nat, dt: seq<real>, n: nat)
    requires Embedded(rel, full, relP, b, rows, nR, nT) && n <= nT && n <= |dt|
    ensures MaxAbs(Sur.Deviations(rel, full, dt, n)) == MaxAbs(Sur.Deviations(relP, b, dt, n))
  {
    var u := Sur.Deviations(rel, full, dt, n);
    var s := Sur.Deviations(relP, b, dt, n);
    forall j | 0 <= j < nR ensures u[j] == if j in rows then s[Position(rows, j)] else 0.0 {
      if j in rows {
        var k := Position(rows, j);
        assert rel[j] == relP[k] && full[j] == b[k];
      } else {
        ZeroDeviation(rel[j], full[j], dt, n);
      }
    }
    MaxAbsSpread(s, u, rows);
  }

  /** Two objectives agree over `n` intervals when the norms of their
      deviation vectors agree at every interval end. */
  lemma {:induction false} ObjectiveEqual(rel: seq<seq<real>>, bin: seq<seq<real>>,
                                          rel': seq<seq<real>>, bin': seq<seq<real>>, dt: seq<real>, n: nat)
    requires |bin| == |rel| && |bin'| == |rel'| && n <= |dt|
    requires forall j :: 0 <= j < |rel| ==> n <= |rel[j]| && n <= |bin[j]|
    requires forall j :: 0 <= j < |rel'| ==> n <= |rel'[j]| && n <= |bin'[j]|
    requires forall m :: 0 < m <= n ==>
      MaxAbs(Sur.Deviations(rel, bin, dt, m)) == MaxAbs(Sur.Deviations(rel', bin', dt, m))
    ensures Sur.Objective(rel, bin, dt, n) == Sur.Objective(rel', bin', dt, n)
  {
    if n > 0 {
      ObjectiveEqual(rel, bin, rel', bin', dt, n - 1);
    }
  }

  /** The max-norm objective of the inflated solution on the full problem
      is the objective of the reduced solution on the reduced problem. */
  lemma ObjectiveSpread(rel: seq<seq<real>>, full: seq<seq<real>>, relP: seq<seq<real>>,
                        b: seq<seq<real>>, rows: seq<nat>, nR: nat, nT: nat, dt: seq<real>, n: nat)
    requires Embedded(rel, full, relP, b, rows, nR, nT) && n <= nT && n <= |dt|
    ensures Sur.Objective(rel, full, dt, n) == Sur.Objective(relP, b, dt, n)
  {
    forall m | 0 < m <= n
      ensures MaxAbs(Sur.Deviations(rel, full, dt, m)) == MaxAbs(Sur.Deviations(relP, b, dt, m))
    {
      DeviationsSpread(rel, full, relP, b, rows, nR, nT, dt, m);
    }
    ObjectiveEqual(rel, full, relP, b, dt, n);
  }

  /** The solution `solve` stores: the one-hot matrix of the choices `cs`
      of the `|rows|` active controls, written back at the rows `rows` of
      an `nR x nT` zero matrix. */
  function Spread(cs: seq<nat>, rows: seq<nat>, nR: nat, nT: nat): (b: seq<seq<real>>)
    requires |cs| == nT
    ensures |b| == nR && forall j :: 0 <= j < nR ==> |b[j]| == nT
  {
    Inflated(Sur.OneHot(cs, |rows|), rows, Range(nT), nR, nT)
  }

  /** Entry `j, k` of the stored solution is 1 exactly at the row of the
      control chosen for interval `k`. */
  lemma SpreadEntry(cs: seq<nat>, rows: seq<nat>, nR: nat, nT: nat, j: nat, k: nat)
    requires |cs| == nT && (forall i :: 0 <= i < nT ==> cs[i] < |rows|) && StrictlyIncreasing(rows)
    requires j < nR && k < nT
    ensures Spread(cs, rows, nR, nT)[j][k] == if j == rows[cs[k]] then 1.0 else 0.0
  {
    PositionOf(Range(nT), k);
    if j in rows {
      var q := Position(rows, j);
      PositionOf(rows, cs[k]);
      assert Sur.OneHot(cs, |rows|)[q][k] == if cs[k] == q then 1.0 else 0.0;
    }
  }

  /** Every entry of the stored solution is 0 or 1, every interval column
      holds exactly one 1, and rows outside `rows` are zero. */
  lemma SpreadOneHot(cs: seq<nat>, rows: seq<nat>, nR: nat, nT: nat)
    requires |cs| == nT && (forall i :: 0 <= i < nT ==> cs[i] < |rows|) && StrictlyIncreasing(rows)
    requires forall i :: 0 <= i < |rows| ==> rows[i] < nR
    ensures AllRowsBinary(Spread(cs, rows, nR, nT))
    ensures forall k :: 0 <= k < nT ==> Sur.ColumnSum(Spread(cs, rows, nR, nT), k, nR) == 1.0
    ensures forall j :: 0 <= j < nR && j !in rows ==> AllZero(Spread(cs, rows, nR, nT)[j])
  {
    var b := Spread(cs, rows, nR, nT);
    forall j, k | 0 <= j < nR && 0 <= k < nT ensures b[j][k] == if j == rows[cs[k]] then 1.0 else 0.0 {
      SpreadEntry(cs, rows, nR, nT, j, k);
    }
    forall k | 0 <= k < nT ensures Sur.ColumnSum(b, k, nR) == 1.0 {
      SingleOneColumn(b, k, rows[cs[k]], nR);
    }
  }

  /** The active rows of the stored solution are the rows of the reduced
      one-hot matrix. */
  lemma SpreadRows(cs: seq<nat>, rows: seq<nat>, nR: nat, nT: nat, i: nat)
    requires |cs| == nT && (forall k :: 0 <= k < nT ==> cs[k] < |rows|) && StrictlyIncreasing(rows)
    requires (forall k :: 0 <= k < |rows| ==> rows[k] < nR) && i < |rows|
    ensures Spread(cs, rows, nR, nT)[rows[i]] == Sur.OneHot(cs, |rows|)[i]
  {
    forall k | 0 <= k < nT ensures Spread(cs, rows, nR, nT)[rows[i]][k] == Sur.OneHot(cs, |rows|)[i][k] {
      SpreadEntry(cs, rows, nR, nT, rows[i], k);
      PositionOf(rows, i);
    }
  }

  /** On the full problem, the `eta` the front end stores is the max-norm
      objective of the solution it stores, inactive controls included. */
  lemma SurOnFullProblem(bRel: seq<seq<real>>, dt: seq<real>, nR: nat, nT: nat)
    requires Sur.Shaped(bRel, dt, nR, nT)
    requires Rows(bRel, nR, false) != []
    ensures var rows := Rows(bRel, nR, false);
      var relP := Restrict(bRel, rows, Range(nT));
      var cs := Sur.Run(relP, dt, |rows|, nT, nT).choices;
      Sur.Objective(bRel, Spread(cs, rows, nR, nT), dt, nT) == Sur.RunEta(relP, dt, |rows|, nT, nT)
  {
    RowsIncreasing(bRel, nR, false);
    var rows := Rows(bRel, nR, false);
    var relP := Restrict(bRel, rows, Range(nT));
    var cs := Sur.Run(relP, dt, |rows|, nT, nT).choices;
    var b := Sur.OneHot(cs, |rows|);
    var full := Spread(cs, rows, nR, nT);
    forall i | 0 <= i < |rows| ensures bRel[rows[i]] == relP[i] && full[rows[i]] == b[i] {
      SelectRange(bRel[rows[i]]);
      SpreadRows(cs, rows, nR, nT, i);
    }
    SpreadOneHot(cs, rows, nR, nT);
    forall j | 0 <= j < nR && j !in rows ensures AllZero(bRel[j]) {
      RowsMembership(bRel, nR, false, j);
    }
    ObjectiveSpread(bRel, full, relP, b, rows, nR, nT, dt, nT);
    Sur.SurEtaIsObjective(relP, dt, |rows|, nT, nT);
  }

  /** The choices of sum-up rounding on the reduced problem. */
  function Choices(p: Preprocessed): (cs: seq<nat>)
    requires Sur.Shaped(p.bRel, p.dt, p.nC, p.nT) && 0 < p.nC
    ensures |cs| == p.nT && forall k :: 0 <= k < p.nT ==> cs[k] < p.nC
  {
    Sur.Run(p.bRel, p.dt, p.nC, p.nT, p.nT).choices
  }

  /** `_set_solution` (lines 138-142): `inflate_solution`, then
      `set_b_bin` and `set_eta` on the original problem.  Both setters
      accept what the rounding produced. */
  method StoreSolution(p: Preprocessed, a: BinApprox, ghost cs: seq<nat>)
    requires a.Valid() && p.nT == a.nT && p.tActive == Range(a.nT) && p.tInactive == []
    requires p.nC == |p.bActive| && |p.bActive| + |p.bInactive| == a.nC
    requires StrictlyIncreasing(p.bActive) && forall k :: 0 <= k < |p.bActive| ==> p.bActive[k] < a.nC
    requires |cs| == p.nT && forall k :: 0 <= k < p.nT ==> cs[k] < p.nC
    requires p.bBin == Some(Sur.OneHot(cs, p.nC))
    requires p.eta.Some? && p.eta.value >= 0.0
    modifies p`bBin, a`bBin, a`eta
    ensures a.Valid()
    ensures p.bBin == Some(Spread(cs, p.bActive, a.nC, p.nT))
    ensures a.bBin == p.bBin && a.eta == p.eta
  {
    var inflated := p.InflateSolution();
    assert p.bBin.value == Spread(cs, p.bActive, a.nC, p.nT);
    SpreadOneHot(cs, p.bActive, a.nC, p.nT);
    var m := Matrix(a.nC, p.nT, p.bBin.value);
    BBinCheckAccepts(m, p.nT);
    var written := a.SetBBin(m);
    var stored := a.SetEta(p.eta);
  }

  /** `CombinaSUR` */
  class CombinaSur {
    const binapprox: BinApprox
    const pre: Preprocessed
    var surStatus: int

    /** The links `_apply_preprocessing` sets up between the problem and
        its reduction, and the status codes the solver uses. */
    ghost predicate Valid()
      reads this, binapprox, pre
    {
      binapprox.Valid() &&
      pre.bActive == Rows(binapprox.bRel, binapprox.nC, false) &&
      pre.bInactive == Rows(binapprox.bRel, binapprox.nC, true) &&
      pre.t == binapprox.t && pre.nT == binapprox.nT && pre.dt == binapprox.dt &&
      pre.nC == |pre.bActive| && 0 < pre.nC &&
      pre.tActive == Range(binapprox.nT) && pre.tInactive == [] &&
      pre.bRel == Restrict(binapprox.bRel, pre.bActive, Range(binapprox.nT)) &&
      (surStatus == 1 || surStatus == 2)
    }

    /** `_setup_sur` after the reduction succeeded: status 1. */
    constructor (b: BinApprox, p: Preprocessed)
      requires b.Valid()
      requires p.bActive == Rows(b.bRel, b.nC, false) && p.bInactive == Rows(b.bRel, b.nC, true)
      requires p.t == b.t && p.nT == b.nT && p.dt == b.dt && p.nC == |p.bActive| && 0 < p.nC
      requires p.tActive == Range(b.nT) && p.tInactive == []
      requires p.bRel == Restrict(b.bRel, p.bActive, Range(b.nT))
      ensures binapprox == b && pre == p && surStatus == 1
      ensures Valid()
    {
      binapprox := b;
      pre := p;
      surStatus := 1;
    }

    /** `status` */
    function Status(): (r: Result<string, Fault>)
      reads this
      requires surStatus == 1 || surStatus == 2
      ensures r.Ok?
      ensures surStatus == 1 <==> r.value == "Initialized"
      ensures surStatus == 2 <==> r.value == "Optimal solution found"
    {
      StatusMessage(surStatus)
    }

    /** `_run_sur` (lines 102-135) on the reduced problem: the result goes
        to `_b_bin` and `_eta` of the reduction. */
    method RunSur()
      requires Valid()
      modifies pre
      ensures Valid()
      ensures pre.bBin == Some(Sur.OneHot(Choices(pre), pre.nC))
      ensures pre.eta == Some(Sur.RunEta(pre.bRel, pre.dt, pre.nC, pre.nT, pre.nT))
    {
      var run := Sur.RunSur(pre.bRel, pre.dt, pre.nC, pre.nT);
      pre.bBin := Some(run.value.0);
      pre.eta := Some(run.value.1);
    }

    /** `_set_solution` (lines 138-142). */
    method SetSolution()
      requires Valid()
      requires pre.bBin == Some(Sur.OneHot(Choices(pre), pre.nC))
      requires pre.eta == Some(Sur.RunEta(pre.bRel, pre.dt, pre.nC, pre.nT, pre.nT))
      modifies pre`bBin, binapprox`bBin, binapprox`eta
      ensures Valid()
      ensures pre.bBin == Some(Spread(Choices(pre), pre.bActive, binapprox.nC, pre.nT))
      ensures binapprox.bBin == pre.bBin && binapprox.eta == pre.eta
    {
      RowsPartition(binapprox.bRel, binapprox.nC);
      RowsIncreasing(binapprox.bRel, binapprox.nC, false);
      StoreSolution(pre, binapprox, Choices(pre));
    }

    /** `solve`: `_run_sur`, `_set_solution`, status 2.  The stored `eta`
        is the max-norm objective of the stored `b_bin` on the full
        problem. */
    method Solve()
      requires Valid()
      modifies this, pre, binapprox
      ensures Valid() && surStatus == 2
      ensures binapprox.bBin == Some(Spread(Choices(pre), pre.bActive, binapprox.nC, pre.nT))
      ensures binapprox.eta == Some(Sur.RunEta(pre.bRel, pre.dt, pre.nC, pre.nT, pre.nT))
      ensures binapprox.eta.value == Sur.Objective(binapprox.bRel, binapprox.bBin.value, binapprox.dt, binapprox.nT)
    {
      RunSur();
      SetSolution();
      surStatus := 2;
      SurOnFullProblem(binapprox.bRel, binapprox.dt, binapprox.nC, binapprox.nT);
    }
  }

  /** `CombinaSUR(binapprox)`: the reduction, then a solver in status 1.
      A problem whose relaxed controls are all zero makes the reduction
      raise `IndexError`. */
  method NewCombinaSur(b: BinApprox) returns (r: Result<CombinaSur, Fault>)
    requires b.Valid()
    ensures r.Err? <==> forall j :: 0 <= j < b.nC ==> AllZero(b.bRel[j])
    ensures r.Err? ==> r.error == IndexError
    ensures r.Ok? ==> fresh(r.value) && r.value.binapprox == b && r.value.Valid() && r.value.surStatus == 1
  {
    var p := Preprocess(b);
    if p.Err? {
      return Err(p.error);
    }
    var s := new CombinaSur(b, p.value);
    return Ok(s);
  }
}
