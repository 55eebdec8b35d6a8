// The single-control solver class on a time grid (pycombina/CIA.cpp): the
// constructor validates `T` and `b_rel`, and `run_cia` runs the
// preparation phase only (number of intervals, interval lengths `Tg`, the
// initial upper bound and the integrated deltas of `b_rel`); the search
// itself is not part of this file, so `b_bin` stays all zeros.
//
// The loop counter of `compute_initial_upper_bound` is never initialised.
// Its start value is a parameter `i0` of `run_cia` as written; the loop
// from 0 the authors evidently intended is modelled beside it.

module GridCia {
  import opened Common
  import LegacyCia
  import SingleCia

  /** The exceptions the constructor and `run_cia` raise. */
  datatype GridFault =
    | LengthError      // `Tg(T.size() - 1)` of an empty `T`
    | InvalidArgument  // input rejected by `validate_input_data`
    | OutOfRange       // an `.at` past the end of a vector

  /** The range of a C++ `int`. */
  type Int32 = x: int | -0x8000_0000 <= x < 0x8000_0000

  /** The conversion of an `int` to `unsigned int` in `i < N`. */
  function Unsigned(i: Int32): (u: nat)
    ensures u < 0x1_0000_0000
    ensures u % 0x1_0000_0000 == i % 0x1_0000_0000
    ensures 0 <= i ==> u == i
  {
    if i < 0 then i + 0x1_0000_0000 else i
  }

  // ---------------------------------------------------------------------
  // Input validation (the constructor)

  /** What the constructor accepts: one more time point than relaxed
      values, strictly increasing time points and relaxed values in
      [0, 1]. */
  predicate ValidInput(t: seq<real>, bRel: seq<real>)
  {
    |t| == |bRel| + 1 && LegacyCia.StrictlyIncreasing(t) && LegacyCia.RowInUnitInterval(bRel)
  }

  /** The checks of the constructor, in the order they run: the `Tg`
      allocation, then `validate_input_dimensions`,
      `validate_input_values_T` and `validate_input_values_b_rel`. */
  method ValidateInputData(t: seq<real>, bRel: seq<real>) returns (r: Option<GridFault>)
    ensures r.None? <==> ValidInput(t, bRel)
    ensures r == Some(LengthError) <==> |t| == 0
    ensures r.Some? && |t| > 0 ==> r.value == InvalidArgument
  {
    if |t| == 0 {
      return Some(LengthError);
    }
    if |t| != |bRel| + 1 {
      return Some(InvalidArgument);
    }
    var ok := LegacyCia.ValidateInputValuesT(t);
    if !ok {
      return Some(InvalidArgument);
    }
    ok := LegacyCia.ValidateRow(bRel);
    if !ok {
      return Some(InvalidArgument);
    }
    return None;
  }

  // ---------------------------------------------------------------------
  // The initial upper bound

  /** What the loop of `compute_initial_upper_bound` adds to `ub` when its
      counter starts at `i0`: nothing when `i0` converted to unsigned is
      not below `N`; an `out_of_range` from `Tg.at(i0)` when `i0` is
      negative (it converts to a huge `size_t`) but passes the unsigned
      test; otherwise the lengths of intervals `i0 .. N - 1`. */
  function UpperBoundAsWritten(tg: seq<real>, i0: Int32): (r: Result<real, GridFault>)
    ensures r.Err? ==> r.error == OutOfRange && i0 < 0
  {
    if Unsigned(i0) >= |tg| then Ok(0.0)
    else if i0 < 0 then Err(OutOfRange)
    else Ok(SumRange(tg, i0, |tg|))
  }

  /** A range of positive entries has a positive sum. */
  lemma {:induction false} SumRangePositive(s: seq<real>, lo: nat, hi: nat)
    requires lo < hi <= |s|
    requires forall k :: 0 <= k < |s| ==> s[k] > 0.0
    ensures SumRange(s, lo, hi) > 0.0
    decreases hi - lo
  {
    if lo + 1 < hi {
      SumRangePositive(s, lo + 1, hi);
    } else {
      assert SumRange(s, lo + 1, hi) == 0.0;
    }
  }

  /** On positive interval lengths the loop as written yields the
      intended bound, the sum of all lengths, exactly when the counter
      happens to start at 0 or there are no intervals. */
  lemma UpperBoundAsWrittenIntended(tg: seq<real>, i0: Int32)
    requires forall k :: 0 <= k < |tg| ==> tg[k] > 0.0
    ensures UpperBoundAsWritten(tg, i0) == Ok(Sum(tg)) <==> i0 == 0 || |tg| == 0
  {
    if |tg| > 0 && i0 != 0 {
      SumRangePositive(tg, 0, |tg|);
      if 0 < i0 < |tg| {
        SumRangeSplit(tg, 0, i0, |tg|);
        SumRangePositive(tg, 0, i0);
      }
    }
  }

  /** A concrete case: with `T = [0, 1, 2]` and the counter starting at
      1 (a value the uninitialised `int i` may hold) the bound is 1, not
      the horizon length 2. */
  lemma UpperBoundExample()
    ensures LegacyCia.TimeGrid([0.0, 1.0, 2.0]) == [1.0, 1.0]
    ensures UpperBoundAsWritten([1.0, 1.0], 1) == Ok(1.0)
    ensures Sum([1.0, 1.0]) == 2.0
  {
    var tg := LegacyCia.TimeGrid([0.0, 1.0, 2.0]);
    assert tg[0] == 1.0 && tg[1] == 1.0;
    assert SumRange([1.0, 1.0], 1, 2) == 1.0 + SumRange([1.0, 1.0], 2, 2);
  }

  /** The tail sums from the last interval. */
  lemma LastTailSums(b: seq<real>)
    requires |b| > 0
    ensures SingleCia.TailSum(b, |b| - 1, 1) == b[|b| - 1] - 1.0
    ensures SingleCia.TailSum(b, |b| - 1, 0) == b[|b| - 1]
  {
    assert SingleCia.TailSum(b, |b|, 1) == 0.0;
    assert SingleCia.TailSum(b, |b|, 0) == 0.0;
  }

  // ---------------------------------------------------------------------
  // The solver object

  /** The loop of `compute_integrated_deltas_of_b_rel_to_binary_values`
      on tables of the right size: from the last interval backwards, each
      entry adds its interval's deviation to the next entry. */
  method FillTailTables(b: seq<real>, dTrue0: seq<real>, dFalse0: seq<real>) returns (dTrue: seq<real>, dFalse: seq<real>)
    requires |b| > 0 && |dTrue0| == |b| && |dFalse0| == |b|
    ensures SingleCia.TailTables(b, dTrue, dFalse)
  {
    var n := |b|;
    dTrue := dTrue0[n - 1 := b[n - 1] - 1.0];
    dFalse := dFalse0[n - 1 := b[n - 1]];
    LastTailSums(b);
    for i := n - 1 downto 0
      invariant |dTrue| == n && |dFalse| == n
      invariant forall j :: i <= j < n ==>
        dTrue[j] == SingleCia.TailSum(b, j, 1) && dFalse[j] == SingleCia.TailSum(b, j, 0)
    {
      dTrue := dTrue[i := dTrue[i + 1] + b[i] - 1.0];
      dFalse := dFalse[i := dFalse[i + 1] + b[i]];
    }
  }

  /** The solver object: the inputs, `N`, the upper bound `ub`, `Tg`,
      the two integrated delta tables and `b_bin`. */
  class Grid {
    const t: seq<real>
    const bRel: seq<real>
    var n: nat
    var ub: real
    var tg: seq<real>
    var integTrue: seq<real>
    var integFalse: seq<real>
    var bBin: seq<nat>

    /** The inputs passed validation and every vector has the size the
        constructor gave it. */
    ghost predicate Valid()
      reads this
    {
      ValidInput(t, bRel) && |tg| == |t| - 1 &&
      |integTrue| == |bRel| && |integFalse| == |bRel| && |bBin| == |bRel|
    }

    /** The constructor after its validation succeeded: `N` and `ub` are
        0 and `Tg`, both tables and `b_bin` are zero vectors. */
    constructor (t0: seq<real>, bRel0: seq<real>)
      requires ValidInput(t0, bRel0)
      ensures Valid() && t == t0 && bRel == bRel0
      ensures n == 0 && ub == 0.0 && tg == Repeat(0.0, |t0| - 1)
      ensures integTrue == Repeat(0.0, |bRel0|) && integFalse == Repeat(0.0, |bRel0|)
      ensures bBin == Repeat(0, |bRel0|)
    {
      t := t0;
      bRel := bRel0;
      n := 0;
      ub := 0.0;
      tg := Repeat(0.0, |t0| - 1);
      integTrue := Repeat(0.0, |bRel0|);
      integFalse := Repeat(0.0, |bRel0|);
      bBin := Repeat(0, |bRel0|);
    }

    /** `determine_number_of_control_intervals`. */
    method DetermineNumberOfControlIntervals()
      requires Valid()
      modifies this`n
      ensures Valid() && n == |bRel|
    {
      n := |bRel|;
    }

    /** `compute_time_grid_from_time_points`: `Tg[i - 1] = T[i] - T[i - 1]`. */
    method ComputeTimeGrid()
      requires Valid() && n == |bRel|
      modifies this`tg
      ensures Valid() && tg == LegacyCia.TimeGrid(t)
    {
      for i := 1 to n + 1
        invariant |tg| == n
        invariant forall k :: 0 <= k < i - 1 ==> tg[k] == t[k + 1] - t[k]
      {
        tg := tg[i - 1 := t[i] - t[i - 1]];
      }
    }

    /** `compute_initial_upper_bound` as written, its counter starting at
        the indeterminate `i0`: `ub` grows by `UpperBoundAsWritten`, or
        stays as it was when the first `Tg.at` throws. */
    method ComputeInitialUpperBoundAsWritten(i0: Int32) returns (fault: Option<GridFault>)
      requires Valid() && n == |bRel|
      modifies this`ub
      ensures UpperBoundAsWritten(tg, i0).Ok? ==>
        fault == None && ub == old(ub) + UpperBoundAsWritten(tg, i0).value
      ensures UpperBoundAsWritten(tg, i0).Err? ==> fault == Some(OutOfRange) && ub == old(ub)
    {
      var i: int := i0;
      if !(Unsigned(i0) < n) {
        return None;
      }
      if i < 0 {
        return Some(OutOfRange);
      }
      while i < n
        invariant i0 <= i <= n
        invariant ub == old(ub) + SumRange(tg, i0, i)
      {
        SumRangeSnoc(tg, i0, i + 1);
        ub := ub + tg[i];
        i := i + 1;
      }
      return None;
    }

    /** `compute_initial_upper_bound` as evidently intended, its counter
        starting at 0: `ub` grows by the sum of all interval lengths. */
    method ComputeInitialUpperBound()
      requires Valid() && n == |bRel|
      modifies this`ub
      ensures ub == old(ub) + Sum(tg)
    {
      for i := 0 to n
        invariant ub == old(ub) + SumRange(tg, 0, i)
      {
        SumRangeSnoc(tg, 0, i + 1);
        ub := ub + tg[i];
      }
    }

    /** `compute_integrated_deltas_of_b_rel_to_binary_values`: the tail
        sums of `b_rel - 1` and of `b_rel`.  With no intervals,
        `at(N - 1)` wraps to the largest index and throws before anything
        is written. */
    method ComputeIntegratedDeltas() returns (fault: Option<GridFault>)
      requires Valid() && n == |bRel|
      modifies this`integTrue, this`integFalse
      ensures Valid()
      ensures fault.Some? <==> n == 0
      ensures fault.Some? ==>
        fault.value == OutOfRange && integTrue == old(integTrue) && integFalse == old(integFalse)
      ensures fault.None? ==> SingleCia.TailTables(bRel, integTrue, integFalse)
    {
      if n == 0 {
        return Some(OutOfRange);
      }
      integTrue, integFalse := FillTailTables(bRel, integTrue, integFalse);
      return None;
    }

    /** `run_cia_preparation_phase` as written, the counter of
        `compute_initial_upper_bound` starting at `i0`: `N` is the number
        of intervals and `Tg` their lengths; when that loop throws, `ub`
        and the tables are untouched; otherwise `ub` grows by
        `UpperBoundAsWritten`, and either both tables hold the tail sums,
        which differ by the number of intervals they cover, or there are
        no intervals and the tables are untouched. */
    method RunCiaPreparationPhase(i0: Int32) returns (fault: Option<GridFault>)
      requires Valid()
      modifies this`n, this`tg, this`ub, this`integTrue, this`integFalse
      ensures Valid() && n == |bRel| && tg == LegacyCia.TimeGrid(t)
      ensures UpperBoundAsWritten(tg, i0).Err? ==>
        fault == Some(OutOfRange) && ub == old(ub) &&
        integTrue == old(integTrue) && integFalse == old(integFalse)
      ensures UpperBoundAsWritten(tg, i0).Ok? ==>
        ub == old(ub) + UpperBoundAsWritten(tg, i0).value && (fault.Some? <==> |bRel| == 0)
      ensures UpperBoundAsWritten(tg, i0).Ok? && fault.Some? ==>
        fault.value == OutOfRange && integTrue == old(integTrue) && integFalse == old(integFalse)
      ensures fault.None? ==>
        SingleCia.TailTables(bRel, integTrue, integFalse) &&
        forall i :: 0 <= i < n ==> integFalse[i] - integTrue[i] == (n - i) as real
    {
      DetermineNumberOfControlIntervals();
      ComputeTimeGrid();
      fault := ComputeInitialUpperBoundAsWritten(i0);
      if fault.Some? {
        return;
      }
      fault := ComputeIntegratedDeltas();
      if fault.None? {
        forall i | 0 <= i < n
          ensures integFalse[i] - integTrue[i] == (n - i) as real
        {
          SingleCia.TailTablesDiffer(bRel, i);
        }
      }
    }

    /** The preparation phase with the loop of
        `compute_initial_upper_bound` counting from 0: `ub` grows by the
        length of the horizon. */
    method RunCiaPreparationPhaseIntended() returns (fault: Option<GridFault>)
      requires Valid()
      modifies this`n, this`tg, this`ub, this`integTrue, this`integFalse
      ensures Valid() && n == |bRel| && tg == LegacyCia.TimeGrid(t)
      ensures ub == old(ub) + (t[|t| - 1] - t[0])
      ensures fault.Some? <==> |bRel| == 0
      ensures fault.None? ==> SingleCia.TailTables(bRel, integTrue, integFalse)
    {
      DetermineNumberOfControlIntervals();
      ComputeTimeGrid();
      ComputeInitialUpperBound();
      LegacyCia.TimeGridTelescopes(t, n);
      fault := ComputeIntegratedDeltas();
    }

    /** `run_cia`: the preparation phase alone, as written; `sigma_max`
        is not read and `b_bin` keeps its zeros. */
    method RunCia(sigmaMax: int, i0: Int32) returns (fault: Option<GridFault>)
      requires Valid()
      modifies this`n, this`tg, this`ub, this`integTrue, this`integFalse
      ensures Valid() && n == |bRel| && tg == LegacyCia.TimeGrid(t) && bBin == old(bBin)
      ensures UpperBoundAsWritten(tg, i0).Err? ==> fault == Some(OutOfRange) && ub == old(ub)
      ensures UpperBoundAsWritten(tg, i0).Ok? ==>
        ub == old(ub) + UpperBoundAsWritten(tg, i0).value && (fault.Some? <==> |bRel| == 0)
      ensures fault.Some? ==> fault.value == OutOfRange
      ensures fault.None? ==> SingleCia.TailTables(bRel, integTrue, integFalse)
    {
      fault := RunCiaPreparationPhase(i0);
    }
  }

  /** Constructing the solver: the validation's fault, or a fresh object
      in its initial state. */
  method Create(t: seq<real>, bRel: seq<real>) returns (r: Result<Grid, GridFault>)
    ensures r.Ok? <==> ValidInput(t, bRel)
    ensures r == Err(LengthError) <==> |t| == 0
    ensures r.Err? && |t| > 0 ==> r.error == InvalidArgument
    ensures r.Ok? ==>
      fresh(r.value) && r.value.Valid() && r.value.t == t && r.value.bRel == bRel &&
      r.value.n == 0 && r.value.ub == 0.0 && r.value.bBin == Repeat(0, |bRel|)
  {
    var fault := ValidateInputData(t, bRel);
    if fault.Some? {
      return Err(fault.value);
    }
    var g := new Grid(t, bRel);
    return Ok(g);
  }
}
