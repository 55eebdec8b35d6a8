// The front end of the first pycombina generation, class `Combina`
// (pycombina/_combina.py): construction with its solver check,
// validation, rounding and time grid; `reduce_problem_size`, whose passes
// repeat only when `max_reduction` is set; the checks of the
// `max_switches` and `min_up_time` arguments of `solve`; the choice of the
// solver by name; and `_retrieve_solution`, which forward-fills a reduced
// solution back onto the original grid.
//
// The solvers are foreign code: the names of those whose imports succeed
// are a parameter of the constructor, and the `eta` and `b_bin` a solver
// returns are parameters of `solve`.

module CombinaFrontEnd {
  import opened Common
  import BA = BinaryApproximation
  import opened GridReduction
  import LF = LegacyFrontEnd
  import LegacyCia
  import BnBSolver

  /** Why a `ValueError` is raised. */
  datatype Reason =
    | Input(input: LF.Reason)  // rejected by `_validate_input_data`
    | MaxSwitchesCount         // `max_switches` is not one integer per control
    | MinUpTimeCount           // `min_up_time` is not one value per control
    | AmbiguousTruth           // `not min_up_time` on a numpy array of several entries
    | UnknownSolver            // no available solver has this name

  datatype Fault = ValueError(reason: Reason) | RuntimeError | TypeError

  /** The forms a per-control argument of `solve` takes: a list, a numpy
      vector, a number or `None`. */
  datatype Arg = PyList(v: seq<real>) | NdArray(v: seq<real>) | Number(x: real) | PyNone

  // ---------------------------------------------------------------------
  // The arguments of `solve`

  /** `[int(s) for s in list(max_switches)]`: each entry truncated toward
      zero; `list` of a number or of `None` raises `TypeError`. */
  function SwitchLimits(arg: Arg): (r: Result<seq<int>, Fault>)
    ensures r.Err? <==> arg.Number? || arg.PyNone?
    ensures r.Err? ==> r.error == TypeError
    ensures r.Ok? ==> |r.value| == |arg.v|
  {
    if arg.Number? || arg.PyNone? then Err(TypeError)
    else Ok(seq(|arg.v|, i requires 0 <= i < |arg.v| => BnBSolver.TruncateToLong(arg.v[i])))
  }

  /** `not min_up_time`: `None`, an empty list and zero are false; a numpy
      array of one entry is as true as its entry, an empty one is false,
      and one of several entries has no truth value. */
  function Falsy(arg: Arg): (r: Result<bool, Fault>)
    ensures r.Err? <==> arg.NdArray? && |arg.v| > 1
    ensures r.Err? ==> r.error == ValueError(AmbiguousTruth)
  {
    match arg
    case PyNone => Ok(true)
    case PyList(v) => Ok(|v| == 0)
    case NdArray(v) => if |v| > 1 then Err(ValueError(AmbiguousTruth)) else Ok(|v| == 0 || v[0] == 0.0)
    case Number(x) => Ok(x == 0.0)
  }

  /** The minimum up times `_validate_min_up_time_input` stores: zeros
      for every control when the argument is false, else the entries of
      the list or array; a non-zero number is not iterable. */
  function UpTimes(arg: Arg, nC: nat): (r: Result<seq<real>, Fault>)
  {
    var f := Falsy(arg);
    if f.Err? then Err(f.error)
    else if f.value then Ok(Repeat(0.0, nC))
    else if arg.Number? || arg.PyNone? then Err(TypeError)
    else Ok(arg.v)
  }

  /** `_validate_max_switches_input` for a problem of `nC` controls. */
  function MaxSwitchesCheck(arg: Arg, nC: nat): (r: Option<Fault>)
  {
    var s := SwitchLimits(arg);
    if s.Err? then Some(s.error)
    else if |s.value| != nC then Some(ValueError(MaxSwitchesCount))
    else None
  }

  /** `_validate_min_up_time_input` for a problem of `nC` controls. */
  function MinUpTimeCheck(arg: Arg, nC: nat): (r: Option<Fault>)
  {
    var u := UpTimes(arg, nC);
    if u.Err? then Some(u.error)
    else if |u.value| != nC then Some(ValueError(MinUpTimeCount))
    else None
  }

  /** `max_switches` passes exactly when it is a list or an array of one
      entry per control; each stored limit is its entry truncated. */
  lemma MaxSwitchesAccepted(arg: Arg, nC: nat)
    ensures MaxSwitchesCheck(arg, nC).None? <==> (arg.PyList? || arg.NdArray?) && |arg.v| == nC
    ensures MaxSwitchesCheck(arg, nC).Some? && (arg.PyList? || arg.NdArray?) ==>
      MaxSwitchesCheck(arg, nC) == Some(ValueError(MaxSwitchesCount))
    ensures SwitchLimits(arg).Ok? ==> forall i :: 0 <= i < |arg.v| ==>
      var s := SwitchLimits(arg).value[i] as real;
      (arg.v[i] >= 0.0 ==> s <= arg.v[i] < s + 1.0) && (arg.v[i] < 0.0 ==> s - 1.0 < arg.v[i] <= s)
    ensures SwitchLimits(arg).Ok? ==> forall i :: 0 <= i < |arg.v| && arg.v[i] == arg.v[i].Floor as real ==>
      SwitchLimits(arg).value[i] == arg.v[i].Floor
  {
  }

  /** A missing or false `min_up_time` becomes zeros for every control and
      always passes; any other list or array passes exactly when it has
      one entry per control, and is stored as given. */
  lemma MinUpTimeAccepted(arg: Arg, nC: nat)
    ensures Falsy(arg) == Ok(true) ==> UpTimes(arg, nC) == Ok(Repeat(0.0, nC)) && MinUpTimeCheck(arg, nC).None?
    ensures Falsy(arg) == Ok(false) && (arg.PyList? || arg.NdArray?) ==>
      UpTimes(arg, nC) == Ok(arg.v) && (MinUpTimeCheck(arg, nC).None? <==> |arg.v| == nC)
    ensures arg.Number? && arg.x != 0.0 ==> MinUpTimeCheck(arg, nC) == Some(TypeError)
    ensures arg.NdArray? && |arg.v| > 1 ==> MinUpTimeCheck(arg, nC) == Some(ValueError(AmbiguousTruth))
  {
  }

  /** A one-entry array of zero counts as missing: its entry is replaced
      by a zero for every control, so it passes for any number of
      controls, while the list `[0.0]` passes only for one control. */
  lemma ZeroArrayDefaults(nC: nat)
    requires nC != 1
    ensures MinUpTimeCheck(NdArray([0.0]), nC).None?
    ensures MinUpTimeCheck(PyList([0.0]), nC) == Some(ValueError(MinUpTimeCount))
  {
  }

  /** `_solve_combinatorial_integral_approximation_problem`: the solver is
      looked up by name among the available ones. */
  function SolverCheck(name: string, available: set<string>): (r: Option<Fault>)
    ensures r.None? <==> name in available
    ensures r.Some? ==> r.value == ValueError(UnknownSolver)
  {
    if name in available then None else Some(ValueError(UnknownSolver))
  }

  /** How `solve` ends: the first of the checks of `max_switches`,
      `min_up_time` and the solver name that raises, or success. */
  function SolveOutcome(maxSwitches: Arg, minUpTime: Arg, name: string, nC: nat, available: set<string>): (r: Result<(), Fault>)
  {
    if MaxSwitchesCheck(maxSwitches, nC).Some? then Err(MaxSwitchesCheck(maxSwitches, nC).value)
    else if MinUpTimeCheck(minUpTime, nC).Some? then Err(MinUpTimeCheck(minUpTime, nC).value)
    else if SolverCheck(name, available).Some? then Err(SolverCheck(name, available).value)
    else Ok(())
  }

  /** `solve` succeeds exactly when all three checks pass, and a bad
      `max_switches` is reported whatever else is wrong. */
  lemma SolveOutcomeOrder(maxSwitches: Arg, minUpTime: Arg, name: string, nC: nat, available: set<string>)
    ensures SolveOutcome(maxSwitches, minUpTime, name, nC, available).Ok? <==>
      (maxSwitches.PyList? || maxSwitches.NdArray?) && |maxSwitches.v| == nC &&
      MinUpTimeCheck(minUpTime, nC).None? && name in available
    ensures MaxSwitchesCheck(maxSwitches, nC).Some? ==>
      SolveOutcome(maxSwitches, minUpTime, name, nC, available) == Err(MaxSwitchesCheck(maxSwitches, nC).value)
  {
    MaxSwitchesAccepted(maxSwitches, nC);
  }

  /** The loop of `reduce_problem_size` on the values of `_t` and
      `_b_rel`: a pass of `_reduce_element_count`, repeated while
      `max_reduction` is set and the pass dropped an interval (`n_b`
      counts the intervals before the pass).  The grid stays a faithful
      reduction of the recorded original throughout. */
  method ReductionLoop(ghost tOrig: seq<real>, ghost bOrig: seq<seq<real>>, t: seq<real>, b: seq<seq<real>>,
                ghost kept: seq<bool>, maxReduction: bool) returns (t2: seq<real>, b2: seq<seq<real>>, ghost kept2: seq<bool>)
    requires Faithful(tOrig, bOrig, t, b, kept) && |tOrig| >= 2
    ensures Faithful(tOrig, bOrig, t2, b2, kept2) && |t2| >= 2 && |b2| == |b| && Shaped(b2, |t2| - 1)
    ensures !maxReduction ==> Grid(t2, b2) == Reduce(Grid(t, b))
    ensures maxReduction ==> Grid(t2, b2) == Repeated(Grid(t, b))
  {
    ghost var g0 := Grid(t, b);
    t2, b2, kept2 := LF.ReducePass(tOrig, bOrig, t, b, kept);
    LF.FaithfulKeepsFirst(tOrig, bOrig, t2, b2, kept2);
    LF.RepeatedStep(g0);
    if maxReduction && |t2| < |t| {
      t2, b2, kept2 := FurtherPasses(tOrig, bOrig, t2, b2, kept2, Repeated(g0));
    }
  }

  /** The passes of `reduce_problem_size(True)` after one that dropped an
      interval, until one drops nothing; they end at the fixed point
      `goal` of the first. */
  method FurtherPasses(ghost tOrig: seq<real>, ghost bOrig: seq<seq<real>>, t: seq<real>, b: seq<seq<real>>,
                       ghost kept: seq<bool>, ghost goal: Grid) returns (t2: seq<real>, b2: seq<seq<real>>, ghost kept2: seq<bool>)
    requires Faithful(tOrig, bOrig, t, b, kept) && |tOrig| >= 2 && |t| >= 2
    requires Consistent(Grid(t, b)) && Repeated(Grid(t, b)) == goal
    ensures Faithful(tOrig, bOrig, t2, b2, kept2) && |t2| >= 2
    ensures Grid(t2, b2) == goal
  {
    t2, b2, kept2 := t, b, kept;
    var more := true;
    while more
      invariant Faithful(tOrig, bOrig, t2, b2, kept2) && |t2| >= 2 && Consistent(Grid(t2, b2))
      invariant more ==> Repeated(Grid(t2, b2)) == goal
      invariant !more ==> Grid(t2, b2) == goal
      decreases if more then |t2| + 1 else 0
    {
      ghost var g := Grid(t2, b2);
      var nB := |t2| - 1;
      t2, b2, kept2 := LF.ReducePass(tOrig, bOrig, t2, b2, kept2);
      LF.FaithfulKeepsFirst(tOrig, bOrig, t2, b2, kept2);
      LF.RepeatedStep(g);
      more := nB > |t2| - 1;
    }
  }

  // ---------------------------------------------------------------------
  // The problem object

  class Combina {
    var t: seq<real>
    var bRel: seq<seq<real>>
    const tol: real
    var nB: int
    var nC: nat
    var dt: seq<real>
    /** `_t_orig` and `_b_rel_orig`, set by the first reduction pass. */
    var tOrig: Option<seq<real>>
    var bRelOrig: Option<seq<seq<real>>>
    var maxSwitches: Option<seq<int>>
    var minUpTime: Option<seq<real>>
    var eta: Option<real>
    var bBin: Option<seq<seq<real>>>
    /** The names of the solvers whose imports succeeded. */
    const available: set<string>
    /** The validated time points. */
    ghost const tInit: seq<real>
    /** The intervals of `tInit` a reduced problem still holds. */
    ghost var kept: seq<bool>

    /** The counts and `dt` match the arrays; before any reduction the
        grid is the validated one, after it a faithful reduction of the
        problem recorded in `_t_orig` and `_b_rel_orig`. */
    ghost predicate Valid()
      reads this`t, this`bRel, this`nB, this`nC, this`dt, this`tOrig, this`bRelOrig, this`kept
    {
      |tInit| >= 2 && BA.Increasing(tInit) && |t| >= 2 && nB == |t| - 1 && nC == |bRel| &&
      dt == LegacyCia.TimeGrid(t) && Shaped(bRel, |t| - 1) &&
      (tOrig.None? ==> bRelOrig.None? && t == tInit) &&
      (tOrig.Some? ==> tOrig.value == tInit && bRelOrig.Some? && Faithful(tInit, bRelOrig.value, t, bRel, kept))
    }

    /** `__init__` after the solver check and the validation: the rounded
        controls, their counts and the interval lengths. */
    constructor (t: seq<real>, bRel: seq<seq<real>>, tol: real, available: set<string>)
      requires |t| >= 2 && BA.Increasing(t) && Shaped(bRel, |t| - 1)
      ensures Valid() && tInit == t && this.t == t && this.bRel == LF.RoundAll(bRel, tol) && this.tol == tol
      ensures nC == |bRel| && nB == |t| - 1 && this.available == available
      ensures tOrig.None? && maxSwitches.None? && minUpTime.None? && eta.None? && bBin.None?
    {
      this.t := t;
      this.bRel := LF.RoundAll(bRel, tol);
      this.tol := tol;
      nC := |bRel|;
      nB := |t| - 1;
      dt := LegacyCia.TimeGrid(t);
      tOrig, bRelOrig := None, None;
      maxSwitches, minUpTime := None, None;
      eta, bBin := None, None;
      this.available := available;
      tInit := t;
      kept := [];
    }

    /** The `t` property: `_t_orig` once a reduction recorded it, else
        `_t`; either way the validated time points. */
    function TimePoints(): (r: seq<real>)
      reads this`t, this`bRel, this`nB, this`nC, this`dt, this`tOrig, this`bRelOrig, this`kept
      requires Valid()
      ensures r == tInit
    {
      if tOrig.Some? then tOrig.value else t
    }

    /** The start of `_reduce_element_count`: the first call keeps the
        problem as `_t_orig` and `_b_rel_orig`. */
    method RecordOriginal()
      requires Valid()
      modifies this`tOrig, this`bRelOrig, this`kept
      ensures old(tOrig).None? ==> tOrig == Some(t) && bRelOrig == Some(bRel)
      ensures old(tOrig).Some? ==> tOrig == old(tOrig) && bRelOrig == old(bRelOrig) && kept == old(kept)
      ensures tOrig == Some(tInit) && bRelOrig.Some? && Faithful(tInit, bRelOrig.value, t, bRel, kept)
      ensures |tInit| >= 2 && BA.Increasing(tInit) && |t| >= 2 && nC == |bRel|
    {
      if tOrig.None? {
        FaithfulStart(t, bRel);
        tOrig, bRelOrig, kept := Some(t), Some(bRel), Repeat(true, |t| - 1);
      }
    }

    /** `_reduce_element_count`: the first call records the problem, then
        one pass drops intervals; the reduction stays faithful to the
        recorded problem. */
    method ReduceElementCount()
      requires Valid()
      modifies this`t, this`bRel, this`tOrig, this`bRelOrig, this`kept
      ensures old(tOrig).None? ==> tOrig == Some(old(t)) && bRelOrig == Some(old(bRel))
      ensures old(tOrig).Some? ==> tOrig == old(tOrig) && bRelOrig == old(bRelOrig)
      ensures Grid(t, bRel) == Reduce(Grid(old(t), old(bRel)))
      ensures tOrig == Some(tInit) && bRelOrig.Some? && Faithful(tInit, bRelOrig.value, t, bRel, kept)
      ensures |t| >= 2 && |bRel| == |old(bRel)| && Shaped(bRel, |t| - 1)
    {
      RecordOriginal();
      var t2, b2, kept2 := LF.ReducePass(tOrig.value, bRelOrig.value, t, bRel, kept);
      t, bRel, kept := t2, b2, kept2;
      LF.FaithfulKeepsFirst(tInit, bRelOrig.value, t, bRel, kept);
    }

    /** `reduce_problem_size(max_reduction)`: one pass, and further passes
        only while `max_reduction` is set and the last pass dropped an
        interval; `n_b` is never 0, so the printed ratio is defined. */
    method ReduceProblemSize(maxReduction: bool)
      requires Valid()
      modifies this`t, this`bRel, this`nB, this`dt, this`tOrig, this`bRelOrig, this`kept
      ensures Valid() && tOrig == Some(tInit)
      ensures bRelOrig == if old(tOrig).None? then Some(old(bRel)) else old(bRelOrig)
      ensures !maxReduction ==> Grid(t, bRel) == Reduce(Grid(old(t), old(bRel)))
      ensures maxReduction ==> Grid(t, bRel) == Repeated(Grid(old(t), old(bRel)))
    {
      RecordOriginal();
      ReduceRecorded(maxReduction);
    }

    /** The loop of `reduce_problem_size` once the original is recorded,
        with `_t`, `_b_rel`, `dt` and `n_b` updated at its end. */
    method ReduceRecorded(maxReduction: bool)
      requires |tInit| >= 2 && BA.Increasing(tInit) && |t| >= 2 && nC == |bRel|
      requires tOrig == Some(tInit) && bRelOrig.Some? && Faithful(tInit, bRelOrig.value, t, bRel, kept)
      modifies this`t, this`bRel, this`nB, this`dt, this`kept
      ensures Valid()
      ensures !maxReduction ==> Grid(t, bRel) == Reduce(Grid(old(t), old(bRel)))
      ensures maxReduction ==> Grid(t, bRel) == Repeated(Grid(old(t), old(bRel)))
    {
      var t2, b2, kept2 := ReductionLoop(tOrig.value, bRelOrig.value, t, bRel, kept, maxReduction);
      t, bRel, kept := t2, b2, kept2;
      dt := LegacyCia.TimeGrid(t);
      nB := |t| - 1;
      ReducedValid();
    }

    /** A faithful reduction of the validated grid, with its counts and
        `dt` brought up to date, is a valid state. */
    lemma ReducedValid()
      requires |tInit| >= 2 && BA.Increasing(tInit) && |t| >= 2 && nB == |t| - 1 && nC == |bRel|
      requires dt == LegacyCia.TimeGrid(t) && Shaped(bRel, |t| - 1)
      requires tOrig == Some(tInit) && bRelOrig.Some? && Faithful(tInit, bRelOrig.value, t, bRel, kept)
      ensures Valid()
    {
    }

    /** `_retrieve_solution` with the `eta` and `b_bin` the solver
        returned: an unreduced problem takes `b_bin` as it is; a reduced
        one scatters it onto the intervals of `_t_orig` found again in
        `_t` (the kept ones) and forward-fills the rest, so retrieving the
        reduced relaxation gives the recorded relaxation back. */
    method RetrieveSolution(solverEta: real, solved: seq<seq<real>>)
      requires Valid() && |solved| == nC && Shaped(solved, |t| - 1)
      modifies this`eta, this`bBin
      ensures eta == Some(solverEta)
      ensures tOrig.None? ==> bBin == Some(solved)
      ensures tOrig.Some? ==> InGrid(tInit, t) == kept && bBin == Some(Expanded(solved, kept))
      ensures tOrig.Some? && solved == bRel ==> bBin == bRelOrig
    {
      eta := Some(solverEta);
      if tOrig.None? {
        bBin := Some(solved);
      } else {
        FaithfulRoundTrip(tInit, bRelOrig.value, t, bRel, kept);
        CountBefore(kept, 0);
        var idx := InGrid(tOrig.value, t);
        var b := ForwardFill(solved, idx);
        bBin := Some(b);
      }
    }

    /** `solve(solver, max_switches, min_up_time)` on the arguments and
        what the named solver returns: the two argument checks (each
        stores its attribute before its length test), the solver lookup,
        and the retrieval. */
    method Solve(name: string, maxSwitchesArg: Arg, minUpTimeArg: Arg, solverEta: real, solved: seq<seq<real>>)
      returns (r: Result<(), Fault>)
      requires Valid() && |solved| == nC && Shaped(solved, |t| - 1)
      modifies this`maxSwitches, this`minUpTime, this`eta, this`bBin
      ensures r == SolveOutcome(maxSwitchesArg, minUpTimeArg, name, nC, available)
      ensures SwitchLimits(maxSwitchesArg).Ok? ==> maxSwitches == Some(SwitchLimits(maxSwitchesArg).value)
      ensures SwitchLimits(maxSwitchesArg).Err? ==> maxSwitches == old(maxSwitches) && minUpTime == old(minUpTime)
      ensures MaxSwitchesCheck(maxSwitchesArg, nC).None? && UpTimes(minUpTimeArg, nC).Ok? ==>
        minUpTime == Some(UpTimes(minUpTimeArg, nC).value)
      ensures r.Ok? ==> eta == Some(solverEta) && bBin.Some?
      ensures r.Ok? && tOrig.None? ==> bBin == Some(solved)
      ensures r.Ok? && tOrig.Some? ==> InGrid(tInit, t) == kept && bBin == Some(Expanded(solved, kept))
      ensures r.Ok? && tOrig.Some? && solved == bRel ==> bBin == bRelOrig
      ensures r.Err? ==> eta == old(eta) && bBin == old(bBin)
    {
      var s := SwitchLimits(maxSwitchesArg);
      if s.Err? {
        return Err(s.error);
      }
      maxSwitches := Some(s.value);
      if |s.value| != nC {
        return Err(ValueError(MaxSwitchesCount));
      }
      var u := UpTimes(minUpTimeArg, nC);
      if u.Err? {
        return Err(u.error);
      }
      minUpTime := Some(u.value);
      if |u.value| != nC {
        return Err(ValueError(MinUpTimeCount));
      }
      var c := SolverCheck(name, available);
      if c.Some? {
        return Err(c.value);
      }
      RetrieveSolution(solverEta, solved);
      return Ok(());
    }
  }

  /** `Combina(t, b_rel, tol)`: no available solver raises `RuntimeError`
      before the input is looked at; then the validation of the older
      base class, rounding, the counts and `dt`. */
  method NewCombina(t: seq<real>, bRel: BA.Matrix, tol: real, available: set<string>) returns (r: Result<Combina, Fault>)
    requires BA.Rectangular(bRel)
    ensures available == {} ==> r == Err(RuntimeError)
    ensures available != {} ==> (r.Err? <==> LF.Validated(t, bRel).Err?)
    ensures available != {} && r.Err? ==> r.error == ValueError(Input(LF.Validated(t, bRel).error.reason))
    ensures r.Ok? ==> fresh(r.value) && r.value.Valid() && r.value.available == available
    ensures r.Ok? ==> r.value.t == t && r.value.bRel == LF.RoundAll(LF.Validated(t, bRel).value.at, tol)
    ensures r.Ok? ==> r.value.tOrig.None? && r.value.bBin.None?
  {
    if available == {} {
      return Err(RuntimeError);
    }
    var v := LF.Validated(t, bRel);
    if v.Err? {
      return Err(ValueError(Input(v.error.reason)));
    }
    var p := new Combina(t, v.value.at, tol, available);
    return Ok(p);
  }

  /** A single pass followed by a full reduction ends where a full
      reduction alone does, so `reduce_problem_size()` and then
      `reduce_problem_size(True)` give the same problem as the second
      call alone. */
  lemma ReduceThenRepeat(g: Grid)
    requires Consistent(g)
    ensures Repeated(Reduce(g)) == Repeated(g)
  {
    LF.RepeatedStep(g);
  }
}
