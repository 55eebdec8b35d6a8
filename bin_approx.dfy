// The problem description of the current Python front end
// (src/pycombina/_binary_approximation.py): input validation of the time
// points and of the relaxed controls, threshold clamping, the derived
// grid quantities, the per-control settings with their defaults and the
// dwell-time tolerance shifts, the masked writes into `b_valid` and
// `b_adjacencies`, and the removal of inactive controls together with
// the re-inflation of a solution.
//
// numpy arrays are modelled by their entries: a vector is `seq<real>`, a
// two-dimensional array a `Matrix` with its two dimensions spelled out.

module BinaryApproximation {
  import opened Common

  datatype Reason =
    | TNotVector | TNotIncreasing | RelaxedDimension | RelaxedRange
    | ControlCount | AtMostOneActive | NotBinary | IntervalBounds
    | ControlIndex | BinaryDimension | EtaNotNonNegative | UnknownNorm

  datatype Fault = ValueError(reason: Reason) | RuntimeError | AttributeError | IndexError

  /** A per-control duration limit; `np.inf` is the default of the two
      maximum up times. */
  datatype Bound = Finite(value: real) | Infinite

  /** A two-dimensional array after `np.atleast_2d`: a one-dimensional
      input is a single row.  The dimensions are kept because an array
      may have a zero dimension. */
  datatype Matrix = Matrix(rows: nat, cols: nat, at: seq<seq<real>>)

  predicate Rectangular(m: Matrix)
  {
    |m.at| == m.rows && forall i :: 0 <= i < m.rows ==> |m.at[i]| == m.cols
  }

  /** `.T` */
  function Transpose(m: Matrix): (r: Matrix)
    requires Rectangular(m)
    ensures Rectangular(r) && r.rows == m.cols && r.cols == m.rows
    ensures forall i, j :: 0 <= i < r.rows && 0 <= j < r.cols ==> r.at[i][j] == m.at[j][i]
  {
    Matrix(m.cols, m.rows,
      seq(m.cols, i requires 0 <= i < m.cols => seq(m.rows, j requires 0 <= j < m.rows => m.at[j][i])))
  }

  lemma TransposeTwice(m: Matrix)
    requires Rectangular(m)
    ensures Transpose(Transpose(m)) == m
  {
    var r := Transpose(Transpose(m));
    forall i | 0 <= i < m.rows ensures r.at[i] == m.at[i] {
    }
  }

  /** Lines 345-353 for `b_rel` and 266-274 for `b_bin`: an array whose
      second dimension is the number of intervals `n` is kept, otherwise
      it is transposed, and it is refused when neither dimension is `n`. */
  function Oriented(m: Matrix, n: int, reason: Reason): (r: Result<Matrix, Fault>)
    requires Rectangular(m)
    ensures r.Err? <==> m.cols != n && m.rows != n
    ensures r.Err? ==> r.error == ValueError(reason)
    ensures r.Ok? ==> Rectangular(r.value) && r.value.cols == n
    ensures r.Ok? && m.cols == n ==> r.value == m
    ensures r.Ok? && m.cols != n ==> r.value.rows == m.cols
    ensures r.Ok? && m.cols != n ==>
      forall i, j :: 0 <= i < r.value.rows && 0 <= j < n ==> r.value.at[i][j] == m.at[j][i]
  {
    if m.cols == n then Ok(m)
    else if m.rows == n then Ok(Transpose(m))
    else Err(ValueError(reason))
  }

  // Time points

  /** `np.all((t[1:] - t[:-1]) > 0)` */
  predicate Increasing(t: seq<real>)
  {
    forall j :: 0 <= j < |t| - 1 ==> t[j] < t[j + 1]
  }

  /** Successive differences give an order on every pair. */
  lemma {:induction false} IncreasingPairs(t: seq<real>, i: nat, j: nat)
    requires Increasing(t) && i < j < |t|
    ensures t[i] < t[j]
    decreases j - i
  {
    if i + 1 < j {
      IncreasingPairs(t, i + 1, j);
    }
  }

  /** `_set_time_points_t` (lines 325-337) on a list of numbers: a single
      point squeezes to a scalar, which is not a vector. */
  function TimePoints(t: seq<real>): (r: Result<seq<real>, Fault>)
    ensures r.Ok? <==> |t| != 1 && Increasing(t)
    ensures |t| == 1 ==> r == Err(ValueError(TNotVector))
    ensures |t| != 1 && !Increasing(t) ==> r == Err(ValueError(TNotIncreasing))
    ensures r.Ok? ==> r.value == t
  {
    if |t| == 1 then Err(ValueError(TNotVector))
    else if !Increasing(t) then Err(ValueError(TNotIncreasing))
    else Ok(t)
  }

  /** `_compute_time_grid_from_time_points`: `t[1:] - t[:-1]`. */
  function Intervals(t: seq<real>): (dt: seq<real>)
    requires |t| >= 1
    ensures |dt| == |t| - 1
    ensures Increasing(t) ==> forall j :: 0 <= j < |dt| ==> dt[j] > 0.0
  {
    seq(|t| - 1, j requires 0 <= j < |t| - 1 => t[j + 1] - t[j])
  }

  /** `min` of a non-empty vector. */
  function MinOf(s: seq<real>): (r: real)
    requires |s| > 0
    ensures forall j :: 0 <= j < |s| ==> r <= s[j]
    ensures exists j :: 0 <= j < |s| && r == s[j]
  {
    if |s| == 1 then s[0] else Min(MinOf(s[..|s| - 1]), s[|s| - 1])
  }

  /** `_compute_dwell_time_tolerance`: `min(dt) * 1e-5`. */
  function DwellTimeTolerance(dt: seq<real>): (tol: real)
    requires |dt| > 0
    ensures forall j :: 0 <= j < |dt| ==> tol <= dt[j] * 0.00001
    ensures (forall j :: 0 <= j < |dt| ==> dt[j] > 0.0) ==> tol > 0.0
  {
    MinOf(dt) * 0.00001
  }

  // Relaxed controls

  /** Lines 360-365: below the threshold becomes 0, then above
      `1 - threshold` becomes 1, both decided on the input value. */
  function Clamp(x: real, thr: real): (y: real)
    ensures x > 1.0 - thr ==> y == 1.0
    ensures x < thr && x <= 1.0 - thr ==> y == 0.0
    ensures thr <= x <= 1.0 - thr ==> y == x
    ensures 0.0 <= x <= 1.0 ==> 0.0 <= y <= 1.0
  {
    if x > 1.0 - thr then 1.0 else if x < thr then 0.0 else x
  }

  predicate IsClamped(x: real, thr: real)
  {
    x < thr || x > 1.0 - thr
  }

  /** The number of clamped entries among the first `n` rows of column `k`. */
  function ClampedInColumn(rows: seq<seq<real>>, k: nat, thr: real, n: nat): (c: nat)
    requires n <= |rows| && forall i :: 0 <= i < |rows| ==> k < |rows[i]|
    ensures c <= n
  {
    if n == 0 then 0
    else ClampedInColumn(rows, k, thr, n - 1) + (if IsClamped(rows[n - 1][k], thr) then 1 else 0)
  }

  /** A column without clamped entries leaves clamping unchanged. */
  lemma {:induction false} UnclampedColumn(rows: seq<seq<real>>, k: nat, thr: real, n: nat)
    requires n <= |rows| && forall i :: 0 <= i < |rows| ==> k < |rows[i]|
    ensures ClampedInColumn(rows, k, thr, n) == 0 <==>
      forall i :: 0 <= i < n ==> Clamp(rows[i][k], thr) == rows[i][k] && !IsClamped(rows[i][k], thr)
  {
    if n > 0 {
      UnclampedColumn(rows, k, thr, n - 1);
    }
  }

  /** `b_rel` after clamping. */
  function ClampAll(rows: seq<seq<real>>, thr: real): (r: seq<seq<real>>)
    ensures |r| == |rows| && forall i :: 0 <= i < |rows| ==> |r[i]| == |rows[i]|
  {
    seq(|rows|, i requires 0 <= i < |rows| =>
      seq(|rows[i]|, k requires 0 <= k < |rows[i]| => Clamp(rows[i][k], thr)))
  }

  /** `_clamped`: clamped entries per interval. */
  function ClampedCounts(rows: seq<seq<real>>, n: nat, thr: real): (c: seq<nat>)
    requires forall i :: 0 <= i < |rows| ==> |rows[i]| == n
    ensures |c| == n && forall k :: 0 <= k < n ==> c[k] <= |rows|
  {
    seq(n, k requires 0 <= k < n => ClampedInColumn(rows, k, thr, |rows|))
  }

  predicate InUnitInterval(rows: seq<seq<real>>)
  {
    forall i, k :: 0 <= i < |rows| && 0 <= k < |rows[i]| ==> 0.0 <= rows[i][k] <= 1.0
  }

  /** The problem a successful constructor stores: validated `t`, the
      clamped `b_rel` (one row per control), the clamp counts, `dt`,
      `n_t`, `n_c` and the dwell-time tolerance. */
  datatype Setup = Setup(t: seq<real>, bRel: seq<seq<real>>, clamped: seq<nat>, dt: seq<real>,
                         nT: nat, nC: nat, tol: real)

  predicate SetupShaped(s: Setup)
  {
    |s.t| == s.nT + 1 && s.nT > 0 && |s.dt| == s.nT && |s.clamped| == s.nT &&
    |s.bRel| == s.nC && (forall i :: 0 <= i < s.nC ==> |s.bRel[i]| == s.nT) &&
    Increasing(s.t) && s.dt == Intervals(s.t) && InUnitInterval(s.bRel)
  }

  /** The validation and derivation steps of `BinApprox.__init__`
      (lines 397-414), in the source's order: `t` first, then the shape of
      `b_rel`, then its values. */
  function Initialize(t: seq<real>, bRel: Matrix, thr: real): (r: Result<Setup, Fault>)
    requires Rectangular(bRel)
    ensures |t| == 1 ==> r == Err(ValueError(TNotVector))
    ensures |t| != 1 && !Increasing(t) ==> r == Err(ValueError(TNotIncreasing))
    ensures TimePoints(t).Ok? && Oriented(bRel, |t| - 1, RelaxedDimension).Err? ==>
      r == Err(ValueError(RelaxedDimension))
    ensures TimePoints(t).Ok? && Oriented(bRel, |t| - 1, RelaxedDimension).Ok? ==>
      (r.Ok? <==> InUnitInterval(Oriented(bRel, |t| - 1, RelaxedDimension).value.at))
    ensures r.Err? && TimePoints(t).Ok? && Oriented(bRel, |t| - 1, RelaxedDimension).Ok? ==>
      r.error == ValueError(RelaxedRange)
    ensures r.Ok? ==> SetupShaped(r.value) && r.value.t == t && r.value.nT == |t| - 1
    ensures r.Ok? ==> var m := Oriented(bRel, |t| - 1, RelaxedDimension).value;
      r.value.nC == m.rows && r.value.bRel == ClampAll(m.at, thr) &&
      r.value.clamped == ClampedCounts(m.at, |t| - 1, thr) && InUnitInterval(r.value.bRel)
    ensures r.Ok? ==> r.value.dt == Intervals(t) && r.value.tol == DwellTimeTolerance(r.value.dt)
    ensures r.Ok? ==> r.value.tol > 0.0 && forall j :: 0 <= j < r.value.nT ==> r.value.dt[j] > 0.0
  {
    if TimePoints(t).Err? then Err(TimePoints(t).error)
    else if Oriented(bRel, |t| - 1, RelaxedDimension).Err? then Err(ValueError(RelaxedDimension))
    else
    var m := Oriented(bRel, |t| - 1, RelaxedDimension).value;
    if !InUnitInterval(m.at) then Err(ValueError(RelaxedRange))
    else
      var dt := Intervals(t);
      ClampedIntoUnit(m.at, thr);
      Ok(Setup(t, ClampAll(m.at, thr), ClampedCounts(m.at, |t| - 1, thr), dt,
               |t| - 1, m.rows, DwellTimeTolerance(dt)))
  }

  lemma ClampedIntoUnit(rows: seq<seq<real>>, thr: real)
    requires InUnitInterval(rows)
    ensures InUnitInterval(ClampAll(rows, thr))
  {
  }

  // Per-control settings

  /** `np.asarray(x, dtype = int)` on a double: truncation toward zero. */
  function TruncateToInt(x: real): (n: int)
    ensures 0.0 <= x ==> n as real <= x < n as real + 1.0
    ensures x < 0.0 ==> n as real - 1.0 < x <= n as real
  {
    if 0.0 <= x then x.Floor else -((-x).Floor)
  }

  function Truncated(v: seq<real>): (r: seq<int>)
    ensures |r| == |v| && forall k :: 0 <= k < |v| ==> r[k] == TruncateToInt(v[k])
  {
    seq(|v|, k requires 0 <= k < |v| => TruncateToInt(v[k]))
  }

  /** A duration vector moved by the dwell-time tolerance. */
  function Shifted(v: seq<real>, d: real): (r: seq<real>)
    ensures |r| == |v| && forall k :: 0 <= k < |v| ==> r[k] - v[k] == d
  {
    seq(|v|, k requires 0 <= k < |v| => v[k] + d)
  }

  /** Shifting back by the same tolerance recovers the user's values. */
  lemma ShiftedBack(v: seq<real>, d: real)
    ensures Shifted(Shifted(v, d), -d) == v
  {
  }

  /** The size check of every per-control setter: one value per control. */
  function PerControl<T>(v: seq<T>, nC: nat): (r: Result<seq<T>, Fault>)
    ensures r.Ok? <==> |v| == nC
    ensures r.Ok? ==> r.value == v
    ensures r.Err? ==> r.error == ValueError(ControlCount)
  {
    if |v| == nC then Ok(v) else Err(ValueError(ControlCount))
  }

  predicate IsBinaryReals(v: seq<real>)
  {
    forall k :: 0 <= k < |v| ==> v[k] == 0.0 || v[k] == 1.0
  }

  /** `set_b_bin_pre`'s checks, in the source's order (lines 656-670):
      sum at most 1, then one value per control, then 0/1 values. */
  function BBinPreCheck(v: seq<real>, nC: nat): (r: Result<seq<real>, Fault>)
    ensures r.Ok? <==> Sum(v) <= 1.0 && |v| == nC && IsBinaryReals(v)
    ensures !(Sum(v) <= 1.0) ==> r == Err(ValueError(AtMostOneActive))
    ensures Sum(v) <= 1.0 && |v| != nC ==> r == Err(ValueError(ControlCount))
    ensures Sum(v) <= 1.0 && |v| == nC && !IsBinaryReals(v) ==> r == Err(ValueError(NotBinary))
    ensures r.Ok? ==> r.value == v
  {
    if !(Sum(v) <= 1.0) then Err(ValueError(AtMostOneActive))
    else if |v| != nC then Err(ValueError(ControlCount))
    else if !IsBinaryReals(v) then Err(ValueError(NotBinary))
    else Ok(v)
  }

  lemma {:induction false} SumRangeNonNegative(s: seq<real>, lo: nat, hi: nat)
    requires lo <= hi <= |s| && forall k :: lo <= k < hi ==> s[k] >= 0.0
    ensures SumRange(s, lo, hi) >= 0.0
    decreases hi - lo
  {
    if lo < hi {
      SumRangeNonNegative(s, lo + 1, hi);
    }
  }

  /** An accepted `b_bin_pre` marks at most one control as active. */
  lemma BBinPreAtMostOne(v: seq<real>, nC: nat, i: nat, j: nat)
    requires BBinPreCheck(v, nC).Ok? && i < j < |v|
    ensures !(v[i] == 1.0 && v[j] == 1.0)
  {
    SumRangeNonNegative(v, 0, i);
    SumRangeNonNegative(v, i + 1, j);
    SumRangeNonNegative(v, j + 1, |v|);
    SumRangeSplit(v, 0, i, |v|);
    SumRangeSplit(v, i + 1, j, |v|);
  }

  /** `set_eta` (lines 284-295): `None` is a value `float()` refuses. */
  function EtaCheck(eta: Option<real>): (r: Result<real, Fault>)
    ensures r.Ok? <==> eta.Some? && eta.value >= 0.0
    ensures r.Ok? ==> r.value == eta.value
    ensures r.Err? ==> r.error == ValueError(EtaNotNonNegative)
  {
    if eta.Some? && eta.value >= 0.0 then Ok(eta.value) else Err(ValueError(EtaNotNonNegative))
  }

  predicate AllRowsBinary(rows: seq<seq<real>>)
  {
    forall i :: 0 <= i < |rows| ==> IsBinaryReals(rows[i])
  }

  /** `set_b_bin`'s checks (lines 264-281): orientation against `|t| - 1`,
      then 0/1 entries. */
  function BBinCheck(m: Matrix, nT: nat): (r: Result<seq<seq<real>>, Fault>)
    requires Rectangular(m)
    ensures r.Ok? <==> (Oriented(m, nT, BinaryDimension).Ok? &&
                        AllRowsBinary(Oriented(m, nT, BinaryDimension).value.at))
    ensures Oriented(m, nT, BinaryDimension).Err? ==> r == Err(ValueError(BinaryDimension))
    ensures r.Err? && Oriented(m, nT, BinaryDimension).Ok? ==> r.error == ValueError(NotBinary)
    ensures r.Ok? ==> r.value == Oriented(m, nT, BinaryDimension).value.at
    ensures r.Ok? ==> forall i :: 0 <= i < |r.value| ==> |r.value[i]| == nT
  {
    var o := Oriented(m, nT, BinaryDimension);
    if o.Err? then Err(o.error)
    else if !AllRowsBinary(o.value.at) then Err(ValueError(NotBinary))
    else Ok(o.value.at)
  }

  /** An `n_c x n_t` matrix of zeros and ones is stored as given. */
  lemma BBinCheckAccepts(m: Matrix, nT: nat)
    requires Rectangular(m) && m.cols == nT && AllRowsBinary(m.at)
    ensures BBinCheck(m, nT) == Ok(m.at)
  {
  }

  /** The three objective norms `set_cia_norm` accepts (lines 795-825). */
  predicate IsCiaNorm(s: string)
  {
    s == "max_norm" || s == "column_sum_norm" || s == "row_sum_norm"
  }

  // Masked writes into `b_valid` and `b_adjacencies`

  predicate IsBinaryInts(v: seq<int>)
  {
    forall k :: 0 <= k < |v| ==> v[k] == 0 || v[k] == 1
  }

  /** The interval test of line 727 for grid point `t[j]`. */
  predicate InWindow(tj: real, lo: real, hi: real)
  {
    tj >= lo && tj < hi
  }

  /** Line 728: the columns whose start point lies in `[lo, hi)` take the
      column `v`; all other columns keep their values. */
  function WriteWindow(b: seq<seq<int>>, t: seq<real>, lo: real, hi: real, v: seq<int>): (r: seq<seq<int>>)
    requires |v| == |b| && forall i :: 0 <= i < |b| ==> |b[i]| < |t|
    ensures |r| == |b| && forall i :: 0 <= i < |b| ==> |r[i]| == |b[i]|
    ensures forall i, j :: 0 <= i < |b| && 0 <= j < |b[i]| ==>
      r[i][j] == if InWindow(t[j], lo, hi) then v[i] else b[i][j]
  {
    seq(|b|, i requires 0 <= i < |b| =>
      seq(|b[i]|, j requires 0 <= j < |b[i]| => if InWindow(t[j], lo, hi) then v[i] else b[i][j]))
  }

  /** Writing the same window twice is writing it once, and a write leaves
      every column outside the window as it was. */
  lemma WriteWindowIdempotent(b: seq<seq<int>>, t: seq<real>, lo: real, hi: real, v: seq<int>)
    requires |v| == |b| && forall i :: 0 <= i < |b| ==> |b[i]| < |t|
    ensures WriteWindow(WriteWindow(b, t, lo, hi, v), t, lo, hi, v) == WriteWindow(b, t, lo, hi, v)
  {
    var once := WriteWindow(b, t, lo, hi, v);
    var twice := WriteWindow(once, t, lo, hi, v);
    forall i | 0 <= i < |b| ensures twice[i] == once[i] {
    }
  }

  /** `set_valid_controls_for_interval`'s checks (lines 701-720). */
  function IntervalCheck(bounds: seq<real>, v: seq<int>, nC: nat): (r: Result<(real, real), Fault>)
    ensures r.Ok? <==> |bounds| == 2 && |v| == nC && IsBinaryInts(v)
    ensures |bounds| != 2 ==> r == Err(ValueError(IntervalBounds))
    ensures |bounds| == 2 && |v| != nC ==> r == Err(ValueError(ControlCount))
    ensures |bounds| == 2 && |v| == nC && !IsBinaryInts(v) ==> r == Err(ValueError(NotBinary))
    ensures r.Ok? ==> r.value == (bounds[0], bounds[1])
  {
    if |bounds| != 2 then Err(ValueError(IntervalBounds))
    else if |v| != nC then Err(ValueError(ControlCount))
    else if !IsBinaryInts(v) then Err(ValueError(NotBinary))
    else Ok((bounds[0], bounds[1]))
  }

  /** The column numpy writes for `b_adjacencies[:, b_i]`: a negative
      index counts from the end, and one below `-n_c` is out of range. */
  function ColumnOf(bi: int, nC: nat): (c: Option<nat>)
    ensures c.Some? <==> -(nC as int) <= bi < nC
    ensures c.Some? ==> c.value < nC && (c.value as int == bi || c.value as int == bi + nC)
  {
    if 0 <= bi < nC then Some(bi as nat)
    else if -(nC as int) <= bi < 0 then Some((bi + nC) as nat)
    else None
  }

  /** `set_valid_control_transitions`' checks and target column (lines
      761-792); `b_i` is only compared with `n_c` from above. */
  function TransitionCheck(bi: int, v: seq<int>, nC: nat): (r: Result<nat, Fault>)
    ensures nC <= 1 ==> r == Err(RuntimeError)
    ensures nC > 1 && bi >= nC ==> r == Err(ValueError(ControlIndex))
    ensures nC > 1 && bi < nC && |v| != nC ==> r == Err(ValueError(ControlCount))
    ensures nC > 1 && bi < nC && |v| == nC && !IsBinaryInts(v) ==> r == Err(ValueError(NotBinary))
    ensures nC > 1 && bi < -(nC as int) && |v| == nC && IsBinaryInts(v) ==> r == Err(IndexError)
    ensures r.Ok? <==> nC > 1 && -(nC as int) <= bi < nC && |v| == nC && IsBinaryInts(v)
    ensures r.Ok? ==> Some(r.value) == ColumnOf(bi, nC)
  {
    if nC <= 1 then Err(RuntimeError)
    else if !(bi < nC) then Err(ValueError(ControlIndex))
    else if |v| != nC then Err(ValueError(ControlCount))
    else if !IsBinaryInts(v) then Err(ValueError(NotBinary))
    else match ColumnOf(bi, nC)
      case None => Err(IndexError)
      case Some(c) => Ok(c)
  }

  /** `b[:, c] = v` */
  function WriteColumn(b: seq<seq<int>>, c: nat, v: seq<int>): (r: seq<seq<int>>)
    requires |v| == |b| && forall i :: 0 <= i < |b| ==> c < |b[i]|
    ensures |r| == |b| && forall i :: 0 <= i < |b| ==> |r[i]| == |b[i]|
  {
    seq(|b|, i requires 0 <= i < |b| => b[i][c := v[i]])
  }

  /** The reading of `b_adjacencies` its property's documentation gives
      (lines 86-105): entry `[to][from]` marks the transition from `from`
      to `to`. */
  predicate Allowed(b: seq<seq<int>>, from: nat, to: nat)
    requires to < |b| && from < |b[to]|
  {
    b[to][from] == 1
  }

  /** After writing column `c`, the transitions from `c` are exactly `v`,
      and every transition from another control is as before.  So line 792
      sets the transitions from control `b_i`, as the setter's
      documentation says. */
  lemma WriteColumnTransitions(b: seq<seq<int>>, c: nat, v: seq<int>, from: nat, to: nat)
    requires |v| == |b| && forall i :: 0 <= i < |b| ==> c < |b[i]|
    requires to < |b| && from < |b[to]|
    ensures from == c ==> (Allowed(WriteColumn(b, c, v), from, to) <==> v[to] == 1)
    ensures from != c ==> (Allowed(WriteColumn(b, c, v), from, to) <==> Allowed(b, from, to))
  {
  }

  /** The reading of the MILP formulation (pycombina/_combina_milp.py:299,
      not part of this model): entry `[from][to]` marks the transition from
      `from` to `to`. */
  predicate AllowedByRow(b: seq<seq<int>>, from: nat, to: nat)
    requires from < |b| && to < |b[from]|
  {
    b[from][to] == 1
  }

  /** Under that reading, writing column `c` sets the transitions into `c`
      and leaves every transition into another control as before. */
  lemma WriteColumnIntoTarget(b: seq<seq<int>>, c: nat, v: seq<int>, from: nat, to: nat)
    requires |v| == |b| && forall i :: 0 <= i < |b| ==> c < |b[i]|
    requires from < |b| && to < |b[from]|
    ensures to == c ==> (AllowedByRow(WriteColumn(b, c, v), from, to) <==> v[from] == 1)
    ensures to != c ==> (AllowedByRow(WriteColumn(b, c, v), from, to) <==> AllowedByRow(b, from, to))
  {
  }

  /** The two readings part on the setter's own usage example: after
      `set_valid_control_transitions(1, [0, 1, 1])` on three controls,
      meant to allow the transitions from control 1 only to controls 1 and
      2, the documented reading forbids 1 -> 0 and keeps 0 -> 1, while the
      MILP reading keeps 1 -> 0 and forbids 0 -> 1. */
  lemma ReadingsDisagree()
    ensures var b := WriteColumn(Repeat(Repeat(1, 3), 3), 1, [0, 1, 1]);
      !Allowed(b, 1, 0) && Allowed(b, 0, 1) &&
      AllowedByRow(b, 1, 0) && !AllowedByRow(b, 0, 1)
  {
    var b := WriteColumn(Repeat(Repeat(1, 3), 3), 1, [0, 1, 1]);
    WriteColumnTransitions(Repeat(Repeat(1, 3), 3), 1, [0, 1, 1], 1, 0);
    WriteColumnTransitions(Repeat(Repeat(1, 3), 3), 1, [0, 1, 1], 0, 1);
    WriteColumnIntoTarget(Repeat(Repeat(1, 3), 3), 1, [0, 1, 1], 1, 0);
    WriteColumnIntoTarget(Repeat(Repeat(1, 3), 3), 1, [0, 1, 1], 0, 1);
  }

  // The problem object

  /** The per-control attributes a user may set; `None` until set, when
      the property returns the default. */
  datatype Settings = Settings(
    nMaxSwitches: Option<seq<int>>,
    minUpTimes: Option<seq<real>>,
    minDownTimes: Option<seq<real>>,
    maxUpTimes: Option<seq<real>>,
    totalMaxUpTimes: Option<seq<real>>,
    bBinPre: Option<seq<real>>,
    ciaNorm: Option<string>)

  predicate OptLength<T>(o: Option<seq<T>>, n: nat)
  {
    o.Some? ==> |o.value| == n
  }

  function Finites(v: seq<real>): (r: seq<Bound>)
    ensures |r| == |v| && forall k :: 0 <= k < |v| ==> r[k] == Finite(v[k])
  {
    seq(|v|, k requires 0 <= k < |v| => Finite(v[k]))
  }

  class BinApprox {
    const t: seq<real>
    const bRel: seq<seq<real>>
    const clamped: seq<nat>
    const dt: seq<real>
    const nT: nat
    const nC: nat
    const dwellTimeTolerance: real
    const binaryThreshold: real
    const reduceProblemSizeBeforeSolve: bool
    var bValid: seq<seq<int>>
    var bAdjacencies: seq<seq<int>>
    var settings: Settings
    var bBin: Option<seq<seq<real>>>
    var eta: Option<real>

    ghost predicate Valid()
      reads this
    {
      SetupShaped(Setup(t, bRel, clamped, dt, nT, nC, dwellTimeTolerance)) &&
      |bValid| == nC && (forall i :: 0 <= i < nC ==> |bValid[i]| == nT) &&
      |bAdjacencies| == nC && (forall i :: 0 <= i < nC ==> |bAdjacencies[i]| == nC) &&
      OptLength(settings.nMaxSwitches, nC) && OptLength(settings.minUpTimes, nC) &&
      OptLength(settings.minDownTimes, nC) && OptLength(settings.maxUpTimes, nC) &&
      OptLength(settings.totalMaxUpTimes, nC) && OptLength(settings.bBinPre, nC) &&
      (bBin.Some? ==> forall i :: 0 <= i < |bBin.value| ==> |bBin.value[i]| == nT)
    }

    /** `BinApprox.__init__` after its checks have passed (lines 397-414):
        all controls valid in all intervals, all transitions allowed,
        nothing set yet. */
    constructor (s: Setup, threshold: real, reduce: bool)
      requires SetupShaped(s)
      ensures Valid()
      ensures t == s.t && bRel == s.bRel && clamped == s.clamped && dt == s.dt
      ensures nT == s.nT && nC == s.nC && dwellTimeTolerance == s.tol
      ensures binaryThreshold == threshold && reduceProblemSizeBeforeSolve == reduce
      ensures bValid == Repeat(Repeat(1, s.nT), s.nC) && bAdjacencies == Repeat(Repeat(1, s.nC), s.nC)
      ensures settings == Settings(None, None, None, None, None, None, None)
      ensures bBin == None && eta == None
    {
      t := s.t;
      bRel := s.bRel;
      clamped := s.clamped;
      dt := s.dt;
      nT := s.nT;
      nC := s.nC;
      dwellTimeTolerance := s.tol;
      binaryThreshold := threshold;
      reduceProblemSizeBeforeSolve := reduce;
      bValid := Repeat(Repeat(1, s.nT), s.nC);
      bAdjacencies := Repeat(Repeat(1, s.nC), s.nC);
      settings := Settings(None, None, None, None, None, None, None);
      bBin := None;
      eta := None;
    }

    /** `n_max_switches`: `n_t` switches per control by default. */
    function NMaxSwitches(): (r: seq<int>)
      reads this
      requires Valid()
      ensures |r| == nC
      ensures settings.nMaxSwitches.None? ==> forall k :: 0 <= k < nC ==> r[k] == nT
    {
      if settings.nMaxSwitches.Some? then settings.nMaxSwitches.value else Repeat(nT as int, nC)
    }

    /** `min_up_times`: zero by default. */
    function MinUpTimes(): (r: seq<real>)
      reads this
      requires Valid()
      ensures |r| == nC
      ensures settings.minUpTimes.None? ==> forall k :: 0 <= k < nC ==> r[k] == 0.0
    {
      if settings.minUpTimes.Some? then settings.minUpTimes.value else Repeat(0.0, nC)
    }

    /** `min_down_times`: zero by default. */
    function MinDownTimes(): (r: seq<real>)
      reads this
      requires Valid()
      ensures |r| == nC
      ensures settings.minDownTimes.None? ==> forall k :: 0 <= k < nC ==> r[k] == 0.0
    {
      if settings.minDownTimes.Some? then settings.minDownTimes.value else Repeat(0.0, nC)
    }

    /** `max_up_times`: unbounded by default. */
    function MaxUpTimes(): (r: seq<Bound>)
      reads this
      requires Valid()
      ensures |r| == nC
      ensures settings.maxUpTimes.None? ==> forall k :: 0 <= k < nC ==> r[k] == Infinite
    {
      if settings.maxUpTimes.Some? then Finites(settings.maxUpTimes.value) else Repeat(Infinite, nC)
    }

    /** `total_max_up_times`: unbounded by default. */
    function TotalMaxUpTimes(): (r: seq<Bound>)
      reads this
      requires Valid()
      ensures |r| == nC
      ensures settings.totalMaxUpTimes.None? ==> forall k :: 0 <= k < nC ==> r[k] == Infinite
    {
      if settings.totalMaxUpTimes.Some? then Finites(settings.totalMaxUpTimes.value) else Repeat(Infinite, nC)
    }

    /** `b_bin_pre`: no control active before the horizon by default. */
    function BBinPre(): (r: seq<real>)
      reads this
      requires Valid()
      ensures |r| == nC
      ensures settings.bBinPre.None? ==> forall k :: 0 <= k < nC ==> r[k] == 0.0
    {
      if settings.bBinPre.Some? then settings.bBinPre.value else Repeat(0.0, nC)
    }

    /** `cia_norm`: the maximum norm by default. */
    function CiaNorm(): (r: string)
      reads this
      ensures settings.ciaNorm.None? ==> r == "max_norm"
      ensures settings.ciaNorm.Some? ==> r == settings.ciaNorm.value
    {
      if settings.ciaNorm.Some? then settings.ciaNorm.value else "max_norm"
    }

    /** `set_n_max_switches` (lines 417-458): entries truncated to integers. */
    method SetNMaxSwitches(v: seq<real>) returns (r: Result<(), Fault>)
      requires Valid()
      modifies this`settings
      ensures Valid()
      ensures r.Err? <==> |v| != nC
      ensures r.Err? ==> r.error == ValueError(ControlCount) && settings == old(settings)
      ensures r.Ok? ==> settings == old(settings).(nMaxSwitches := Some(Truncated(v)))
    {
      var c := PerControl(v, nC);
      if c.Err? {
        return Err(c.error);
      }
      settings := settings.(nMaxSwitches := Some(Truncated(v)));
      return Ok(());
    }

    /** `set_min_up_times` (lines 461-500): stored minus the tolerance. */
    method SetMinUpTimes(v: seq<real>) returns (r: Result<(), Fault>)
      requires Valid()
      modifies this`settings
      ensures Valid()
      ensures r.Err? <==> |v| != nC
      ensures r.Err? ==> r.error == ValueError(ControlCount) && settings == old(settings)
      ensures r.Ok? ==> settings == old(settings).(minUpTimes := Some(Shifted(v, -dwellTimeTolerance)))
    {
      var c := PerControl(v, nC);
      if c.Err? {
        return Err(c.error);
      }
      settings := settings.(minUpTimes := Some(Shifted(v, -dwellTimeTolerance)));
      return Ok(());
    }

    /** `set_min_down_times` (lines 503-542): stored minus the tolerance. */
    method SetMinDownTimes(v: seq<real>) returns (r: Result<(), Fault>)
      requires Valid()
      modifies this`settings
      ensures Valid()
      ensures r.Err? <==> |v| != nC
      ensures r.Err? ==> r.error == ValueError(ControlCount) && settings == old(settings)
      ensures r.Ok? ==> settings == old(settings).(minDownTimes := Some(Shifted(v, -dwellTimeTolerance)))
    {
      var c := PerControl(v, nC);
      if c.Err? {
        return Err(c.error);
      }
      settings := settings.(minDownTimes := Some(Shifted(v, -dwellTimeTolerance)));
      return Ok(());
    }

    /** `set_max_up_times` (lines 545-584): stored plus the tolerance. */
    method SetMaxUpTimes(v: seq<real>) returns (r: Result<(), Fault>)
      requires Valid()
      modifies this`settings
      ensures Valid()
      ensures r.Err? <==> |v| != nC
      ensures r.Err? ==> r.error == ValueError(ControlCount) && settings == old(settings)
      ensures r.Ok? ==> settings == old(settings).(maxUpTimes := Some(Shifted(v, dwellTimeTolerance)))
    {
      var c := PerControl(v, nC);
      if c.Err? {
        return Err(c.error);
      }
      settings := settings.(maxUpTimes := Some(Shifted(v, dwellTimeTolerance)));
      return Ok(());
    }

    /** `set_total_max_up_times` (lines 587-626): stored plus the tolerance. */
    method SetTotalMaxUpTimes(v: seq<real>) returns (r: Result<(), Fault>)
      requires Valid()
      modifies this`settings
      ensures Valid()
      ensures r.Err? <==> |v| != nC
      ensures r.Err? ==> r.error == ValueError(ControlCount) && settings == old(settings)
      ensures r.Ok? ==> settings == old(settings).(totalMaxUpTimes := Some(Shifted(v, dwellTimeTolerance)))
    {
      var c := PerControl(v, nC);
      if c.Err? {
        return Err(c.error);
      }
      settings := settings.(totalMaxUpTimes := Some(Shifted(v, dwellTimeTolerance)));
      return Ok(());
    }

    /** `set_b_bin_pre` (lines 629-672). */
    method SetBBinPre(v: seq<real>) returns (r: Result<(), Fault>)
      requires Valid()
      modifies this`settings
      ensures Valid()
      ensures r.Err? <==> BBinPreCheck(v, nC).Err?
      ensures r.Err? ==> r.error == BBinPreCheck(v, nC).error && settings == old(settings)
      ensures r.Ok? ==> settings == old(settings).(bBinPre := Some(v))
    {
      var c := BBinPreCheck(v, nC);
      if c.Err? {
        return Err(c.error);
      }
      settings := settings.(bBinPre := Some(v));
      return Ok(());
    }

    /** `set_cia_norm` (lines 795-825). */
    method SetCiaNorm(norm: string) returns (r: Result<(), Fault>)
      requires Valid()
      modifies this`settings
      ensures Valid()
      ensures r.Err? <==> !IsCiaNorm(norm)
      ensures r.Err? ==> r.error == ValueError(UnknownNorm) && settings == old(settings)
      ensures r.Ok? ==> settings == old(settings).(ciaNorm := Some(norm))
    {
      if !IsCiaNorm(norm) {
        return Err(ValueError(UnknownNorm));
      }
      settings := settings.(ciaNorm := Some(norm));
      return Ok(());
    }

    /** `set_b_bin` (lines 264-281). */
    method SetBBin(m: Matrix) returns (r: Result<(), Fault>)
      requires Valid() && Rectangular(m)
      modifies this`bBin
      ensures Valid()
      ensures r.Err? <==> BBinCheck(m, nT).Err?
      ensures r.Err? ==> r.error == BBinCheck(m, nT).error && bBin == old(bBin)
      ensures r.Ok? ==> bBin == Some(BBinCheck(m, nT).value)
    {
      var c := BBinCheck(m, nT);
      if c.Err? {
        return Err(c.error);
      }
      bBin := Some(c.value);
      return Ok(());
    }

    /** `set_eta` (lines 284-295). */
    method SetEta(x: Option<real>) returns (r: Result<(), Fault>)
      requires Valid()
      modifies this`eta
      ensures Valid()
      ensures r.Err? <==> EtaCheck(x).Err?
      ensures r.Err? ==> r.error == ValueError(EtaNotNonNegative) && eta == old(eta)
      ensures r.Ok? ==> eta == x
    {
      var c := EtaCheck(x);
      if c.Err? {
        return Err(c.error);
      }
      eta := Some(c.value);
      return Ok(());
    }

    /** `set_valid_controls_for_interval` (lines 675-728). */
    method SetValidControlsForInterval(bounds: seq<real>, v: seq<int>) returns (r: Result<(), Fault>)
      requires Valid()
      modifies this`bValid
      ensures Valid()
      ensures r.Err? <==> IntervalCheck(bounds, v, nC).Err?
      ensures r.Err? ==> r.error == IntervalCheck(bounds, v, nC).error && bValid == old(bValid)
      ensures r.Ok? ==> bValid == WriteWindow(old(bValid), t, bounds[0], bounds[1], v)
    {
      var c := IntervalCheck(bounds, v, nC);
      if c.Err? {
        return Err(c.error);
      }
      bValid := WriteWindow(bValid, t, bounds[0], bounds[1], v);
      return Ok(());
    }

    /** `set_valid_control_transitions` (lines 731-792). */
    method SetValidControlTransitions(bi: int, v: seq<int>) returns (r: Result<(), Fault>)
      requires Valid()
      modifies this`bAdjacencies
      ensures Valid()
      ensures r.Err? <==> TransitionCheck(bi, v, nC).Err?
      ensures r.Err? ==> r.error == TransitionCheck(bi, v, nC).error && bAdjacencies == old(bAdjacencies)
      ensures r.Ok? ==> bAdjacencies == WriteColumn(old(bAdjacencies), TransitionCheck(bi, v, nC).value, v)
    {
      var c := TransitionCheck(bi, v, nC);
      if c.Err? {
        return Err(c.error);
      }
      bAdjacencies := WriteColumn(bAdjacencies, c.value, v);
      return Ok(());
    }
  }

  /** `BinApprox(t, b_rel, binary_threshold, reduce_problem_size_before_solve)`:
      the checks of `Initialize`, then a new problem object. */
  method NewBinApprox(t: seq<real>, bRel: Matrix, threshold: real, reduce: bool)
      returns (r: Result<BinApprox, Fault>)
    requires Rectangular(bRel)
    ensures r.Err? <==> Initialize(t, bRel, threshold).Err?
    ensures r.Err? ==> r.error == Initialize(t, bRel, threshold).error
    ensures r.Ok? ==> fresh(r.value) && r.value.Valid()
    ensures r.Ok? ==> var s := Initialize(t, bRel, threshold).value;
      r.value.t == s.t && r.value.bRel == s.bRel && r.value.dt == s.dt &&
      r.value.nT == s.nT && r.value.nC == s.nC && r.value.dwellTimeTolerance == s.tol &&
      r.value.clamped == s.clamped
  {
    var s := Initialize(t, bRel, threshold);
    if s.Err? {
      return Err(s.error);
    }
    var b := new BinApprox(s.value, threshold, reduce);
    return Ok(b);
  }

  // Inactive-control removal and re-inflation

  /** `np.all(b_rel_k == 0)` */
  predicate AllZero(row: seq<real>)
  {
    forall k :: 0 <= k < |row| ==> row[k] == 0.0
  }

  predicate StrictlyIncreasing(s: seq<nat>)
  {
    forall i, j :: 0 <= i < j < |s| ==> s[i] < s[j]
  }

  /** The indices below `n` of the rows whose all-zero test is `zero`, in
      increasing order. */
  function Rows(b: seq<seq<real>>, n: nat, zero: bool): (r: seq<nat>)
    requires n <= |b|
    ensures forall k :: 0 <= k < |r| ==> r[k] < n
  {
    if n == 0 then []
    else if AllZero(b[n - 1]) == zero then Rows(b, n - 1, zero) + [n - 1]
    else Rows(b, n - 1, zero)
  }

  /** The listed indices are in increasing order. */
  lemma {:induction false} RowsIncreasing(b: seq<seq<real>>, n: nat, zero: bool)
    requires n <= |b|
    ensures StrictlyIncreasing(Rows(b, n, zero))
  {
    if n > 0 {
      RowsIncreasing(b, n - 1, zero);
    }
  }

  /** A row index is listed exactly when its all-zero test is `zero`. */
  lemma {:induction false} RowsMembership(b: seq<seq<real>>, n: nat, zero: bool, k: nat)
    requires k < n <= |b|
    ensures k in Rows(b, n, zero) <==> AllZero(b[k]) == zero
  {
    if k < n - 1 {
      RowsMembership(b, n - 1, zero, k);
    }
  }

  /** Active and inactive indices split the rows between them. */
  lemma {:induction false} RowsPartition(b: seq<seq<real>>, n: nat)
    requires n <= |b|
    ensures |Rows(b, n, false)| + |Rows(b, n, true)| == n
    ensures forall k :: 0 <= k < n ==> (k in Rows(b, n, false) <==> k !in Rows(b, n, true))
  {
    if n > 0 {
      RowsPartition(b, n - 1);
    }
    forall k | 0 <= k < n ensures k in Rows(b, n, false) <==> k !in Rows(b, n, true) {
      RowsMembership(b, n, false, k);
      RowsMembership(b, n, true, k);
    }
  }

  /** `_determine_active_controls` (lines 850-866): the rows that are not
      all zero, and those that are, each in increasing order. */
  method DetermineActiveControls(bRel: seq<seq<real>>) returns (active: seq<nat>, inactive: seq<nat>)
    ensures active == Rows(bRel, |bRel|, false)
    ensures inactive == Rows(bRel, |bRel|, true)
  {
    active := [];
    inactive := [];
    var k := 0;
    while k < |bRel|
      invariant k <= |bRel|
      invariant active == Rows(bRel, k, false) && inactive == Rows(bRel, k, true)
    {
      if !AllZero(bRel[k]) {
        active := active + [k];
      } else {
        inactive := inactive + [k];
      }
      k := k + 1;
    }
  }

  /** `0, 1, ..., n - 1`, as `range(n)`. */
  function Range(n: nat): (r: seq<nat>)
    ensures |r| == n && forall k :: 0 <= k < n ==> r[k] == k
  {
    seq(n, k requires 0 <= k < n => k)
  }

  /** `v[idx]` for an integer index array. */
  function Select<T>(v: seq<T>, idx: seq<nat>): (r: seq<T>)
    requires forall k :: 0 <= k < |idx| ==> idx[k] < |v|
    ensures |r| == |idx| && forall k :: 0 <= k < |idx| ==> r[k] == v[idx[k]]
  {
    seq(|idx|, k requires 0 <= k < |idx| => v[idx[k]])
  }

  lemma SelectRange<T>(v: seq<T>)
    ensures Select(v, Range(|v|)) == v
  {
  }

  /** `m[np.ix_(rows, cols)]` */
  function Restrict<T>(m: seq<seq<T>>, rows: seq<nat>, cols: seq<nat>): (r: seq<seq<T>>)
    requires forall k :: 0 <= k < |rows| ==> rows[k] < |m|
    requires forall k :: 0 <= k < |rows| ==> forall l :: 0 <= l < |cols| ==> cols[l] < |m[rows[k]]|
    ensures |r| == |rows| && forall k :: 0 <= k < |rows| ==> |r[k]| == |cols|
    ensures forall k, l :: 0 <= k < |rows| && 0 <= l < |cols| ==> r[k][l] == m[rows[k]][cols[l]]
  {
    seq(|rows|, k requires 0 <= k < |rows| => Select(m[rows[k]], cols))
  }

  /** Where `x` sits in `s`. */
  function Position(s: seq<nat>, x: nat): (r: nat)
    requires x in s
    ensures r < |s| && s[r] == x
  {
    if s[0] == x then 0 else 1 + Position(s[1..], x)
  }

  lemma PositionOf(s: seq<nat>, k: nat)
    requires StrictlyIncreasing(s) && k < |s|
    ensures Position(s, s[k]) == k
  {
    var p := Position(s, s[k]);
    assert s[p] == s[k];
  }

  /** `_add_inactive_controls` (lines 917-925): a zero `nR x nCol` matrix
      with the reduced `b` written at rows `rows` and columns `cols`. */
  function Inflated(b: seq<seq<real>>, rows: seq<nat>, cols: seq<nat>, nR: nat, nCol: nat): (r: seq<seq<real>>)
    requires |b| == |rows| && forall k :: 0 <= k < |b| ==> |b[k]| == |cols|
    ensures |r| == nR && forall j :: 0 <= j < nR ==> |r[j]| == nCol
  {
    seq(nR, j requires 0 <= j < nR =>
      seq(nCol, c requires 0 <= c < nCol =>
        if j in rows && c in cols then b[Position(rows, j)][Position(cols, c)] else 0.0))
  }

  /** Entries outside the written rows and columns stay zero. */
  lemma InflatedOutside(b: seq<seq<real>>, rows: seq<nat>, cols: seq<nat>, nR: nat, nCol: nat, j: nat, c: nat)
    requires |b| == |rows| && forall k :: 0 <= k < |b| ==> |b[k]| == |cols|
    requires j < nR && c < nCol && (j !in rows || c !in cols)
    ensures Inflated(b, rows, cols, nR, nCol)[j][c] == 0.0
  {
  }

  /** Restricting an inflated solution gives back the reduced solution. */
  lemma RestrictInflated(b: seq<seq<real>>, rows: seq<nat>, cols: seq<nat>, nR: nat, nCol: nat)
    requires |b| == |rows| && forall k :: 0 <= k < |b| ==> |b[k]| == |cols|
    requires StrictlyIncreasing(rows) && StrictlyIncreasing(cols)
    requires (forall k :: 0 <= k < |rows| ==> rows[k] < nR) && (forall l :: 0 <= l < |cols| ==> cols[l] < nCol)
    ensures Restrict(Inflated(b, rows, cols, nR, nCol), rows, cols) == b
  {
    var r := Restrict(Inflated(b, rows, cols, nR, nCol), rows, cols);
    forall k | 0 <= k < |rows| ensures r[k] == b[k] {
      forall l | 0 <= l < |cols| ensures r[k][l] == b[k][l] {
        PositionOf(rows, k);
        PositionOf(cols, l);
      }
    }
  }

  /** A full matrix that is zero outside the kept rows and columns is the
      inflation of its restriction. */
  lemma InflatedRestrict(m: seq<seq<real>>, rows: seq<nat>, cols: seq<nat>, nR: nat, nCol: nat)
    requires |m| == nR && forall j :: 0 <= j < nR ==> |m[j]| == nCol
    requires (forall k :: 0 <= k < |rows| ==> rows[k] < nR) && (forall l :: 0 <= l < |cols| ==> cols[l] < nCol)
    requires forall j, c :: 0 <= j < nR && 0 <= c < nCol && (j !in rows || c !in cols) ==> m[j][c] == 0.0
    ensures Inflated(Restrict(m, rows, cols), rows, cols, nR, nCol) == m
  {
    var r := Inflated(Restrict(m, rows, cols), rows, cols, nR, nCol);
    forall j | 0 <= j < nR ensures r[j] == m[j] {
      forall c | 0 <= c < nCol ensures r[j][c] == m[j][c] {
        if j in rows && c in cols {
          var k := Position(rows, j);
          var l := Position(cols, c);
          assert r[j][c] == Restrict(m, rows, cols)[k][l] == m[rows[k]][cols[l]];
        }
      }
    }
  }

  /** `BinApproxPreprocessed`: the problem restricted to its active
      controls. */
  class Preprocessed {
    const t: seq<real>
    const bRel: seq<seq<real>>
    const bValid: seq<seq<int>>
    const bAdjacencies: seq<seq<int>>
    const nMaxSwitches: seq<int>
    const minUpTimes: seq<real>
    const minDownTimes: seq<real>
    const maxUpTimes: seq<Bound>
    const totalMaxUpTimes: seq<Bound>
    const bBinPre: seq<real>
    const ciaNorm: string
    const bActive: seq<nat>
    const bInactive: seq<nat>
    const tActive: seq<nat>
    const tInactive: seq<nat>
    const nT: nat
    const nC: nat
    const dt: seq<real>
    var bBin: Option<seq<seq<real>>>
    var eta: Option<real>

    /** Lines 887-914 after `_determine_active_controls` found at least
        one active row: every per-control array restricted to the active
        rows, every interval kept. */
    constructor (b: BinApprox, active: seq<nat>, inactive: seq<nat>)
      requires b.Valid() && active == Rows(b.bRel, b.nC, false) && inactive == Rows(b.bRel, b.nC, true)
      requires |active| > 0
      ensures bActive == active && bInactive == inactive && tActive == Range(b.nT) && tInactive == []
      ensures t == b.t && nT == b.nT && dt == b.dt && nC == |active|
      ensures bRel == Restrict(b.bRel, active, Range(b.nT))
      ensures bValid == Restrict(b.bValid, active, Range(b.nT))
      ensures bAdjacencies == Restrict(b.bAdjacencies, active, active)
      ensures nMaxSwitches == Select(b.NMaxSwitches(), active)
      ensures minUpTimes == Select(b.MinUpTimes(), active)
      ensures minDownTimes == Select(b.MinDownTimes(), active)
      ensures maxUpTimes == Select(b.MaxUpTimes(), active)
      ensures totalMaxUpTimes == Select(b.TotalMaxUpTimes(), active)
      ensures bBinPre == Select(b.BBinPre(), active)
      ensures ciaNorm == b.CiaNorm()
      ensures bBin == None && eta == None
    {
      var tA := Range(b.nT);
      bActive := active;
      bInactive := inactive;
      tActive := tA;
      tInactive := [];
      var t' := Select(b.t, tA) + [b.t[b.nT]];
      assert t' == b.t;
      t := t';
      bRel := Restrict(b.bRel, active, tA);
      bValid := Restrict(b.bValid, active, tA);
      bAdjacencies := Restrict(b.bAdjacencies, active, active);
      nMaxSwitches := Select(b.NMaxSwitches(), active);
      minUpTimes := Select(b.MinUpTimes(), active);
      minDownTimes := Select(b.MinDownTimes(), active);
      maxUpTimes := Select(b.MaxUpTimes(), active);
      totalMaxUpTimes := Select(b.TotalMaxUpTimes(), active);
      bBinPre := Select(b.BBinPre(), active);
      ciaNorm := b.CiaNorm();
      nT := |t'| - 1;
      nC := |active|;
      dt := Intervals(t');
      bBin := None;
      eta := None;
    }

    /** `inflate_solution` (lines 935-938): the solution of the reduced
        problem written back into a zero matrix of the full size.  Without
        a solution, reading `_b_bin` raises `AttributeError`. */
    method InflateSolution() returns (r: Result<(), Fault>)
      requires bBin.Some? ==> |bBin.value| == nC && forall k :: 0 <= k < nC ==> |bBin.value[k]| == nT
      requires nC == |bActive| && nT == |tActive|
      modifies this`bBin
      ensures r.Err? <==> old(bBin).None?
      ensures r.Err? ==> r.error == AttributeError && bBin == old(bBin)
      ensures r.Ok? ==> bBin == Some(Inflated(old(bBin).value, bActive, tActive,
                                             |bActive| + |bInactive|, |tActive| + |tInactive|))
    {
      if bBin.None? {
        return Err(AttributeError);
      }
      bBin := Some(Inflated(bBin.value, bActive, tActive, |bActive| + |bInactive|, |tActive| + |tInactive|));
      return Ok(());
    }
  }

  /** `BinApproxPreprocessed(binapprox)`.  With no active control the empty
      index list `np.asarray([])` is a float array, and `np.ix_` indexing
      with it raises `IndexError` (line 891). */
  method Preprocess(b: BinApprox) returns (r: Result<Preprocessed, Fault>)
    requires b.Valid()
    ensures r.Err? <==> forall j :: 0 <= j < b.nC ==> AllZero(b.bRel[j])
    ensures r.Err? ==> r.error == IndexError
    ensures r.Ok? ==> fresh(r.value) && r.value.bBin == None && r.value.eta == None
    ensures r.Ok? ==> r.value.bActive == Rows(b.bRel, b.nC, false) && r.value.bInactive == Rows(b.bRel, b.nC, true)
    ensures r.Ok? ==> r.value.t == b.t && r.value.nT == b.nT && r.value.dt == b.dt
    ensures r.Ok? ==> r.value.nC == |r.value.bActive| > 0 && r.value.tActive == Range(b.nT) && r.value.tInactive == []
    ensures r.Ok? ==> r.value.bRel == Restrict(b.bRel, r.value.bActive, Range(b.nT))
  {
    var active, inactive := DetermineActiveControls(b.bRel);
    if |active| == 0 {
      forall j | 0 <= j < b.nC ensures AllZero(b.bRel[j]) {
        RowsMembership(b.bRel, b.nC, false, j);
      }
      return Err(IndexError);
    }
    RowsMembership(b.bRel, b.nC, false, active[0]);
    var p := new Preprocessed(b, active, inactive);
    return Ok(p);
  }
}
