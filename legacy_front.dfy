// The base class of the first Python generation
// (pycombina/_binary_approximation.py, `BinaryApproximationBaseClass`):
// input validation, rounding to the tolerance, locking of an initial
// binary sequence, removal of inactive controls, reduction of the time
// grid, and the retrieval that undoes all three on a solution.
//
// Attributes that the source creates on demand (`hasattr`) are `Option`
// fields.  numpy arrays are sequences, with the mask and forward-fill
// operations of module GridReduction.

module LegacyFrontEnd {
  import opened Common
  import BA = BinaryApproximation
  import opened GridReduction

  datatype Reason =
    | TNotVector | TNotIncreasing | RelaxedDimension | RelaxedRange
    | LockCount | LockNotBinary | NegativeDimension | ShapeMismatch

  datatype Fault =
    | ValueError(reason: Reason) | NotImplementedError | AttributeError | IndexError | ZeroDivisionError

  // Validation and rounding (lines 151-208, repeated in pycombina/_combina.py:190-247)

  /** `_validate_input_data`: first the dimensions (`t` a vector, then one
      dimension of `b_rel` equal to `|t| - 1`, transposing when needed),
      then the values (`t` strictly increasing, then `b_rel` in [0, 1]).
      A single time point squeezes to a scalar. */
  function Validated(t: seq<real>, bRel: BA.Matrix): (r: Result<BA.Matrix, Fault>)
    requires BA.Rectangular(bRel)
    ensures |t| == 1 ==> r == Err(ValueError(TNotVector))
    ensures |t| != 1 && BA.Oriented(bRel, |t| - 1, BA.RelaxedDimension).Err? ==>
      r == Err(ValueError(RelaxedDimension))
    ensures |t| != 1 && BA.Oriented(bRel, |t| - 1, BA.RelaxedDimension).Ok? && !BA.Increasing(t) ==>
      r == Err(ValueError(TNotIncreasing))
    ensures r.Ok? <==> (|t| != 1 && BA.Oriented(bRel, |t| - 1, BA.RelaxedDimension).Ok? && BA.Increasing(t) &&
      BA.InUnitInterval(BA.Oriented(bRel, |t| - 1, BA.RelaxedDimension).value.at))
    ensures r.Ok? ==> |t| >= 2 && r.value == BA.Oriented(bRel, |t| - 1, BA.RelaxedDimension).value
    ensures r.Ok? ==> BA.Rectangular(r.value) && r.value.cols == |t| - 1
  {
    if |t| == 1 then Err(ValueError(TNotVector))
    else
      var o := BA.Oriented(bRel, |t| - 1, BA.RelaxedDimension);
      if o.Err? then Err(ValueError(RelaxedDimension))
      else if !BA.Increasing(t) then Err(ValueError(TNotIncreasing))
      else if !BA.InUnitInterval(o.value.at) then Err(ValueError(RelaxedRange))
      else Ok(o.value)
  }

  /** Both generations accept exactly the same problems; only the order in
      which they report a problem with several defects differs. */
  lemma SameAcceptance(t: seq<real>, bRel: BA.Matrix, thr: real)
    requires BA.Rectangular(bRel)
    ensures Validated(t, bRel).Ok? <==> BA.Initialize(t, bRel, thr).Ok?
  {
  }

  /** Lines 205-208: entries below `tol` are set to 0, then entries above
      `1 - tol` are set to 1; the second test sees the result of the first. */
  function RoundEntry(x: real, tol: real): (y: real)
    ensures y == x || y == 0.0 || y == 1.0
    ensures tol <= x <= 1.0 - tol ==> y == x
  {
    var z := if x < tol then 0.0 else x;
    if z > 1.0 - tol then 1.0 else z
  }

  /** Rounding twice is rounding once. */
  lemma RoundIdempotent(x: real, tol: real)
    ensures RoundEntry(RoundEntry(x, tol), tol) == RoundEntry(x, tol)
  {
  }

  /** For a tolerance of at most one half the sequential rounding agrees
      with the threshold clamp of the current front end. */
  lemma RoundAgreesWithClamp(x: real, tol: real)
    requires 0.0 <= tol <= 0.5
    ensures RoundEntry(x, tol) == BA.Clamp(x, tol)
  {
  }

  /** Rounded entries of a relaxed control stay in [0, 1]. */
  lemma RoundInUnit(x: real, tol: real)
    requires 0.0 <= x <= 1.0
    ensures 0.0 <= RoundEntry(x, tol) <= 1.0
  {
  }

  function RoundAll(rows: seq<seq<real>>, tol: real): (r: seq<seq<real>>)
    ensures |r| == |rows| && forall i :: 0 <= i < |rows| ==> |r[i]| == |rows[i]|
    ensures forall i, k :: 0 <= i < |rows| && 0 <= k < |rows[i]| ==> r[i][k] == RoundEntry(rows[i][k], tol)
  {
    seq(|rows|, i requires 0 <= i < |rows| =>
      seq(|rows[i]|, k requires 0 <= k < |rows[i]| => RoundEntry(rows[i][k], tol)))
  }

  // Locking (lines 262-318)

  /** `t < dt_lock` */
  function Below(t: seq<real>, x: real): (m: seq<bool>)
    ensures |m| == |t| && forall j :: 0 <= j < |t| ==> (m[j] <==> t[j] < x)
  {
    seq(|t|, j requires 0 <= j < |t| => t[j] < x)
  }

  /** `t >= dt_lock` */
  function AtLeast(t: seq<real>, x: real): (m: seq<bool>)
    ensures |m| == |t| && forall j :: 0 <= j < |t| ==> (m[j] <==> t[j] >= x)
  {
    seq(|t|, j requires 0 <= j < |t| => t[j] >= x)
  }

  /** The first index whose time point is at least `x`, or `|t|`. */
  function FirstAtLeast(t: seq<real>, x: real): (k: nat)
    ensures k <= |t| && (forall j :: 0 <= j < k ==> t[j] < x) && (k < |t| ==> t[k] >= x)
  {
    if |t| == 0 then 0 else if t[0] >= x then 0 else 1 + FirstAtLeast(t[1..], x)
  }

  /** On increasing time points the locked ones form a prefix. */
  lemma ThresholdIndex(t: seq<real>, x: real, j: nat)
    requires BA.Increasing(t) && j < |t|
    ensures t[j] < x <==> j < FirstAtLeast(t, x)
  {
    var k := FirstAtLeast(t, x);
    if k < j {
      BA.IncreasingPairs(t, k, j);
    }
  }

  /** A mask without a `True` picks nothing. */
  lemma {:induction false} PickNone<T>(v: seq<T>, m: seq<bool>)
    requires |v| == |m| && forall j :: 0 <= j < |m| ==> !m[j]
    ensures Pick(v, m) == []
    decreases |m|
  {
    if |m| > 0 {
      PickNone(v[..|m| - 1], m[..|m| - 1]);
    }
  }

  /** A mask that is `True` exactly before `k` picks the prefix. */
  lemma {:induction false} PickBefore<T>(v: seq<T>, m: seq<bool>, k: nat)
    requires |v| == |m| && k <= |m|
    requires forall j :: 0 <= j < |m| ==> (m[j] <==> j < k)
    ensures Pick(v, m) == v[..k]
    decreases |m|
  {
    if |m| > 0 {
      var n := |m| - 1;
      var p := Pick(v[..n], m[..n]);
      if k == |m| {
        PickBefore(v[..n], m[..n], n);
        assert p == v[..n];
        assert Pick(v, m) == p + [v[n]];
        SplitLast(v);
      } else {
        PickBefore(v[..n], m[..n], k);
        assert p == v[..n][..k];
        assert Pick(v, m) == p;
      }
    }
  }

  /** A mask that is `True` exactly from `k` on picks the suffix. */
  lemma {:induction false} PickFrom<T>(v: seq<T>, m: seq<bool>, k: nat)
    requires |v| == |m| && k <= |m|
    requires forall j :: 0 <= j < |m| ==> (m[j] <==> j >= k)
    ensures Pick(v, m) == v[k..]
    decreases |m|
  {
    if k == |m| {
      PickNone(v, m);
    } else {
      var n := |m| - 1;
      var p := Pick(v[..n], m[..n]);
      PickFrom(v[..n], m[..n], k);
      assert p == v[..n][k..];
      assert Pick(v, m) == p + [v[n]];
      assert v[..n][k..] + [v[n]] == v[k..];
    }
  }

  /** `_lock_initial_binary_sequence`: the locked time points, the columns
      of `b_rel` whose interval starts at or after `dt_lock`, and the time
      points from `dt_lock` on. */
  datatype Split = Split(tLocked: seq<real>, bRel: seq<seq<real>>, t: seq<real>)

  function LockSplit(t: seq<real>, b: seq<seq<real>>, x: real): (r: Split)
    requires Shaped(b, Cols(t))
    ensures |r.bRel| == |b|
  {
    var starts := if |t| == 0 then [] else t[..|t| - 1];
    Split(Pick(t, Below(t, x)), PickColumns(b, AtLeast(starts, x)), Pick(t, AtLeast(t, x)))
  }

  /** The locked time points are those before the first one at or after
      `dt_lock`, and the remaining ones the rest. */
  lemma LockTimes(t: seq<real>, x: real)
    requires BA.Increasing(t)
    ensures Pick(t, Below(t, x)) == t[..FirstAtLeast(t, x)]
    ensures Pick(t, AtLeast(t, x)) == t[FirstAtLeast(t, x)..]
  {
    var k := FirstAtLeast(t, x);
    forall j | 0 <= j < |t| ensures t[j] < x <==> j < k {
      ThresholdIndex(t, x, j);
    }
    PickBefore(t, Below(t, x), k);
    PickFrom(t, AtLeast(t, x), k);
  }

  /** The columns that stay are those of the intervals from the cut on. */
  lemma LockColumns(t: seq<real>, b: seq<seq<real>>, x: real, kc: nat)
    requires BA.Increasing(t) && |t| >= 1 && Shaped(b, |t| - 1)
    requires kc == if FirstAtLeast(t, x) < |t| then FirstAtLeast(t, x) else |t| - 1
    ensures forall i :: 0 <= i < |b| ==> PickColumns(b, AtLeast(t[..|t| - 1], x))[i] == b[i][kc..]
  {
    var n := |t| - 1;
    var cm := AtLeast(t[..n], x);
    forall j | 0 <= j < n ensures cm[j] <==> j >= kc {
      ThresholdIndex(t, x, j);
    }
    forall i | 0 <= i < |b| ensures PickColumns(b, cm)[i] == b[i][kc..] {
      PickFrom(b[i], cm, kc);
    }
  }

  /** On increasing time points the split cuts at the first point at or
      after `dt_lock`: the locked prefix and the rest give `t` back, and
      what remains is again a problem (empty when every point is locked). */
  lemma LockSplitCuts(t: seq<real>, b: seq<seq<real>>, x: real)
    requires BA.Increasing(t) && Shaped(b, Cols(t))
    ensures LockSplit(t, b, x).tLocked == t[..FirstAtLeast(t, x)]
    ensures LockSplit(t, b, x).t == t[FirstAtLeast(t, x)..]
    ensures LockSplit(t, b, x).bRel == ColumnsFrom(b, Cut(t, x))
  {
    LockTimes(t, x);
    if |t| == 0 {
      LockSplitEmpty(b, x);
    } else {
      LockSplitColumns(t, b, x);
    }
  }

  lemma LockSplitColumns(t: seq<real>, b: seq<seq<real>>, x: real)
    requires BA.Increasing(t) && |t| >= 1 && Shaped(b, |t| - 1)
    ensures LockSplit(t, b, x).bRel == ColumnsFrom(b, Cut(t, x))
  {
    LockColumns(t, b, x, Cut(t, x));
    var r := LockSplit(t, b, x).bRel;
    var c := ColumnsFrom(b, Cut(t, x));
    assert |r| == |c|;
    forall i | 0 <= i < |b| ensures r[i] == c[i] {
    }
  }

  lemma LockSplitEmpty(b: seq<seq<real>>, x: real)
    requires Shaped(b, 0)
    ensures LockSplit([], b, x).bRel == ColumnsFrom(b, 0)
  {
    var r := LockSplit([], b, x);
    forall i | 0 <= i < |b| ensures r.bRel[i] == b[i][0..] {
      assert |r.bRel[i]| == 0;
    }
  }

  /** The interval a lock at `x` starts the remaining columns at: the one
      of the first time point at or after `x`, or none when every point
      is locked. */
  function Cut(t: seq<real>, x: real): (kc: nat)
    ensures kc <= Cols(t)
  {
    if FirstAtLeast(t, x) < |t| then FirstAtLeast(t, x) else Cols(t)
  }

  function ColumnsFrom(b: seq<seq<real>>, kc: nat): (r: seq<seq<real>>)
    requires forall i :: 0 <= i < |b| ==> kc <= |b[i]|
    ensures |r| == |b| && forall i :: 0 <= i < |b| ==> r[i] == b[i][kc..]
  {
    seq(|b|, i requires 0 <= i < |b| => b[i][kc..])
  }

  /** `_lock_initial_binary_sequence` on an increasing grid: the masks
      split it at the first point at or after `dt_lock`. */
  method LockInitialBinarySequence(t: seq<real>, b: seq<seq<real>>, x: real)
    returns (tLocked: seq<real>, bRel: seq<seq<real>>, rest: seq<real>)
    requires Sorted(t) && Shaped(b, Cols(t))
    ensures tLocked == t[..FirstAtLeast(t, x)] && rest == t[FirstAtLeast(t, x)..]
    ensures bRel == ColumnsFrom(b, Cut(t, x))
  {
    SortedIncreasing(t);
    LockSplitCuts(t, b, x);
    var s := LockSplit(t, b, x);
    tLocked, bRel, rest := s.tLocked, s.bRel, s.t;
  }

  /** What a cut leaves is again a problem, and it undoes: the locked
      prefix and the rest give `t` back. */
  lemma CutShape(t: seq<real>, b: seq<seq<real>>, x: real)
    requires BA.Increasing(t) && Shaped(b, Cols(t))
    ensures var k := FirstAtLeast(t, x);
      t[..k] + t[k..] == t && BA.Increasing(t[k..]) && Shaped(ColumnsFrom(b, Cut(t, x)), Cols(t[k..]))
  {
    var k := FirstAtLeast(t, x);
    SplitAt(t, k);
    IncreasingSuffix(t, k);
    var r := ColumnsFrom(b, Cut(t, x));
    forall i | 0 <= i < |b| ensures |r[i]| == Cols(t[k..]) {
      assert r[i] == b[i][Cut(t, x)..];
    }
  }

  lemma SplitAt<T>(t: seq<T>, k: nat)
    requires k <= |t|
    ensures t[..k] + t[k..] == t
  {
  }

  lemma IncreasingSuffix(t: seq<real>, k: nat)
    requires BA.Increasing(t) && k <= |t|
    ensures BA.Increasing(t[k..])
  {
    forall j | 0 <= j < |t| - k - 1 ensures t[k..][j] < t[k..][j + 1] {
      assert t[k + j] < t[k + j + 1];
    }
  }

  /** `_validate_input_b_bin_lock`: `n_c` values, each 0 or 1 after `int()`. */
  function LockCheck(v: seq<real>, nC: nat): (r: Result<seq<int>, Fault>)
    ensures r.Ok? <==> |v| == nC && IsBinaryVector(BA.Truncated(v))
    ensures |v| != nC ==> r == Err(ValueError(LockCount))
    ensures |v| == nC && !IsBinaryVector(BA.Truncated(v)) ==> r == Err(ValueError(LockNotBinary))
    ensures r.Ok? ==> r.value == BA.Truncated(v) && |r.value| == nC
  {
    if |v| != nC then Err(ValueError(LockCount))
    else if !IsBinaryVector(BA.Truncated(v)) then Err(ValueError(LockNotBinary))
    else Ok(BA.Truncated(v))
  }

  /** `_raise_error_if_already_locked` as written (lines 272-276): it tests
      the attributes of a reduced problem again, so a lock is never seen. */
  predicate LockRefusedAsWritten(reduced: bool, removed: bool, locked: bool)
  {
    reduced || removed
  }

  /** The evident intent: a second lock is refused as well. */
  predicate LockRefused(reduced: bool, removed: bool, locked: bool)
  {
    reduced || removed || locked
  }

  /** As written, locking twice is accepted, and the second split cuts the
      grid left by the first one: the locked prefix the retrieval puts back
      is the second one only, so the points locked first are lost (with
      `t = [0, 1, 2, 3]`, locking at 1 and then at 2 leaves `t = [2, 3]`,
      `t_locked = [1]`, and rebuilds `[1, 2, 3]`). */
  lemma RelockAccepted(t: seq<real>, b: seq<seq<real>>, x1: real, x2: real)
    requires BA.Increasing(t) && Shaped(b, Cols(t)) && |t| >= 1 && t[0] < x1
    ensures !LockRefusedAsWritten(false, false, true)
    ensures var s1 := LockSplit(t, b, x1);
      Shaped(s1.bRel, Cols(s1.t)) &&
      var s2 := LockSplit(s1.t, s1.bRel, x2);
      s2.tLocked + s2.t == s1.t && |s1.t| < |t|
  {
    LockSplitCuts(t, b, x1);
    CutShape(t, b, x1);
    var s1 := LockSplit(t, b, x1);
    LockSplitCuts(s1.t, s1.bRel, x2);
    CutShape(s1.t, s1.bRel, x2);
  }

  /** With the corrected test a locked problem refuses a second lock, and
      a single lock is undone exactly by prepending the locked points. */
  lemma RelockRefused(t: seq<real>, b: seq<seq<real>>, x: real)
    requires BA.Increasing(t) && Shaped(b, Cols(t))
    ensures LockRefused(false, false, true)
    ensures LockSplit(t, b, x).tLocked + LockSplit(t, b, x).t == t
  {
    LockSplitCuts(t, b, x);
    CutShape(t, b, x);
  }

  /** The first index holding 1. */
  function FirstOne(v: seq<int>): (r: Option<nat>)
    ensures r.Some? ==> r.value < |v| && v[r.value] == 1 && forall j :: 0 <= j < r.value ==> v[j] != 1
    ensures r.None? ==> forall j :: 0 <= j < |v| ==> v[j] != 1
  {
    if |v| == 0 then None
    else if v[0] == 1 then Some(0)
    else
      var r := FirstOne(v[1..]);
      if r.None? then None else Some(r.value + 1)
  }

  /** `_check_init_active_control` as written (lines 488-500), as the new
      value of `_init_active_control`: without a lock the lookup fails
      with `AttributeError` and the attribute becomes `n_c`; with a lock
      the index is computed into a local variable only, so the attribute
      keeps its old value (a lock without a 1 raises `IndexError`). */
  function InitActiveAsWritten(lock: Option<seq<int>>, nC: nat, current: Option<nat>): (r: Result<Option<nat>, Fault>)
    ensures lock.None? ==> r == Ok(Some(nC))
    ensures lock.Some? ==> (r.Err? <==> FirstOne(lock.value).None?)
    ensures lock.Some? && r.Ok? ==> r.value == current
  {
    if lock.None? then Ok(Some(nC))
    else if FirstOne(lock.value).None? then Err(IndexError)
    else Ok(current)
  }

  /** The evident intent: the attribute holds the index of the initially
      active control, or `n_c` when nothing is locked. */
  function InitActive(lock: Option<seq<int>>, nC: nat): (r: Result<Option<nat>, Fault>)
    ensures lock.None? ==> r == Ok(Some(nC))
    ensures lock.Some? ==> (r.Err? <==> FirstOne(lock.value).None?)
    ensures lock.Some? && r.Ok? ==> r.value.Some? && r.value.value < |lock.value| && lock.value[r.value.value] == 1
  {
    if lock.None? then Ok(Some(nC))
    else if FirstOne(lock.value).None? then Err(IndexError)
    else Ok(FirstOne(lock.value))
  }

  /** Locking control 1 leaves the attribute unset as written; the
      corrected check records control 1. */
  lemma InitActiveUnset()
    ensures InitActiveAsWritten(Some([0, 1]), 2, None) == Ok(None)
    ensures InitActive(Some([0, 1]), 2) == Ok(Some(1))
  {
    assert FirstOne([0, 1]) == Some(1) by {
      assert [0, 1][1..] == [1];
    }
  }

  // Removal of inactive controls (lines 360-382)

  /** `[idx for idx in range(n) if idx not in s]` */
  function Without(n: nat, s: seq<nat>): (r: seq<nat>)
    ensures forall k :: 0 <= k < |r| ==> r[k] < n && r[k] !in s
    ensures BA.StrictlyIncreasing(r)
  {
    if n == 0 then [] else if n - 1 in s then Without(n - 1, s) else Without(n - 1, s) + [n - 1]
  }

  /** The loop of `_remove_inactive_controls` over the rows of `b_rel`:
      the indices of the all-zero rows, in order. */
  method ZeroRows(b: seq<seq<real>>) returns (found: seq<nat>)
    ensures found == BA.Rows(b, |b|, true)
  {
    found := [];
    var k := 0;
    while k < |b|
      invariant k <= |b| && found == BA.Rows(b, k, true)
    {
      if BA.AllZero(b[k]) {
        found := found + [k];
      }
      k := k + 1;
    }
  }

  /** The body of `_remove_inactive_controls` on values: the all-zero
      rows, the others, and `b_rel` restricted to the others. */
  method SplitRows(b: seq<seq<real>>) returns (found: seq<nat>, act: seq<nat>, b2: seq<seq<real>>)
    ensures found == BA.Rows(b, |b|, true) && act == BA.Rows(b, |b|, false)
    ensures b2 == BA.Select(b, act)
  {
    found := ZeroRows(b);
    WithoutInactive(b, |b|);
    act := Without(|b|, found);
    b2 := BA.Select(b, act);
  }

  /** The indices outside the inactive ones are the active ones. */
  lemma {:induction false} WithoutInactive(b: seq<seq<real>>, n: nat)
    requires n <= |b|
    ensures Without(n, BA.Rows(b, |b|, true)) == BA.Rows(b, n, false)
  {
    if n > 0 {
      WithoutInactive(b, n - 1);
      BA.RowsMembership(b, |b|, true, n - 1);
    }
  }

  /** Without an all-zero row nothing is inactive. */
  lemma {:induction false} NoZeroRows(b: seq<seq<real>>, n: nat)
    requires n <= |b| && forall i :: 0 <= i < n ==> !BA.AllZero(b[i])
    ensures BA.Rows(b, n, true) == [] && BA.Rows(b, n, false) == BA.Range(n)
  {
    if n > 0 {
      NoZeroRows(b, n - 1);
    }
  }

  /** A faithful reduction keeps every row that is not all zero. */
  lemma ReducedRowsNonZero(tOrig: seq<real>, bOrig: seq<seq<real>>, t: seq<real>, b: seq<seq<real>>, kept: seq<bool>)
    requires Faithful(tOrig, bOrig, t, b, kept)
    requires forall i :: 0 <= i < |bOrig| ==> !BA.AllZero(bOrig[i])
    ensures forall i :: 0 <= i < |b| ==> !BA.AllZero(b[i])
  {
    forall i | 0 <= i < |b| ensures !BA.AllZero(b[i]) {
      var j :| 0 <= j < |bOrig[i]| && bOrig[i][j] != 0.0;
      PickLatest(bOrig[i], kept, j);
      assert b[i][Latest(kept, j)] != 0.0;
    }
  }

  /** `active` lists distinct rows of a matrix of `|active| + |inactive|`
      rows. */
  predicate Partitioned(active: seq<nat>, inactive: seq<nat>)
  {
    Ascending(active) && forall k :: 0 <= k < |active| ==> active[k] < |active| + |inactive|
  }

  /** `s[k] < s[k + 1]`, a term of its own like `Ordered`. */
  predicate Adjacent(s: seq<nat>, k: nat)
    requires k + 1 < |s|
  {
    s[k] < s[k + 1]
  }

  /** Strictly increasing, stated on neighbours only. */
  predicate Ascending(s: seq<nat>)
  {
    forall k :: 0 <= k < |s| - 1 ==> Adjacent(s, k)
  }

  lemma {:induction false} AscendingFrom(s: seq<nat>, i: nat, j: nat)
    requires Ascending(s) && i < j < |s|
    ensures s[i] < s[j]
    decreases j - i
  {
    assert Adjacent(s, j - 1);
    if i < j - 1 {
      AscendingFrom(s, i, j - 1);
    }
  }

  lemma AscendingStrict(s: seq<nat>)
    ensures Ascending(s) <==> BA.StrictlyIncreasing(s)
  {
    if Ascending(s) {
      forall i, j | 0 <= i < j < |s| ensures s[i] < s[j] {
        AscendingFrom(s, i, j);
      }
    }
  }

  lemma RowsPartitioned(b: seq<seq<real>>)
    ensures Partitioned(BA.Rows(b, |b|, false), BA.Rows(b, |b|, true))
  {
    BA.RowsPartition(b, |b|);
    BA.RowsIncreasing(b, |b|, false);
    AscendingStrict(BA.Rows(b, |b|, false));
  }

  /** `b_bin_lock` repeated over the locked intervals in front of `b`:
      `np.concatenate([np.repeat(b_bin_lock, |t_locked|, 0).T, b_bin], 1)`. */
  function Prefixed(b: seq<seq<real>>, lock: seq<int>, n: nat): (r: seq<seq<real>>)
    requires |lock| == |b|
    ensures |r| == |b| && forall i :: 0 <= i < |b| ==> r[i] == Repeat(lock[i] as real, n) + b[i]
  {
    seq(|b|, i requires 0 <= i < |b| => Repeat(lock[i] as real, n) + b[i])
  }

  /** The columns of a grid of time points; a grid left empty by a lock
      keeps empty rows. */
  function Cols(t: seq<real>): nat
  {
    if |t| == 0 then 0 else |t| - 1
  }

  /** The time grid with a locked prefix put back in front. */
  function Restored(tLocked: Option<seq<real>>, t: seq<real>): (r: seq<real>)
    ensures |r| >= |t|
  {
    if tLocked.Some? then tLocked.value + t else t
  }

  /** The grid put together from the stored parts, after the points a
      relock lost; after at most one lock nothing is lost. */
  predicate Rebuilt(tInit: seq<real>, locks: nat, lost: seq<real>, g: seq<real>)
  {
    lost + g == tInit && (locks <= 1 ==> lost == [])
  }

  /** The points lost by a further lock: those the previous lock cut off. */
  function Lost(lost: seq<real>, tLocked: Option<seq<real>>): (r: seq<real>)
    ensures tLocked.None? ==> r == lost
  {
    if tLocked.Some? then lost + tLocked.value else lost
  }

  /** `t[j] < t[j + 1]`, as a term of its own so that the invariant below
      states sortedness without exposing every pair of time points. */
  predicate Ordered(t: seq<real>, j: nat)
    requires j + 1 < |t|
  {
    t[j] < t[j + 1]
  }

  predicate Sorted(t: seq<real>)
  {
    forall j :: 0 <= j < |t| - 1 ==> Ordered(t, j)
  }

  lemma SortedIncreasing(t: seq<real>)
    ensures Sorted(t) <==> BA.Increasing(t)
  {
    if Sorted(t) {
      forall j | 0 <= j < |t| - 1 ensures t[j] < t[j + 1] {
        assert Ordered(t, j);
      }
    }
  }

  /** A problem before any reduction: the validated grid, or what the
      locks left of it. */
  predicate Unreduced(tInit: seq<real>, locks: nat, lost: seq<real>, t: seq<real>, bRel: seq<seq<real>>,
                      tLocked: Option<seq<real>>)
  {
    Sorted(t) && Shaped(bRel, Cols(t)) && Rebuilt(tInit, locks, lost, Restored(tLocked, t))
  }

  /** A reduced problem: a faithful reduction of the problem as it was at
      the first pass, which had no all-zero row left. */
  predicate Reduced(tInit: seq<real>, locks: nat, lost: seq<real>, t: seq<real>, bRel: seq<seq<real>>,
                    tLocked: Option<seq<real>>, tOrig: seq<real>, bRelOrig: seq<seq<real>>, kept: seq<bool>)
  {
    Sorted(tOrig) && Faithful(tOrig, bRelOrig, t, bRel, kept) &&
    (forall i :: 0 <= i < |bRelOrig| ==> !BA.AllZero(bRelOrig[i])) &&
    Rebuilt(tInit, locks, lost, Restored(tLocked, tOrig))
  }

  /** A lock keeps an unreduced problem unreduced; a relock loses the
      points of the previous one. */
  lemma LockStep(tInit: seq<real>, locks: nat, lost: seq<real>, t: seq<real>, b: seq<seq<real>>,
                 tLocked: Option<seq<real>>, x: real, tl: seq<real>, b2: seq<seq<real>>, t2: seq<real>)
    requires Unreduced(tInit, locks, lost, t, b, tLocked) && (tLocked.None? <==> locks == 0)
    requires tl == t[..FirstAtLeast(t, x)] && t2 == t[FirstAtLeast(t, x)..] && b2 == ColumnsFrom(b, Cut(t, x))
    ensures Unreduced(tInit, locks + 1, Lost(lost, tLocked), t2, b2, Some(tl))
  {
    var k := FirstAtLeast(t, x);
    SortedIncreasing(t);
    CutShape(t, b, x);
    SortedSuffix(t, k);
    RebuiltAfterLock(tInit, locks, lost, t, tLocked, tl, t2);
  }

  lemma SortedSuffix(t: seq<real>, k: nat)
    requires Sorted(t) && k <= |t|
    ensures Sorted(t[k..])
  {
    forall j | 0 <= j < |t[k..]| - 1 ensures Ordered(t[k..], j) {
      assert Ordered(t, k + j);
    }
  }

  /** Splitting the remaining grid into a locked prefix and a rest keeps
      the grid put together from the stored parts. */
  lemma RebuiltAfterLock(tInit: seq<real>, locks: nat, lost: seq<real>, t: seq<real>, tLocked: Option<seq<real>>,
                         tl: seq<real>, t2: seq<real>)
    requires Rebuilt(tInit, locks, lost, Restored(tLocked, t)) && (tLocked.None? <==> locks == 0)
    requires tl + t2 == t
    ensures Rebuilt(tInit, locks + 1, Lost(lost, tLocked), Restored(Some(tl), t2))
  {
    if tLocked.Some? {
      assert lost + tLocked.value + t == tInit;
      assert Lost(lost, tLocked) + (tl + t2) == tInit;
    }
  }

  // Retrieval (lines 508-542)

  /** The starts of `t_orig` that `np.in1d` finds again in `t` form a mask
      the forward fill accepts for a solution on `t`. */
  predicate Fillable(tOrig: seq<real>, t: seq<real>)
  {
    |tOrig| >= 1 && |t| >= 1 && (|tOrig| > 1 ==> InGrid(tOrig, t)[0]) && Count(InGrid(tOrig, t)) == |t| - 1
  }

  /** What `_retrieve_solution` leaves: its outcome, `_t` and `_b_bin`. */
  datatype Retrieval = Retrieval(r: Result<(), Fault>, t: seq<real>, bBin: seq<seq<real>>)

  /** The solver's `b_bin` forward-filled onto `t_orig` and the inactive
      controls put back as zero rows (lines 508-536), with the time grid
      that goes with it. */
  function Unlocked(t: seq<real>, tOrig: Option<seq<real>>, inactive: Option<seq<nat>>, active: seq<nat>, nC: nat,
                    solved: seq<seq<real>>): (o: (seq<real>, seq<seq<real>>))
    requires |t| >= 1 && Shaped(solved, |t| - 1)
    requires tOrig.Some? <==> inactive.Some?
    requires tOrig.Some? ==> Fillable(tOrig.value, t) && |active| == |solved|
    ensures |o.0| >= 1 && Shaped(o.1, |o.0| - 1)
    ensures |o.1| == if inactive.Some? then nC + |inactive.value| else |solved|
  {
    if tOrig.None? then (t, solved)
    else
      var cols := |tOrig.value| - 1;
      var filled := Expanded(solved, InGrid(tOrig.value, t));
      (tOrig.value, BA.Inflated(filled, active, BA.Range(cols), nC + |inactive.value|, cols))
  }

  /** `_retrieve_solution` on the stored attributes and the solver's
      `b_bin`: a lock puts the locked time points back in front of the
      grid and repeats `b_bin_lock` over them; `_dt_lock` without
      `_t_locked` fails with `AttributeError`, and a `b_bin_lock` whose
      length is not the number of rows makes `np.concatenate` fail. */
  function Retrieve(t: seq<real>, tOrig: Option<seq<real>>, inactive: Option<seq<nat>>, active: seq<nat>, nC: nat,
                    dtLock: Option<real>, tLocked: Option<seq<real>>, bBinLock: Option<seq<int>>,
                    solved: seq<seq<real>>): (o: Retrieval)
    requires |t| >= 1 && Shaped(solved, |t| - 1)
    requires tOrig.Some? <==> inactive.Some?
    requires tOrig.Some? ==> Fillable(tOrig.value, t) && |active| == |solved|
    requires tLocked.Some? ==> bBinLock.Some?
    ensures o.r.Ok? || o.r == Err(AttributeError) || o.r == Err(ValueError(ShapeMismatch))
  {
    var u := Unlocked(t, tOrig, inactive, active, nC, solved);
    if dtLock.None? then Retrieval(Ok(()), u.0, u.1)
    else if tLocked.None? then Retrieval(Err(AttributeError), u.0, u.1)
    else if |bBinLock.value| != |u.1| then Retrieval(Err(ValueError(ShapeMismatch)), tLocked.value + u.0, u.1)
    else Retrieval(Ok(()), tLocked.value + u.0, Prefixed(u.1, bBinLock.value, |tLocked.value|))
  }

  /** The first steps of `_retrieve_solution` (lines 508-536): forward
      fill onto `t_orig`, then zero rows for the inactive controls. */
  method UnlockedParts(t: seq<real>, tOrig: Option<seq<real>>, inactive: Option<seq<nat>>, active: seq<nat>, nC: nat,
                       solved: seq<seq<real>>) returns (grid: seq<real>, b: seq<seq<real>>)
    requires |t| >= 1 && Shaped(solved, |t| - 1)
    requires tOrig.Some? <==> inactive.Some?
    requires tOrig.Some? ==> Fillable(tOrig.value, t) && |active| == |solved|
    ensures (grid, b) == Unlocked(t, tOrig, inactive, active, nC, solved)
  {
    b, grid := solved, t;
    if tOrig.Some? {
      b := ForwardFill(solved, InGrid(tOrig.value, t));
      var cols := |tOrig.value| - 1;
      b := BA.Inflated(b, active, BA.Range(cols), nC + |inactive.value|, cols);
      grid := tOrig.value;
    }
  }

  /** `_retrieve_solution` (lines 508-542) on the stored attributes; the
      locked prefix goes back in front last. */
  method RetrieveParts(t: seq<real>, tOrig: Option<seq<real>>, inactive: Option<seq<nat>>, active: seq<nat>, nC: nat,
                       dtLock: Option<real>, tLocked: Option<seq<real>>, bBinLock: Option<seq<int>>,
                       solved: seq<seq<real>>) returns (o: Retrieval)
    requires |t| >= 1 && Shaped(solved, |t| - 1)
    requires tOrig.Some? <==> inactive.Some?
    requires tOrig.Some? ==> Fillable(tOrig.value, t) && |active| == |solved|
    requires tLocked.Some? ==> bBinLock.Some?
    ensures o == Retrieve(t, tOrig, inactive, active, nC, dtLock, tLocked, bBinLock, solved)
  {
    var grid, b := UnlockedParts(t, tOrig, inactive, active, nC, solved);
    var r: Result<(), Fault> := Ok(());
    if dtLock.Some? {
      if tLocked.None? {
        r := Err(AttributeError);
      } else {
        grid := tLocked.value + grid;
        if |bBinLock.value| != |b| {
          r := Err(ValueError(ShapeMismatch));
        } else {
          b := Prefixed(b, bBinLock.value, |tLocked.value|);
        }
      }
    }
    o := Retrieval(r, grid, b);
  }

  /** The retrieval fails exactly when a lock was stored without its split
      or with a `b_bin_lock` of the wrong length; otherwise it gives the
      grid the stored parts rebuild, with one row of `b_bin` per control
      of the problem as it was before removal and one column per interval. */
  lemma RetrieveOutcome(tInit: seq<real>, locks: nat, lost: seq<real>, t: seq<real>, tLocked: Option<seq<real>>,
                        tOrig: Option<seq<real>>, inactive: Option<seq<nat>>, active: seq<nat>, nC: nat,
                        dtLock: Option<real>, bBinLock: Option<seq<int>>, solved: seq<seq<real>>)
    requires |t| >= 1 && Shaped(solved, |t| - 1)
    requires tOrig.Some? <==> inactive.Some?
    requires tOrig.Some? ==> Fillable(tOrig.value, t) && |active| == |solved|
    requires tLocked.Some? ==> bBinLock.Some? && dtLock.Some?
    requires Rebuilt(tInit, locks, lost, Restored(tLocked, if tOrig.Some? then tOrig.value else t))
    ensures var o := Retrieve(t, tOrig, inactive, active, nC, dtLock, tLocked, bBinLock, solved);
      var rows := if inactive.Some? then nC + |inactive.value| else |solved|;
      (o.r == Err(AttributeError) <==> dtLock.Some? && tLocked.None?) &&
      (o.r == Err(ValueError(ShapeMismatch)) <==> tLocked.Some? && |bBinLock.value| != rows) &&
      (o.r.Ok? ==> Rebuilt(tInit, locks, lost, o.t) && |o.bBin| == rows && Shaped(o.bBin, |o.t| - 1))
  {
    var u := Unlocked(t, tOrig, inactive, active, nC, solved);
    if tLocked.Some? && |bBinLock.value| == |u.1| {
      var o := Retrieve(t, tOrig, inactive, active, nC, dtLock, tLocked, bBinLock, solved);
      forall i | 0 <= i < |o.bBin| ensures |o.bBin[i]| == |o.t| - 1 {
        assert o.bBin[i] == Repeat(bBinLock.value[i] as real, |tLocked.value|) + u.1[i];
      }
    }
  }

  /** Over the locked time points every control keeps its `b_bin_lock`
      value; after them comes the retrieved solution. */
  lemma RetrieveLocked(t: seq<real>, tOrig: Option<seq<real>>, inactive: Option<seq<nat>>, active: seq<nat>, nC: nat,
                       dtLock: Option<real>, tLocked: Option<seq<real>>, bBinLock: Option<seq<int>>,
                       solved: seq<seq<real>>, i: nat, c: nat)
    requires |t| >= 1 && Shaped(solved, |t| - 1)
    requires tOrig.Some? <==> inactive.Some?
    requires tOrig.Some? ==> Fillable(tOrig.value, t) && |active| == |solved|
    requires tLocked.Some? ==> bBinLock.Some?
    requires Retrieve(t, tOrig, inactive, active, nC, dtLock, tLocked, bBinLock, solved).r.Ok?
    requires dtLock.Some? && tLocked.Some? && i < |bBinLock.value|
    ensures var o := Retrieve(t, tOrig, inactive, active, nC, dtLock, tLocked, bBinLock, solved);
      var u := Unlocked(t, tOrig, inactive, active, nC, solved);
      i < |o.bBin| && o.bBin[i][..|tLocked.value|] == Repeat(bBinLock.value[i] as real, |tLocked.value|) &&
      o.bBin[i][|tLocked.value|..] == u.1[i]
  {
    var o := Retrieve(t, tOrig, inactive, active, nC, dtLock, tLocked, bBinLock, solved);
    var u := Unlocked(t, tOrig, inactive, active, nC, solved);
    assert o.bBin[i] == Repeat(bBinLock.value[i] as real, |tLocked.value|) + u.1[i];
  }

  /** The reduction round trip: a solver that returns the reduced relaxed
      controls (they are binary where the grid was reduced) gets back
      the controls as they were before the reduction, on `t_orig`, with
      the inactive controls as zero rows. */
  lemma RetrieveRelaxed(t: seq<real>, bRel: seq<seq<real>>, tOrig: seq<real>, bRelOrig: seq<seq<real>>, kept: seq<bool>,
                        inactive: seq<nat>, active: seq<nat>)
    requires BA.Increasing(tOrig) && Faithful(tOrig, bRelOrig, t, bRel, kept) && InGrid(tOrig, t) == kept
    requires Partitioned(active, inactive) && |active| == |bRel|
    ensures Fillable(tOrig, t)
    ensures var u := Unlocked(t, Some(tOrig), Some(inactive), active, |active|, bRel);
      var cols := |tOrig| - 1;
      u.0 == tOrig && BA.Restrict(u.1, active, BA.Range(cols)) == bRelOrig &&
      forall j :: 0 <= j < |u.1| && j !in active ==> BA.AllZero(u.1[j])
  {
    FaithfulRoundTrip(tOrig, bRelOrig, t, bRel, kept);
    var cols := |tOrig| - 1;
    var nR := |active| + |inactive|;
    assert BA.StrictlyIncreasing(BA.Range(cols));
    AscendingStrict(active);
    BA.RestrictInflated(bRelOrig, active, BA.Range(cols), nR, cols);
    InflatedZeroRows(bRelOrig, active, nR, cols);
  }

  /** The rows outside `rows` of an inflated solution are all zero. */
  lemma InflatedZeroRows(b: seq<seq<real>>, rows: seq<nat>, nR: nat, cols: nat)
    requires |b| == |rows| && Shaped(b, cols)
    ensures var r := BA.Inflated(b, rows, BA.Range(cols), nR, cols);
      forall j :: 0 <= j < nR && j !in rows ==> BA.AllZero(r[j])
  {
    var r := BA.Inflated(b, rows, BA.Range(cols), nR, cols);
    forall j | 0 <= j < nR && j !in rows ensures BA.AllZero(r[j]) {
      forall c | 0 <= c < cols ensures r[j][c] == 0.0 {
        BA.InflatedOutside(b, rows, BA.Range(cols), nR, cols, j, c);
      }
    }
  }

  /** A pass that drops an interval leaves the fixed point where it was;
      one that drops none has reached it. */
  lemma RepeatedStep(g: Grid)
    requires Consistent(g)
    ensures |Reduce(g).t| < |g.t| ==> Repeated(Reduce(g)) == Repeated(g)
    ensures |Reduce(g).t| == |g.t| ==> Reduce(g) == g && Repeated(g) == g
  {
    if |Reduce(g).t| == |g.t| {
      ReduceFixed(g);
    }
  }

  /** A faithful reduction of a grid of several intervals keeps the first
      one, so it never reaches a single time point. */
  lemma FaithfulKeepsFirst(tOrig: seq<real>, bOrig: seq<seq<real>>, t: seq<real>, b: seq<seq<real>>, kept: seq<bool>)
    requires Faithful(tOrig, bOrig, t, b, kept) && |tOrig| >= 2
    ensures |t| >= 2
  {
    CountBefore(kept, 0);
  }

  /** One pass of `_reduce_nodes` on the current time grid and controls;
      the reduction stays faithful to the recorded original. */
  method ReducePass(ghost tOrig: seq<real>, ghost bOrig: seq<seq<real>>, t: seq<real>, b: seq<seq<real>>,
                    ghost kept: seq<bool>) returns (t2: seq<real>, b2: seq<seq<real>>, ghost kept2: seq<bool>)
    requires Faithful(tOrig, bOrig, t, b, kept)
    ensures Consistent(Grid(t, b)) && Grid(t2, b2) == Reduce(Grid(t, b))
    ensures Faithful(tOrig, bOrig, t2, b2, kept2)
  {
    FaithfulStep(tOrig, bOrig, t, b, kept);
    var idx := DropMask(b, |t| - 1);
    kept2 := Compose(kept, idx);
    t2 := ReducedGrid(t, idx);
    b2 := PickColumns(b, idx);
  }

  /** The invariant of a `BinaryApproximationBaseClass` object, on the
      values of its attributes: before any reduction the problem is the
      validated one, or what the locks left of it; after
      `reduce_problem_size` it is a faithful reduction of the problem as it
      was then, with the inactive controls removed. */
  ghost predicate State(tInit: seq<real>, locks: nat, lost: seq<real>, t: seq<real>, bRel: seq<seq<real>>,
                        nB: int, nC: nat, tOrig: Option<seq<real>>, bRelOrig: Option<seq<seq<real>>>,
                        inactive: Option<seq<nat>>, active: seq<nat>, dtLock: Option<real>,
                        bBinLock: Option<seq<int>>, tLocked: Option<seq<real>>, kept: seq<bool>)
  {
    match tOrig
    case None =>
      Shared(tInit, locks, t, bRel, nB, nC, dtLock, bBinLock, tLocked) && inactive.None? && bRelOrig.None? &&
      Unreduced(tInit, locks, lost, t, bRel, tLocked)
    case Some(o) =>
      Shared(tInit, locks, t, bRel, nB, nC, dtLock, bBinLock, tLocked) && inactive.Some? && bRelOrig.Some? &&
      Reduced(tInit, locks, lost, t, bRel, tLocked, o, bRelOrig.value, kept) &&
      Partitioned(active, inactive.value) && |active| == nC
  }

  /** What holds before and after a reduction: the counts match the
      arrays, and a split grid has its lock. */
  predicate Shared(tInit: seq<real>, locks: nat, t: seq<real>, bRel: seq<seq<real>>, nB: int, nC: nat,
                   dtLock: Option<real>, bBinLock: Option<seq<int>>, tLocked: Option<seq<real>>)
  {
    |tInit| >= 2 && nB == |t| - 1 && nC == |bRel| &&
    (tLocked.Some? <==> bBinLock.Some?) && (tLocked.Some? ==> dtLock.Some?) && (tLocked.None? <==> locks == 0)
  }

  /** An unreduced problem can be split, and storing `_dt_lock` alone
      keeps the invariant. */
  lemma LockReady(tInit: seq<real>, locks: nat, lost: seq<real>, t: seq<real>, bRel: seq<seq<real>>,
                  nB: int, nC: nat, tOrig: Option<seq<real>>, bRelOrig: Option<seq<seq<real>>>,
                  inactive: Option<seq<nat>>, active: seq<nat>, dtLock: Option<real>,
                  bBinLock: Option<seq<int>>, tLocked: Option<seq<real>>, kept: seq<bool>, x: real)
    requires State(tInit, locks, lost, t, bRel, nB, nC, tOrig, bRelOrig, inactive, active, dtLock, bBinLock, tLocked, kept)
    requires tOrig.None?
    ensures Sorted(t) && Shaped(bRel, Cols(t))
    ensures State(tInit, locks, lost, t, bRel, nB, nC, tOrig, bRelOrig, inactive, active, Some(x), bBinLock, tLocked, kept)
  {
  }

  /** A lock keeps the invariant: the grid and the controls are cut at
      `x`, and a relock loses the points of the previous one. */
  lemma LockKeepsState(tInit: seq<real>, locks: nat, lost: seq<real>, t: seq<real>, bRel: seq<seq<real>>,
                       nB: int, nC: nat, tOrig: Option<seq<real>>, bRelOrig: Option<seq<seq<real>>>,
                       inactive: Option<seq<nat>>, active: seq<nat>, dtLock: Option<real>,
                       bBinLock: Option<seq<int>>, tLocked: Option<seq<real>>, kept: seq<bool>, x: real, lock: seq<int>, tl: seq<real>, b2: seq<seq<real>>, t2: seq<real>)
    requires State(tInit, locks, lost, t, bRel, nB, nC, tOrig, bRelOrig, inactive, active, dtLock, bBinLock, tLocked, kept)
    requires tOrig.None?
    requires tl == t[..FirstAtLeast(t, x)] && t2 == t[FirstAtLeast(t, x)..] && b2 == ColumnsFrom(bRel, Cut(t, x))
    ensures State(tInit, locks + 1, Lost(lost, tLocked), t2, b2, |t2| - 1, nC, tOrig, bRelOrig, inactive, active,
                  Some(x), Some(lock), Some(tl), kept)
  {
    LockStep(tInit, locks, lost, t, bRel, tLocked, x, tl, b2, t2);
  }

  /** A reduced problem has no all-zero row left, so a second removal
      finds every control active. */
  lemma ReducedNoInactive(tInit: seq<real>, locks: nat, lost: seq<real>, t: seq<real>, bRel: seq<seq<real>>,
                          nB: int, nC: nat, tOrig: Option<seq<real>>, bRelOrig: Option<seq<seq<real>>>,
                          inactive: Option<seq<nat>>, active: seq<nat>, dtLock: Option<real>,
                          bBinLock: Option<seq<int>>, tLocked: Option<seq<real>>, kept: seq<bool>)
    requires State(tInit, locks, lost, t, bRel, nB, nC, tOrig, bRelOrig, inactive, active, dtLock, bBinLock, tLocked, kept)
    ensures tOrig.Some? ==> BA.Rows(bRel, |bRel|, true) == [] && BA.Rows(bRel, |bRel|, false) == BA.Range(nC)
  {
    if tOrig.Some? {
      ReducedRowsNonZero(tOrig.value, bRelOrig.value, t, bRel, kept);
      NoZeroRows(bRel, |bRel|);
    }
  }

  /** A reduced problem can be retrieved: the kept intervals are found
      again in `t_orig`, and the forward fill accepts them. */
  lemma ReducedFillable(tInit: seq<real>, locks: nat, lost: seq<real>, t: seq<real>, bRel: seq<seq<real>>,
                        nB: int, nC: nat, tOrig: Option<seq<real>>, bRelOrig: Option<seq<seq<real>>>,
                        inactive: Option<seq<nat>>, active: seq<nat>, dtLock: Option<real>,
                        bBinLock: Option<seq<int>>, tLocked: Option<seq<real>>, kept: seq<bool>)
    requires State(tInit, locks, lost, t, bRel, nB, nC, tOrig, bRelOrig, inactive, active, dtLock, bBinLock, tLocked, kept)
    ensures tOrig.Some? ==> Fillable(tOrig.value, t)
  {
    if tOrig.Some? {
      SortedIncreasing(tOrig.value);
      InGridKept(tOrig.value, bRelOrig.value, t, bRel, kept);
      if |kept| > 0 {
        CountBefore(kept, 0);
      }
    }
  }

  /** `reduce_problem_size` keeps the invariant: the inactive controls of
      `b0` are listed and removed, and the grid then shrinks faithfully. */
  /** The problem between `_remove_inactive_controls` and
      `_reduce_node_count`: the rows of the problem before are split into
      the all-zero ones and the rest, and only the rest are kept. */
  ghost predicate Removed(tInit: seq<real>, locks: nat, lost: seq<real>, dtLock: Option<real>,
                          bBinLock: Option<seq<int>>, tLocked: Option<seq<real>>,
                          t0: seq<real>, b0: seq<seq<real>>, nB0: int, nC0: nat, tOrig0: Option<seq<real>>,
                          bRelOrig0: Option<seq<seq<real>>>, inactive0: Option<seq<nat>>, active0: seq<nat>,
                          kept0: seq<bool>, b1: seq<seq<real>>, nC: nat, inactive: Option<seq<nat>>,
                          active: seq<nat>)
  {
    State(tInit, locks, lost, t0, b0, nB0, nC0, tOrig0, bRelOrig0, inactive0, active0, dtLock, bBinLock, tLocked, kept0) &&
    inactive == Some(BA.Rows(b0, |b0|, true)) && active == BA.Rows(b0, |b0|, false) &&
    b1 == BA.Select(b0, active) && nC == |active|
  }

  /** A reduction keeps the invariant: the first one records the problem
      without its inactive controls, a later one finds it recorded. */
  lemma ReduceKeepsState(tInit: seq<real>, locks: nat, lost: seq<real>, dtLock: Option<real>,
                         bBinLock: Option<seq<int>>, tLocked: Option<seq<real>>,
                         t0: seq<real>, b0: seq<seq<real>>, nB0: int, nC0: nat, tOrig0: Option<seq<real>>,
                         bRelOrig0: Option<seq<seq<real>>>, inactive0: Option<seq<nat>>, active0: seq<nat>,
                         kept0: seq<bool>, b1: seq<seq<real>>, t: seq<real>, b: seq<seq<real>>, nB: int, nC: nat,
                         tOrig: Option<seq<real>>, bRelOrig: Option<seq<seq<real>>>, inactive: Option<seq<nat>>,
                         active: seq<nat>, kept: seq<bool>)
    requires Removed(tInit, locks, lost, dtLock, bBinLock, tLocked, t0, b0, nB0, nC0, tOrig0, bRelOrig0, inactive0,
                     active0, kept0, b1, nC, inactive, active)
    requires nB == |t| - 1
    requires tOrig0.None? ==> tOrig == Some(t0) && bRelOrig == Some(b1)
    requires tOrig0.Some? ==> tOrig == tOrig0 && bRelOrig == bRelOrig0
    requires tOrig.Some? && bRelOrig.Some? && |b| == |b1|
    requires Faithful(tOrig.value, bRelOrig.value, t, b, kept)
    ensures State(tInit, locks, lost, t, b, nB, nC, tOrig, bRelOrig, inactive, active, dtLock, bBinLock, tLocked, kept)
  {
    RowsPartitioned(b0);
    if tOrig0.None? {
      forall i | 0 <= i < |bRelOrig.value| ensures !BA.AllZero(bRelOrig.value[i]) {
        BA.RowsMembership(b0, |b0|, false, active[i]);
      }
    }
  }

  /** Removing rows keeps the shape of the grid. */
  lemma RemovedShaped(t: seq<real>, b0: seq<seq<real>>, rows: seq<nat>)
    requires Shaped(b0, Cols(t)) && forall k :: 0 <= k < |rows| ==> rows[k] < |b0|
    ensures Shaped(BA.Select(b0, rows), Cols(t))
  {
  }

  class BaseProblem {
    var t: seq<real>
    var bRel: seq<seq<real>>
    const tol: real
    var nB: int
    var nC: nat
    /** `_t_orig` and `_b_rel_orig`, set by the first reduction pass. */
    var tOrig: Option<seq<real>>
    var bRelOrig: Option<seq<seq<real>>>
    /** `_inactive_controls` and `_active_controls`. */
    var inactive: Option<seq<nat>>
    var active: seq<nat>
    var dtLock: Option<real>
    var bBinLock: Option<seq<int>>
    var tLocked: Option<seq<real>>
    var initActive: Option<nat>
    var eta: Option<real>
    var bBin: Option<seq<seq<real>>>
    /** The validated time points. */
    ghost const tInit: seq<real>
    /** The intervals of `tOrig` a reduced problem still holds. */
    ghost var kept: seq<bool>
    /** The number of locks that split the grid. */
    ghost var locks: nat
    /** The validated time points a relock lost. */
    ghost var lost: seq<real>

    /** Before any reduction the problem is the validated one, or what the
        locks left of it; after `reduce_problem_size` it is a faithful
        reduction of the problem as it was then. */
    ghost predicate Valid()
      reads this`t, this`bRel, this`nB, this`nC, this`tOrig, this`bRelOrig, this`inactive, this`active
      reads this`dtLock, this`bBinLock, this`tLocked, this`kept, this`locks, this`lost
    {
      State(tInit, locks, lost, t, bRel, nB, nC, tOrig, bRelOrig, inactive, active, dtLock, bBinLock, tLocked, kept)
    }

    /** `__init__` after validation and rounding (lines 250-259). */
    constructor (t: seq<real>, bRel: seq<seq<real>>, tol: real)
      requires |t| >= 2 && BA.Increasing(t) && Shaped(bRel, |t| - 1)
      ensures Valid()
      ensures this.t == t && this.bRel == RoundAll(bRel, tol) && this.tol == tol
      ensures nB == |t| - 1 && nC == |bRel| && tInit == t
      ensures tOrig.None? && inactive.None? && dtLock.None? && tLocked.None? && bBinLock.None?
      ensures initActive.None? && eta.None? && bBin.None?
    {
      this.t := t;
      this.bRel := RoundAll(bRel, tol);
      this.tol := tol;
      nB := |t| - 1;
      nC := |bRel|;
      tOrig := None;
      bRelOrig := None;
      inactive := None;
      active := [];
      dtLock := None;
      bBinLock := None;
      tLocked := None;
      initActive := None;
      eta := None;
      bBin := None;
      tInit := t;
      kept := [];
      locks := 0;
      lost := [];
      SortedIncreasing(t);
    }

    /** `lock_initial_binary_sequence` (lines 321-357).  The already-locked
        test is the one written, so a locked problem can be locked again.
        `_dt_lock` is stored before `b_bin_lock` is checked, so it stays
        set when that check fails. */
    method Lock(x: real, lock: seq<real>) returns (r: Result<(), Fault>)
      requires Valid()
      modifies this`dtLock, this`bBinLock, this`tLocked, this`t, this`bRel, this`nB, this`locks, this`lost
      ensures Valid()
      ensures LockRefusedAsWritten(old(tOrig).Some?, old(inactive).Some?, old(tLocked).Some?) ==>
        r == Err(NotImplementedError) && dtLock == old(dtLock)
      ensures !LockRefusedAsWritten(old(tOrig).Some?, old(inactive).Some?, old(tLocked).Some?) ==>
        dtLock == Some(x) && (r.Err? <==> LockCheck(lock, nC).Err?) && (r.Err? ==> r.error == LockCheck(lock, nC).error)
      ensures r.Err? ==>
        t == old(t) && bRel == old(bRel) && nB == old(nB) && tLocked == old(tLocked) && bBinLock == old(bBinLock)
      ensures r.Ok? ==> bBinLock == Some(BA.Truncated(lock)) && nB == |t| - 1
      ensures r.Ok? ==> tLocked == Some(old(t)[..FirstAtLeast(old(t), x)]) && t == old(t)[FirstAtLeast(old(t), x)..]
      ensures r.Ok? ==> bRel == ColumnsFrom(old(bRel), Cut(old(t), x))
    {
      if LockRefusedAsWritten(tOrig.Some?, inactive.Some?, tLocked.Some?) {
        return Err(NotImplementedError);
      }
      LockReady(tInit, locks, lost, t, bRel, nB, nC, tOrig, bRelOrig, inactive, active, dtLock, bBinLock, tLocked,
                kept, x);
      var c := LockCheck(lock, nC);
      if c.Err? {
        dtLock := Some(x);
        return Err(c.error);
      }
      var tl, b2, t2 := LockInitialBinarySequence(t, bRel, x);
      LockKeepsState(tInit, locks, lost, t, bRel, nB, nC, tOrig, bRelOrig, inactive, active, dtLock, bBinLock,
                     tLocked, kept, x, c.value, tl, b2, t2);
      StoreLock(x, c.value, tl, b2, t2);
      return Ok(());
    }

    /** The attributes a successful lock writes (lines 281, 308, 313-316
        and 354), and the ghost record of it. */
    method StoreLock(x: real, lock: seq<int>, tl: seq<real>, b2: seq<seq<real>>, t2: seq<real>)
      modifies this`dtLock, this`bBinLock, this`tLocked, this`t, this`bRel, this`nB, this`locks, this`lost
      ensures dtLock == Some(x) && bBinLock == Some(lock) && tLocked == Some(tl) && bRel == b2 && t == t2
      ensures nB == |t2| - 1 && locks == old(locks) + 1 && lost == Lost(old(lost), old(tLocked))
    {
      dtLock, bBinLock, tLocked, bRel, t, nB, locks, lost :=
        Some(x), Some(lock), Some(tl), b2, t2, |t2| - 1, locks + 1, Lost(lost, tLocked);
    }

    /** `_check_init_active_control` as written. */
    method CheckInitActiveControl() returns (r: Result<(), Fault>)
      requires Valid()
      modifies this`initActive
      ensures Valid()
      ensures var c := InitActiveAsWritten(bBinLock, nC, old(initActive));
        (r.Err? <==> c.Err?) && (r.Err? ==> r.error == c.error && initActive == old(initActive)) &&
        (r.Ok? ==> initActive == c.value)
    {
      var c := InitActiveAsWritten(bBinLock, nC, initActive);
      if c.Err? {
        return Err(c.error);
      }
      initActive := c.value;
      return Ok(());
    }

    /** `_remove_inactive_controls`: the all-zero rows are listed in a
        loop, the others taken by the comprehension, and `b_rel` keeps
        only the active rows. */
    method RemoveInactiveControls()
      requires nC == |bRel|
      modifies this`inactive, this`active, this`bRel, this`nC
      ensures inactive == Some(BA.Rows(old(bRel), |old(bRel)|, true))
      ensures active == BA.Rows(old(bRel), |old(bRel)|, false)
      ensures bRel == BA.Select(old(bRel), active) && nC == |active|
    {
      var found, act, b2 := SplitRows(bRel);
      inactive, active, bRel, nC := Some(found), act, b2, |act|;
    }

    /** `_reduce_nodes`: the first pass records the problem as it is; a
        problem whose locked prefix took every time point has `n_b = -1`
        and numpy refuses the mask. */
    method ReduceNodes(ghost t0: seq<real>, ghost b0: seq<seq<real>>, ghost o0: Option<seq<real>>, ghost bo0: Option<seq<seq<real>>>)
      returns (r: Result<(), Fault>)
      requires t == t0 && bRel == b0 && tOrig == o0 && bRelOrig == bo0
      requires nB == |t| - 1 && Shaped(bRel, Cols(t))
      requires tOrig.None? <==> bRelOrig.None?
      requires tOrig.Some? ==> Faithful(tOrig.value, bRelOrig.value, t, bRel, kept)
      modifies this`tOrig, this`bRelOrig, this`t, this`bRel, this`kept
      ensures o0.None? ==> tOrig == Some(t0) && bRelOrig == Some(b0)
      ensures o0.Some? ==> tOrig == o0 && bRelOrig == bo0
      ensures r.Err? <==> |t0| == 0
      ensures r.Err? ==> r.error == ValueError(NegativeDimension) && t == t0 && bRel == b0
      ensures r.Ok? ==> Grid(t, bRel) == Reduce(Grid(t0, b0))
      ensures r.Ok? ==> Faithful(tOrig.value, bRelOrig.value, t, bRel, kept)
      ensures |bRel| == |b0|
    {
      RecordOriginal();
      if nB < 0 {
        return Err(ValueError(NegativeDimension));
      }
      var t2, b2, kept2 := ReducePass(tOrig.value, bRelOrig.value, t, bRel, kept);
      t, bRel, kept := t2, b2, kept2;
      return Ok(());
    }

    /** The start of `_reduce_nodes`: the first pass records the time grid
        and the relaxed controls it starts from. */
    method RecordOriginal()
      requires Shaped(bRel, Cols(t)) && (tOrig.None? <==> bRelOrig.None?)
      requires tOrig.Some? ==> Faithful(tOrig.value, bRelOrig.value, t, bRel, kept)
      modifies this`tOrig, this`bRelOrig, this`kept
      ensures old(tOrig).None? ==> tOrig == Some(t) && bRelOrig == Some(bRel)
      ensures old(tOrig).Some? ==> tOrig == old(tOrig) && bRelOrig == old(bRelOrig) && kept == old(kept)
      ensures |t| >= 1 ==> tOrig.Some? && bRelOrig.Some? && Faithful(tOrig.value, bRelOrig.value, t, bRel, kept)
    {
      if tOrig.None? {
        if |t| >= 1 {
          FaithfulStart(t, bRel);
        }
        tOrig, bRelOrig, kept := Some(t), Some(bRel), if |t| >= 1 then Repeat(true, |t| - 1) else [];
      }
    }

    /** `_reduce_node_count`: passes until one drops nothing.  Each pass
        prints its reduction relative to `n_b`, which divides by zero on
        a grid of a single interval; once a pass has run the grid keeps
        at least one interval, so only the first pass can fail. */
    method ReduceNodeCount(ghost t0: seq<real>, ghost b0: seq<seq<real>>, ghost o0: Option<seq<real>>, ghost bo0: Option<seq<seq<real>>>)
      returns (r: Result<(), Fault>)
      requires t == t0 && bRel == b0 && tOrig == o0 && bRelOrig == bo0
      requires nB == |t| - 1 && Shaped(bRel, Cols(t))
      requires tOrig.None? <==> bRelOrig.None?
      requires tOrig.Some? ==> Faithful(tOrig.value, bRelOrig.value, t, bRel, kept)
      modifies this`tOrig, this`bRelOrig, this`t, this`bRel, this`kept, this`nB
      ensures o0.None? ==> tOrig == Some(t0) && bRelOrig == Some(b0)
      ensures o0.Some? ==> tOrig == o0 && bRelOrig == bo0
      ensures |t0| == 0 <==> r == Err(ValueError(NegativeDimension))
      ensures |t0| == 1 <==> r == Err(ZeroDivisionError)
      ensures r.Err? ==> t == t0 && bRel == b0 && nB == old(nB)
      ensures r.Ok? ==> Grid(t, bRel) == Repeated(Grid(t0, b0))
      ensures |t0| >= 1 ==> tOrig.Some? && bRelOrig.Some? && nB == |t| - 1
      ensures |t0| >= 1 ==> Faithful(tOrig.value, bRelOrig.value, t, bRel, kept)
      ensures |bRel| == |b0|
    {
      ghost var g0 := Grid(t, bRel);
      r := ReduceNodes(t, bRel, tOrig, bRelOrig);
      if r.Err? {
        return;
      }
      if nB == 0 {
        ReduceFixed(g0);
        return Err(ZeroDivisionError);
      }
      RepeatedStep(g0);
      FaithfulKeepsFirst(tOrig.value, bRelOrig.value, t, bRel, kept);
      r := ReduceFurther(g0);
    }

    /** The rest of the loop of `_reduce_node_count`, once its first pass
        has run: `n_b` still counts the intervals before that pass, and
        is at least one, so none of these passes divides by zero. */
    method ReduceFurther(ghost g0: Grid) returns (r: Result<(), Fault>)
      requires tOrig.Some? && bRelOrig.Some? && |tOrig.value| >= 2 && |t| >= 2 && nB >= |t| - 1
      requires Faithful(tOrig.value, bRelOrig.value, t, bRel, kept) && Consistent(g0) && Consistent(Grid(t, bRel))
      requires nB > |t| - 1 ==> Repeated(Grid(t, bRel)) == Repeated(g0)
      requires nB == |t| - 1 ==> Grid(t, bRel) == Repeated(g0)
      modifies this`tOrig, this`bRelOrig, this`t, this`bRel, this`kept, this`nB
      ensures tOrig == old(tOrig) && bRelOrig == old(bRelOrig)
      ensures r.Ok? && Grid(t, bRel) == Repeated(g0)
      ensures nB == |t| - 1 && Faithful(tOrig.value, bRelOrig.value, t, bRel, kept)
      ensures |bRel| == |old(bRel)|
    {
      ghost var goal := Repeated(g0);
      var more := nB > |t| - 1;
      nB := |t| - 1;
      while more
        invariant nB == |t| - 1 && nB >= 1 && Consistent(Grid(t, bRel))
        invariant tOrig == old(tOrig) && bRelOrig == old(bRelOrig)
        invariant Faithful(tOrig.value, bRelOrig.value, t, bRel, kept)
        invariant more ==> Repeated(Grid(t, bRel)) == goal
        invariant !more ==> Grid(t, bRel) == goal
        invariant |bRel| == |old(bRel)|
        decreases if more then |t| + 1 else 0
      {
        ghost var g := Grid(t, bRel);
        r := ReduceNodes(t, bRel, tOrig, bRelOrig);
        more := nB > |t| - 1;
        nB := |t| - 1;
        RepeatedStep(g);
        FaithfulKeepsFirst(tOrig.value, bRelOrig.value, t, bRel, kept);
      }
      return Ok(());
    }

    /** `reduce_problem_size` (lines 436-465): the inactive controls go
        first, then the time grid shrinks until a pass drops nothing.  A
        second call finds no all-zero row and records none. */
    method ReduceProblemSize() returns (r: Result<(), Fault>)
      requires Valid()
      modifies this`inactive, this`active, this`bRel, this`nC, this`tOrig, this`bRelOrig, this`t, this`kept, this`nB
      ensures |old(t)| >= 1 ==> Valid()
      ensures |old(t)| == 0 <==> r == Err(ValueError(NegativeDimension))
      ensures |old(t)| == 1 <==> r == Err(ZeroDivisionError)
      ensures old(tOrig).None? ==>
        inactive == Some(BA.Rows(old(bRel), |old(bRel)|, true)) && active == BA.Rows(old(bRel), |old(bRel)|, false) &&
        tOrig == Some(old(t)) && bRelOrig == Some(BA.Select(old(bRel), active))
      ensures old(tOrig).Some? ==>
        inactive == Some([]) && active == BA.Range(old(nC)) && tOrig == old(tOrig) && bRelOrig == old(bRelOrig)
      ensures r.Ok? ==> Grid(t, bRel) == Repeated(Grid(old(t), BA.Select(old(bRel), active)))
      ensures r.Err? ==> t == old(t) && bRel == BA.Select(old(bRel), active)
    {
      Reducible();
      r := RemoveAndReduce(t, bRel, tOrig, bRelOrig);
      if |old(t)| >= 1 {
        ReductionRecorded();
      }
    }

    /** The two steps of `reduce_problem_size`, before the invariant is
        re-established. */
    method RemoveAndReduce(ghost t0: seq<real>, ghost b0: seq<seq<real>>, ghost o0: Option<seq<real>>, ghost bo0: Option<seq<seq<real>>>)
      returns (r: Result<(), Fault>)
      requires t == t0 && bRel == b0 && tOrig == o0 && bRelOrig == bo0
      requires nC == |bRel| && nB == |t| - 1 && Shaped(bRel, Cols(t)) && (tOrig.None? <==> bRelOrig.None?)
      requires tOrig.Some? ==> Faithful(tOrig.value, bRelOrig.value, t, bRel, kept)
      requires tOrig.Some? ==> BA.Rows(bRel, |bRel|, true) == [] && BA.Rows(bRel, |bRel|, false) == BA.Range(nC)
      modifies this`inactive, this`active, this`bRel, this`nC, this`tOrig, this`bRelOrig, this`t, this`kept, this`nB
      ensures |t0| == 0 <==> r == Err(ValueError(NegativeDimension))
      ensures |t0| == 1 <==> r == Err(ZeroDivisionError)
      ensures inactive == Some(BA.Rows(b0, |b0|, true)) && active == BA.Rows(b0, |b0|, false)
      ensures nC == |active|
      ensures o0.None? ==> tOrig == Some(t0) && bRelOrig == Some(BA.Select(b0, active))
      ensures o0.Some? ==> tOrig == o0 && bRelOrig == bo0
      ensures r.Ok? ==> Grid(t, bRel) == Repeated(Grid(t0, BA.Select(b0, active)))
      ensures r.Err? ==> t == t0 && bRel == BA.Select(b0, active)
      ensures |t0| >= 1 ==> tOrig.Some? && bRelOrig.Some? && |bRel| == nC && nB == |t| - 1
      ensures |t0| >= 1 ==> Faithful(tOrig.value, bRelOrig.value, t, bRel, kept)
    {
      RemoveForReduction(t0, b0, o0, bo0);
      r := ReduceNodeCount(t, bRel, tOrig, bRelOrig);
    }

    /** What the reduction needs of a valid problem; a reduced one has no
        all-zero row left. */
    lemma Reducible()
      requires Valid()
      ensures nC == |bRel| && nB == |t| - 1 && Shaped(bRel, Cols(t)) && (tOrig.None? <==> bRelOrig.None?)
      ensures tOrig.Some? ==> Faithful(tOrig.value, bRelOrig.value, t, bRel, kept)
      ensures tOrig.Some? ==> BA.Rows(bRel, |bRel|, true) == [] && BA.Rows(bRel, |bRel|, false) == BA.Range(nC)
    {
      ReducedNoInactive(tInit, locks, lost, t, bRel, nB, nC, tOrig, bRelOrig, inactive, active, dtLock, bBinLock,
                        tLocked, kept);
    }

    /** The first step of `reduce_problem_size`: the inactive controls are
        listed and removed; a reduced problem has none. */
    method RemoveForReduction(ghost t0: seq<real>, ghost b0: seq<seq<real>>, ghost o0: Option<seq<real>>, ghost bo0: Option<seq<seq<real>>>)
      requires t == t0 && bRel == b0 && tOrig == o0 && bRelOrig == bo0
      requires nC == |bRel| && nB == |t| - 1 && Shaped(bRel, Cols(t)) && (tOrig.None? <==> bRelOrig.None?)
      requires tOrig.Some? ==> Faithful(tOrig.value, bRelOrig.value, t, bRel, kept)
      requires tOrig.Some? ==> BA.Rows(bRel, |bRel|, true) == [] && BA.Rows(bRel, |bRel|, false) == BA.Range(nC)
      modifies this`inactive, this`active, this`bRel, this`nC
      ensures inactive == Some(BA.Rows(b0, |b0|, true)) && active == BA.Rows(b0, |b0|, false)
      ensures bRel == BA.Select(b0, active) && nC == |active| && |bRel| == nC
      ensures nB == |t| - 1 && Shaped(bRel, Cols(t)) && (tOrig.None? <==> bRelOrig.None?)
      ensures tOrig.Some? ==> Faithful(tOrig.value, bRelOrig.value, t, bRel, kept)
      ensures t == t0 && tOrig == o0 && bRelOrig == bo0
    {
      RemoveInactiveControls();
      RemovedShaped(t, b0, active);
    }

    /** A reduction keeps the invariant: the attributes the reduction
        writes are what it recorded, the others are unchanged. */
    twostate lemma ReductionRecorded()
      requires old(Valid())
      requires locks == old(locks) && lost == old(lost) && dtLock == old(dtLock) && bBinLock == old(bBinLock)
      requires tLocked == old(tLocked)
      requires inactive == Some(BA.Rows(old(bRel), |old(bRel)|, true)) && active == BA.Rows(old(bRel), |old(bRel)|, false)
      requires nC == |active|
      requires old(tOrig).None? ==> tOrig == Some(old(t)) && bRelOrig == Some(BA.Select(old(bRel), active))
      requires old(tOrig).Some? ==> tOrig == old(tOrig) && bRelOrig == old(bRelOrig)
      requires tOrig.Some? && bRelOrig.Some? && |bRel| == nC && nB == |t| - 1
      requires Faithful(tOrig.value, bRelOrig.value, t, bRel, kept)
      ensures Valid()
    {
      ReduceKeepsState(tInit, locks, lost, dtLock, bBinLock, tLocked, old(t), old(bRel), old(nB), old(nC),
                       old(tOrig), old(bRelOrig), old(inactive), old(active), old(kept), BA.Select(old(bRel), active),
                       t, bRel, nB, nC, tOrig, bRelOrig, inactive, active, kept);
    }

    /** `_retrieve_solution` (lines 508-542) on the solver's `eta` and
        `b_bin` for the problem as it stands. */
    method RetrieveSolution(solverEta: real, solved: seq<seq<real>>) returns (r: Result<(), Fault>)
      requires Valid() && |t| >= 1
      requires |solved| == nC && Shaped(solved, |t| - 1)
      modifies this`eta, this`bBin, this`t
      ensures tOrig.Some? ==> Fillable(tOrig.value, old(t))
      ensures eta == Some(solverEta) && bBin.Some?
      ensures Retrieval(r, t, bBin.value) ==
        Retrieve(old(t), tOrig, inactive, active, nC, dtLock, tLocked, bBinLock, solved)
    {
      ReducedFillable(tInit, locks, lost, t, bRel, nB, nC, tOrig, bRelOrig, inactive, active, dtLock, bBinLock,
                      tLocked, kept);
      var o := RetrieveParts(t, tOrig, inactive, active, nC, dtLock, tLocked, bBinLock, solved);
      r, eta, t, bBin := o.r, Some(solverEta), o.t, Some(o.bBin);
    }
  }

  /** `BinaryApproximationBaseClass(t, b_rel, tol)`: validation, then
      rounding; `n_c` is the number of rows and `n_b` of intervals. */
  method NewBaseProblem(t: seq<real>, bRel: BA.Matrix, tol: real) returns (r: Result<BaseProblem, Fault>)
    requires BA.Rectangular(bRel)
    ensures r.Err? <==> Validated(t, bRel).Err?
    ensures r.Err? ==> r.error == Validated(t, bRel).error
    ensures r.Ok? ==> fresh(r.value) && r.value.Valid()
    ensures r.Ok? ==> r.value.t == t && r.value.bRel == RoundAll(Validated(t, bRel).value.at, tol)
    ensures r.Ok? ==> r.value.nC == Validated(t, bRel).value.rows && r.value.nB == |t| - 1
    ensures r.Ok? ==> r.value.tOrig.None? && r.value.inactive.None? && r.value.tLocked.None? && r.value.bBin.None?
  {
    var v := Validated(t, bRel);
    if v.Err? {
      return Err(v.error);
    }
    var p := new BaseProblem(t, v.value.at, tol);
    return Ok(p);
  }
}
