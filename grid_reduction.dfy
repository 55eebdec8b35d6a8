// The time-grid reduction of the older Python front ends and its undoing:
// one pass of `_reduce_nodes` (pycombina/_binary_approximation.py:385-407),
// which is the same code as `_reduce_element_count`
// (pycombina/_combina.py:300-322), the repetition of passes, and the
// forward fill that `_retrieve_solution` uses to put a reduced solution
// back on the original grid (pycombina/_binary_approximation.py:518-528,
// pycombina/_combina.py:438-448).
//
// A pass keeps interval `k + 2` out of the problem when the five columns
// `k .. k + 4` of `b_rel` are binary and constant in every row and
// interval `k + 1` is still in.  A dropped interval is merged into the
// one before it.  Masks are `seq<bool>` as numpy's boolean index arrays.

module GridReduction {
  import opened Common
  import BA = BinaryApproximation

  /** Every row of `b` has `n` entries. */
  predicate Shaped(b: seq<seq<real>>, n: nat)
  {
    forall i :: 0 <= i < |b| ==> |b[i]| == n
  }

  /** The number of `True` entries of a mask. */
  function Count(m: seq<bool>): (c: nat)
    ensures c <= |m|
  {
    if |m| == 0 then 0 else Count(m[..|m| - 1]) + (if m[|m| - 1] then 1 else 0)
  }

  /** `v[m]`: the entries of `v` whose mask entry is `True`, in order. */
  function Pick<T>(v: seq<T>, m: seq<bool>): (r: seq<T>)
    requires |v| == |m|
    ensures |r| == Count(m)
  {
    if |m| == 0 then []
    else Pick(v[..|v| - 1], m[..|m| - 1]) + (if m[|m| - 1] then [v[|v| - 1]] else [])
  }

  /** `b[:, m]` */
  function PickColumns(b: seq<seq<real>>, m: seq<bool>): (r: seq<seq<real>>)
    requires Shaped(b, |m|)
    ensures |r| == |b| && Shaped(r, Count(m))
  {
    seq(|b|, i requires 0 <= i < |b| => Pick(b[i], m))
  }

  lemma CountStep(m: seq<bool>, j: nat)
    requires j < |m|
    ensures Count(m[..j + 1]) == Count(m[..j]) + (if m[j] then 1 else 0)
  {
    assert m[..j + 1][..j] == m[..j];
  }

  lemma {:induction false} CountMonotone(m: seq<bool>, i: nat, j: nat)
    requires i <= j <= |m|
    ensures Count(m[..i]) <= Count(m[..j])
    decreases j - i
  {
    if i < j {
      CountMonotone(m, i, j - 1);
      CountStep(m, j - 1);
    }
  }

  /** A kept entry has a place in the picked sequence. */
  lemma CountBefore(m: seq<bool>, j: nat)
    requires j < |m| && m[j]
    ensures Count(m[..j]) < Count(m)
  {
    CountStep(m, j);
    CountMonotone(m, j + 1, |m|);
    assert m[..|m|] == m;
  }

  /** Picking commutes with taking a prefix. */
  lemma {:induction false} PickPrefix<T>(v: seq<T>, m: seq<bool>, j: nat)
    requires |v| == |m| && j <= |m|
    ensures Count(m[..j]) <= Count(m)
    ensures Pick(v, m)[..Count(m[..j])] == Pick(v[..j], m[..j])
    decreases |m|
  {
    if j == |m| {
      assert v[..j] == v && m[..j] == m;
    } else {
      var n := |m| - 1;
      PickPrefix(v[..n], m[..n], j);
      assert v[..n][..j] == v[..j] && m[..n][..j] == m[..j];
      var head := Pick(v[..n], m[..n]);
      assert Pick(v, m)[..|head|] == head;
    }
  }

  /** The kept entry `j` sits at its rank in the picked sequence. */
  lemma PickAt<T>(v: seq<T>, m: seq<bool>, j: nat)
    requires |v| == |m| && j < |m| && m[j]
    ensures Count(m[..j]) < Count(m) && Pick(v, m)[Count(m[..j])] == v[j]
  {
    CountBefore(m, j);
    CountStep(m, j);
    var c := Count(m[..j]);
    var p := Pick(v[..j + 1], m[..j + 1]);
    assert v[..j + 1][..j] == v[..j] && m[..j + 1][..j] == m[..j];
    assert p == Pick(v[..j], m[..j]) + [v[j]];
    assert p[c] == v[j];
    PickPrefix(v, m, j + 1);
    assert Pick(v, m)[..c + 1] == p;
  }

  /** `x` is picked exactly when some kept entry is `x`. */
  lemma {:induction false} PickMembers<T>(v: seq<T>, m: seq<bool>, x: T)
    requires |v| == |m|
    ensures x in Pick(v, m) <==> exists j :: 0 <= j < |m| && m[j] && v[j] == x
    decreases |m|
  {
    if |m| > 0 {
      var n := |m| - 1;
      PickMembers(v[..n], m[..n], x);
      if x in Pick(v[..n], m[..n]) {
        var j :| 0 <= j < n && m[..n][j] && v[..n][j] == x;
        assert m[j] && v[j] == x;
      }
      if exists j :: 0 <= j < |m| && m[j] && v[j] == x {
        var j :| 0 <= j < |m| && m[j] && v[j] == x;
        if j < n {
          assert m[..n][j] && v[..n][j] == x;
        }
      }
    }
  }

  /** A mask of `True` only picks everything. */
  lemma {:induction false} PickAll<T>(v: seq<T>)
    ensures Pick(v, Repeat(true, |v|)) == v
    ensures Count(Repeat(true, |v|)) == |v|
    decreases |v|
  {
    if |v| > 0 {
      var n := |v| - 1;
      var all := Repeat(true, |v|);
      PickAll(v[..n]);
      assert all[..n] == Repeat(true, n);
      assert Pick(v, all) == Pick(v[..n], all[..n]) + [v[n]];
      SplitLast(v);
    }
  }

  // Forward fill

  /** The position in the picked sequence of the last kept entry at or
      before `j`: the entry that the forward fill copies into `j`. */
  function Latest(m: seq<bool>, j: nat): (r: nat)
    requires j < |m| && m[0]
    ensures r < Count(m)
    ensures r == Count(m[..j + 1]) - 1
    decreases j
  {
    CountStep(m, j);
    if m[j] then CountBefore(m, j); Count(m[..j]) else Latest(m, j - 1)
  }

  /** Every dropped entry repeats the one before it. */
  predicate Repeats(v: seq<real>, m: seq<bool>)
    requires |v| == |m|
  {
    forall j :: 0 < j < |m| && !m[j] ==> v[j] == v[j - 1]
  }

  /** With repeated dropped entries, the forward fill finds every
      original entry among the picked ones. */
  lemma {:induction false} PickLatest(v: seq<real>, m: seq<bool>, j: nat)
    requires |v| == |m| && j < |m| && m[0] && Repeats(v, m)
    ensures Pick(v, m)[Latest(m, j)] == v[j]
    decreases j
  {
    if m[j] {
      PickAt(v, m, j);
    } else {
      PickLatest(v, m, j - 1);
    }
  }

  /** A reduced matrix `red` put back on the grid of `m`: kept columns
      return to their places and every dropped column copies the column
      before it. */
  function Expanded(red: seq<seq<real>>, m: seq<bool>): (r: seq<seq<real>>)
    requires |m| > 0 ==> m[0]
    requires Shaped(red, Count(m))
    ensures |r| == |red| && Shaped(r, |m|)
    ensures forall i, j :: 0 <= i < |red| && 0 <= j < |m| && m[j] ==>
      Count(m[..j]) < Count(m) && r[i][j] == red[i][Count(m[..j])]
  {
    LatestSteps(m);
    seq(|red|, i requires 0 <= i < |red| =>
      seq(|m|, j requires 0 <= j < |m| => red[i][Latest(m, j)]))
  }

  /** A dropped column of the expansion copies the column before it. */
  lemma ExpandedDropped(red: seq<seq<real>>, m: seq<bool>, i: nat, j: nat)
    requires |m| > 0 ==> m[0]
    requires Shaped(red, Count(m))
    requires i < |red| && 0 < j < |m| && !m[j]
    ensures Expanded(red, m)[i][j] == Expanded(red, m)[i][j - 1]
  {
    LatestSteps(m);
  }

  /** A kept entry is its own latest; a dropped one takes its
      predecessor's. */
  lemma LatestSteps(m: seq<bool>)
    requires |m| > 0 ==> m[0]
    ensures forall j :: 0 <= j < |m| && m[j] ==> Count(m[..j]) < Count(m) && Latest(m, j) == Count(m[..j])
    ensures forall j :: 0 < j < |m| && !m[j] ==> Latest(m, j) == Latest(m, j - 1)
  {
    forall j | 0 <= j < |m| && m[j] ensures Count(m[..j]) < Count(m) {
      CountBefore(m, j);
    }
  }

  /** Expanding the picked columns of a matrix whose dropped columns
      repeat their predecessors gives the matrix back. */
  lemma ExpandedPicked(b: seq<seq<real>>, m: seq<bool>)
    requires |m| > 0 ==> m[0]
    requires Shaped(b, |m|) && forall i :: 0 <= i < |b| ==> Repeats(b[i], m)
    ensures Expanded(PickColumns(b, m), m) == b
  {
    var r := Expanded(PickColumns(b, m), m);
    forall i | 0 <= i < |b| ensures r[i] == b[i] {
      forall j | 0 <= j < |m| ensures r[i][j] == b[i][j] {
        PickLatest(b[i], m, j);
      }
    }
  }

  /** `np.full(shape, np.nan)` with `red` written into the columns kept by
      `m` (`b_bin[:, idx] = b_bin_reduced`); `None` is NaN. */
  function Scattered(red: seq<seq<real>>, m: seq<bool>): (x: seq<seq<Option<real>>>)
    requires Shaped(red, Count(m))
    ensures |x| == |red| && forall i :: 0 <= i < |red| ==> |x[i]| == |m|
    ensures forall i, j :: 0 <= i < |red| && 0 <= j < |m| ==> (x[i][j].None? <==> !m[j])
  {
    seq(|red|, i requires 0 <= i < |red| =>
      seq(|m|, j requires 0 <= j < |m| =>
        if m[j] then CountBefore(m, j); Some(red[i][Count(m[..j])]) else None))
  }

  /** `np.all(np.isnan(b_bin[:, k]))` */
  predicate Missing(x: seq<seq<Option<real>>>, k: nat)
    requires forall i :: 0 <= i < |x| ==> k < |x[i]|
  {
    forall i :: 0 <= i < |x| ==> x[i][k].None?
  }

  /** `b_bin[:, to] = b_bin[:, from]` */
  function CopyColumn(x: seq<seq<Option<real>>>, from: nat, to: nat): (r: seq<seq<Option<real>>>)
    requires forall i :: 0 <= i < |x| ==> from < |x[i]| && to < |x[i]|
    ensures |r| == |x| && forall i :: 0 <= i < |x| ==> r[i] == x[i][to := x[i][from]]
  {
    seq(|x|, i requires 0 <= i < |x| => x[i][to := x[i][from]])
  }

  /** A written column of the scattered matrix already holds the
      expansion. */
  lemma ScatteredKept(red: seq<seq<real>>, m: seq<bool>)
    requires |m| > 0 ==> m[0]
    requires Shaped(red, Count(m))
    ensures forall i, j :: 0 <= i < |red| && 0 <= j < |m| && m[j] ==>
      Scattered(red, m)[i][j] == Some(Expanded(red, m)[i][j])
  {
  }

  /** The first `k` columns of `x` hold the expansion `e`, the others are
      still the scattered `sc`. */
  predicate FilledUpTo(e: seq<seq<real>>, sc: seq<seq<Option<real>>>, x: seq<seq<Option<real>>>, n: nat, k: nat)
  {
    k <= n && |x| == |e| && |sc| == |e| &&
    (forall i :: 0 <= i < |e| ==> |x[i]| == n && |e[i]| == n && |sc[i]| == n) &&
    (forall i, j :: 0 <= i < |e| && 0 <= j < k ==> x[i][j] == Some(e[i][j])) &&
    (forall i, j :: 0 <= i < |e| && k <= j < n ==> x[i][j] == sc[i][j])
  }

  /** One turn of the fill loop: an all-NaN column is a dropped one (or
      there are no rows) and takes the filled column before it; a written
      column stays. */
  lemma FillTurn(e: seq<seq<real>>, sc: seq<seq<Option<real>>>, m: seq<bool>, x: seq<seq<Option<real>>>, k: nat)
    requires FilledUpTo(e, sc, x, |m|, k) && k < |m| && (|m| > 0 ==> m[0])
    requires forall i :: 0 <= i < |e| ==> (sc[i][k].None? <==> !m[k])
    requires m[k] ==> forall i :: 0 <= i < |e| ==> sc[i][k] == Some(e[i][k])
    requires !m[k] && k > 0 ==> forall i :: 0 <= i < |e| ==> e[i][k] == e[i][k - 1]
    ensures forall i :: 0 <= i < |x| ==> k < |x[i]| && |x[i]| == |m|
    ensures Missing(x, k) ==> FilledUpTo(e, sc, CopyColumn(x, if k == 0 then |m| - 1 else k - 1, k), |m|, k + 1)
    ensures !Missing(x, k) ==> FilledUpTo(e, sc, x, |m|, k + 1)
  {
    if Missing(x, k) && |e| > 0 {
      assert x[0][k] == sc[0][k];
    }
    if !Missing(x, k) {
      var i0 :| 0 <= i0 < |x| && x[i0][k].Some?;
      assert x[i0][k] == sc[i0][k];
    }
  }

  /** The re-expansion of `_retrieve_solution`: scatter the reduced
      solution into a NaN matrix, then walk the columns in order and copy
      the previous column into every column that is all NaN (column `-1`,
      the last one, for column 0, which a reduced grid always keeps). */
  method ForwardFill(red: seq<seq<real>>, m: seq<bool>) returns (b: seq<seq<real>>)
    requires |m| > 0 ==> m[0]
    requires Shaped(red, Count(m))
    ensures b == Expanded(red, m)
  {
    var x := Scattered(red, m);
    ghost var e := Expanded(red, m);
    ghost var sc := x;
    ScatteredKept(red, m);
    var k := 0;
    while k < |m|
      invariant FilledUpTo(e, sc, x, |m|, k)
    {
      forall i | 0 <= i < |e| && !m[k] && k > 0 ensures e[i][k] == e[i][k - 1] {
        ExpandedDropped(red, m, i, k);
      }
      FillTurn(e, sc, m, x, k);
      if Missing(x, k) {
        x := CopyColumn(x, if k == 0 then |m| - 1 else k - 1, k);
      }
      k := k + 1;
    }
    b := seq(|red|, i requires 0 <= i < |red| =>
      seq(|m|, j requires 0 <= j < |m| => if x[i][j].Some? then x[i][j].value else 0.0));
    assert forall i :: 0 <= i < |red| ==> b[i] == e[i];
  }

  // The drop rule

  predicate Binary(x: real)
  {
    x == 0.0 || x == 1.0
  }

  /** Columns `k .. k + 4` are all 0 or 1 (`np.isin`) and every row is
      constant over them, equal to its entry in column `k`. */
  predicate Flat(b: seq<seq<real>>, k: nat)
    requires forall i :: 0 <= i < |b| ==> k + 5 <= |b[i]|
  {
    forall i, l :: 0 <= i < |b| && k <= l < k + 5 ==> Binary(b[i][l]) && b[i][l] == b[i][k]
  }

  /** `len(range(n - 5))` */
  function Passes(n: nat): (r: nat)
    ensures r + 5 <= n || (r == 0 && n < 5)
  {
    if n >= 5 then n - 5 else 0
  }

  /** `idx_b_rel_reduced` after the first `k` turns of the loop over a
      matrix with `n` columns. */
  function Mask(b: seq<seq<real>>, n: nat, k: nat): (m: seq<bool>)
    requires Shaped(b, n) && k <= Passes(n)
    ensures |m| == n
  {
    if k == 0 then Repeat(true, n)
    else
      var p := Mask(b, n, k - 1);
      if Flat(b, k - 1) && p[k] then p[k + 1 := false] else p
  }

  /** The mask a whole pass leaves. */
  function Kept(b: seq<seq<real>>, n: nat): (m: seq<bool>)
    requires Shaped(b, n)
    ensures |m| == n
  {
    Mask(b, n, Passes(n))
  }

  /** Turn `k` only touches entry `k + 2`: later entries are still set. */
  lemma {:induction false} MaskAhead(b: seq<seq<real>>, n: nat, k: nat, j: nat)
    requires Shaped(b, n) && k <= Passes(n) && k + 2 <= j < n
    ensures Mask(b, n, k)[j]
    decreases k
  {
    if k > 0 {
      MaskAhead(b, n, k - 1, j);
    }
  }

  /** Entries before `k + 2` are final after turn `k`. */
  lemma {:induction false} MaskSettled(b: seq<seq<real>>, n: nat, k: nat, k2: nat, j: nat)
    requires Shaped(b, n) && k <= k2 <= Passes(n) && j < k + 2 && j < n
    ensures Mask(b, n, k2)[j] == Mask(b, n, k)[j]
    decreases k2
  {
    if k < k2 {
      MaskSettled(b, n, k, k2 - 1, j);
    }
  }

  /** The drop rule: interval `j` is left out exactly when the window
      starting two intervals earlier is flat and interval `j - 1` is kept. */
  lemma DropRule(b: seq<seq<real>>, n: nat, j: nat)
    requires Shaped(b, n) && j < n
    ensures !Kept(b, n)[j] <==>
      (2 <= j && j - 2 < Passes(n) && Flat(b, j - 2) && Kept(b, n)[j - 1])
  {
    var last := Passes(n);
    if j < 2 {
      MaskSettled(b, n, 0, last, j);
    } else if j - 2 >= last {
      MaskAhead(b, n, last, j);
    } else {
      var p := j - 2;
      MaskSettled(b, n, p + 1, last, j);
      MaskAhead(b, n, p, j);
      MaskSettled(b, n, p, last, p + 1);
    }
  }

  /** Intervals 0 and 1 and the last three are never dropped. */
  lemma KeptEnds(b: seq<seq<real>>, n: nat, j: nat)
    requires Shaped(b, n) && j < n && (j < 2 || j + 3 >= n)
    ensures Kept(b, n)[j]
  {
    DropRule(b, n, j);
  }

  /** No two neighbouring intervals are dropped in one pass. */
  lemma NoAdjacentDrops(b: seq<seq<real>>, n: nat, j: nat)
    requires Shaped(b, n) && 0 < j < n && !Kept(b, n)[j]
    ensures Kept(b, n)[j - 1]
  {
    DropRule(b, n, j);
  }

  /** A dropped column equals the column before it in every row. */
  lemma KeptRepeats(b: seq<seq<real>>, n: nat)
    requires Shaped(b, n)
    ensures forall i :: 0 <= i < |b| ==> Repeats(b[i], Kept(b, n))
  {
    forall i, j | 0 <= i < |b| && 0 < j < n && !Kept(b, n)[j] ensures b[i][j] == b[i][j - 1] {
      DropRule(b, n, j);
    }
  }

  /** The loop of lines 392-403 on a numpy boolean array. */
  method DropMask(b: seq<seq<real>>, n: nat) returns (idx: seq<bool>)
    requires Shaped(b, n)
    ensures idx == Kept(b, n)
  {
    var a := new bool[n](_ => true);
    assert a[..] == Repeat(true, n);
    for k := 0 to Passes(n)
      invariant a[..] == Mask(b, n, k)
    {
      if Flat(b, k) && a[k + 1] {
        a[k + 2] := false;
      }
    }
    idx := a[..];
  }

  // Reduced problems

  /** `np.append(t[:-1][idx], t[-1])`: the kept interval starts and the
      final time point. */
  function ReducedGrid(t: seq<real>, m: seq<bool>): (r: seq<real>)
    requires |t| == |m| + 1
    ensures |r| == Count(m) + 1 && r[Count(m)] == t[|m|]
  {
    Pick(t[..|m|], m) + [t[|m|]]
  }

  /** A problem: its time points and its relaxed controls. */
  datatype Grid = Grid(t: seq<real>, b: seq<seq<real>>)

  predicate Consistent(g: Grid)
  {
    |g.t| >= 1 && Shaped(g.b, |g.t| - 1)
  }

  /** One pass: time points and columns restricted to the kept intervals. */
  function Reduce(g: Grid): (r: Grid)
    requires Consistent(g)
    ensures Consistent(r) && |r.b| == |g.b| && |r.t| <= |g.t| && r.t[|r.t| - 1] == g.t[|g.t| - 1]
    ensures |r.t| == |g.t| <==> Kept(g.b, |g.t| - 1) == Repeat(true, |g.t| - 1)
  {
    var m := Kept(g.b, |g.t| - 1);
    AllKept(m);
    Grid(ReducedGrid(g.t, m), PickColumns(g.b, m))
  }

  /** A mask keeps everything exactly when its count is its length. */
  lemma {:induction false} AllKept(m: seq<bool>)
    ensures Count(m) == |m| <==> m == Repeat(true, |m|)
    decreases |m|
  {
    if |m| > 0 {
      var n := |m| - 1;
      AllKept(m[..n]);
      assert Repeat(true, |m|)[..n] == Repeat(true, n);
      if m == Repeat(true, |m|) {
        assert m[..n] == Repeat(true, n);
      }
      if Count(m) == |m| {
        assert m == m[..n] + [m[n]];
      }
    }
  }

  /** Passes repeated until one drops nothing, as `_reduce_node_count`
      (pycombina/_binary_approximation.py:419-433) does. */
  function Repeated(g: Grid): (r: Grid)
    requires Consistent(g)
    ensures Consistent(r) && |r.b| == |g.b| && |r.t| <= |g.t|
    ensures Reduce(r) == r
    decreases |g.t|
  {
    var h := Reduce(g);
    if |h.t| < |g.t| then Repeated(h) else ReduceFixed(g); g
  }

  /** A pass that drops nothing leaves the problem as it is. */
  lemma ReduceFixed(g: Grid)
    requires Consistent(g) && |Reduce(g).t| == |g.t|
    ensures Reduce(g) == g
  {
    var n := |g.t| - 1;
    PickAll(g.t[..n]);
    SplitLast(g.t);
    PickColumnsAll(g.b, n);
  }

  lemma PickColumnsAll(b: seq<seq<real>>, n: nat)
    requires Shaped(b, n)
    ensures PickColumns(b, Repeat(true, n)) == b
  {
    forall i | 0 <= i < |b| ensures Pick(b[i], Repeat(true, n)) == b[i] {
      PickAll(b[i]);
    }
  }

  // Passes over passes

  /** The mask on the original grid after a pass with mask `m` over a
      grid that mask `M` had already reduced. */
  function Compose(M: seq<bool>, m: seq<bool>): (r: seq<bool>)
    requires |m| == Count(M)
    ensures |r| == |M|
    decreases |M|
  {
    if |M| == 0 then []
    else if M[|M| - 1] then Compose(M[..|M| - 1], m[..|m| - 1]) + [m[|m| - 1]]
    else Compose(M[..|M| - 1], m) + [false]
  }

  /** An original interval survives both passes when it survived the
      first one and its reduced position survived the second. */
  lemma {:induction false} ComposeAt(M: seq<bool>, m: seq<bool>, j: nat)
    requires |m| == Count(M) && j < |M|
    ensures M[j] ==> Count(M[..j]) < |m|
    ensures Compose(M, m)[j] == (M[j] && m[Count(M[..j])])
    decreases |M|
  {
    if M[j] {
      CountBefore(M, j);
    }
    var n := |M| - 1;
    if j < n {
      var m' := if M[n] then m[..|m| - 1] else m;
      ComposeAt(M[..n], m', j);
      assert M[..n][..j] == M[..j];
    } else {
      assert M[..j] == M[..n];
    }
  }

  /** Picking twice is picking once with the composed mask. */
  lemma {:induction false} PickCompose<T>(v: seq<T>, M: seq<bool>, m: seq<bool>)
    requires |v| == |M| && |m| == Count(M)
    ensures Pick(Pick(v, M), m) == Pick(v, Compose(M, m))
    decreases |M|
  {
    if |M| > 0 {
      var n := |M| - 1;
      var C := Compose(M, m);
      assert C[..n] == Compose(M[..n], if M[n] then m[..|m| - 1] else m);
      if M[n] {
        PickCompose(v[..n], M[..n], m[..|m| - 1]);
        var p := Pick(v, M);
        assert p[..|p| - 1] == Pick(v[..n], M[..n]);
      } else {
        PickCompose(v[..n], M[..n], m);
        assert Pick(v, M) == Pick(v[..n], M[..n]);
        assert Pick(v, C) == Pick(v[..n], C[..n]);
      }
    }
  }

  lemma ComposeCount(M: seq<bool>, m: seq<bool>)
    requires |m| == Count(M)
    ensures Count(Compose(M, m)) == Count(m)
  {
    PickCompose(M, M, m);
  }

  /** A second pass that repeats its own dropped entries keeps an original
      row repeating its dropped entries. */
  lemma RepeatsCompose(v: seq<real>, M: seq<bool>, m: seq<bool>)
    requires |v| == |M| && |m| == Count(M) && (|M| > 0 ==> M[0]) && (|m| > 0 ==> m[0])
    requires Repeats(v, M) && Repeats(Pick(v, M), m)
    ensures Repeats(v, Compose(M, m))
  {
    var C := Compose(M, m);
    forall j | 0 < j < |M| && !C[j] ensures v[j] == v[j - 1] {
      ComposeAt(M, m, j);
      if M[j] {
        var c := Count(M[..j]);
        PickAt(v, M, j);
        PickLatest(v, M, j - 1);
        assert Latest(M, j - 1) == c - 1;
      }
    }
  }

  /** `(t, b)` is the original problem `(tOrig, bOrig)` restricted to the
      intervals `kept`, and every dropped column of the original repeats
      the column before it. */
  predicate Faithful(tOrig: seq<real>, bOrig: seq<seq<real>>, t: seq<real>, b: seq<seq<real>>, kept: seq<bool>)
  {
    |tOrig| >= 1 && |kept| == |tOrig| - 1 && Shaped(bOrig, |kept|) &&
    (|kept| > 0 ==> kept[0]) &&
    (forall i :: 0 <= i < |bOrig| ==> Repeats(bOrig[i], kept)) &&
    t == ReducedGrid(tOrig, kept) && b == PickColumns(bOrig, kept)
  }

  lemma SplitLast<T>(t: seq<T>)
    requires |t| >= 1
    ensures t == t[..|t| - 1] + [t[|t| - 1]]
  {
  }

  /** An unreduced problem is its own faithful reduction. */
  lemma FaithfulStart(t: seq<real>, b: seq<seq<real>>)
    requires Consistent(Grid(t, b))
    ensures Faithful(t, b, t, b, Repeat(true, |t| - 1))
  {
    var n := |t| - 1;
    var all := Repeat(true, n);
    PickAll(t[..n]);
    SplitLast(t);
    assert t == ReducedGrid(t, all);
    PickColumnsAll(b, n);
    assert forall i :: 0 <= i < |b| ==> Repeats(b[i], all);
  }

  /** A pass keeps the reduction faithful, with the composed mask. */
  lemma FaithfulStep(tOrig: seq<real>, bOrig: seq<seq<real>>, t: seq<real>, b: seq<seq<real>>, kept: seq<bool>)
    requires Faithful(tOrig, bOrig, t, b, kept)
    ensures Consistent(Grid(t, b))
    ensures var m := Kept(b, |t| - 1);
      |m| == Count(kept) &&
      Faithful(tOrig, bOrig, ReducedGrid(t, m), PickColumns(b, m), Compose(kept, m))
  {
    var n := |t| - 1;
    var m := Kept(b, n);
    if n > 0 {
      KeptEnds(b, n, 0);
    }
    KeptRepeats(b, n);
    ComposeFaithful(tOrig, bOrig, t, b, kept, m);
  }

  /** Any further pass whose mask keeps its first interval and whose
      dropped columns repeat their predecessors keeps the reduction
      faithful. */
  lemma ComposeFaithful(tOrig: seq<real>, bOrig: seq<seq<real>>, t: seq<real>, b: seq<seq<real>>,
                        kept: seq<bool>, m: seq<bool>)
    requires Faithful(tOrig, bOrig, t, b, kept)
    requires |m| == Count(kept) && (|m| > 0 ==> m[0])
    requires forall i :: 0 <= i < |b| ==> Repeats(b[i], m)
    ensures Faithful(tOrig, bOrig, ReducedGrid(t, m), PickColumns(b, m), Compose(kept, m))
  {
    var C := Compose(kept, m);
    ComposeStart(kept, m);
    ComposeRepeats(bOrig, b, kept, m);
    ComposePicks(tOrig, bOrig, t, b, kept, m);
  }

  lemma ComposeStart(kept: seq<bool>, m: seq<bool>)
    requires |m| == Count(kept) && (|kept| > 0 ==> kept[0]) && (|m| > 0 ==> m[0])
    ensures |Compose(kept, m)| > 0 ==> Compose(kept, m)[0]
  {
    if |kept| > 0 {
      CountBefore(kept, 0);
      ComposeAt(kept, m, 0);
    }
  }

  lemma ComposeRepeats(bOrig: seq<seq<real>>, b: seq<seq<real>>, kept: seq<bool>, m: seq<bool>)
    requires Shaped(bOrig, |kept|) && (|kept| > 0 ==> kept[0])
    requires forall i :: 0 <= i < |bOrig| ==> Repeats(bOrig[i], kept)
    requires b == PickColumns(bOrig, kept)
    requires |m| == Count(kept) && (|m| > 0 ==> m[0])
    requires forall i :: 0 <= i < |b| ==> Repeats(b[i], m)
    ensures forall i :: 0 <= i < |bOrig| ==> Repeats(bOrig[i], Compose(kept, m))
  {
    forall i | 0 <= i < |bOrig| ensures Repeats(bOrig[i], Compose(kept, m)) {
      assert b[i] == Pick(bOrig[i], kept);
      RepeatsCompose(bOrig[i], kept, m);
    }
  }

  lemma ComposePicks(tOrig: seq<real>, bOrig: seq<seq<real>>, t: seq<real>, b: seq<seq<real>>,
                     kept: seq<bool>, m: seq<bool>)
    requires |tOrig| == |kept| + 1 && Shaped(bOrig, |kept|) && |m| == Count(kept)
    requires t == ReducedGrid(tOrig, kept) && b == PickColumns(bOrig, kept)
    ensures ReducedGrid(t, m) == ReducedGrid(tOrig, Compose(kept, m))
    ensures PickColumns(b, m) == PickColumns(bOrig, Compose(kept, m))
  {
    var N := |kept|;
    var C := Compose(kept, m);
    ComposeCount(kept, m);
    assert t[..|m|] == Pick(tOrig[..N], kept);
    PickCompose(tOrig[..N], kept, m);
    forall i | 0 <= i < |bOrig| ensures PickColumns(b, m)[i] == Pick(bOrig[i], C) {
      PickCompose(bOrig[i], kept, m);
    }
  }

  /** The starts of the original intervals found again in a faithful
      reduction (`np.in1d(t_orig[:-1], t[:-1])`) are exactly the kept ones. */
  function InGrid(tOrig: seq<real>, t: seq<real>): (r: seq<bool>)
    requires |tOrig| >= 1 && |t| >= 1
    ensures |r| == |tOrig| - 1
  {
    seq(|tOrig| - 1, j requires 0 <= j < |tOrig| - 1 => tOrig[j] in t[..|t| - 1])
  }

  lemma InGridKept(tOrig: seq<real>, bOrig: seq<seq<real>>, t: seq<real>, b: seq<seq<real>>, kept: seq<bool>)
    requires Faithful(tOrig, bOrig, t, b, kept) && BA.Increasing(tOrig)
    ensures InGrid(tOrig, t) == kept
  {
    var N := |kept|;
    assert t[..|t| - 1] == Pick(tOrig[..N], kept);
    forall j | 0 <= j < N ensures InGrid(tOrig, t)[j] == kept[j] {
      InGridAt(tOrig, t[..|t| - 1], kept, j);
    }
  }

  /** A distinct start time is found among the picked ones exactly when
      its interval is kept. */
  lemma InGridAt(tOrig: seq<real>, starts: seq<real>, kept: seq<bool>, j: nat)
    requires BA.Increasing(tOrig) && |kept| == |tOrig| - 1 && j < |kept|
    requires starts == Pick(tOrig[..|kept|], kept)
    ensures tOrig[j] in starts <==> kept[j]
  {
    var N := |kept|;
    PickMembers(tOrig[..N], kept, tOrig[j]);
    if tOrig[j] in starts {
      var l :| 0 <= l < N && kept[l] && tOrig[..N][l] == tOrig[j];
      if l < j {
        BA.IncreasingPairs(tOrig, l, j);
      } else if j < l {
        BA.IncreasingPairs(tOrig, j, l);
      }
    }
  }

  /** Nothing is lost: the forward fill of a faithful reduction, on the
      mask that `np.in1d` recovers, gives the original controls back. */
  lemma FaithfulRoundTrip(tOrig: seq<real>, bOrig: seq<seq<real>>, t: seq<real>, b: seq<seq<real>>, kept: seq<bool>)
    requires Faithful(tOrig, bOrig, t, b, kept) && BA.Increasing(tOrig)
    ensures InGrid(tOrig, t) == kept
    ensures Expanded(b, kept) == bOrig
  {
    InGridKept(tOrig, bOrig, t, b, kept);
    ExpandedPicked(bOrig, kept);
  }
}
