// Sum-up rounding over several mutually exclusive controls
// (pycombina/_combina_sur.py, `CombinaSUR._run_sur`).  Each interval adds
// `b_rel[j][i] * dt[i]` to every control's accumulator, activates the
// first control whose accumulator is then largest, and takes `dt[i]` back
// from it.  The specification is the state after `i` intervals, `Run`; the
// method `RunSur` computes it with the source's two nested loops.

module SumUpRounding {
  import opened Common

  /** The failure of the source when there is no control to activate:
      indexing the empty `b_bin` raises `IndexError`. */
  datatype SurFault = IndexError

  /** The relaxed controls and interval lengths of a problem with `nC`
      controls and `nT` intervals. */
  predicate Shaped(bRel: seq<seq<real>>, dt: seq<real>, nC: nat, nT: nat)
  {
    |bRel| == nC && |dt| == nT && forall j :: 0 <= j < nC ==> |bRel[j]| == nT
  }

  /** The position the inner loop settles on after looking at `u[..n]`:
      it moves to `j` only when `u[j]` beats the current choice. */
  function FirstMax(u: seq<real>, n: nat): (r: nat)
    requires 0 < n <= |u|
    ensures r < n
  {
    if n == 1 then 0
    else
      var b := FirstMax(u, n - 1);
      if u[n - 1] > u[b] then n - 1 else b
  }

  /** The choice is the lowest index attaining the maximum of `u[..n]`. */
  lemma {:induction false} FirstMaxIsLowestArgMax(u: seq<real>, n: nat)
    requires 0 < n <= |u|
    ensures forall k :: 0 <= k < n ==> u[k] <= u[FirstMax(u, n)]
    ensures forall k :: 0 <= k < FirstMax(u, n) ==> u[k] < u[FirstMax(u, n)]
  {
    if n > 1 {
      FirstMaxIsLowestArgMax(u, n - 1);
    }
  }

  /** No other index has both properties, so they pin the choice down. */
  lemma FirstMaxUnique(u: seq<real>, n: nat, r: nat)
    requires 0 < n <= |u| && r < n
    requires forall k :: 0 <= k < n ==> u[k] <= u[r]
    requires forall k :: 0 <= k < r ==> u[k] < u[r]
    ensures r == FirstMax(u, n)
  {
    FirstMaxIsLowestArgMax(u, n);
  }

  /** Every accumulator after adding interval `i`'s relaxed share. */
  function Raised(acc: seq<real>, bRel: seq<seq<real>>, dt: seq<real>, i: nat): (u: seq<real>)
    requires |acc| == |bRel| && i < |dt|
    requires forall j :: 0 <= j < |bRel| ==> i < |bRel[j]|
    ensures |u| == |acc|
  {
    seq(|acc|, j requires 0 <= j < |acc| => acc[j] + bRel[j][i] * dt[i])
  }

  /** The state of `_run_sur` after the first `i` intervals: the
      accumulators `eta_i` and the control chosen in each interval so far. */
  datatype SurState = SurState(acc: seq<real>, choices: seq<nat>)

  /** The control interval `i` activates: the first maximum of the
      raised accumulators. */
  function Choice(acc: seq<real>, bRel: seq<seq<real>>, dt: seq<real>, i: nat): (c: nat)
    requires |acc| == |bRel| && 0 < |acc| && i < |dt|
    requires forall j :: 0 <= j < |bRel| ==> i < |bRel[j]|
    ensures c < |acc|
  {
    FirstMax(Raised(acc, bRel, dt, i), |acc|)
  }

  /** The accumulators once interval `i`'s length is taken back from the
      activated control. */
  function Settled(acc: seq<real>, bRel: seq<seq<real>>, dt: seq<real>, i: nat): (r: seq<real>)
    requires |acc| == |bRel| && 0 < |acc| && i < |dt|
    requires forall j :: 0 <= j < |bRel| ==> i < |bRel[j]|
    ensures |r| == |acc|
  {
    var u := Raised(acc, bRel, dt, i);
    var c := Choice(acc, bRel, dt, i);
    u[c := u[c] - dt[i]]
  }

  /** Each settled accumulator gained its relaxed share and, if activated,
      lost the interval's length. */
  lemma SettledEntry(acc: seq<real>, bRel: seq<seq<real>>, dt: seq<real>, i: nat, j: nat)
    requires |acc| == |bRel| && 0 < |acc| && i < |dt| && j < |acc|
    requires forall j :: 0 <= j < |bRel| ==> i < |bRel[j]|
    ensures Settled(acc, bRel, dt, i)[j] ==
      acc[j] + bRel[j][i] * dt[i] - (if j == Choice(acc, bRel, dt, i) then dt[i] else 0.0)
  {
  }

  function Run(bRel: seq<seq<real>>, dt: seq<real>, nC: nat, nT: nat, i: nat): (s: SurState)
    requires Shaped(bRel, dt, nC, nT) && i <= nT && (i == 0 || nC > 0)
    ensures |s.acc| == nC && |s.choices| == i
    ensures forall k :: 0 <= k < i ==> s.choices[k] < nC
  {
    if i == 0 then SurState(Repeat(0.0, nC), [])
    else
      var s := Run(bRel, dt, nC, nT, i - 1);
      SurState(Settled(s.acc, bRel, dt, i - 1), s.choices + [Choice(s.acc, bRel, dt, i - 1)])
  }

  lemma SettleActive(bRel: seq<seq<real>>, dt: seq<real>, i: nat, acc: seq<real>, u: seq<real>, c: nat)
    requires |acc| == |bRel| && 0 < |acc| && i < |dt|
    requires forall j :: 0 <= j < |bRel| ==> i < |bRel[j]|
    requires u == Raised(acc, bRel, dt, i) && c == Choice(acc, bRel, dt, i)
    ensures c < |u| && u[c := u[c] - dt[i]] == Settled(acc, bRel, dt, i)
  {
  }

  lemma RunNext(bRel: seq<seq<real>>, dt: seq<real>, nC: nat, nT: nat, i: nat, acc: seq<real>, cs: seq<nat>)
    requires Shaped(bRel, dt, nC, nT) && i < nT && nC > 0
    requires Run(bRel, dt, nC, nT, i) == SurState(acc, cs)
    ensures Run(bRel, dt, nC, nT, i + 1) == SurState(Settled(acc, bRel, dt, i), cs + [Choice(acc, bRel, dt, i)])
    ensures RunEta(bRel, dt, nC, nT, i + 1) == Max(RunEta(bRel, dt, nC, nT, i), MaxAbs(Settled(acc, bRel, dt, i)))
  {
  }

  /** The running maximum `eta` after the first `i` intervals. */
  function RunEta(bRel: seq<seq<real>>, dt: seq<real>, nC: nat, nT: nat, i: nat): real
    requires Shaped(bRel, dt, nC, nT) && i <= nT && (i == 0 || nC > 0)
  {
    if i == 0 then 0.0
    else Max(RunEta(bRel, dt, nC, nT, i - 1), MaxAbs(Run(bRel, dt, nC, nT, i).acc))
  }

  /** Row `j` of the binary result: 1 in the intervals that chose `j`. */
  function Indicator(cs: seq<nat>, j: nat): (row: seq<real>)
    ensures |row| == |cs|
  {
    seq(|cs|, k requires 0 <= k < |cs| => if cs[k] == j then 1.0 else 0.0)
  }

  /** The `n_c x n_t` matrix `b_bin` the choices describe. */
  function OneHot(cs: seq<nat>, nC: nat): (b: seq<seq<real>>)
    ensures |b| == nC
  {
    seq(nC, j requires 0 <= j < nC => Indicator(cs, j))
  }

  /** `b_bin` while the outer loop is at interval `|cs|`: the columns not
      reached yet are still the zeros `np.zeros` filled in. */
  function Partial(cs: seq<nat>, nC: nat, nT: nat): (b: seq<seq<real>>)
    requires |cs| <= nT
    ensures |b| == nC && forall j :: 0 <= j < nC ==> |b[j]| == nT
  {
    seq(nC, j requires 0 <= j < nC => Indicator(cs, j) + Repeat(0.0, nT - |cs|))
  }

  lemma PartialComplete(cs: seq<nat>, nC: nat)
    ensures Partial(cs, nC, |cs|) == OneHot(cs, nC)
  {
    forall j | 0 <= j < nC ensures Partial(cs, nC, |cs|)[j] == OneHot(cs, nC)[j] {
      assert Indicator(cs, j) + Repeat(0.0, 0) == Indicator(cs, j);
    }
  }

  lemma PartialEmpty(nC: nat, nT: nat)
    ensures Partial([], nC, nT) == Repeat(Repeat(0.0, nT), nC)
  {
    forall j | 0 <= j < nC ensures Partial([], nC, nT)[j] == Repeat(0.0, nT) {
      assert Indicator([], j) + Repeat(0.0, nT) == Repeat(0.0, nT);
    }
  }

  /** Activating control `c` in interval `|cs|` sets just that entry. */
  lemma PartialStep(cs: seq<nat>, nC: nat, nT: nat, c: nat)
    requires |cs| < nT && c < nC
    ensures var b := Partial(cs, nC, nT);
      Partial(cs + [c], nC, nT) == b[c := b[c][|cs| := 1.0]]
  {
    var b := Partial(cs, nC, nT);
    var b' := Partial(cs + [c], nC, nT);
    forall j | 0 <= j < nC ensures b'[j] == b[c := b[c][|cs| := 1.0]][j] {
      forall k | 0 <= k < nT ensures b'[j][k] == b[c := b[c][|cs| := 1.0]][j][k] {
        if k < |cs| {
          assert b'[j][k] == Indicator(cs + [c], j)[k] == Indicator(cs, j)[k] == b[j][k];
        } else if k == |cs| {
          assert b'[j][k] == Indicator(cs + [c], j)[k];
        } else {
          assert b'[j][k] == 0.0 == b[j][k];
        }
      }
    }
  }

  /** `Σ_{k<i} dt[k]·(rel[k] − bin[k])`: how far a binary row lags behind
      the relaxed one after `i` intervals. */
  function Deviation(rel: seq<real>, bin: seq<real>, dt: seq<real>, i: nat): real
    requires i <= |rel| && i <= |bin| && i <= |dt|
  {
    if i == 0 then 0.0
    else Deviation(rel, bin, dt, i - 1) + rel[i - 1] * dt[i - 1] - bin[i - 1] * dt[i - 1]
  }

  /** The deviation only reads the first `i` entries of the binary row. */
  lemma {:induction false} DeviationFrame(rel: seq<real>, bin: seq<real>, bin': seq<real>, dt: seq<real>, i: nat)
    requires i <= |rel| && i <= |bin| && i <= |bin'| && i <= |dt|
    requires bin[..i] == bin'[..i]
    ensures Deviation(rel, bin, dt, i) == Deviation(rel, bin', dt, i)
  {
    if i > 0 {
      assert bin[i - 1] == bin[..i][i - 1];
      assert bin[..i - 1] == bin[..i][..i - 1];
      assert bin'[..i - 1] == bin'[..i][..i - 1];
      DeviationFrame(rel, bin, bin', dt, i - 1);
    }
  }

  /** The max-norm objective of a binary matrix: the largest
      `|Deviation|` over all controls and all interval ends `1..n`, or 0
      when there are none. */
  function Objective(bRel: seq<seq<real>>, bBin: seq<seq<real>>, dt: seq<real>, n: nat): (r: real)
    requires |bBin| == |bRel| && n <= |dt|
    requires forall j :: 0 <= j < |bRel| ==> n <= |bRel[j]| && n <= |bBin[j]|
    ensures r >= 0.0
  {
    if n == 0 then 0.0
    else Max(Objective(bRel, bBin, dt, n - 1), MaxAbs(Deviations(bRel, bBin, dt, n)))
  }

  /** Every control's deviation after `n` intervals. */
  function Deviations(bRel: seq<seq<real>>, bBin: seq<seq<real>>, dt: seq<real>, n: nat): (d: seq<real>)
    requires |bBin| == |bRel| && n <= |dt|
    requires forall j :: 0 <= j < |bRel| ==> n <= |bRel[j]| && n <= |bBin[j]|
    ensures |d| == |bRel|
  {
    seq(|bRel|, j requires 0 <= j < |bRel| => Deviation(bRel[j], bBin[j], dt, n))
  }

  /** The objective bounds every control's deviation at every interval end. */
  lemma {:induction false} ObjectiveBounds(bRel: seq<seq<real>>, bBin: seq<seq<real>>, dt: seq<real>, n: nat, i: nat, j: nat)
    requires |bBin| == |bRel| && n <= |dt|
    requires forall j :: 0 <= j < |bRel| ==> n <= |bRel[j]| && n <= |bBin[j]|
    requires 1 <= i <= n && j < |bRel|
    ensures Abs(Deviation(bRel[j], bBin[j], dt, i)) <= Objective(bRel, bBin, dt, n)
  {
    if i < n {
      ObjectiveBounds(bRel, bBin, dt, n - 1, i, j);
    } else {
      assert Abs(Deviations(bRel, bBin, dt, n)[j]) <= MaxAbs(Deviations(bRel, bBin, dt, n));
    }
  }

  /** A bound on every control's deviation at every interval end `1..n`
      bounds the objective: the objective is the least such bound. */
  lemma {:induction false} ObjectiveAtMost(bRel: seq<seq<real>>, bBin: seq<seq<real>>, dt: seq<real>, n: nat, bound: real)
    requires |bBin| == |bRel| && n <= |dt|
    requires forall j :: 0 <= j < |bRel| ==> n <= |bRel[j]| && n <= |bBin[j]|
    requires bound >= 0.0
    requires forall i, j :: 1 <= i <= n && 0 <= j < |bRel| ==> Abs(Deviation(bRel[j], bBin[j], dt, i)) <= bound
    ensures Objective(bRel, bBin, dt, n) <= bound
  {
    if n > 0 {
      ObjectiveAtMost(bRel, bBin, dt, n - 1, bound);
      var d := Deviations(bRel, bBin, dt, n);
      if |d| > 0 {
        var j :| 0 <= j < |d| && MaxAbs(d) == Abs(d[j]);
      }
    }
  }

  /** Sum of column `k` over the first `n` rows. */
  function ColumnSum(b: seq<seq<real>>, k: nat, n: nat): real
    requires n <= |b| && forall j :: 0 <= j < n ==> k < |b[j]|
  {
    if n == 0 then 0.0 else ColumnSum(b, k, n - 1) + b[n - 1][k]
  }

  lemma {:induction false} OneHotColumn(cs: seq<nat>, nC: nat, k: nat, n: nat)
    requires k < |cs| && n <= nC
    ensures ColumnSum(OneHot(cs, nC), k, n) == if cs[k] < n then 1.0 else 0.0
  {
    if n > 0 {
      OneHotColumn(cs, nC, k, n - 1);
    }
  }

  /** Every interval column of a result holds one 1 and zeros elsewhere. */
  lemma OneHotColumns(cs: seq<nat>, nC: nat)
    requires forall k :: 0 <= k < |cs| ==> cs[k] < nC
    ensures forall j, k :: 0 <= j < nC && 0 <= k < |cs| ==>
        OneHot(cs, nC)[j][k] == 0.0 || OneHot(cs, nC)[j][k] == 1.0
    ensures forall k :: 0 <= k < |cs| ==> ColumnSum(OneHot(cs, nC), k, nC) == 1.0
  {
    forall k | 0 <= k < |cs| ensures ColumnSum(OneHot(cs, nC), k, nC) == 1.0 {
      OneHotColumn(cs, nC, k, nC);
    }
  }

  /** One interval of the accumulator identity, for one control row. */
  lemma RowStep(rel: seq<real>, cs: seq<nat>, c: nat, j: nat, dt: seq<real>, i: nat, a: real, d: real)
    requires i == |cs| && i < |rel| && i < |dt|
    requires a == Deviation(rel, Indicator(cs, j), dt, i)
    requires d == Deviation(rel, Indicator(cs + [c], j), dt, i + 1)
    ensures d == a + rel[i] * dt[i] - (if c == j then dt[i] else 0.0)
  {
    var ind := Indicator(cs + [c], j);
    assert ind[..i] == Indicator(cs, j)[..i];
    DeviationFrame(rel, ind, Indicator(cs, j), dt, i);
    assert ind[i] == if c == j then 1.0 else 0.0;
    BitStep(rel, ind, dt, i, a, d, c == j);
  }

  lemma BitStep(rel: seq<real>, ind: seq<real>, dt: seq<real>, i: nat, a: real, d: real, chosen: bool)
    requires i < |rel| && i < |dt| && i < |ind|
    requires ind[i] == if chosen then 1.0 else 0.0
    requires a == Deviation(rel, ind, dt, i)
    requires d == Deviation(rel, ind, dt, i + 1)
    ensures d == a + rel[i] * dt[i] - (if chosen then dt[i] else 0.0)
  {
    ScaleByBit(ind[i], dt[i]);
  }

  /** Multiplying by a binary entry. */
  lemma ScaleByBit(x: real, y: real)
    requires x == 0.0 || x == 1.0
    ensures x * y == if x == 1.0 then y else 0.0
  {
  }

  /** After `i` intervals each accumulator is its control's deviation. */
  lemma {:induction false} RunAccumulates(bRel: seq<seq<real>>, dt: seq<real>, nC: nat, nT: nat, i: nat)
    requires Shaped(bRel, dt, nC, nT) && i <= nT && (i == 0 || nC > 0)
    ensures forall j :: 0 <= j < nC ==>
        Run(bRel, dt, nC, nT, i).acc[j] == Deviation(bRel[j], Indicator(Run(bRel, dt, nC, nT, i).choices, j), dt, i)
  {
    if i > 0 {
      RunAccumulates(bRel, dt, nC, nT, i - 1);
      var s := Run(bRel, dt, nC, nT, i - 1);
      var acc := Settled(s.acc, bRel, dt, i - 1);
      var cs := s.choices + [Choice(s.acc, bRel, dt, i - 1)];
      assert Run(bRel, dt, nC, nT, i) == SurState(acc, cs);
      forall j | 0 <= j < nC ensures acc[j] == Deviation(bRel[j], Indicator(cs, j), dt, i) {
        AccumulatesStep(bRel, dt, s.acc, s.choices, i - 1, j);
      }
    }
  }

  lemma AccumulatesStep(bRel: seq<seq<real>>, dt: seq<real>, acc: seq<real>, cs: seq<nat>, i: nat, j: nat)
    requires |acc| == |bRel| && 0 < |acc| && i < |dt| && j < |acc| && i == |cs|
    requires forall j :: 0 <= j < |bRel| ==> i < |bRel[j]|
    requires acc[j] == Deviation(bRel[j], Indicator(cs, j), dt, i)
    ensures Settled(acc, bRel, dt, i)[j] ==
      Deviation(bRel[j], Indicator(cs + [Choice(acc, bRel, dt, i)], j), dt, i + 1)
  {
    var c := Choice(acc, bRel, dt, i);
    SettledEntry(acc, bRel, dt, i, j);
    RowStep(bRel[j], cs, c, j, dt, i, acc[j], Deviation(bRel[j], Indicator(cs + [c], j), dt, i + 1));
  }

  /** Later intervals never revise earlier choices. */
  lemma {:induction false} RunPrefix(bRel: seq<seq<real>>, dt: seq<real>, nC: nat, nT: nat, i: nat, n: nat)
    requires Shaped(bRel, dt, nC, nT) && i <= n <= nT && (n == 0 || nC > 0)
    ensures Run(bRel, dt, nC, nT, n).choices[..i] == Run(bRel, dt, nC, nT, i).choices
    decreases n
  {
    if i < n {
      RunPrefix(bRel, dt, nC, nT, i, n - 1);
      assert Run(bRel, dt, nC, nT, n).choices[..n - 1] == Run(bRel, dt, nC, nT, n - 1).choices;
    }
  }

  /** The accumulator identity against the returned `b_bin`. */
  lemma SurDeviation(bRel: seq<seq<real>>, dt: seq<real>, nC: nat, nT: nat, i: nat, j: nat)
    requires Shaped(bRel, dt, nC, nT) && i <= nT && j < nC
    ensures Run(bRel, dt, nC, nT, i).acc[j] ==
      Deviation(bRel[j], OneHot(Run(bRel, dt, nC, nT, nT).choices, nC)[j], dt, i)
  {
    RunAccumulates(bRel, dt, nC, nT, i);
    RunPrefix(bRel, dt, nC, nT, i, nT);
    var full := Run(bRel, dt, nC, nT, nT).choices;
    var part := Run(bRel, dt, nC, nT, i).choices;
    assert OneHot(full, nC)[j][..i] == Indicator(part, j)[..i];
    DeviationFrame(bRel[j], OneHot(full, nC)[j], Indicator(part, j), dt, i);
  }

  /** `eta` after `i` intervals is the objective of the returned `b_bin`
      over those intervals; at `i = nT` it is its max-norm objective. */
  lemma {:induction false} SurEtaIsObjective(bRel: seq<seq<real>>, dt: seq<real>, nC: nat, nT: nat, i: nat)
    requires Shaped(bRel, dt, nC, nT) && i <= nT && (nT == 0 || nC > 0)
    ensures RunEta(bRel, dt, nC, nT, i) == Objective(bRel, OneHot(Run(bRel, dt, nC, nT, nT).choices, nC), dt, i)
  {
    if i > 0 {
      SurEtaIsObjective(bRel, dt, nC, nT, i - 1);
      var b := OneHot(Run(bRel, dt, nC, nT, nT).choices, nC);
      var acc := Run(bRel, dt, nC, nT, i).acc;
      forall j | 0 <= j < nC ensures acc[j] == Deviation(bRel[j], b[j], dt, i) {
        SurDeviation(bRel, dt, nC, nT, i, j);
      }
      assert acc == Deviations(bRel, b, dt, i);
    }
  }

  /** `eta` is a running maximum: it never decreases from one interval to
      a later one. */
  lemma {:induction false} EtaNeverDecreases(bRel: seq<seq<real>>, dt: seq<real>, nC: nat, nT: nat, i: nat, n: nat)
    requires Shaped(bRel, dt, nC, nT) && i <= n <= nT && (n == 0 || nC > 0)
    ensures RunEta(bRel, dt, nC, nT, i) <= RunEta(bRel, dt, nC, nT, n)
    decreases n
  {
    if i < n {
      EtaNeverDecreases(bRel, dt, nC, nT, i, n - 1);
    }
  }

  /** The inner loop of one interval: raise every accumulator by its
      relaxed share and keep the first maximum seen, moving only on a
      strictly larger value. */
  method RaiseAndChoose(bRel: seq<seq<real>>, dt: seq<real>, nC: nat, i: nat, acc0: seq<real>)
      returns (etaI: seq<real>, bActive: nat)
    requires |bRel| == nC && |acc0| == nC && 0 < nC && i < |dt|
    requires forall j :: 0 <= j < nC ==> i < |bRel[j]|
    ensures etaI == Raised(acc0, bRel, dt, i)
    ensures bActive == Choice(acc0, bRel, dt, i)
  {
    ghost var u := Raised(acc0, bRel, dt, i);
    etaI := acc0;
    bActive := 0;
    var j := 0;
    while j < nC
      invariant j <= nC && |etaI| == nC
      invariant forall k :: 0 <= k < j ==> etaI[k] == u[k]
      invariant forall k :: j <= k < nC ==> etaI[k] == acc0[k]
      invariant bActive == if j == 0 then 0 else FirstMax(u, j)
    {
      etaI := etaI[j := etaI[j] + bRel[j][i] * dt[i]];
      if etaI[j] > etaI[bActive] {
        bActive := j;
      }
      j := j + 1;
    }
  }

  /** One pass of the outer loop: raise and choose, record the choice in
      `b_bin`, take `dt[i]` back from the chosen accumulator and update
      the running maximum; from the state after `i` intervals to the
      state after `i + 1`. */
  method SurInterval(bRel: seq<seq<real>>, dt: seq<real>, nC: nat, nT: nat, i: nat,
                     etaI0: seq<real>, bBin0: seq<seq<real>>, eta0: real)
      returns (etaI: seq<real>, bBin: seq<seq<real>>, eta: real)
    requires Shaped(bRel, dt, nC, nT) && i < nT && 0 < nC
    requires etaI0 == Run(bRel, dt, nC, nT, i).acc
    requires bBin0 == Partial(Run(bRel, dt, nC, nT, i).choices, nC, nT)
    requires eta0 == RunEta(bRel, dt, nC, nT, i)
    ensures etaI == Run(bRel, dt, nC, nT, i + 1).acc
    ensures bBin == Partial(Run(bRel, dt, nC, nT, i + 1).choices, nC, nT)
    ensures eta == RunEta(bRel, dt, nC, nT, i + 1)
  {
    ghost var cs := Run(bRel, dt, nC, nT, i).choices;
    RunNext(bRel, dt, nC, nT, i, etaI0, cs);
    var bActive;
    etaI, bActive := RaiseAndChoose(bRel, dt, nC, i, etaI0);
    SettleActive(bRel, dt, i, etaI0, etaI, bActive);
    PartialStep(cs, nC, nT, bActive);
    bBin := bBin0[bActive := bBin0[bActive][i := 1.0]];
    etaI := etaI[bActive := etaI[bActive] - dt[i]];
    eta := Max(eta0, MaxAbs(etaI));
  }

  /** `_run_sur` with its two nested loops.  With no control and at least
      one interval the source raises `IndexError`; otherwise the result is
      the binary matrix of the choices of `Run` and its `eta`. */
  method RunSur(bRel: seq<seq<real>>, dt: seq<real>, nC: nat, nT: nat)
      returns (r: Result<(seq<seq<real>>, real), SurFault>)
    requires Shaped(bRel, dt, nC, nT)
    ensures r.Err? <==> nC == 0 && nT > 0
    ensures r.Ok? ==>
        r.value == (OneHot(Run(bRel, dt, nC, nT, nT).choices, nC), RunEta(bRel, dt, nC, nT, nT))
  {
    if nC == 0 && nT > 0 {
      return Err(IndexError);
    }
    var bBin := Repeat(Repeat(0.0, nT), nC);
    var etaI := Repeat(0.0, nC);
    var eta := 0.0;
    PartialEmpty(nC, nT);
    var i := 0;
    while i < nT
      invariant i <= nT
      invariant etaI == Run(bRel, dt, nC, nT, i).acc
      invariant bBin == Partial(Run(bRel, dt, nC, nT, i).choices, nC, nT)
      invariant eta == RunEta(bRel, dt, nC, nT, i)
    {
      etaI, bBin, eta := SurInterval(bRel, dt, nC, nT, i, etaI, bBin, eta);
      i := i + 1;
    }
    PartialComplete(Run(bRel, dt, nC, nT, nT).choices, nC);
    return Ok((bBin, eta));
  }
}
