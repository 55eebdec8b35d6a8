// The second sum-up rounding front end (pycombina/_combina_rounding.py).
// It activates the same control per interval as `SumUpRounding.Run`, keeps
// `b_bin` as a list of integer lists, clears the other controls of each
// interval explicitly, and reports as `eta` the largest absolute
// accumulator after the LAST interval rather than a running maximum.

module CombinaRounding {
  import opened Common
  import opened SumUpRounding

  /** Row `j` of the integer result. */
  function IntIndicator(cs: seq<nat>, j: nat): (row: seq<int>)
    ensures |row| == |cs|
  {
    seq(|cs|, k requires 0 <= k < |cs| => if cs[k] == j then 1 else 0)
  }

  /** `b_bin` during the outer loop: intervals from `|cs|` on still hold
      the zeros of the initial list comprehension. */
  function IntPartial(cs: seq<nat>, nC: nat, nT: nat): (b: seq<seq<int>>)
    requires |cs| <= nT
    ensures |b| == nC && forall j :: 0 <= j < nC ==> |b[j]| == nT
  {
    seq(nC, j requires 0 <= j < nC => IntIndicator(cs, j) + Repeat(0, nT - |cs|))
  }

  /** The same matrix read as doubles, as `set_b_bin` and the objective see it. */
  function AsReal(b: seq<seq<int>>): (r: seq<seq<real>>)
    ensures |r| == |b| && forall j :: 0 <= j < |b| ==> |r[j]| == |b[j]|
  {
    seq(|b|, j requires 0 <= j < |b| => seq(|b[j]|, k requires 0 <= k < |b[j]| => b[j][k] as real))
  }

  /** The integer `n_c x n_t` result the choices describe. */
  function IntOneHot(cs: seq<nat>, nC: nat): (b: seq<seq<int>>)
    ensures |b| == nC
  {
    seq(nC, j requires 0 <= j < nC => IntIndicator(cs, j))
  }

  lemma IntPartialComplete(cs: seq<nat>, nC: nat)
    ensures IntPartial(cs, nC, |cs|) == IntOneHot(cs, nC)
  {
    forall j | 0 <= j < nC ensures IntPartial(cs, nC, |cs|)[j] == IntOneHot(cs, nC)[j] {
      assert IntIndicator(cs, j) + Repeat(0, 0) == IntIndicator(cs, j);
    }
  }

  /** The integer result is the one-hot matrix of `SumUpRounding` read as
      integers: every entry 0 or 1, and the same values as doubles. */
  lemma IntOneHotMatches(cs: seq<nat>, nC: nat)
    ensures AsReal(IntOneHot(cs, nC)) == OneHot(cs, nC)
    ensures forall j :: 0 <= j < nC ==> IsBinaryVector(IntOneHot(cs, nC)[j])
  {
    forall j | 0 <= j < nC ensures AsReal(IntOneHot(cs, nC))[j] == OneHot(cs, nC)[j] {
    }
  }

  lemma IntPartialEmpty(nC: nat, nT: nat)
    ensures IntPartial([], nC, nT) == Repeat(Repeat(0, nT), nC)
  {
    forall j | 0 <= j < nC ensures IntPartial([], nC, nT)[j] == Repeat(0, nT) {
      assert IntIndicator([], j) + Repeat(0, nT) == Repeat(0, nT);
    }
  }

  /** Writing column `|cs|`: 0 for every control but `c`, then 1 for `c`. */
  lemma IntPartialStep(cs: seq<nat>, nC: nat, nT: nat, i: nat, c: nat, b: seq<seq<int>>)
    requires i == |cs| && i < nT && c < nC
    requires |b| == nC && forall j :: 0 <= j < nC ==> |b[j]| == nT
    requires forall j :: 0 <= j < nC && j != c ==> b[j] == IntPartial(cs, nC, nT)[j][i := 0]
    requires b[c] == IntPartial(cs, nC, nT)[c]
    ensures IntPartial(cs + [c], nC, nT) == b[c := b[c][i := 1]]
  {
    var p := IntPartial(cs, nC, nT);
    var p' := IntPartial(cs + [c], nC, nT);
    var b' := b[c := b[c][i := 1]];
    forall j | 0 <= j < nC ensures p'[j] == b'[j] {
      forall k | 0 <= k < nT ensures p'[j][k] == b'[j][k] {
        if k < |cs| {
          assert p'[j][k] == IntIndicator(cs + [c], j)[k] == IntIndicator(cs, j)[k] == p[j][k];
        } else if k == |cs| {
          assert p'[j][k] == IntIndicator(cs + [c], j)[k];
        } else {
          assert p'[j][k] == 0 == p[j][k];
        }
      }
    }
  }

  /** Lines 85-87: clear every control but `myIdx` in interval `i`. */
  method ClearOthers(b0: seq<seq<int>>, nC: nat, nT: nat, i: nat, myIdx: nat) returns (b: seq<seq<int>>)
    requires |b0| == nC && forall j :: 0 <= j < nC ==> |b0[j]| == nT
    requires i < nT && myIdx < nC
    ensures |b| == nC && forall j :: 0 <= j < nC ==> |b[j]| == nT
    ensures forall j :: 0 <= j < nC && j != myIdx ==> b[j] == b0[j][i := 0]
    ensures b[myIdx] == b0[myIdx]
  {
    b := b0;
    var j := 0;
    while j < nC
      invariant j <= nC && |b| == nC && forall k :: 0 <= k < nC ==> |b[k]| == nT
      invariant forall k :: 0 <= k < j && k != myIdx ==> b[k] == b0[k][i := 0]
      invariant forall k :: 0 <= k < nC && (j <= k || k == myIdx) ==> b[k] == b0[k]
    {
      if j != myIdx {
        b := b[j := b[j][i := 0]];
      }
      j := j + 1;
    }
  }

  /** One pass of the outer loop (lines 75-91): from the state after `i`
      intervals to the state after `i + 1`. */
  method RoundingInterval(bRel: seq<seq<real>>, dt: seq<real>, nC: nat, nT: nat, i: nat,
                          etaI0: seq<real>, bBin0: seq<seq<int>>)
      returns (etaI: seq<real>, bBin: seq<seq<int>>, eta: real)
    requires Shaped(bRel, dt, nC, nT) && i < nT && 0 < nC
    requires etaI0 == Run(bRel, dt, nC, nT, i).acc
    requires bBin0 == IntPartial(Run(bRel, dt, nC, nT, i).choices, nC, nT)
    ensures etaI == Run(bRel, dt, nC, nT, i + 1).acc
    ensures bBin == IntPartial(Run(bRel, dt, nC, nT, i + 1).choices, nC, nT)
    ensures eta == MaxAbs(etaI)
  {
    ghost var cs := Run(bRel, dt, nC, nT, i).choices;
    RunNext(bRel, dt, nC, nT, i, etaI0, cs);
    var myIdx;
    etaI, myIdx := RaiseAndChoose(bRel, dt, nC, i, etaI0);
    SettleActive(bRel, dt, i, etaI0, etaI, myIdx);
    bBin := ClearOthers(bBin0, nC, nT, i, myIdx);
    IntPartialStep(cs, nC, nT, i, myIdx, bBin);
    bBin := bBin[myIdx := bBin[myIdx][i := 1]];
    etaI := etaI[myIdx := etaI[myIdx] - dt[i]];
    eta := MaxAbs(etaI);
  }

  /** `CombinaSUR._run_sur` of this front end.  With no control and at
      least one interval, writing `b_bin[0][i]` raises `IndexError`. */
  method RunSurRounding(bRel: seq<seq<real>>, dt: seq<real>, nC: nat, nT: nat)
      returns (r: Result<(seq<seq<int>>, real), SurFault>)
    requires Shaped(bRel, dt, nC, nT)
    ensures r.Err? <==> nC == 0 && nT > 0
    ensures r.Ok? ==> r.value.0 == IntOneHot(Run(bRel, dt, nC, nT, nT).choices, nC)
    ensures r.Ok? ==> r.value.1 == if nT == 0 then 0.0 else MaxAbs(Run(bRel, dt, nC, nT, nT).acc)
  {
    if nC == 0 && nT > 0 {
      return Err(IndexError);
    }
    var bBin := Repeat(Repeat(0, nT), nC);
    var etaI := Repeat(0.0, nC);
    var eta := 0.0;
    IntPartialEmpty(nC, nT);
    var i := 0;
    while i < nT
      invariant i <= nT
      invariant etaI == Run(bRel, dt, nC, nT, i).acc
      invariant bBin == IntPartial(Run(bRel, dt, nC, nT, i).choices, nC, nT)
      invariant i > 0 ==> eta == MaxAbs(etaI)
      invariant i == 0 ==> eta == 0.0
    {
      etaI, bBin, eta := RoundingInterval(bRel, dt, nC, nT, i, etaI, bBin);
      i := i + 1;
    }
    IntPartialComplete(Run(bRel, dt, nC, nT, nT).choices, nC);
    return Ok((bBin, eta));
  }

  /** The reported value is the largest absolute deviation of the returned
      `b_bin` at the end of the horizon. */
  lemma RoundingEtaIsFinalDeviation(bRel: seq<seq<real>>, dt: seq<real>, nC: nat, nT: nat)
    requires Shaped(bRel, dt, nC, nT) && 0 < nT && 0 < nC
    ensures MaxAbs(Run(bRel, dt, nC, nT, nT).acc) ==
      MaxAbs(Deviations(bRel, OneHot(Run(bRel, dt, nC, nT, nT).choices, nC), dt, nT))
  {
    var b := OneHot(Run(bRel, dt, nC, nT, nT).choices, nC);
    forall j | 0 <= j < nC ensures Run(bRel, dt, nC, nT, nT).acc[j] == Deviations(bRel, b, dt, nT)[j] {
      SurDeviation(bRel, dt, nC, nT, nT, j);
    }
    assert Run(bRel, dt, nC, nT, nT).acc == Deviations(bRel, b, dt, nT);
  }

  /** On the same input the value this front end reports after any
      interval `i` never exceeds the running maximum `SumUpRounding`
      reports at the end of the horizon. */
  lemma RoundingEtaAtMostRunningMax(bRel: seq<seq<real>>, dt: seq<real>, nC: nat, nT: nat, i: nat)
    requires Shaped(bRel, dt, nC, nT) && 0 < i <= nT && 0 < nC
    ensures MaxAbs(Run(bRel, dt, nC, nT, i).acc) <= RunEta(bRel, dt, nC, nT, nT)
  {
    EtaNeverDecreases(bRel, dt, nC, nT, i, nT);
  }
}
