// The single-control sum-up rounding of the first Python generation
// (pycombina/_rounding_sur_solver.py on the base class of
// pycombina/_rounding_solver.py).  Only the first row of `b_rel` is read:
// an interval is switched on once the accumulated relaxed time reaches
// half of the interval, and the accumulator then gives the interval back.

module RoundingSur {
  import opened Common
  import SumUpRounding

  /** An attribute that `run` has not yet set. */
  datatype RoundingFault = IndexError | AttributeError

  /** The accumulator and the bits after some intervals. */
  datatype Rounding = Rounding(eta: real, bits: seq<int>)

  /** One pass of the loop, given the relaxed share `share` of an
      interval of length `d`. */
  function Pass(p: Rounding, share: real, d: real): Rounding
  {
    var raised := p.eta + share;
    if raised < 0.5 * d then Rounding(raised, p.bits + [0])
    else Rounding(raised - d, p.bits + [1])
  }

  /** The relaxed time `b_rel[0][i] * dt[i]` of every interval. */
  function Shares(rel: seq<real>, dt: seq<real>, n: nat): (sh: seq<real>)
    requires n <= |rel| && n <= |dt|
    ensures |sh| == n
  {
    seq(n, k requires 0 <= k < n => rel[k] * dt[k])
  }

  /** The loop of lines 30-43 after its first `n` passes, on the shares
      `sh` of the intervals. */
  function Rounded(sh: seq<real>, dt: seq<real>, n: nat): (r: Rounding)
    requires n <= |sh| && n <= |dt|
    ensures |r.bits| == n && IsBinaryVector(r.bits)
  {
    if n == 0 then Rounding(0.0, [])
    else Pass(Rounded(sh, dt, n - 1), sh[n - 1], dt[n - 1])
  }

  lemma RoundedNext(sh: seq<real>, dt: seq<real>, i: nat)
    requires i < |sh| && i < |dt|
    ensures Rounded(sh, dt, i + 1) == Pass(Rounded(sh, dt, i), sh[i], dt[i])
  {
  }

  /** The integer bits read as doubles, as in the accumulator. */
  function AsReals(bits: seq<int>): (r: seq<real>)
    ensures |r| == |bits| && forall k :: 0 <= k < |bits| ==> r[k] == bits[k] as real
  {
    seq(|bits|, k requires 0 <= k < |bits| => bits[k] as real)
  }

  /** Later passes never change the bits of earlier intervals. */
  lemma {:induction false} RoundedPrefix(sh: seq<real>, dt: seq<real>, i: nat, n: nat)
    requires i <= n <= |sh| && n <= |dt|
    ensures Rounded(sh, dt, n).bits[..i] == Rounded(sh, dt, i).bits
    decreases n
  {
    if i < n {
      RoundedPrefix(sh, dt, i, n - 1);
      assert Rounded(sh, dt, n).bits[..i] == Rounded(sh, dt, n - 1).bits[..i];
    }
  }

  /** Interval `i` is 0 exactly when the accumulator after adding its
      relaxed share is below half the interval. */
  lemma RoundedBitRule(sh: seq<real>, dt: seq<real>, n: nat, i: nat)
    requires i < n <= |sh| && n <= |dt|
    ensures Rounded(sh, dt, n).bits[i] == 0 <==> Rounded(sh, dt, i).eta + sh[i] < 0.5 * dt[i]
  {
    RoundedPrefix(sh, dt, i + 1, n);
    RoundedNext(sh, dt, i);
    assert Rounded(sh, dt, n).bits[i] == Rounded(sh, dt, n).bits[..i + 1][i];
  }

  /** The accumulator is the integrated deviation of the returned bits. */
  lemma {:induction false} RoundedAccumulates(rel: seq<real>, dt: seq<real>, n: nat, m: nat)
    requires n <= m <= |rel| && m <= |dt|
    ensures var r := Rounded(Shares(rel, dt, m), dt, n);
      r.eta == SumUpRounding.Deviation(rel, AsReals(r.bits), dt, n)
  {
    if n > 0 {
      var sh := Shares(rel, dt, m);
      var bits := Rounded(sh, dt, n).bits;
      var prev := Rounded(sh, dt, n - 1).bits;
      RoundedAccumulates(rel, dt, n - 1, m);
      assert AsReals(bits)[..n - 1] == AsReals(prev);
      SumUpRounding.DeviationFrame(rel, AsReals(bits), AsReals(prev), dt, n - 1);
    }
  }

  /** A fraction `r` of `d`, with `0 <= r <= 1`, lies between 0 and `d`. */
  lemma ShareBounds(r: real, d: real)
    requires 0.0 <= r <= 1.0 && 0.0 <= d
    ensures 0.0 <= r * d <= d
  {
    assert (1.0 - r) * d >= 0.0;
  }

  /** One pass keeps the accumulator within half of the longest interval
      `m` when the share is at most the interval. */
  lemma PassBounded(p: Rounding, s: real, d: real, m: real)
    requires -0.5 * m <= p.eta <= 0.5 * m
    requires 0.0 <= s <= d <= m
    ensures -0.5 * m <= Pass(p, s, d).eta <= 0.5 * m
  {
  }

  lemma {:induction false} SharesBounded(sh: seq<real>, dt: seq<real>, n: nat, m: real)
    requires n <= |sh| && n <= |dt|
    requires forall k :: 0 <= k < n ==> 0.0 <= sh[k] <= dt[k] <= m
    requires 0.0 <= m
    ensures -0.5 * m <= Rounded(sh, dt, n).eta <= 0.5 * m
  {
    if n > 0 {
      SharesBounded(sh, dt, n - 1, m);
      PassBounded(Rounded(sh, dt, n - 1), sh[n - 1], dt[n - 1], m);
    }
  }

  /** With relaxed values in [0, 1] the signed accumulator stays within
      half of the longest interval, on both sides. */
  lemma RoundedBounded(rel: seq<real>, dt: seq<real>, n: nat, m: real)
    requires n <= |rel| && n <= |dt| && 0.0 <= m
    requires forall k :: 0 <= k < n ==> 0.0 <= rel[k] <= 1.0 && 0.0 <= dt[k] <= m
    ensures -0.5 * m <= Rounded(Shares(rel, dt, n), dt, n).eta <= 0.5 * m
  {
    var sh := Shares(rel, dt, n);
    forall k | 0 <= k < n ensures 0.0 <= sh[k] <= dt[k] <= m {
      assert sh[k] == rel[k] * dt[k];
      ShareBounds(rel[k], dt[k]);
    }
    SharesBounded(sh, dt, n, m);
  }

  class RoundingSurSolver {
    const dt: seq<real>
    const bRel: seq<seq<real>>
    const nC: nat
    const nB: nat
    /** `self.b_bin`, absent until `run`. */
    var bBin: Option<seq<int>>
    /** `self.eta`, absent until a pass of the loop has set it. */
    var eta: Option<real>

    /** `RoundingSolverBaseClass.__init__`: stores the problem. */
    constructor (dt: seq<real>, bRel: seq<seq<real>>, nC: nat, nB: nat)
      ensures this.dt == dt && this.bRel == bRel && this.nC == nC && this.nB == nB
      ensures bBin == None && eta == None
    {
      this.dt := dt;
      this.bRel := bRel;
      this.nC := nC;
      this.nB := nB;
      bBin := None;
      eta := None;
    }

    /** `get_eta`: an unset attribute raises `AttributeError`. */
    function GetEta(): (r: Result<real, RoundingFault>)
      reads this
      ensures r.Ok? <==> eta.Some?
      ensures r.Ok? ==> r.value == eta.value
    {
      if eta.Some? then Ok(eta.value) else Err(AttributeError)
    }

    /** `get_b_bin`. */
    function GetBBin(): (r: Result<seq<int>, RoundingFault>)
      reads this
      ensures r.Ok? <==> bBin.Some?
      ensures r.Ok? ==> r.value == bBin.value
    {
      if bBin.Some? then Ok(bBin.value) else Err(AttributeError)
    }

    /** `run_rounding_approximation`.  With at least one interval and no
        row, `b_rel[0]` raises `IndexError` after `b_bin` was reset.
        Otherwise `b_bin` is the rounding of row 0 alone, and `eta` is
        the final signed accumulator when there was an interval. */
    method RunRoundingApproximation() returns (r: Result<(), RoundingFault>)
      requires |dt| >= nB && forall j :: 0 <= j < |bRel| ==> |bRel[j]| >= nB
      modifies this
      ensures r.Err? <==> nB > 0 && |bRel| == 0
      ensures r.Err? ==> bBin == Some([]) && eta == old(eta)
      ensures r.Ok? && nB == 0 ==> bBin == Some([]) && eta == old(eta)
      ensures r.Ok? && nB > 0 ==>
        var res := Rounded(Shares(bRel[0], dt, nB), dt, nB);
        bBin == Some(res.bits) && eta == Some(res.eta)
    {
      bBin := Some([]);
      if nB == 0 {
        return Ok(());
      } else if |bRel| == 0 {
        return Err(IndexError);
      }
      var rel := bRel[0];
      ghost var sh := Shares(rel, dt, nB);
      var bits: seq<int> := [];
      var acc := 0.0;
      var i := 0;
      while i < nB
        invariant i <= nB && bBin == Some([])
        invariant Rounded(sh, dt, i) == Rounding(acc, bits)
        invariant eta == if i == 0 then old(eta) else Some(acc)
      {
        RoundedNext(sh, dt, i);
        acc := acc + rel[i] * dt[i];
        if acc < 0.5 * dt[i] {
          bits := bits + [0];
        } else {
          bits := bits + [1];
          acc := acc - 1.0 * dt[i];
        }
        eta := Some(acc);
        i := i + 1;
      }
      bBin := Some(bits);
      return Ok(());
    }
  }
}
