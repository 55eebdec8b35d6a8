// Shared value types and real-number helpers used by every component.

module Common {

  datatype Option<T> = None | Some(value: T)

  datatype Result<T, E> = Ok(value: T) | Err(error: E)
  {
    predicate IsFailure() { Err? }
  }

  /** `fabs` of the C++ sources and `abs` of the Python ones. */
  function Abs(x: real): (r: real)
    ensures r >= 0.0
    ensures r == x || r == -x
  {
    if x < 0.0 then -x else x
  }

  /** `fmax` / `std::max` of two doubles. */
  function Max(a: real, b: real): (r: real)
    ensures r >= a && r >= b
    ensures r == a || r == b
  {
    if a < b then b else a
  }

  /** `std::min` of two doubles. */
  function Min(a: real, b: real): (r: real)
    ensures r <= a && r <= b
    ensures r == a || r == b
  {
    if b < a then b else a
  }

  /** Largest absolute entry, 0 for an empty vector (the `fmax` fold starting at 0). */
  function MaxAbs(s: seq<real>): (r: real)
    ensures r >= 0.0
    ensures forall j :: 0 <= j < |s| ==> Abs(s[j]) <= r
    ensures |s| > 0 ==> exists j :: 0 <= j < |s| && r == Abs(s[j])
  {
    if |s| == 0 then 0.0 else Max(MaxAbs(s[..|s| - 1]), Abs(s[|s| - 1]))
  }

  /** Sum of `s[lo..hi]`. */
  function SumRange(s: seq<real>, lo: nat, hi: nat): real
    requires lo <= hi <= |s|
    decreases hi - lo
  {
    if lo == hi then 0.0 else s[lo] + SumRange(s, lo + 1, hi)
  }

  /** Sum of the whole vector. */
  function Sum(s: seq<real>): real
  {
    SumRange(s, 0, |s|)
  }

  /** Peeling the last term off a range sum. */
  lemma {:induction false} SumRangeSnoc(s: seq<real>, lo: nat, hi: nat)
    requires lo < hi <= |s|
    ensures SumRange(s, lo, hi) == SumRange(s, lo, hi - 1) + s[hi - 1]
    decreases hi - lo
  {
    if lo + 1 < hi {
      SumRangeSnoc(s, lo + 1, hi);
    }
  }

  /** A range sum only reads the entries in its range. */
  lemma {:induction false} SumRangeFrame(s: seq<real>, t: seq<real>, lo: nat, hi: nat)
    requires lo <= hi <= |s| && hi <= |t|
    requires forall k :: lo <= k < hi ==> s[k] == t[k]
    ensures SumRange(s, lo, hi) == SumRange(t, lo, hi)
    decreases hi - lo
  {
    if lo < hi {
      SumRangeFrame(s, t, lo + 1, hi);
    }
  }

  /** Splitting a range sum at a midpoint. */
  lemma {:induction false} SumRangeSplit(s: seq<real>, lo: nat, mid: nat, hi: nat)
    requires lo <= mid <= hi <= |s|
    ensures SumRange(s, lo, hi) == SumRange(s, lo, mid) + SumRange(s, mid, hi)
    decreases mid - lo
  {
    if lo < mid {
      SumRangeSplit(s, lo + 1, mid, hi);
    }
  }

  /** Every vector entry is 0 or 1. */
  predicate IsBinaryVector(v: seq<int>)
  {
    forall j :: 0 <= j < |v| ==> v[j] == 0 || v[j] == 1
  }

  /** Concatenation regroups freely. */
  lemma ConcatAssoc<T>(a: seq<T>, b: seq<T>, c: seq<T>)
    ensures (a + b) + c == a + (b + c)
  {
  }

  /** A vector of `n` copies of `x`. */
  function Repeat<T>(x: T, n: nat): (r: seq<T>)
    ensures |r| == n
    ensures forall j :: 0 <= j < n ==> r[j] == x
  {
    if n == 0 then [] else Repeat(x, n - 1) + [x]
  }

  // Powers, for the termination measures of the searches

  function Pow(b: nat, e: nat): (r: nat)
    ensures b > 0 ==> r > 0
  {
    if e == 0 then 1 else b * Pow(b, e - 1)
  }

  lemma {:induction false} PowMonotone(b: nat, e1: nat, e2: nat)
    requires b > 0 && e1 <= e2
    ensures Pow(b, e1) <= Pow(b, e2)
    decreases e2
  {
    if e1 < e2 {
      PowMonotone(b, e1, e2 - 1);
    }
  }

  lemma PowSucc(b: nat, e: nat)
    ensures Pow(b, e + 1) == b * Pow(b, e)
  {
  }

  lemma MulSucc(a: nat, m: nat)
    ensures a * m + m == (a + 1) * m
  {
  }

  /** `v <= a * w` with `a <= b` and `w > 0` stays below `(b + 1) * w`. */
  lemma FewerThanNext(v: nat, a: nat, b: nat, w: nat)
    requires a <= b && w > 0 && v <= a * w
    ensures v < (b + 1) * w
  {
    assert a * w <= b * w;
  }
}
