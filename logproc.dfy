// The benchmark log reader (benchmark/util/logproc.py): `ub_seq` reads a
// solver log line by line and yields, for every line of an incumbent
// update (a line matching `^\s*U\s+`), the iteration count, the upper
// bound and the runtime, the first, second and fourth `|`-separated
// fields.  It is modelled with the Python conversions it relies on
// (`re.match`, `str.strip`, `str.split`, `int`, `float`,
// `io.StringIO.readline`) and, as its partner, the lines
// `display_solution_update` of the branch-and-bound solver prints
// (src/combina_bnb_solver/CombinaBnBSolver.cpp:402-436): every update
// row the solver prints is read back as the values it shows, in order,
// and no other line is read at all.

module LogProc {
  import opened Common

  datatype Fault = TypeError | ValueError | IndexError

  // ---------------------------------------------------------------------
  // Characters and white space

  /** The characters that `\s`, `str.strip` and `int` treat as white
      space (`str.isspace`): tab, line feed, vertical tab, form feed,
      carriage return, the four separators 0x1c-0x1f, the space, and the
      Unicode spaces and separators 0x85, 0xa0, 0x1680, 0x2000-0x200a,
      0x2028, 0x2029, 0x202f, 0x205f and 0x3000. */
  predicate IsSpace(c: char)
  {
    c == ' ' || 9 <= c as int <= 13 || 28 <= c as int <= 31 ||
    c as int == 0x85 || c as int == 0xa0 || c as int == 0x1680 || 0x2000 <= c as int <= 0x200a ||
    c as int == 0x2028 || c as int == 0x2029 || c as int == 0x202f || c as int == 0x205f || c as int == 0x3000
  }

  predicate AllSpaces(s: string)
  {
    forall i :: 0 <= i < |s| ==> IsSpace(s[i])
  }

  predicate IsDigit(c: char)
  {
    '0' <= c <= '9'
  }

  predicate AllDigits(s: string)
  {
    forall i :: 0 <= i < |s| ==> IsDigit(s[i])
  }

  /** The first index at or after `i` that is not white space, or `|s|`. */
  function SkipSpaces(s: string, i: nat): (j: nat)
    requires i <= |s|
    ensures i <= j <= |s| && (j < |s| ==> !IsSpace(s[j]))
    ensures forall k :: i <= k < j ==> IsSpace(s[k])
    decreases |s| - i
  {
    if i == |s| || !IsSpace(s[i]) then i else SkipSpaces(s, i + 1)
  }

  /** A run of white space followed by a character that is not white
      space is skipped exactly. */
  lemma {:induction false} SkipRun(s: string, i: nat, j: nat)
    requires i <= j < |s| && !IsSpace(s[j])
    requires forall k :: i <= k < j ==> IsSpace(s[k])
    ensures SkipSpaces(s, i) == j
    decreases j - i
  {
    if i < j {
      SkipRun(s, i + 1, j);
    }
  }

  /** The first index at or after `i` holding `c1` or `c2`, or `|s|`. */
  function FindFirst(s: string, i: nat, c1: char, c2: char): (r: nat)
    requires i <= |s|
    ensures i <= r <= |s| && (r < |s| ==> s[r] == c1 || s[r] == c2)
    ensures forall k :: i <= k < r ==> s[k] != c1 && s[k] != c2
    decreases |s| - i
  {
    if i == |s| || s[i] == c1 || s[i] == c2 then i else FindFirst(s, i + 1, c1, c2)
  }

  lemma {:induction false} FindAt(s: string, i: nat, j: nat, c1: char, c2: char)
    requires i <= j <= |s| && (j < |s| ==> s[j] == c1 || s[j] == c2)
    requires forall k :: i <= k < j ==> s[k] != c1 && s[k] != c2
    ensures FindFirst(s, i, c1, c2) == j
    decreases j - i
  {
    if i < j {
      FindAt(s, i + 1, j, c1, c2);
    }
  }

  // ---------------------------------------------------------------------
  // `str.strip`

  function TrimRight(s: string): (r: string)
    ensures |r| <= |s| && r == s[..|r|] && AllSpaces(s[|r|..])
    ensures |r| > 0 ==> !IsSpace(r[|r| - 1])
  {
    if |s| > 0 && IsSpace(s[|s| - 1]) then
      var r := TrimRight(s[..|s| - 1]);
      assert s[..|s| - 1][..|r|] == s[..|r|];
      assert forall k :: |r| <= k < |s| ==> s[k] == (if k < |s| - 1 then s[..|s| - 1][k] else s[k]);
      r
    else s
  }

  /** `s.strip()`: the white space at both ends removed. */
  function Strip(s: string): (r: string)
    ensures |r| > 0 ==> !IsSpace(r[0]) && !IsSpace(r[|r| - 1])
  {
    var t := TrimRight(s);
    t[SkipSpaces(t, 0)..]
  }

  /** `strip` removes white space padding and nothing of a word that
      neither starts nor ends with white space. */
  lemma StripPadded(a: string, core: string, b: string)
    requires AllSpaces(a) && AllSpaces(b) && |core| > 0
    requires !IsSpace(core[0]) && !IsSpace(core[|core| - 1])
    ensures Strip(a + core + b) == core
  {
    TrimRightPadded(a + core, b);
    assert (a + core)[|a|] == core[0];
    SkipRun(a + core, 0, |a|);
    assert (a + core)[|a|..] == core;
  }

  lemma {:induction false} TrimRightPadded(s: string, b: string)
    requires AllSpaces(b) && |s| > 0 && !IsSpace(s[|s| - 1])
    ensures TrimRight(s + b) == s
    decreases |b|
  {
    if |b| > 0 {
      assert (s + b)[..|s + b| - 1] == s + b[..|b| - 1];
      TrimRightPadded(s, b[..|b| - 1]);
    } else {
      assert s + b == s;
    }
  }

  // ---------------------------------------------------------------------
  // `str.split(sep)` and its inverse `sep.join`

  /** `s.split(sep)`: the pieces between the separators, at least one. */
  function Split(s: string, sep: char): (r: seq<string>)
    ensures |r| >= 1
    ensures forall k :: 0 <= k < |r| ==> sep !in r[k]
    decreases |s|
  {
    var i := FindFirst(s, 0, sep, sep);
    if i == |s| then [s] else [s[..i]] + Split(s[i + 1..], sep)
  }

  /** `sep.join(pieces)` */
  function Join(pieces: seq<string>, sep: char): (r: string)
    requires |pieces| >= 1
    decreases |pieces|
  {
    if |pieces| == 1 then pieces[0] else pieces[0] + [sep] + Join(pieces[1..], sep)
  }

  /** Splitting and joining are inverse: joining the pieces gives the
      text back ... */
  lemma {:induction false} JoinSplit(s: string, sep: char)
    ensures Join(Split(s, sep), sep) == s
    decreases |s|
  {
    var i := FindFirst(s, 0, sep, sep);
    if i < |s| {
      JoinSplit(s[i + 1..], sep);
      assert s == s[..i] + [sep] + s[i + 1..];
    }
  }

  /** ... and splitting a join of pieces free of the separator gives the
      pieces back. */
  lemma {:induction false} SplitJoin(pieces: seq<string>, sep: char)
    requires |pieces| >= 1 && forall k :: 0 <= k < |pieces| ==> sep !in pieces[k]
    ensures Split(Join(pieces, sep), sep) == pieces
    decreases |pieces|
  {
    var s := Join(pieces, sep);
    if |pieces| == 1 {
      FindAt(s, 0, |s|, sep, sep);
    } else {
      JoinFirst(pieces, sep);
      assert forall k :: 0 <= k < |pieces| - 1 ==> pieces[1..][k] == pieces[k + 1];
      SplitJoin(pieces[1..], sep);
    }
  }

  /** The first separator of a join ends its first piece. */
  lemma JoinFirst(pieces: seq<string>, sep: char)
    requires |pieces| >= 2 && sep !in pieces[0]
    ensures var s, p := Join(pieces, sep), pieces[0];
      FindFirst(s, 0, sep, sep) == |p| && s[..|p|] == p && s[|p| + 1..] == Join(pieces[1..], sep)
  {
    var s, p := Join(pieces, sep), pieces[0];
    var rest := Join(pieces[1..], sep);
    assert s == p + [sep] + rest;
    assert forall k :: 0 <= k < |p| ==> s[k] == p[k];
    FindAt(s, 0, |p|, sep, sep);
  }

  // ---------------------------------------------------------------------
  // Decimal digits

  function DigitValue(c: char): nat
    requires IsDigit(c)
  {
    c as int - '0' as int
  }

  function Digit(d: nat): (c: char)
    requires d < 10
    ensures IsDigit(c) && DigitValue(c) == d
  {
    ('0' as int + d) as char
  }

  /** The number a string of decimal digits spells, most significant
      first. */
  function DigitsValue(s: string): nat
    requires AllDigits(s)
  {
    if |s| == 0 then 0 else DigitsValue(s[..|s| - 1]) * 10 + DigitValue(s[|s| - 1])
  }

  /** Appending digits shifts the value of the prefix. */
  lemma {:induction false} DigitsAppend(a: string, b: string)
    requires AllDigits(a) && AllDigits(b)
    ensures AllDigits(a + b) && DigitsValue(a + b) == DigitsValue(a) * Pow(10, |b|) + DigitsValue(b)
    decreases |b|
  {
    if |b| > 0 {
      var b' := b[..|b| - 1];
      assert (a + b)[..|a + b| - 1] == a + b';
      assert (a + b)[|a + b| - 1] == b[|b| - 1];
      DigitsAppend(a, b');
      PowSucc(10, |b'|);
      ShiftDigit(DigitsValue(a), Pow(10, |b'|), DigitsValue(b'), DigitValue(b[|b| - 1]));
    } else {
      assert a + b == a;
    }
  }

  lemma ShiftDigit(x: nat, p: nat, y: nat, d: nat)
    ensures (x * p + y) * 10 + d == x * (10 * p) + (y * 10 + d)
  {
  }

  /** Leading zeros do not change the value. */
  lemma {:induction false} LeadingZeros(n: nat, s: string)
    requires AllDigits(s)
    ensures AllDigits(Repeat('0', n) + s) && DigitsValue(Repeat('0', n) + s) == DigitsValue(s)
  {
    ZerosValue(n);
    DigitsAppend(Repeat('0', n), s);
  }

  lemma {:induction false} ZerosValue(n: nat)
    ensures AllDigits(Repeat('0', n)) && DigitsValue(Repeat('0', n)) == 0
  {
    if n > 0 {
      assert Repeat('0', n)[..n - 1] == Repeat('0', n - 1);
      ZerosValue(n - 1);
    }
  }

  /** `std::to_string` of a count: its decimal digits without leading
      zeros. */
  function NatText(n: nat): (s: string)
    ensures 1 <= |s| && AllDigits(s) && DigitsValue(s) == n
    ensures |s| > 1 ==> s[0] != '0'
  {
    if n < 10 then [Digit(n)]
    else
      var p := NatText(n / 10);
      var s := p + [Digit(n % 10)];
      assert s[..|s| - 1] == p;
      s
  }

  /** A count below `10^w` has at most `w` digits. */
  lemma {:induction false} NatTextWidth(n: nat, w: nat)
    requires 1 <= w && n < Pow(10, w)
    ensures |NatText(n)| <= w
  {
    if n >= 10 {
      assert Pow(10, 1) == 10;
      assert w >= 2;
      assert n / 10 < Pow(10, w - 1);
      NatTextWidth(n / 10, w - 1);
    }
  }

  /** The text of `n` in exactly `w` digits, with leading zeros. */
  function ZeroPadded(n: nat, w: nat): (s: string)
    requires |NatText(n)| <= w
    ensures |s| == w && AllDigits(s) && DigitsValue(s) == n
  {
    LeadingZeros(w - |NatText(n)|, NatText(n));
    Repeat('0', w - |NatText(n)|) + NatText(n)
  }

  // ---------------------------------------------------------------------
  // `int` and `float` of a string

  /** An optional leading sign: whether it is a minus, and the rest. */
  function Unsigned(u: string): (string, bool)
  {
    if |u| > 0 && (u[0] == '-' || u[0] == '+') then (u[1..], u[0] == '-') else (u, false)
  }

  /** `int(s)`: optional white space, an optional sign and decimal
      digits, optional white space. */
  function ParseInt(s: string): (r: Result<int, Fault>)
    ensures r.Err? ==> r.error == ValueError
  {
    var (d, neg) := Unsigned(Strip(s));
    if |d| > 0 && AllDigits(d) then Ok(if neg then -(DigitsValue(d) as int) else DigitsValue(d))
    else Err(ValueError)
  }

  /** `10^k` as a real, for any integer `k`. */
  function Scale(k: int): (r: real)
    ensures r > 0.0
  {
    if k >= 0 then Pow(10, k) as real else 1.0 / Pow(10, -k) as real
  }

  /** The digits of a mantissa with an optional decimal point, as its
      digit string without the point and the number of digits after it;
      at least one digit is needed. */
  function Mantissa(m: string): (r: Option<(string, nat)>)
    ensures r.Some? ==> AllDigits(r.value.0)
  {
    var p := FindFirst(m, 0, '.', '.');
    var ip := m[..p];
    var fp := if p < |m| then m[p + 1..] else "";
    if AllDigits(ip) && AllDigits(fp) && |ip| + |fp| > 0 then Some((ip + fp, |fp|)) else None
  }

  /** An exponent: an optional sign and at least one digit. */
  function Exponent(x: string): (r: Option<int>)
  {
    var (d, neg) := Unsigned(x);
    if |d| > 0 && AllDigits(d) then Some(if neg then -(DigitsValue(d) as int) else DigitsValue(d)) else None
  }

  /** `float(s)` on decimal notation: optional white space and sign, a
      mantissa with an optional point, an optional exponent after `e` or
      `E`, optional white space. */
  function ParseFloat(s: string): (r: Result<real, Fault>)
    ensures r.Err? ==> r.error == ValueError
  {
    FloatBody(Unsigned(Strip(s)))
  }

  /** `float` of the text after the sign: the mantissa before the first
      `e` or `E`, the exponent after it. */
  function FloatBody(u: (string, bool)): (r: Result<real, Fault>)
    ensures r.Err? ==> r.error == ValueError
  {
    var q := FindFirst(u.0, 0, 'e', 'E');
    FloatValue(u.1, Mantissa(u.0[..q]), if q < |u.0| then Exponent(u.0[q + 1..]) else Some(0))
  }

  /** The value of a sign, a mantissa and an exponent, if both parts
      are well formed. */
  function FloatValue(neg: bool, m: Option<(string, nat)>, x: Option<int>): (r: Result<real, Fault>)
    requires m.Some? ==> AllDigits(m.value.0)
    ensures r.Err? ==> r.error == ValueError
  {
    if m.None? || x.None? then Err(ValueError)
    else Ok(Decimal(neg, DigitsValue(m.value.0), x.value - m.value.1))
  }

  /** The value of a signed decimal `digits * 10^k`. */
  function Decimal(neg: bool, digits: nat, k: int): real
  {
    var v := digits as real * Scale(k);
    if neg then -v else v
  }

  // ---------------------------------------------------------------------
  // `ub_seq`

  /** `re.compile('^\s*U\s+').match(line)` matches from `0` to `j`, with
      its `U` at `i`: white space, `U`, at least one white space
      character, and as much white space as follows (the `+` is greedy). */
  predicate UpdateMatch(line: string, i: nat, j: nat)
  {
    i + 2 <= j <= |line| && line[i] == 'U' &&
    (forall k :: 0 <= k < i ==> IsSpace(line[k])) &&
    (forall k :: i < k < j ==> IsSpace(line[k])) &&
    (j < |line| ==> !IsSpace(line[j]))
  }

  /** `m.end()` of that match, if the line matches. */
  function MatchEnd(line: string): (r: Option<nat>)
  {
    var i := SkipSpaces(line, 0);
    if i + 1 < |line| && line[i] == 'U' && IsSpace(line[i + 1]) then Some(SkipSpaces(line, i + 1)) else None
  }

  /** `MatchEnd` finds the match exactly when there is one. */
  lemma MatchEndMeaning(line: string)
    ensures MatchEnd(line).Some? ==> exists i :: UpdateMatch(line, i, MatchEnd(line).value)
    ensures MatchEnd(line).None? ==> forall i, j :: !UpdateMatch(line, i, j)
  {
    var i0 := SkipSpaces(line, 0);
    if MatchEnd(line).Some? {
      assert UpdateMatch(line, i0, MatchEnd(line).value);
    } else {
      forall i, j | UpdateMatch(line, i, j) ensures false {
        SkipRun(line, 0, i);
      }
    }
  }

  /** What a line of an incumbent update yields: iteration, upper bound
      and runtime. */
  datatype Update = Update(iteration: int, ub: real, runtime: real)

  /** One turn of the loop of `ub_seq` on a line: `None` for a line that
      does not match, else the yielded triple or the exception its
      evaluation raises, in the order Python evaluates the tuple. */
  function ParseRow(line: string): (r: Option<Result<Update, Fault>>)
    ensures r.Some? ==> MatchEnd(line).Some?
  {
    var e := MatchEnd(line);
    if e.None? then None else Some(ReadFields(Split(Strip(line[e.value..]), '|')))
  }

  /** `int(fields[0]), float(fields[1]), float(fields[3])`. */
  function ReadFields(f: seq<string>): (r: Result<Update, Fault>)
    requires |f| >= 1
  {
    var it := ParseInt(f[0]);
    if it.Err? then Err(ValueError)
    else if |f| < 2 then Err(IndexError)
    else
      var ub := ParseFloat(f[1]);
      if ub.Err? then Err(ValueError)
      else if |f| < 4 then Err(IndexError)
      else
        var rt := ParseFloat(f[3]);
        if rt.Err? then Err(ValueError)
        else Ok(Update(it.value, ub.value, rt.value))
  }

  /** What the generator yields from the lines `readline` returns before
      it stops, the exception it stops with, if any, and the lines left
      unread. */
  datatype Scanned = Scanned(rows: seq<Update>, fault: Option<Fault>, rest: seq<string>)

  /** The loop of `ub_seq` over the lines a reader still holds: it ends
      at the first empty line (`readline` at the end of the stream), or
      at the first line whose fields cannot be converted. */
  function Scan(lines: seq<string>): (r: Scanned)
    ensures |r.rows| <= |lines| && |r.rest| <= |lines|
    ensures r.fault.Some? ==> |r.rest| < |lines|
    decreases |lines|
  {
    if |lines| == 0 then Scanned([], None, [])
    else if |lines[0]| == 0 then Scanned([], None, lines[1..])
    else
      var p := ParseRow(lines[0]);
      if p.None? then Scan(lines[1..])
      else if p.value.Err? then Scanned([], Some(p.value.error), lines[1..])
      else
        var s := Scan(lines[1..]);
        Scanned([p.value.value] + s.rows, s.fault, s.rest)
  }

  /** A text stream: `readline` returns its next line, or the empty
      string once it is exhausted. */
  class LineReader {
    var rest: seq<string>

    constructor (lines: seq<string>)
      ensures rest == lines
    {
      rest := lines;
    }

    method ReadLine() returns (line: string)
      modifies this
      ensures old(rest) == [] ==> line == "" && rest == []
      ensures old(rest) != [] ==> line == old(rest)[0] && rest == old(rest)[1..]
    {
      if rest == [] {
        line := "";
      } else {
        line := rest[0];
        rest := rest[1..];
      }
    }
  }

  /** The loop of `ub_seq` on a stream: the rows it yields and the
      exception it ends with are those of `Scan`, and the stream is left
      after the last line read. */
  method UbSeqFrom(reader: LineReader) returns (rows: seq<Update>, fault: Option<Fault>)
    modifies reader
    ensures Scanned(rows, fault, reader.rest) == Scan(old(reader.rest))
  {
    ghost var goal := Scan(reader.rest);
    rows, fault := [], None;
    var done := false;
    while !done
      invariant !done ==> fault.None? && goal == After(rows, Scan(reader.rest))
      invariant done ==> goal == Scanned(rows, fault, reader.rest)
      decreases |reader.rest|, !done
    {
      ghost var before := reader.rest;
      var line := reader.ReadLine();
      rows, fault, done := LoopBody(line, before, goal, rows);
    }
  }

  /** The lines left after one `readline` from `lines`. */
  function RestAfterRead(lines: seq<string>): seq<string>
  {
    if lines == [] then [] else lines[1..]
  }

  /** The body of the loop of `ub_seq` on the line just read: stop at an
      empty read, pass over a line that does not match, stop at a line
      whose fields cannot be converted, or yield its values. */
  method LoopBody(line: string, ghost before: seq<string>, ghost goal: Scanned, rows0: seq<Update>)
    returns (rows: seq<Update>, fault: Option<Fault>, done: bool)
    requires goal == After(rows0, Scan(before))
    requires if before == [] then line == "" else line == before[0]
    ensures !done ==> before != [] && fault.None? && goal == After(rows, Scan(before[1..]))
    ensures done ==> goal == Scanned(rows, fault, RestAfterRead(before))
  {
    rows, fault, done := rows0, None, false;
    if |line| == 0 {
      ScanEnd(goal, rows, before);
      done := true;
    } else {
      var p := ParseRow(line);
      ScanAdvance(goal, rows, before, p);
      if p.Some? {
        if p.value.Err? {
          fault := Some(p.value.error);
          done := true;
        } else {
          rows := rows + [p.value.value];
        }
      }
    }
  }

  /** An empty read ends the loop with what it yielded so far. */
  lemma ScanEnd(goal: Scanned, rows: seq<Update>, before: seq<string>)
    requires goal == After(rows, Scan(before))
    requires before == [] || |before[0]| == 0
    ensures goal == Scanned(rows, None, if before == [] then [] else before[1..])
  {
  }

  /** One line read by the loop of `ub_seq`: what is still to come after
      passing over it, yielding it, or stopping at it. */
  lemma ScanAdvance(goal: Scanned, rows: seq<Update>, before: seq<string>, p: Option<Result<Update, Fault>>)
    requires goal == After(rows, Scan(before))
    requires |before| > 0 && |before[0]| > 0 && p == ParseRow(before[0])
    ensures p.None? ==> goal == After(rows, Scan(before[1..]))
    ensures p.Some? && p.value.Err? ==> goal == Scanned(rows, Some(p.value.error), before[1..])
    ensures p.Some? && p.value.Ok? ==> goal == After(rows + [p.value.value], Scan(before[1..]))
  {
    ScanStep(before, p);
    if p.Some? && p.value.Ok? {
      AfterAppend(rows, p.value.value, Scan(before[1..]));
    }
  }

  /** The scan of the lines after some rows were yielded. */
  function After(rows: seq<Update>, s: Scanned): Scanned
  {
    Scanned(rows + s.rows, s.fault, s.rest)
  }

  lemma AfterAppend(rows: seq<Update>, u: Update, s: Scanned)
    ensures After(rows, After([u], s)) == After(rows + [u], s)
  {
    assert rows + ([u] + s.rows) == (rows + [u]) + s.rows;
  }

  /** One line of `Scan`. */
  lemma ScanStep(lines: seq<string>, p: Option<Result<Update, Fault>>)
    requires |lines| > 0 && |lines[0]| > 0 && p == ParseRow(lines[0])
    ensures p.None? ==> Scan(lines) == Scan(lines[1..])
    ensures p.Some? && p.value.Err? ==> Scan(lines) == Scanned([], Some(p.value.error), lines[1..])
    ensures p.Some? && p.value.Ok? ==> Scan(lines) == After([p.value.value], Scan(lines[1..]))
  {
  }

  /** The lines `io.StringIO(s).readline` returns in turn: each ends
      with its line feed, except perhaps the last; none is empty. */
  function SplitLines(s: string): (r: seq<string>)
    ensures forall k :: 0 <= k < |r| ==> |r[k]| > 0
    decreases |s|
  {
    var i := FindFirst(s, 0, '\n', '\n');
    if i == |s| then (if |s| == 0 then [] else [s])
    else [s[..i + 1]] + SplitLines(s[i + 1..])
  }

  function Concat(lines: seq<string>): string
    decreases |lines|
  {
    if |lines| == 0 then "" else lines[0] + Concat(lines[1..])
  }

  /** Reading a string line by line loses nothing. */
  lemma {:induction false} ConcatSplitLines(s: string)
    ensures Concat(SplitLines(s)) == s
    decreases |s|
  {
    var i := FindFirst(s, 0, '\n', '\n');
    if i < |s| {
      ConcatSplitLines(s[i + 1..]);
      assert s == s[..i + 1] + s[i + 1..];
    }
  }

  /** The argument of `ub_seq`: a string, an object with `readline`, or
      anything else. */
  datatype Log = Text(text: string) | Stream(reader: LineReader) | Unreadable

  /** `ub_seq(log)`, run to its end: a string is read through
      `io.StringIO`, a stream directly, and anything else raises
      `TypeError` before a line is read. */
  method UbSeq(log: Log) returns (rows: seq<Update>, fault: Option<Fault>)
    modifies if log.Stream? then {log.reader} else {}
    ensures log.Unreadable? ==> rows == [] && fault == Some(TypeError)
    ensures log.Text? ==> rows == Scan(SplitLines(log.text)).rows && fault == Scan(SplitLines(log.text)).fault
    ensures log.Stream? ==> Scanned(rows, fault, log.reader.rest) == Scan(old(log.reader.rest))
  {
    match log
    case Unreadable =>
      rows, fault := [], Some(TypeError);
    case Text(text) =>
      var reader := new LineReader(SplitLines(text));
      rows, fault := UbSeqFrom(reader);
    case Stream(reader) =>
      rows, fault := UbSeqFrom(reader);
  }

  // ---------------------------------------------------------------------
  // The lines the solver prints

  /** A double as `std::scientific` prints it at the default precision:
      sign, seven significant digits `mant` (one before the point, six
      after) and the exponent. */
  datatype Sci = Sci(neg: bool, mant: nat, exp: int)

  /** The shape `std::scientific` gives: a leading digit that is not 0,
      unless the value is zero, which prints with exponent 0. */
  predicate Printed(x: Sci)
  {
    x.mant < Pow(10, 7) && (x.mant == 0 ==> x.exp == 0) && (x.mant > 0 ==> Pow(10, 6) <= x.mant)
  }

  /** The value the printed text stands for. */
  function SciValue(x: Sci): real
  {
    Decimal(x.neg, x.mant, x.exp - 6)
  }

  /** The digits of the exponent: at least two. */
  function ExpDigits(a: nat): (d: string)
    ensures |d| >= 2 && AllDigits(d) && DigitsValue(d) == a
  {
    if a < 10 then
      assert Repeat('0', 1) == "0";
      LeadingZeros(1, NatText(a));
      "0" + NatText(a)
    else NatText(a)
  }

  /** The exponent: its sign, then its digits. */
  function ExpText(e: int): (s: string)
    ensures |s| >= 3 && (s[0] == '-' || s[0] == '+')
    ensures forall k :: 1 <= k < |s| ==> IsDigit(s[k])
  {
    (if e < 0 then "-" else "+") + ExpDigits(if e < 0 then -e else e)
  }

  /** The seven significant digits as `d.dddddd`. */
  function SciMantissa(x: Sci): (s: string)
    requires x.mant < Pow(10, 7)
    ensures |s| == 8 && s[1] == '.' && IsDigit(s[0])
    ensures forall k :: 0 <= k < 8 && k != 1 ==> IsDigit(s[k])
  {
    NatTextWidth(x.mant, 7);
    var m := ZeroPadded(x.mant, 7);
    [m[0]] + "." + m[1..]
  }

  /** The unsigned text: mantissa, `e`, exponent. */
  function SciBody(x: Sci): (s: string)
    requires x.mant < Pow(10, 7)
    ensures |s| >= 11 && IsDigit(s[0]) && IsDigit(s[|s| - 1])
  {
    SciMantissa(x) + "e" + ExpText(x.exp)
  }

  /** `os << std::scientific << x`, e.g. `1.234560e+02`. */
  function SciText(x: Sci): (s: string)
    requires x.mant < Pow(10, 7)
    ensures |s| > 0 && !IsSpace(s[0]) && IsDigit(s[|s| - 1])
  {
    if x.neg then "-" + SciBody(x) else SciBody(x)
  }

  /** `insert(0, 10 - s.length(), ' ')`: right-aligned in ten columns. */
  function Pad10(s: string): (r: string)
    requires |s| <= 10
    ensures |r| == 10
  {
    Repeat(' ', 10 - |s|) + s
  }

  const Rule: string := Repeat('-', 59)
  const Titles: string := Repeat(' ', 4) + "Iteration |" + "  Upper bound |" + "  Branches  |" + "  Runtime (s)   "

  /** What `display_solution_update` prints: the three header lines, or
      one row with the printed values. */
  datatype Entry = Header | Row(update: bool, iteration: nat, ub: Sci, branches: nat, runtime: Sci)

  /** A row the solver can print: the padding needs counts of at most
      ten digits. */
  predicate Printable(e: Entry)
  {
    e.Row? ==> e.iteration < Pow(10, 10) && e.branches < Pow(10, 10) && Printed(e.ub) && Printed(e.runtime)
  }

  /** The text of a row, without the line feed `py::print` adds. */
  function RowText(e: Entry): string
    requires e.Row? && Printable(e)
  {
    NatTextWidth(e.iteration, 10);
    NatTextWidth(e.branches, 10);
    (if e.update then " U " else "   ") + Pad10(NatText(e.iteration)) +
    " | " + SciText(e.ub) + " | " + Pad10(NatText(e.branches)) + " | " + SciText(e.runtime)
  }

  /** The lines of one entry, each ended by `py::print`'s line feed. */
  function EntryLines(e: Entry): seq<string>
    requires Printable(e)
  {
    if e.Header? then [Rule + "\n", Titles + "\n", Rule + "\n"] else [RowText(e) + "\n"]
  }

  predicate AllPrintable(es: seq<Entry>)
  {
    forall k :: 0 <= k < |es| ==> Printable(es[k])
  }

  /** The lines of a log. */
  function LogLines(es: seq<Entry>): seq<string>
    requires AllPrintable(es)
    decreases |es|
  {
    if |es| == 0 then [] else EntryLines(es[0]) + LogLines(es[1..])
  }

  /** The values a row shows. */
  function UpdateOf(e: Entry): Update
    requires e.Row?
  {
    Update(e.iteration, SciValue(e.ub), SciValue(e.runtime))
  }

  /** The values an entry shows if it is an update row. */
  function EntryUpdates(e: Entry): seq<Update>
  {
    if e.Row? && e.update then [UpdateOf(e)] else []
  }

  /** The values of the update rows of a log, in order. */
  function Updates(es: seq<Entry>): seq<Update>
    decreases |es|
  {
    if |es| == 0 then []
    else
      EntryUpdates(es[0]) + Updates(es[1..])
  }

  // ---------------------------------------------------------------------
  // Reading back what the solver prints

  /** The exponent text reads back as the exponent. */
  lemma ExponentBack(e: int)
    ensures Exponent(ExpText(e)) == Some(e)
  {
    var d := ExpDigits(if e < 0 then -e else e);
    assert ExpText(e)[1..] == d;
  }

  /** The mantissa text reads back as its seven digits, six of them after
      the point. */
  lemma MantissaBack(x: Sci)
    requires x.mant < Pow(10, 7)
    ensures Mantissa(SciMantissa(x)).Some?
    ensures DigitsValue(Mantissa(SciMantissa(x)).value.0) == x.mant && Mantissa(SciMantissa(x)).value.1 == 6
  {
    NatTextWidth(x.mant, 7);
    var m := ZeroPadded(x.mant, 7);
    var t := SciMantissa(x);
    FindAt(t, 0, 1, '.', '.');
    assert t[..1] + t[2..] == m;
  }

  /** The unsigned text splits at its `e`. */
  lemma BodyParts(x: Sci)
    requires x.mant < Pow(10, 7)
    ensures var b := SciBody(x);
      FindFirst(b, 0, 'e', 'E') == 8 && b[..8] == SciMantissa(x) && b[9..] == ExpText(x.exp)
  {
    var b := SciBody(x);
    var t := SciMantissa(x);
    assert forall k :: 0 <= k < 8 ==> b[k] == t[k];
    FindAt(b, 0, 8, 'e', 'E');
    assert b[..8] == t;
  }

  /** The sign of the text is the sign of the double. */
  lemma SciSign(x: Sci)
    requires x.mant < Pow(10, 7)
    ensures Unsigned(SciText(x)) == (SciBody(x), x.neg)
  {
    if x.neg {
      assert ("-" + SciBody(x))[1..] == SciBody(x);
    }
  }

  /** `float` of a printed double, with any white space around it, is the
      value the text shows. */
  lemma SciBack(x: Sci, a: string, b: string)
    requires x.mant < Pow(10, 7) && AllSpaces(a) && AllSpaces(b)
    ensures ParseFloat(a + SciText(x) + b) == Ok(SciValue(x))
  {
    StripPadded(a, SciText(x), b);
    SciSign(x);
    BodyBack(x);
  }

  /** `float` of the unsigned text, given its sign. */
  lemma BodyBack(x: Sci)
    requires x.mant < Pow(10, 7)
    ensures FloatBody((SciBody(x), x.neg)) == Ok(SciValue(x))
  {
    BodyParts(x);
    MantissaBack(x);
    ExponentBack(x.exp);
    BodyFromParts(SciBody(x), x.neg, SciMantissa(x), ExpText(x.exp));
  }

  /** `float` of the text after the sign assembled from its parts. */
  lemma BodyFromParts(body: string, neg: bool, mt: string, xt: string)
    requires |mt| < |body| && FindFirst(body, 0, 'e', 'E') == |mt| && body[..|mt|] == mt && body[|mt| + 1..] == xt
    ensures FloatBody((body, neg)) == FloatValue(neg, Mantissa(mt), Exponent(xt))
  {
  }

  lemma UnsignedDigits(u: string)
    requires |u| > 0 && IsDigit(u[0])
    ensures Unsigned(u) == (u, false)
  {
  }

  /** `int` of a count with white space after it is the count. */
  lemma NatBack(n: nat, b: string)
    requires AllSpaces(b)
    ensures ParseInt(NatText(n) + b) == Ok(n)
  {
    StripPadded("", NatText(n), b);
    assert "" + NatText(n) + b == NatText(n) + b;
    UnsignedDigits(NatText(n));
  }

  // ---------------------------------------------------------------------
  // The rows read back

  /** Text with no field separator and no line feed. */
  predicate Plain(s: string)
  {
    forall k :: 0 <= k < |s| ==> s[k] != '|' && s[k] != '\n'
  }

  lemma SciPlain(x: Sci)
    requires x.mant < Pow(10, 7)
    ensures Plain(SciText(x))
  {
    PlainSpaced("e", SciMantissa(x), ExpText(x.exp));
    if x.neg {
      PlainSpaced(SciBody(x), "-", "");
      assert "-" + SciBody(x) + "" == SciText(x);
    }
  }

  /** The fields of a row between its separators. */
  function RowFields(e: Entry): (fs: seq<string>)
    requires e.Row? && Printable(e)
    ensures |fs| == 4
  {
    NatTextWidth(e.branches, 10);
    [NatText(e.iteration) + " ", " " + SciText(e.ub) + " ", " " + Pad10(NatText(e.branches)) + " ", " " + SciText(e.runtime)]
  }

  /** No field holds a separator or a line feed; the first starts and the
      last ends with a digit. */
  lemma FieldsPlain(e: Entry)
    requires e.Row? && Printable(e)
    ensures var fs := RowFields(e);
      (forall k :: 0 <= k < 4 ==> Plain(fs[k])) &&
      |fs[0]| > 0 && IsDigit(fs[0][0]) && |fs[3]| > 0 && IsDigit(fs[3][|fs[3]| - 1])
  {
    NatTextWidth(e.branches, 10);
    SciPlain(e.ub);
    SciPlain(e.runtime);
    CountPlain(e.iteration);
    CountPlain(e.branches);
    PlainSpaced(NatText(e.branches), Repeat(' ', 10 - |NatText(e.branches)|), "");
    assert Repeat(' ', 10 - |NatText(e.branches)|) + NatText(e.branches) + "" == Pad10(NatText(e.branches));
    PiecesPlain(NatText(e.iteration), SciText(e.ub), Pad10(NatText(e.branches)), SciText(e.runtime));
  }

  lemma PiecesPlain(a: string, b: string, c: string, d: string)
    requires Plain(a) && Plain(b) && Plain(c) && Plain(d)
    requires |a| > 0 && IsDigit(a[0]) && |d| > 0 && IsDigit(d[|d| - 1])
    ensures var fs := [a + " ", " " + b + " ", " " + c + " ", " " + d];
      (forall k :: 0 <= k < 4 ==> Plain(fs[k])) &&
      |fs[0]| > 0 && IsDigit(fs[0][0]) && |fs[3]| > 0 && IsDigit(fs[3][|fs[3]| - 1])
  {
    PlainSpaced(a, "", " ");
    assert "" + a + " " == a + " ";
    PlainSpaced(b, " ", " ");
    PlainSpaced(c, " ", " ");
    PlainSpaced(d, " ", "");
    assert " " + d + "" == " " + d;
  }

  lemma CountPlain(n: nat)
    ensures Plain(NatText(n))
  {
    var s := NatText(n);
    assert forall k :: 0 <= k < |s| ==> IsDigit(s[k]);
  }

  lemma PlainSpaced(s: string, a: string, b: string)
    requires Plain(s) && Plain(a) && Plain(b)
    ensures Plain(a + s + b)
  {
    var t := a + s + b;
    assert forall k :: 0 <= k < |t| ==> t[k] == (if k < |a| then a[k] else if k < |a| + |s| then s[k - |a|] else b[k - |a| - |s|]);
  }

  /** The spaces that right-align the iteration count. */
  function Indent(e: Entry): (s: string)
    requires e.Row? && Printable(e)
    ensures AllSpaces(s)
  {
    NatTextWidth(e.iteration, 10);
    Repeat(' ', 10 - |NatText(e.iteration)|)
  }

  /** A row is its marker, the indent and its fields joined by `|`. */
  lemma RowShape(e: Entry)
    requires e.Row? && Printable(e)
    ensures RowText(e) == (if e.update then " U " else "   ") + Indent(e) + Join(RowFields(e), '|')
  {
    NatTextWidth(e.branches, 10);
    Regroup(if e.update then " U " else "   ", Indent(e), NatText(e.iteration), SciText(e.ub),
            Pad10(NatText(e.branches)), SciText(e.runtime));
  }

  /** Four fields written with ` | ` between them are those fields, with
      their spaces, joined by `|`. */
  lemma Regroup(m: string, r: string, a: string, b: string, c: string, d: string)
    ensures m + (r + a) + " | " + b + " | " + c + " | " + d ==
            m + r + Join([a + " ", " " + b + " ", " " + c + " ", " " + d], '|')
  {
    var fs := [a + " ", " " + b + " ", " " + c + " ", " " + d];
    assert fs[3..] == [fs[3]];
    assert fs[2..][1..] == fs[3..];
    assert fs[1..][1..] == fs[2..];
    assert Join(fs[2..], '|') == fs[2] + "|" + fs[3];
    assert Join(fs[1..], '|') == fs[1] + "|" + (fs[2] + "|" + fs[3]);
  }

  /** The fields of an update row read back as the values it shows. */
  lemma FieldsBack(e: Entry)
    requires e.Row? && Printable(e)
    ensures ReadFields(RowFields(e)) == Ok(UpdateOf(e))
  {
    var fs := RowFields(e);
    NatBack(e.iteration, " ");
    SciBack(e.ub, " ", " ");
    SciBack(e.runtime, " ", "");
    assert " " + SciText(e.runtime) + "" == fs[3];
    ReadFour(fs, e.iteration, SciValue(e.ub), SciValue(e.runtime));
  }

  /** Four fields that convert yield their values. */
  lemma ReadFour(fs: seq<string>, it: int, ub: real, rt: real)
    requires |fs| == 4 && ParseInt(fs[0]) == Ok(it) && ParseFloat(fs[1]) == Ok(ub) && ParseFloat(fs[3]) == Ok(rt)
    ensures ReadFields(fs) == Ok(Update(it, ub, rt))
  {
  }

  /** The match of a row with its marker and indent ends where its
      fields start. */
  lemma MatchRow(m: string, r: string, core: string)
    requires (m == " U " || m == "   ") && AllSpaces(r) && |core| > 0 && IsDigit(core[0])
    ensures MatchEnd(m + r + core) == if m == " U " then Some(3 + |r|) else None
  {
    var line := m + r + core;
    assert line[3 + |r|] == core[0];
    if m == " U " {
      SkipRun(line, 0, 1);
      SkipRun(line, 2, 3 + |r|);
    } else {
      SkipRun(line, 0, 3 + |r|);
    }
  }

  /** A row the solver prints for an incumbent update reads back as the
      values it shows; any other row is passed over. */
  lemma RowBack(e: Entry)
    requires e.Row? && Printable(e)
    ensures ParseRow(RowText(e) + "\n") == if e.update then Some(Ok(UpdateOf(e))) else None
  {
    var m := if e.update then " U " else "   ";
    RowShape(e);
    var line := RowText(e) + "\n";
    assert line == m + Indent(e) + Join(RowFields(e), '|') + "\n";
    FieldsBack(e);
    FieldsPlain(e);
    FieldsRow(m, Indent(e), RowFields(e));
  }

  /** A line made of a marker, white space and four plain fields, the
      first starting and the last ending with a digit: an update line
      yields the values of its fields, and any other is passed over. */
  lemma FieldsRow(m: string, r: string, fs: seq<string>)
    requires (m == " U " || m == "   ") && AllSpaces(r)
    requires |fs| == 4 && forall k :: 0 <= k < 4 ==> Plain(fs[k])
    requires |fs[0]| > 0 && IsDigit(fs[0][0]) && |fs[3]| > 0 && IsDigit(fs[3][|fs[3]| - 1])
    ensures ParseRow(m + r + Join(fs, '|') + "\n") == if m == " U " then Some(ReadFields(fs)) else None
  {
    var core := Join(fs, '|');
    JoinEnd(fs, '|');
    assert core[0] == fs[0][0];
    var line := m + r + core + "\n";
    assert line == m + r + (core + "\n");
    MatchRow(m, r, core + "\n");
    if m == " U " {
      assert line[3 + |r|..] == "" + core + "\n";
      StripPadded("", core, "\n");
      SplitJoin(fs, '|');
    }
  }

  /** A join ends with its last piece. */
  lemma {:induction false} JoinEnd(pieces: seq<string>, sep: char)
    requires |pieces| >= 1 && |pieces[|pieces| - 1]| > 0
    ensures var s, p := Join(pieces, sep), pieces[|pieces| - 1];
      |s| > 0 && s[|s| - 1] == p[|p| - 1]
    decreases |pieces|
  {
    if |pieces| > 1 {
      JoinEnd(pieces[1..], sep);
    }
  }

  /** Neither header line is an update line. */
  lemma HeaderSkipped()
    ensures ParseRow(Rule + "\n") == None && ParseRow(Titles + "\n") == None
  {
    assert (Rule + "\n")[0] == '-';
    SkipRun(Rule + "\n", 0, 0);
    assert (Titles + "\n")[4] == 'I';
    SkipRun(Titles + "\n", 0, 4);
  }

  /** A line that is not an update line is passed over. */
  lemma ScanSkip(line: string, rest: seq<string>)
    requires |line| > 0 && ParseRow(line) == None
    ensures Scan([line] + rest) == Scan(rest)
  {
    assert ([line] + rest)[1..] == rest;
    ScanStep([line] + rest, None);
  }

  /** An update line yields its values ahead of the rest. */
  lemma ScanYield(line: string, rest: seq<string>, u: Update)
    requires |line| > 0 && ParseRow(line) == Some(Ok(u))
    ensures Scan([line] + rest) == After([u], Scan(rest))
  {
    assert ([line] + rest)[1..] == rest;
    ScanStep([line] + rest, Some(Ok(u)));
  }

  /** The lines of one entry yield its values, if any, and then the
      loop goes on. */
  lemma ScanEntry(e: Entry, rest: seq<string>)
    requires Printable(e)
    ensures Scan(EntryLines(e) + rest) == After(EntryUpdates(e), Scan(rest))
  {
    var s := Scan(rest);
    if e.Header? {
      HeaderScan(rest);
      assert s.rows == [] + s.rows;
    } else {
      RowBack(e);
      if e.update {
        ScanYield(RowText(e) + "\n", rest, UpdateOf(e));
      } else {
        ScanSkip(RowText(e) + "\n", rest);
        assert s.rows == [] + s.rows;
      }
    }
  }

  lemma HeaderScan(rest: seq<string>)
    ensures Scan([Rule + "\n", Titles + "\n", Rule + "\n"] + rest) == Scan(rest)
  {
    HeaderSkipped();
    ScanSkip(Rule + "\n", rest);
    ScanSkip(Titles + "\n", [Rule + "\n"] + rest);
    ScanSkip(Rule + "\n", [Titles + "\n"] + ([Rule + "\n"] + rest));
    assert [Rule + "\n", Titles + "\n", Rule + "\n"] + rest == [Rule + "\n"] + ([Titles + "\n"] + ([Rule + "\n"] + rest));
  }

  /** The loop of `ub_seq` over the lines of a log yields the values of
      its update rows, in order, raises nothing and reads every line. */
  lemma {:induction false} ScanLog(es: seq<Entry>)
    requires AllPrintable(es)
    ensures Scan(LogLines(es)) == Scanned(Updates(es), None, [])
    decreases |es|
  {
    if |es| > 0 {
      PrintableSplit(es);
      ScanLog(es[1..]);
      ScanEntry(es[0], LogLines(es[1..]));
    }
  }

  // ---------------------------------------------------------------------
  // The log as one text

  /** No line feed. */
  predicate NoFeed(s: string)
  {
    '\n' !in s
  }

  /** A line as `readline` returns it: ended by its only line feed. */
  predicate Line(l: string)
  {
    |l| > 0 && l[|l| - 1] == '\n' && NoFeed(l[..|l| - 1])
  }

  /** Reading back a text made of whole lines gives those lines. */
  lemma {:induction false} SplitConcat(ls: seq<string>)
    requires AllLines(ls)
    ensures SplitLines(Concat(ls)) == ls
    decreases |ls|
  {
    if |ls| > 0 {
      var l, s := ls[0], Concat(ls);
      assert Line(l);
      assert s == l + Concat(ls[1..]);
      assert forall k :: 0 <= k < |l| ==> s[k] == l[k];
      FindAt(s, 0, |l| - 1, '\n', '\n');
      assert s[..|l|] == l && s[|l|..] == Concat(ls[1..]);
      assert forall k :: 0 <= k < |ls| - 1 ==> ls[1..][k] == ls[k + 1];
      SplitConcat(ls[1..]);
    }
  }

  /** The separators of a row are not line feeds. */
  lemma {:induction false} JoinNoFeed(pieces: seq<string>)
    requires |pieces| >= 1 && forall k :: 0 <= k < |pieces| ==> NoFeed(pieces[k])
    ensures NoFeed(Join(pieces, '|'))
    decreases |pieces|
  {
    if |pieces| > 1 {
      assert forall k :: 0 <= k < |pieces| - 1 ==> pieces[1..][k] == pieces[k + 1];
      JoinNoFeed(pieces[1..]);
    }
  }

  lemma RowLine(e: Entry)
    requires e.Row? && Printable(e)
    ensures Line(RowText(e) + "\n")
  {
    var fs := RowFields(e);
    FieldsPlain(e);
    assert forall k :: 0 <= k < 4 ==> NoFeed(fs[k]);
    RowShape(e);
    assert NoFeed(Indent(e));
    JoinedLine(if e.update then " U " else "   ", Indent(e), fs);
  }

  lemma JoinedLine(m: string, r: string, fs: seq<string>)
    requires NoFeed(m) && NoFeed(r) && |fs| >= 1 && forall k :: 0 <= k < |fs| ==> NoFeed(fs[k])
    ensures Line(m + r + Join(fs, '|') + "\n")
  {
    JoinNoFeed(fs);
    var t := m + r + Join(fs, '|');
    assert (t + "\n")[..|t|] == t;
  }

  lemma HeaderLines()
    ensures Line(Rule + "\n") && Line(Titles + "\n")
  {
    assert (Rule + "\n")[..|Rule|] == Rule;
    assert (Titles + "\n")[..|Titles|] == Titles;
  }

  predicate AllLines(ls: seq<string>)
  {
    forall k :: 0 <= k < |ls| ==> Line(ls[k])
  }

  lemma LinesAppend(a: seq<string>, b: seq<string>)
    requires AllLines(a) && AllLines(b)
    ensures AllLines(a + b)
  {
    assert forall k :: 0 <= k < |a| + |b| ==> (a + b)[k] == if k < |a| then a[k] else b[k - |a|];
  }

  /** Every line of a log is a whole line. */
  lemma {:induction false} LogLinesWhole(es: seq<Entry>)
    requires AllPrintable(es)
    ensures AllLines(LogLines(es))
    decreases |es|
  {
    if |es| > 0 {
      PrintableSplit(es);
      LogLinesWhole(es[1..]);
      EntryWhole(es[0]);
      LinesAppend(EntryLines(es[0]), LogLines(es[1..]));
    }
  }

  lemma EntryWhole(e: Entry)
    requires Printable(e)
    ensures AllLines(EntryLines(e))
  {
    if e.Header? {
      HeaderLines();
    } else {
      RowLine(e);
    }
  }

  lemma PrintableSplit(es: seq<Entry>)
    requires AllPrintable(es) && |es| > 0
    ensures Printable(es[0]) && AllPrintable(es[1..])
  {
    assert forall k :: 0 <= k < |es| - 1 ==> es[1..][k] == es[k + 1];
  }

  /** `ub_seq` of the text the solver prints yields exactly the values of
      its update rows, in order, and raises nothing. */
  lemma ReadBack(es: seq<Entry>)
    requires AllPrintable(es)
    ensures Scan(SplitLines(Concat(LogLines(es)))) == Scanned(Updates(es), None, [])
  {
    LogLinesWhole(es);
    SplitConcat(LogLines(es));
    ScanLog(es);
  }
}
