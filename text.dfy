/**
  The Python 2 string built-ins the harness relies on, as functions on
  `string` (the harness reads its scenario files as byte strings, so every
  character test below is the ASCII one): `isspace`, `startswith`, `in`,
  `index`, slicing at a separator, `split()`, `split(c)`, `strip()`,
  `sep.join`, `int()` and `'%d'`.  Each comes with the property that ties it
  to its inverse or to an independent description.
*/
module Text {
  import opened Wrappers

  /** Whitespace of a Python 2 byte string: space, tab, LF, CR, VT and FF. */
  predicate IsSpace(c: char) {
    c == ' ' || c == '\t' || c == '\n' || c == '\r' || c == '\U{B}' || c == '\U{C}'
  }

  predicate NoSpace(s: string) {
    forall i :: 0 <= i < |s| ==> !IsSpace(s[i])
  }

  predicate AllSpace(s: string) {
    forall i :: 0 <= i < |s| ==> IsSpace(s[i])
  }

  /** `s.startswith(p)`. */
  predicate StartsWith(s: string, p: string) {
    |p| <= |s| && s[..|p|] == p
  }

  /** `s.index(c)`: the first position of `c`. */
  function IndexOf(s: string, c: char): (k: nat)
    requires c in s
    ensures k < |s| && s[k] == c && c !in s[..k]
  {
    if s[0] == c then 0
    else
      assert s == [s[0]] + s[1..];
      var k' := IndexOf(s[1..], c);
      assert s[..k' + 1] == [s[0]] + s[1..][..k'];
      k' + 1
  }

  /** `s[0:s.index(c)] if c in s else s`: everything before the first `c`. */
  function CutAt(s: string, c: char): (r: string)
    ensures |r| <= |s| && r == s[..|r|] && c !in r
    ensures |r| < |s| ==> s[|r|] == c
  {
    if c in s then s[..IndexOf(s, c)] else s
  }

  // ---------------------------------------------------------------------
  // Splitting on whitespace: `s.split()`

  /** The longest prefix of `s` that holds no whitespace. */
  function LeadingWord(s: string): (w: string)
    ensures |w| <= |s| && w == s[..|w|] && NoSpace(w)
    ensures |w| < |s| ==> IsSpace(s[|w|])
  {
    if s == [] || IsSpace(s[0]) then []
    else
      var w' := LeadingWord(s[1..]);
      assert s[..|w'| + 1] == [s[0]] + s[1..][..|w'|];
      [s[0]] + w'
  }

  /** `s.split()`: the maximal runs of non-whitespace characters of `s`, in order. */
  function SplitWs(s: string): seq<string>
    decreases |s|
  {
    if s == [] then []
    else if IsSpace(s[0]) then SplitWs(s[1..])
    else
      var w := LeadingWord(s);
      [w] + SplitWs(s[|w|..])
  }

  /**
    Every word of `s.split()` is non-empty, holds no whitespace and is made
    of characters of `s`.
  */
  lemma {:induction false} SplitWsWords(s: string)
    ensures forall i :: 0 <= i < |SplitWs(s)| ==> SplitWs(s)[i] != [] && NoSpace(SplitWs(s)[i])
    ensures forall i, j :: 0 <= i < |SplitWs(s)| && 0 <= j < |SplitWs(s)[i]| ==> SplitWs(s)[i][j] in s
    decreases |s|
  {
    if s == [] {
    } else if IsSpace(s[0]) {
      SplitWsWords(s[1..]);
      assert forall x :: x in s[1..] ==> x in s;
    } else {
      var w := LeadingWord(s);
      SplitWsWords(s[|w|..]);
      assert forall x :: x in s[|w|..] ==> x in s;
      assert forall x :: x in w ==> x in s;
    }
  }

  /** `sep.join(ws)`. */
  function JoinWith(ws: seq<string>, sep: string): string
  {
    if ws == [] then []
    else if |ws| == 1 then ws[0]
    else ws[0] + sep + JoinWith(ws[1..], sep)
  }

  /** A word `w` followed by whitespace or by nothing is read back whole. */
  lemma {:induction false} LeadingWordOf(w: string, t: string)
    requires NoSpace(w)
    requires t == [] || IsSpace(t[0])
    ensures LeadingWord(w + t) == w
    decreases |w|
  {
    if w == [] {
      assert w + t == t;
    } else {
      assert (w + t)[1..] == w[1..] + t;
      LeadingWordOf(w[1..], t);
      assert w == [w[0]] + w[1..];
    }
  }

  /** A string splits into no word exactly when it is all whitespace. */
  lemma {:induction false} SplitWsEmpty(s: string)
    ensures SplitWs(s) == [] <==> AllSpace(s)
    decreases |s|
  {
    if s != [] && IsSpace(s[0]) {
      SplitWsEmpty(s[1..]);
      if AllSpace(s[1..]) {
        forall i | 1 <= i < |s| ensures IsSpace(s[i]) {
          assert s[i] == s[1..][i - 1];
        }
      }
    }
  }

  /** Trailing whitespace adds no word. */
  lemma {:induction false} SplitWsTrailingSpace(s: string, t: string)
    requires AllSpace(t)
    ensures SplitWs(s + t) == SplitWs(s)
    decreases |s|
  {
    if s == [] {
      assert s + t == t;
      SplitWsEmpty(t);
    } else if IsSpace(s[0]) {
      assert (s + t)[1..] == s[1..] + t;
      SplitWsTrailingSpace(s[1..], t);
    } else {
      var w := LeadingWord(s);
      var rest := s[|w|..];
      assert s == w + rest;
      assert rest == [] || IsSpace(rest[0]);
      LeadingWordOf(w, rest);
      assert s + t == w + (rest + t);
      LeadingWordOf(w, rest + t);
      assert (s + t)[|w|..] == rest + t;
      SplitWsTrailingSpace(rest, t);
    }
  }

  /** Leading whitespace adds no word. */
  lemma {:induction false} SplitWsLeadingSpace(p: string, s: string)
    requires AllSpace(p)
    ensures SplitWs(p + s) == SplitWs(s)
    decreases |p|
  {
    if p != [] {
      assert (p + s)[1..] == p[1..] + s;
      SplitWsLeadingSpace(p[1..], s);
    } else {
      assert p + s == s;
    }
  }

  /** The number of whitespace characters `s` starts with. */
  function LeadingSpace(s: string): (n: nat)
    ensures n <= |s|
  {
    if s != [] && IsSpace(s[0]) then 1 + LeadingSpace(s[1..]) else 0
  }

  /** The number of whitespace characters `s` ends with. */
  function TrailingSpace(s: string): (n: nat)
    ensures n <= |s|
  {
    if s != [] && IsSpace(s[|s| - 1]) then 1 + TrailingSpace(s[..|s| - 1]) else 0
  }

  /** The leading whitespace is all whitespace, and what follows it is not. */
  lemma {:induction false} LeadingSpaceSpec(s: string)
    ensures var n := LeadingSpace(s); AllSpace(s[..n]) && (n < |s| ==> !IsSpace(s[n]))
    decreases |s|
  {
    if s != [] && IsSpace(s[0]) {
      LeadingSpaceSpec(s[1..]);
      var n := LeadingSpace(s);
      forall i | 0 <= i < n ensures IsSpace(s[..n][i]) {
        if i > 0 { assert s[..n][i] == s[1..][..n - 1][i - 1]; }
      }
      if n < |s| { assert s[n] == s[1..][n - 1]; }
    }
  }

  /** The trailing whitespace is all whitespace, and what precedes it is not. */
  lemma {:induction false} TrailingSpaceSpec(s: string)
    ensures var n := TrailingSpace(s); AllSpace(s[|s| - n..]) && (n < |s| ==> !IsSpace(s[|s| - n - 1]))
    decreases |s|
  {
    if s != [] && IsSpace(s[|s| - 1]) {
      var u := s[..|s| - 1];
      TrailingSpaceSpec(u);
      TrailingSpaceGrow(s, u, TrailingSpace(u));
    }
  }

  /** One more whitespace character at the end extends the trailing whitespace by one. */
  lemma TrailingSpaceGrow(s: string, u: string, m: nat)
    requires s != [] && IsSpace(s[|s| - 1]) && u == s[..|s| - 1] && m <= |u|
    requires AllSpace(u[|u| - m..]) && (m < |u| ==> !IsSpace(u[|u| - m - 1]))
    ensures AllSpace(s[|s| - (m + 1)..]) && (m + 1 < |s| ==> !IsSpace(s[|s| - (m + 1) - 1]))
  {
    var n := m + 1;
    var t, v := s[|s| - n..], u[|u| - m..];
    forall i | 0 <= i < |t| ensures IsSpace(t[i]) {
      if i < m { assert t[i] == v[i]; }
    }
    if n < |s| { assert s[|s| - n - 1] == u[|u| - m - 1]; }
  }

  /** `strip()` on both ends. */
  function TrimLeft(s: string): (r: string)
    ensures |r| <= |s|
  {
    s[LeadingSpace(s)..]
  }

  function TrimRight(s: string): (r: string)
    ensures |r| <= |s|
  {
    s[..|s| - TrailingSpace(s)]
  }

  /** `s.strip()`. */
  function Strip(s: string): string
  {
    TrimRight(TrimLeft(s))
  }

  /** Left trimming drops exactly a whitespace prefix. */
  lemma {:induction false} LeadingSpacePadded(p: string, s: string)
    requires AllSpace(p)
    requires s == [] || !IsSpace(s[0])
    ensures LeadingSpace(p + s) == |p|
    decreases |p|
  {
    if p == [] {
      assert p + s == s;
    } else {
      assert (p + s)[0] == p[0];
      assert (p + s)[1..] == p[1..] + s;
      LeadingSpacePadded(p[1..], s);
    }
  }

  lemma TrimLeftPadded(p: string, s: string)
    requires AllSpace(p)
    requires s == [] || !IsSpace(s[0])
    ensures TrimLeft(p + s) == s
  {
    LeadingSpacePadded(p, s);
    assert (p + s)[|p|..] == s;
  }

  /** Right trimming drops exactly a whitespace suffix. */
  lemma {:induction false} TrailingSpacePadded(s: string, q: string)
    requires AllSpace(q)
    requires s == [] || !IsSpace(s[|s| - 1])
    ensures TrailingSpace(s + q) == |q|
    decreases |q|
  {
    if q == [] {
      assert s + q == s;
    } else {
      var x := s + q;
      assert x[|x| - 1] == q[|q| - 1];
      assert x[..|x| - 1] == s + q[..|q| - 1];
      TrailingSpacePadded(s, q[..|q| - 1]);
    }
  }

  lemma TrimRightPadded(s: string, q: string)
    requires AllSpace(q)
    requires s == [] || !IsSpace(s[|s| - 1])
    ensures TrimRight(s + q) == s
  {
    TrailingSpacePadded(s, q);
    assert (s + q)[..|s|] == s;
  }

  /**
    `strip()` removes exactly the surrounding whitespace: a string with no
    whitespace at either end comes back unchanged from any padding.
  */
  lemma StripPadded(p: string, s: string, q: string)
    requires AllSpace(p) && AllSpace(q)
    requires s == [] || (!IsSpace(s[0]) && !IsSpace(s[|s| - 1]))
    ensures Strip(p + s + q) == s
  {
    if s == [] {
      assert p + s + q == p + q + [];
      assert AllSpace(p + q);
      TrimLeftPadded(p + q, []);
      TrimRightPadded([], []);
    } else {
      assert p + s + q == p + (s + q);
      assert (s + q)[0] == s[0];
      TrimLeftPadded(p, s + q);
      TrimRightPadded(s, q);
    }
  }

  /** Leading and trailing whitespace change nothing to `split()`. */
  lemma SplitWsStrip(s: string)
    ensures SplitWs(Strip(s)) == SplitWs(s)
  {
    var l := TrimLeft(s);
    TrimLeftParts(s);
    LeadingSpaceSpec(s);
    SplitWsLeadingSpace(s[..LeadingSpace(s)], l);
    TrimRightParts(l);
    TrailingSpaceSpec(l);
    SplitWsTrailingSpace(TrimRight(l), l[|l| - TrailingSpace(l)..]);
  }

  lemma TrimLeftParts(s: string)
    ensures s == s[..LeadingSpace(s)] + TrimLeft(s)
  {
  }

  lemma TrimRightParts(s: string)
    ensures s == TrimRight(s) + s[|s| - TrailingSpace(s)..]
  {
  }

  /**
    Splitting the single-space join of words gives the words back: the
    harness's `' '.join(x.split()).split()` is the same as `x.split()`.
  */
  lemma {:induction false} SplitWsJoin(ws: seq<string>)
    requires forall i :: 0 <= i < |ws| ==> ws[i] != [] && NoSpace(ws[i])
    ensures SplitWs(JoinWith(ws, " ")) == ws
  {
    if |ws| == 1 {
      var w := ws[0];
      LeadingWordOf(w, []);
      assert w + [] == w;
      assert w[|w|..] == [];
    } else if |ws| > 1 {
      SplitWsJoin(ws[1..]);
      SplitWsWordSpace(ws[0], JoinWith(ws[1..], " "));
      assert ws == [ws[0]] + ws[1..];
    }
  }

  /** A word, a space, then more text: the word comes first, then the words of the rest. */
  lemma SplitWsWordSpace(w: string, tail: string)
    requires w != [] && NoSpace(w)
    ensures SplitWs(w + " " + tail) == [w] + SplitWs(tail)
  {
    var s := w + " " + tail;
    assert s == w + (" " + tail);
    LeadingWordOf(w, " " + tail);
    assert s[|w|..] == " " + tail;
    assert (" " + tail)[1..] == tail;
  }

  // ---------------------------------------------------------------------
  // Splitting on one separator character: `s.split(c)`

  /**
    `s.split(c)`: the pieces between the occurrences of `c`.  There is one
    more piece than there are separators, so at least two pieces exactly
    when `c` occurs in `s`; no piece holds `c`.
  */
  function SplitOn(s: string, c: char): (parts: seq<string>)
    ensures |parts| >= 1
    ensures |parts| >= 2 <==> c in s
    ensures forall i :: 0 <= i < |parts| ==> c !in parts[i]
    decreases |s|
  {
    if c in s then
      var k := IndexOf(s, c);
      [s[..k]] + SplitOn(s[k + 1..], c)
    else [s]
  }

  /** Joining the pieces with the separator restores the string. */
  lemma {:induction false} JoinSplitOn(s: string, c: char)
    ensures JoinWith(SplitOn(s, c), [c]) == s
    decreases |s|
  {
    if c in s {
      var k := IndexOf(s, c);
      JoinSplitOn(s[k + 1..], c);
      assert s == s[..k] + [c] + s[k + 1..];
    }
  }

  // ---------------------------------------------------------------------
  // Integers: `int(s)` and `'%d' % n`

  predicate IsDigit(c: char) {
    '0' <= c <= '9'
  }

  predicate AllDigits(s: string) {
    forall i :: 0 <= i < |s| ==> IsDigit(s[i])
  }

  function DigitsValue(s: string): nat
    requires AllDigits(s)
    decreases |s|
  {
    if s == [] then 0
    else DigitsValue(s[..|s| - 1]) * 10 + (s[|s| - 1] as int - '0' as int)
  }

  /**
    `int(s)` in base 10 on a string that holds no whitespace: an optional
    sign followed by one or more decimal digits.  For anything else Python
    raises ValueError, modelled as None.
  */
  function ParseInt(s: string): (r: Option<int>)
    ensures r.Some? ==> s != [] && NoSpace(s)
    ensures r.Some? && r.value < 0 ==> s[0] == '-'
    ensures r.Some? && r.value > 0 ==> s[0] != '-'
  {
    if s != [] && (s[0] == '+' || s[0] == '-') then
      if s[1..] != [] && AllDigits(s[1..]) then
        var v: int := DigitsValue(s[1..]);
        Some(if s[0] == '-' then -v else v)
      else None
    else if s != [] && AllDigits(s) then Some(DigitsValue(s))
    else None
  }

  function Digit(d: nat): char
    requires d < 10
  {
    ('0' as int + d) as char
  }

  /** `'%d' % n` for a natural number. */
  function NatToString(n: nat): (s: string)
    ensures s != [] && AllDigits(s)
  {
    if n < 10 then [Digit(n)] else NatToString(n / 10) + [Digit(n % 10)]
  }

  /** `'%d' % i`, with a minus sign in front of a negative number. */
  function IntToString(i: int): string
  {
    if i < 0 then "-" + NatToString(-i) else NatToString(i)
  }

  /** The decimal rendering of a natural number reads back as that number. */
  lemma {:induction false} NatToStringValue(n: nat)
    ensures DigitsValue(NatToString(n)) == n
  {
    if n >= 10 {
      NatToStringValue(n / 10);
      var s := NatToString(n);
      assert s[..|s| - 1] == NatToString(n / 10);
    }
  }

  /** `int('%d' % i) == i` for every integer. */
  lemma IntToStringRoundTrip(i: int)
    ensures ParseInt(IntToString(i)) == Some(i)
  {
    var s := IntToString(i);
    if i < 0 {
      NatToStringValue(-i);
      assert s[1..] == NatToString(-i);
    } else {
      NatToStringValue(i);
      var d := NatToString(i);
      assert IsDigit(d[0]);
    }
  }

  /** Zeros in front of the digits do not change the value. */
  lemma {:induction false} DigitsValueZero(d: string)
    requires AllDigits(d)
    ensures DigitsValue("0" + d) == DigitsValue(d)
    decreases |d|
  {
    if d != [] {
      var z := "0" + d;
      assert z[..|z| - 1] == "0" + d[..|d| - 1];
      assert z[|z| - 1] == d[|d| - 1];
      DigitsValueZero(d[..|d| - 1]);
    } else {
      assert "0" + d == "0";
    }
  }

  /** `k` zero digits. */
  function Zeros(k: nat): (z: string)
    ensures |z| == k && AllDigits(z)
  {
    seq(k, _ => '0')
  }

  lemma {:induction false} ZerosValue(k: nat, d: string)
    requires AllDigits(d)
    ensures AllDigits(Zeros(k) + d)
    ensures DigitsValue(Zeros(k) + d) == DigitsValue(d)
    decreases k
  {
    if k > 0 {
      var e := Zeros(k - 1) + d;
      assert Zeros(k) + d == "0" + e;
      ZerosValue(k - 1, d);
      DigitsValueZero(e);
    } else {
      assert Zeros(k) + d == d;
    }
  }

  /** Decimal digits, with or without a '+' in front, read as their value. */
  lemma ParseIntDigits(d: string, plus: bool)
    requires d != [] && AllDigits(d)
    ensures ParseInt(if plus then "+" + d else d) == Some(DigitsValue(d))
  {
    if plus {
      assert ("+" + d)[1..] == d;
    } else {
      assert IsDigit(d[0]);
    }
  }

  /**
    `int()` reads a non-negative number with any number of leading zeros,
    with or without a '+' in front, as that number.
  */
  lemma ParseIntLeadingZeros(k: nat, n: nat, plus: bool)
    ensures var d := Zeros(k) + NatToString(n);
      ParseInt(if plus then "+" + d else d) == Some(n)
  {
    ZerosValue(k, NatToString(n));
    NatToStringValue(n);
    ParseIntDigits(Zeros(k) + NatToString(n), plus);
  }

  /** The text `int()` reads as `n`: an optional sign, zeros, then `'%d' % abs(n)`. */
  ghost predicate Numeral(s: string, n: int) {
    exists k: nat ::
      (n >= 0 && (s == Zeros(k) + NatToString(n) || s == "+" + Zeros(k) + NatToString(n))) ||
      (n <= 0 && s == "-" + Zeros(k) + NatToString(-n))
  }

  /** Digits without a leading zero, or a lone digit, are the rendering of their value. */
  lemma {:induction false} CanonicalDigits(e: string)
    requires e != [] && AllDigits(e) && (e[0] != '0' || |e| == 1)
    ensures NatToString(DigitsValue(e)) == e
    ensures e[0] != '0' ==> DigitsValue(e) >= 1
    decreases |e|
  {
    var c := e[|e| - 1] as int - '0' as int;
    var f := e[..|e| - 1];
    assert DigitsValue(e) == DigitsValue(f) * 10 + c;
    if |e| > 1 {
      assert f[0] == e[0];
      CanonicalDigits(f);
      var v := DigitsValue(e);
      assert v / 10 == DigitsValue(f) && v % 10 == c;
      assert e == f + [Digit(c)];
    } else {
      assert e == [Digit(c)];
    }
  }

  /** Any non-empty run of digits is `k` zeros followed by the rendering of its value. */
  lemma {:induction false} DigitsCanonical(d: string) returns (k: nat)
    requires d != [] && AllDigits(d)
    ensures d == Zeros(k) + NatToString(DigitsValue(d))
    decreases |d|
  {
    if d[0] == '0' && |d| > 1 {
      var e := d[1..];
      var j := DigitsCanonical(e);
      assert d == "0" + e;
      DigitsValueZero(e);
      assert Zeros(j + 1) == "0" + Zeros(j);
      k := j + 1;
    } else {
      CanonicalDigits(d);
      k := 0;
      assert d == Zeros(0) + NatToString(DigitsValue(d));
    }
  }

  /** A minus sign, zeros, then the rendering of `n` read as `-n`. */
  lemma ParseIntMinusZeros(k: nat, n: nat)
    ensures ParseInt("-" + Zeros(k) + NatToString(n)) == Some(-(n as int))
  {
    var d := Zeros(k) + NatToString(n);
    ZerosValue(k, NatToString(n));
    NatToStringValue(n);
    assert ("-" + Zeros(k) + NatToString(n))[1..] == d;
  }

  /**
    `int()` of a token reads `n` exactly from the numerals of `n`, so text
    such as "1a", "1.5" or "--1" raises ValueError.
  */
  lemma ParseIntNumeral(s: string, n: int)
    ensures ParseInt(s) == Some(n) <==> Numeral(s, n)
  {
    if ParseInt(s) == Some(n) {
      ParseIntIsNumeral(s, n);
    }
    if Numeral(s, n) {
      NumeralParses(s, n);
    }
  }

  lemma ParseIntIsNumeral(s: string, n: int)
    requires ParseInt(s) == Some(n)
    ensures Numeral(s, n)
  {
    if s[0] == '+' || s[0] == '-' {
      SignedIsNumeral(s, n);
    } else {
      var k := DigitsCanonical(s);
      NumeralOf(s, n, "", k);
    }
  }

  lemma SignedIsNumeral(s: string, n: int)
    requires s != [] && (s[0] == '+' || s[0] == '-') && s[1..] != [] && AllDigits(s[1..])
    requires n == if s[0] == '-' then -(DigitsValue(s[1..]) as int) else DigitsValue(s[1..])
    ensures Numeral(s, n)
  {
    var d := s[1..];
    var k := DigitsCanonical(d);
    var m := DigitsValue(d);
    assert (if n < 0 then -n else n) == m;
    assert s == [s[0]] + d;
    NumeralOf(s, n, [s[0]], k);
  }

  /** A sign, zeros and the rendering of `abs(n)`, given explicitly, are a numeral of `n`. */
  lemma NumeralOf(s: string, n: int, sign: string, k: nat)
    requires sign == "" || sign == "+" || sign == "-"
    requires if sign == "-" then n <= 0 else n >= 0
    requires s == sign + Zeros(k) + NatToString(if n < 0 then -n else n)
    ensures Numeral(s, n)
  {
    if sign == "" {
      assert s == Zeros(k) + NatToString(n);
    }
  }

  lemma NumeralParses(s: string, n: int)
    requires Numeral(s, n)
    ensures ParseInt(s) == Some(n)
  {
    var k: nat :| (n >= 0 && (s == Zeros(k) + NatToString(n) || s == "+" + Zeros(k) + NatToString(n))) ||
      (n <= 0 && s == "-" + Zeros(k) + NatToString(-n));
    if n >= 0 && s == Zeros(k) + NatToString(n) {
      assert s == "" + Zeros(k) + NatToString(n);
      SignedZerosParse("", k, n);
    } else if n >= 0 && s == "+" + Zeros(k) + NatToString(n) {
      SignedZerosParse("+", k, n);
    } else {
      SignedZerosParse("-", k, -n);
    }
  }

  /** An optional sign, zeros, then the rendering of `m` read as `m` with that sign. */
  lemma SignedZerosParse(sign: string, k: nat, m: nat)
    requires sign == "" || sign == "+" || sign == "-"
    ensures ParseInt(sign + Zeros(k) + NatToString(m)) == Some(if sign == "-" then -(m as int) else m)
  {
    var d := Zeros(k) + NatToString(m);
    assert sign + Zeros(k) + NatToString(m) == sign + d;
    if sign == "-" {
      ParseIntMinusZeros(k, m);
    } else if sign == "+" {
      ParseIntLeadingZeros(k, m, true);
    } else {
      assert sign + d == d;
      ParseIntLeadingZeros(k, m, false);
    }
  }

  /** The decimal text of an integer holds no whitespace. */
  lemma IntToStringNoSpace(i: int)
    ensures NoSpace(IntToString(i))
  {
    var s := IntToString(i);
    if i < 0 {
      var d := NatToString(-i);
      forall j | 0 <= j < |s| ensures !IsSpace(s[j]) {
        if j > 0 { assert s[j] == d[j - 1]; }
      }
    }
  }

  /** A text without whitespace is its own `strip()` and its own left trim. */
  lemma TrimNoSpace(s: string)
    ensures NoSpace(s) ==> Strip(s) == s && TrimLeft(s) == s
  {
    if NoSpace(s) {
      assert [] + s + [] == s && [] + s == s;
      StripPadded([], s, []);
      TrimLeftPadded([], s);
    }
  }

  /**
    Python 2's `int()` in base 10 on stripped text: an optional sign, any
    whitespace after it, then one or more decimal digits.
  */
  function SignedDigits(t: string): (r: Option<int>)
    ensures NoSpace(t) ==> r == ParseInt(t)
  {
    if t != [] && (t[0] == '+' || t[0] == '-') then
      var d := TrimLeft(t[1..]);
      TrimNoSpace(t[1..]);
      if d != [] && AllDigits(d) then
        var v: int := DigitsValue(d);
        Some(if t[0] == '-' then -v else v)
      else None
    else if t != [] && AllDigits(t) then Some(DigitsValue(t))
    else None
  }

  /**
    `int(s)` of Python 2 in base 10 on any text: surrounding whitespace is
    ignored, and so is whitespace between the sign and the digits.  On a
    text without whitespace, such as a token, it is `ParseInt`.
  */
  function IntOf(s: string): (r: Option<int>)
    ensures NoSpace(s) ==> r == ParseInt(s)
  {
    TrimNoSpace(s);
    SignedDigits(Strip(s))
  }

  /** The decimal text of an integer with any whitespace around it reads as that integer. */
  lemma IntOfPadded(p: string, n: int, q: string)
    requires AllSpace(p) && AllSpace(q)
    ensures IntOf(p + IntToString(n) + q) == Some(n)
  {
    var s := IntToString(n);
    IntToStringNoSpace(n);
    assert s != [] && !IsSpace(s[0]) && !IsSpace(s[|s| - 1]);
    StripPadded(p, s, q);
    IntToStringRoundTrip(n);
  }

  /** Python 2 reads a minus sign, whitespace, then digits as the negative number. */
  lemma IntOfBlankAfterSign(b: string, n: nat)
    requires AllSpace(b)
    ensures IntOf("-" + b + NatToString(n)) == Some(-(n as int))
  {
    var d := NatToString(n);
    var s := "-" + b + d;
    assert s == "-" + (b + d);
    StripSigned(b, d);
    assert s[1..] == b + d;
    assert IsDigit(d[0]);
    TrimLeftPadded(b, d);
    NatToStringValue(n);
    SignedMinus(s, d);
  }

  /** A minus sign, then text whose left trim is digits, reads as the negated digits. */
  lemma SignedMinus(t: string, d: string)
    requires t != [] && t[0] == '-' && TrimLeft(t[1..]) == d && d != [] && AllDigits(d)
    ensures SignedDigits(t) == Some(-(DigitsValue(d) as int))
  {
  }

  lemma StripSigned(b: string, d: string)
    requires d != [] && AllDigits(d)
    ensures Strip("-" + (b + d)) == "-" + (b + d)
  {
    var s := "-" + (b + d);
    assert s[|s| - 1] == d[|d| - 1] && IsDigit(d[|d| - 1]);
    assert [] + s + [] == s;
    StripPadded([], s, []);
  }

  /** Every character of a left trim, a right trim or a strip is a character of the text. */
  lemma TrimKeepsChars(s: string)
    ensures forall c :: c in TrimLeft(s) ==> c in s
    ensures forall c :: c in TrimRight(s) ==> c in s
    ensures forall c :: c in Strip(s) ==> c in TrimLeft(s)
  {
    var u := TrimLeft(s);
    assert u == s[LeadingSpace(s)..];
    assert TrimRight(s) == s[..|s| - TrailingSpace(s)];
    assert Strip(s) == u[..|u| - TrailingSpace(u)];
  }

  /** A text holding no digit at all is not a number. */
  lemma IntOfNoDigit(s: string)
    requires forall i :: 0 <= i < |s| ==> !IsDigit(s[i])
    ensures IntOf(s) == None
  {
    TrimKeepsChars(s);
    var t := Strip(s);
    if t != [] && (t[0] == '+' || t[0] == '-') {
      TrimKeepsChars(t[1..]);
      var d := TrimLeft(t[1..]);
      if d != [] {
        assert d[0] in t[1..];
        assert !IsDigit(d[0]);
      }
    } else if t != [] {
      assert t[0] in s;
    }
  }
}
