/**
  The header block of a scenario file: the raw lines `parse_file` reads
  before it starts asking for tokens, up to and including the first line
  that starts with CONFIG_END.
*/
module Header {
  import opened Wrappers
  import opened Text
  import opened Document

  /** `[x.strip() for x in parts]`. */
  function StripAll(parts: seq<string>): (r: seq<string>)
    ensures |r| == |parts|
    ensures forall i :: 0 <= i < |parts| ==> r[i] == Strip(parts[i])
  {
    if parts == [] then [] else [Strip(parts[0])] + StripAll(parts[1..])
  }

  /**
    What one header line adds to the config: nothing when it starts with ';';
    otherwise the stripped pieces between the colons of its text before the
    first '#', added only when there are at least two of them.  So a line is
    kept exactly when it does not start with ';' and has a ':' before any '#'.
  */
  function ConfigLine(line: string): (kv: Config)
    ensures |kv| <= 1
    ensures |kv| == 1 <==> !StartsWith(line, ";") && ':' in CutAt(line, '#')
    ensures forall i :: 0 <= i < |kv| ==> |kv[i]| >= 2
    ensures |kv| == 1 ==> var parts := SplitOn(CutAt(line, '#'), ':');
      |kv[0]| == |parts| && forall j :: 0 <= j < |parts| ==> kv[0][j] == Strip(parts[j])
  {
    if StartsWith(line, ";") then []
    else
      var cut := CutAt(line, '#');
      // `len(kv) >= 2` holds exactly when the cut line holds a ':'
      if ':' in cut then [StripAll(SplitOn(cut, ':'))] else []
  }

  /** The config contributed by a run of header lines, line after line. */
  function ConfigOf(ls: seq<string>): (cfg: Config)
    ensures |cfg| <= |ls|
    ensures forall i :: 0 <= i < |cfg| ==> |cfg[i]| >= 2
  {
    if ls == [] then [] else ConfigLine(ls[0]) + ConfigOf(ls[1..])
  }

  /** The index of the first line at or after `p` that starts with CONFIG_END, or the number of lines. */
  function HeaderEnd(lines: seq<string>, p: nat): (k: nat)
    requires p <= |lines|
    ensures p <= k <= |lines|
    ensures forall i :: p <= i < k ==> !StartsWith(lines[i], "CONFIG_END")
    ensures k < |lines| ==> StartsWith(lines[k], "CONFIG_END")
    decreases |lines| - p
  {
    if p == |lines| || StartsWith(lines[p], "CONFIG_END") then p else HeaderEnd(lines, p + 1)
  }

  /**
    What the header loop of `parse_file` leaves behind when it starts at
    line index `p`: the config read from the lines before the first
    CONFIG_END line, and the cursor just after that line, or at the end of
    the file when there is none.
  */
  function ConfigBlock(lines: seq<string>, p: nat): (r: (Config, nat))
    requires p <= |lines|
    ensures p <= r.1 <= |lines|
  {
    var k := HeaderEnd(lines, p);
    (ConfigOf(lines[p..k]), if k < |lines| then k + 1 else |lines|)
  }

  /** The header ends at `done` when no line before it closes the header and it is the end or a CONFIG_END line. */
  lemma HeaderDone(lines: seq<string>, p: nat, done: nat)
    requires p <= done <= |lines|
    requires forall i :: p <= i < done ==> !StartsWith(lines[i], "CONFIG_END")
    requires done < |lines| ==> StartsWith(lines[done], "CONFIG_END")
    ensures ConfigBlock(lines, p) == (ConfigOf(lines[p..done]), if done < |lines| then done + 1 else |lines|)
  {
    HeaderEndIs(lines, p, done);
  }

  /** The first CONFIG_END line at or after `p` is the one at `done`, or there is none. */
  lemma HeaderEndIs(lines: seq<string>, p: nat, done: nat)
    requires p <= done <= |lines|
    requires forall i :: p <= i < done ==> !StartsWith(lines[i], "CONFIG_END")
    requires done < |lines| ==> StartsWith(lines[done], "CONFIG_END")
    ensures HeaderEnd(lines, p) == done
  {
  }

  /** The first line's contribution comes first. */
  lemma ConfigOfCons(l: string, ls: seq<string>)
    ensures ConfigOf([l] + ls) == ConfigLine(l) + ConfigOf(ls)
  {
    assert ([l] + ls)[1..] == ls;
  }

  /** Reading one more header line appends what it contributes. */
  lemma {:induction false} ConfigOfSnoc(ls: seq<string>, l: string)
    ensures ConfigOf(ls + [l]) == ConfigOf(ls) + ConfigLine(l)
  {
    if ls == [] {
      assert [] + [l] == [l];
    } else {
      assert (ls + [l])[1..] == ls[1..] + [l];
      ConfigOfSnoc(ls[1..], l);
    }
  }

  /**
    The header is the first CONFIG_END line's prefix: a file whose lines
    from `p` on are `h`, then a CONFIG_END line, then anything, has as
    config what the lines of `h` contribute, line after line, and the
    cursor lands just after the CONFIG_END line.
  */
  lemma HeaderThenEnd(lines: seq<string>, p: nat, h: seq<string>, e: string)
    requires p + |h| < |lines| && lines[p..p + |h| + 1] == h + [e]
    requires forall i :: 0 <= i < |h| ==> !StartsWith(h[i], "CONFIG_END")
    requires StartsWith(e, "CONFIG_END")
    ensures ConfigBlock(lines, p) == (ConfigOf(h), p + |h| + 1)
  {
    HeaderEndAt(lines, p, h, e);
    ConfigBlockAt(lines, p, h);
  }

  lemma ConfigBlockAt(lines: seq<string>, p: nat, h: seq<string>)
    requires p + |h| < |lines| && HeaderEnd(lines, p) == p + |h| && lines[p..p + |h|] == h
    ensures ConfigBlock(lines, p) == (ConfigOf(h), p + |h| + 1)
  {
  }

  lemma HeaderEndAt(lines: seq<string>, p: nat, h: seq<string>, e: string)
    requires p + |h| < |lines| && lines[p..p + |h| + 1] == h + [e]
    requires forall i :: 0 <= i < |h| ==> !StartsWith(h[i], "CONFIG_END")
    requires StartsWith(e, "CONFIG_END")
    ensures HeaderEnd(lines, p) == p + |h| && lines[p..p + |h|] == h
  {
    var k := HeaderEnd(lines, p);
    forall i | p <= i < p + |h| ensures !StartsWith(lines[i], "CONFIG_END") {
      assert lines[i] == lines[p..p + |h| + 1][i - p] == h[i - p];
    }
    assert lines[p + |h|] == lines[p..p + |h| + 1][|h|] == e;
    assert k == p + |h|;
    assert lines[p..k] == lines[p..p + |h| + 1][..|h|];
    assert (h + [e])[..|h|] == h;
  }

  /** `key: value` as a header line. */
  function KeyValueLine(key: string, value: string): string
  {
    key + ": " + value
  }

  /** A key or value that reads back unchanged from a `key: value` line. */
  predicate PlainField(s: string) {
    && ':' !in s && '#' !in s
    && (s == [] || (!IsSpace(s[0]) && !IsSpace(s[|s| - 1])))
  }

  /** Splitting `a c b` on `c`, when neither side holds `c`, gives the two sides. */
  lemma SplitOnOne(a: string, c: char, b: string)
    requires c !in a && c !in b
    ensures SplitOn(a + [c] + b, c) == [a, b]
  {
    var s := a + [c] + b;
    assert s[|a|] == c;
    var k := IndexOf(s, c);
    assert s[..k] == a;
    assert s[k + 1..] == b;
  }

  lemma StripKey(key: string)
    requires PlainField(key)
    ensures Strip(key) == key
  {
    assert [] + key == key;
    TrimLeftPadded([], key);
    assert key + [] == key;
    TrimRightPadded(key, []);
  }

  lemma StripValue(value: string)
    requires PlainField(value)
    ensures Strip(" " + value) == value
  {
    TrimLeftPadded(" ", value);
    assert value + [] == value;
    TrimRightPadded(value, []);
  }

  lemma {:induction false} StripAllPair(a: string, b: string)
    ensures StripAll([a, b]) == [Strip(a), Strip(b)]
  {
    var ab: seq<string> := [a, b];
    var bb: seq<string> := [b];
    assert ab[1..] == bb;
    assert bb[1..] == [];
    assert StripAll(bb) == [Strip(b)];
    assert StripAll(ab) == [Strip(a)] + StripAll(bb);
  }

  /**
    A `key: value` line with a plain key and value that does not start with
    ';' is read back as the pair [key, value].
  */
  lemma KeyValueRoundTrip(key: string, value: string)
    requires PlainField(key) && PlainField(value)
    requires key == [] || key[0] != ';'
    ensures ConfigLine(KeyValueLine(key, value)) == [[key, value]]
  {
    var line := KeyValueLine(key, value);
    assert line == key + [':'] + (" " + value);
    assert !StartsWith(line, ";") by {
      if key == [] { assert line[0] == ':'; } else { assert line[0] == key[0]; }
    }
    assert CutAt(line, '#') == line by {
      assert '#' !in line;
    }
    SplitOnOne(key, ':', " " + value);
    StripAllPair(key, " " + value);
    StripKey(key);
    StripValue(value);
  }

  /** Splitting on `c` a text whose first `c` comes right after `a` gives `a`, then the pieces of the rest. */
  lemma SplitOnFirst(a: string, c: char, r: string)
    requires c !in a
    ensures SplitOn(a + [c] + r, c) == [a] + SplitOn(r, c)
  {
    var s := a + [c] + r;
    assert s[|a|] == c;
    var k := IndexOf(s, c);
    assert s[..k] == a;
    assert s[k + 1..] == r;
  }

  lemma ThreeFieldSplit(a: string, x: string, y: string)
    requires ':' !in a && ':' !in x && ':' !in y
    ensures SplitOn(a + [':'] + x + [':'] + y, ':') == [a, x, y]
  {
    assert a + [':'] + x + [':'] + y == a + [':'] + (x + [':'] + y);
    SplitOnFirst(a, ':', x + [':'] + y);
    SplitOnOne(x, ':', y);
  }

  lemma {:induction false} StripAllTriple(a: string, b: string, c: string)
    ensures StripAll([a, b, c]) == [Strip(a), Strip(b), Strip(c)]
  {
    var abc: seq<string> := [a, b, c];
    assert abc[1..] == [b, c];
    StripAllPair(b, c);
    assert StripAll(abc) == [Strip(a)] + StripAll([b, c]);
  }

  /** A `a: b: c` line whose fields hold no ':' or '#' is kept, with the three pieces between its colons. */
  lemma ThreeFieldPieces(a: string, b: string, c: string)
    requires PlainField(a) && PlainField(b) && PlainField(c)
    requires a == [] || a[0] != ';'
    ensures ConfigLine(a + ": " + b + ": " + c) == [StripAll([a, " " + b, " " + c])]
  {
    var line := a + ": " + b + ": " + c;
    var x, y := " " + b, " " + c;
    assert line == a + [':'] + x + [':'] + y;
    assert !StartsWith(line, ";") by {
      if a == [] { assert line[0] == ':'; } else { assert line[0] == a[0]; }
    }
    assert '#' !in line;
    assert CutAt(line, '#') == line;
    ThreeFieldSplit(a, x, y);
  }

  /**
    The header splits at every ':', not just the first: a line
    `a: b: c` with plain fields gives the three-field entry [a, b, c].
  */
  lemma ThreeFieldLine(a: string, b: string, c: string)
    requires PlainField(a) && PlainField(b) && PlainField(c)
    requires a == [] || a[0] != ';'
    ensures ConfigLine(a + ": " + b + ": " + c) == [[a, b, c]]
  {
    ThreeFieldPieces(a, b, c);
    StripAllTriple(a, " " + b, " " + c);
    StripKey(a);
    StripValue(b);
    StripValue(c);
  }

  /** A plain `key: value` line never closes the header unless the key does. */
  lemma KeyValueNotConfigEnd(key: string, value: string)
    requires ':' !in key && !StartsWith(key, "CONFIG_END")
    ensures !StartsWith(KeyValueLine(key, value), "CONFIG_END")
  {
    var line := KeyValueLine(key, value);
    if |key| < 10 && |line| >= 10 {
      assert line[|key|] == ':';
      assert line[..10][|key|] == ':';
      assert "CONFIG_END"[|key|] != ':';
    } else if |key| >= 10 {
      assert line[..10] == key[..10];
    }
  }
}
