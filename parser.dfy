/**
  The parse routines of the scenario-file front end, as they run: each
  reads tokens through the cursor of a `LineReader` and builds its result
  by appending, and each is proved to deliver what the grammar says the
  tokens it finds mean.
*/
module Parser {
  import opened Wrappers
  import opened Text
  import opened Lexer
  import opened Document
  import opened Header
  import opened Grammar

  /**
    The reader's state after a parse routine agrees with the grammar's
    outcome: on success the value returned and the tokens still unread are
    the grammar's; on failure the cause raised is the grammar's and the
    cursor stands at the line the grammar names.
  */
  ghost predicate Reflects<T>(o: Outcome<T>, res: Result<T, Cause>, r: LineReader)
    requires r.Valid()
    reads r
  {
    if o.Done? then res == Ok(o.value) && r.Rest() == o.rest
    else res == Err(o.cause) && r.pos == o.line
  }

  /** An entry that already holds `items`, continued by what the remaining tokens add. */
  function EntryAfter(items: seq<Item>, o: Outcome<Entry>): Outcome<Entry>
  {
    match o
    case Done(e, rest) => Done(Entry(items + e.items), rest)
    case Fail(c, l) => Fail(c, l)
  }

  /** `parse_entry`: the entry opened by the ENTRY_BEGIN just read. */
  method ParseEntry(r: LineReader) returns (res: Result<Entry, Cause>)
    requires r.Valid()
    modifies r
    ensures r.Valid() && old(r.pos) <= r.pos
    ensures Reflects(EntryBody(old(r.Rest())), res, r)
  {
    ghost var ts0 := r.Rest();
    var items: seq<Item> := [];
    assert EntryAfter(items, EntryBody(ts0)) == EntryBody(ts0) by {
      if EntryBody(ts0).Done? { assert [] + EntryBody(ts0).value.items == EntryBody(ts0).value.items; }
    }
    while true
      invariant r.Valid() && old(r.pos) <= r.pos
      invariant EntryBody(ts0) == EntryAfter(items, EntryBody(r.Rest()))
      decreases |r.lines| - r.pos
    {
      ghost var ts := r.Rest();
      var x := r.GetNext();
      if x.Eof? {
        assert items + [] == items;
        return Ok(Entry(items));
      }
      var op, args := x.tok.op, x.tok.args;
      assert ts[0] == x.tok && ts[1..] == r.Rest();
      if op == "ENTRY_END" {
        assert items + [] == items;
        return Ok(Entry(items));
      } else if op == "REPLY" {
        items := items + [Reply(args)];
      } else if op == "MATCH" {
        items := items + [Match(args)];
      } else if op == "ADJUST" {
        items := items + [Adjust(args)];
      } else if op == "SECTION" {
        if args == [] {
          return Err(IndexOutOfRange);
        }
        items := items + [Section(args[0])];
      } else if op == "RAW" {
        items := items + [Raw];
      } else {
        items := items + [Record(op, args)];
      }
      assert forall s: seq<Item>, i: Item :: (items[..|items| - 1] + [i]) + s == items[..|items| - 1] + ([i] + s);
    }
  }

  /**
    `parse_step` on STEP `args`: the step, and the entry that follows it
    when its type has data.
  */
  method ParseStep(op: string, args: seq<string>, r: LineReader, hasData: string -> bool) returns (res: Result<Step, Cause>)
    requires r.Valid()
    modifies r
    ensures r.Valid() && old(r.pos) <= r.pos
    ensures Reflects(StepSpec(Tok(op, args, old(r.pos)), old(r.Rest()), |r.lines|, hasData), res, r)
  {
    if |args| < 2 {
      return Err(ExpectedStep);
    }
    var extra: seq<string> := [];
    if |args| > 2 {
      extra := args[2..];
    }
    assert extra == args[2..];
    var step := Step(args[0], args[1], extra, None);
    if hasData(args[1]) {
      ghost var ts := r.Rest();
      var x := r.GetNext();
      if x.Eof? {
        return Err(UnpackEndOfInput);
      }
      assert ts[0] == x.tok && ts[1..] == r.Rest();
      if x.tok.op == "ENTRY_BEGIN" {
        var e := ParseEntry(r);
        if e.Err? {
          return Err(e.error);
        }
        step := step.(entry := Some(e.value));
      } else {
        return Err(ExpectedEntryBegin);
      }
    }
    return Ok(step);
  }

  /** A range that already holds `address` and `entries`, continued by what the remaining tokens add. */
  function RangeAfter(address: Option<string>, entries: seq<Entry>, o: Outcome<(Option<string>, seq<Entry>)>): Outcome<(Option<string>, seq<Entry>)>
  {
    match o
    case Done(v, rest) => Done((if v.0.Some? then v.0 else address, entries + v.1), rest)
    case Fail(c, l) => Fail(c, l)
  }

  /**
    `parse_range` on RANGE_BEGIN `args`: the bounds, then the range body;
    each ADDRESS overwrites the address kept so far.
  */
  method ParseRange(op: string, args: seq<string>, r: LineReader) returns (res: Result<Range, Cause>)
    requires r.Valid()
    modifies r
    ensures r.Valid() && old(r.pos) <= r.pos
    ensures Reflects(RangeSpec(Tok(op, args, old(r.pos)), old(r.Rest())), res, r)
  {
    if |args| < 2 {
      return Err(ExpectedRange);
    }
    var lo := ParseInt(args[0]);
    if lo.None? {
      return Err(NotAnInteger(args[0]));
    }
    var hi := ParseInt(args[1]);
    if hi.None? {
      return Err(NotAnInteger(args[1]));
    }
    ghost var ts0 := r.Rest();
    var address: Option<string> := None;
    var entries: seq<Entry> := [];
    assert RangeAfter(address, entries, RangeBody(ts0)) == RangeBody(ts0) by {
      if RangeBody(ts0).Done? { assert [] + RangeBody(ts0).value.1 == RangeBody(ts0).value.1; }
    }
    while true
      invariant r.Valid() && old(r.pos) <= r.pos
      invariant RangeBody(ts0) == RangeAfter(address, entries, RangeBody(r.Rest()))
      decreases |r.lines| - r.pos
    {
      ghost var ts := r.Rest();
      var x := r.GetNext();
      if x.Eof? {
        break;
      }
      assert ts[0] == x.tok && ts[1..] == r.Rest();
      if x.tok.op == "ADDRESS" {
        if x.tok.args == [] {
          return Err(IndexOutOfRange);
        }
        address := Some(x.tok.args[0]);
      } else if x.tok.op == "ENTRY_BEGIN" {
        var e := ParseEntry(r);
        if e.Err? {
          return Err(e.error);
        }
        assert forall s: seq<Entry> :: (entries + [e.value]) + s == entries + ([e.value] + s);
        entries := entries + [e.value];
      } else if x.tok.op == "RANGE_END" {
        break;
      }
    }
    assert entries + [] == entries;
    return Ok(Range(lo.value, hi.value, address, entries));
  }

  /** A scenario body that already holds `ranges` and `steps`, continued by what the remaining tokens add. */
  function ScenarioAfter(ranges: seq<Range>, steps: seq<Step>, o: Outcome<(seq<Range>, seq<Step>)>): Outcome<(seq<Range>, seq<Step>)>
  {
    match o
    case Done(v, rest) => Done((ranges + v.0, steps + v.1), rest)
    case Fail(c, l) => Fail(c, l)
  }

  /** `parse_scenario` on SCENARIO_BEGIN `args`: ranges and steps appended as they come. */
  method ParseScenario(op: string, args: seq<string>, r: LineReader, hasData: string -> bool) returns (res: Result<Scenario, Cause>)
    requires r.Valid()
    modifies r
    ensures r.Valid() && old(r.pos) <= r.pos
    ensures Reflects(ScenarioSpec(Tok(op, args, old(r.pos)), old(r.Rest()), |r.lines|, hasData), res, r)
  {
    if args == [] {
      return Err(IndexOutOfRange);
    }
    var name := args[0];
    ghost var ts0 := r.Rest();
    var ranges: seq<Range> := [];
    var steps: seq<Step> := [];
    assert ScenarioAfter(ranges, steps, ScenarioBody(ts0, |r.lines|, hasData)) == ScenarioBody(ts0, |r.lines|, hasData) by {
      var o := ScenarioBody(ts0, |r.lines|, hasData);
      if o.Done? { assert [] + o.value.0 == o.value.0 && [] + o.value.1 == o.value.1; }
    }
    while true
      invariant r.Valid() && old(r.pos) <= r.pos
      invariant ScenarioBody(ts0, |r.lines|, hasData) == ScenarioAfter(ranges, steps, ScenarioBody(r.Rest(), |r.lines|, hasData))
      decreases |r.lines| - r.pos
    {
      ghost var ts := r.Rest();
      var x := r.GetNext();
      if x.Eof? {
        break;
      }
      assert ts[0] == x.tok && ts[1..] == r.Rest();
      if x.tok.op == "SCENARIO_END" {
        break;
      }
      assert x.tok == Tok(x.tok.op, x.tok.args, r.pos);
      if x.tok.op == "RANGE_BEGIN" {
        var rg := ParseRange(x.tok.op, x.tok.args, r);
        if rg.Err? {
          return Err(rg.error);
        }
        assert forall s: seq<Range> :: (ranges + [rg.value]) + s == ranges + ([rg.value] + s);
        ranges := ranges + [rg.value];
      }
      if x.tok.op == "STEP" {
        var st := ParseStep(x.tok.op, x.tok.args, r, hasData);
        if st.Err? {
          return Err(st.error);
        }
        assert forall s: seq<Step> :: (steps + [st.value]) + s == steps + ([st.value] + s);
        steps := steps + [st.value];
      }
    }
    assert ranges + [] == ranges && steps + [] == steps;
    return Ok(Scenario(name, ranges, steps));
  }

  /**
    What `parse_file` returns for the file `lines` read from line index
    `p`: the header's config, then the first scenario of the token stream
    after it; any failure carries the line count at the moment it was
    raised.
  */
  function FileSpec(lines: seq<string>, p: nat, hasData: string -> bool): (r: Result<(Scenario, Config), ParseError>)
    requires p <= |lines|
    ensures r.Ok? ==> |r.value.1| <= |lines| - p
    ensures r.Ok? ==> forall i :: 0 <= i < |r.value.1| ==> |r.value.1[i]| >= 2
  {
    var (config, q) := ConfigBlock(lines, p);
    match FindScenario(Tokens(lines, q), |lines|, hasData)
    case Done(sc, _) => Ok((sc, config))
    case Fail(c, l) => Err(ParseError(l, c))
  }

  /**
    The header loop of `parse_file`: reads raw lines up to and including
    the first one that starts with CONFIG_END, then gives the config the
    lines before it contribute, line after line.
  */
  method ReadConfig(r: LineReader) returns (config: Config)
    requires r.Valid()
    modifies r
    ensures r.Valid() && (config, r.pos) == ConfigBlock(r.lines, old(r.pos))
  {
    ghost var p0 := r.pos;
    ghost var done := r.pos;
    var header: seq<string> := [];
    var line := r.ReadLine();
    while line.Some?
      invariant r.Valid() && p0 <= done <= r.pos
      invariant line.Some? ==> done == r.pos - 1 && line.value == r.lines[done]
      invariant line.None? ==> done == r.pos == |r.lines|
      invariant header == r.lines[p0..done]
      invariant forall i :: p0 <= i < done ==> !StartsWith(r.lines[i], "CONFIG_END")
      decreases |r.lines| - r.pos, line.Some?
    {
      if StartsWith(line.value, "CONFIG_END") {
        break;
      }
      header := header + [line.value];
      done := done + 1;
      line := r.ReadLine();
    }
    config := ConfigOf(header);
    HeaderDone(r.lines, p0, done);
  }

  /** `parse_file`: the header, then the token loop looking for SCENARIO_BEGIN. */
  method ParseFile(r: LineReader, hasData: string -> bool) returns (res: Result<(Scenario, Config), ParseError>)
    requires r.Valid()
    modifies r
    ensures res == FileSpec(r.lines, old(r.pos), hasData)
  {
    var config := ReadConfig(r);
    LexedAll(r.words, r.lines);
    ghost var ts0 := r.Rest();
    while true
      invariant r.Valid()
      invariant FindScenario(ts0, |r.lines|, hasData) == FindScenario(r.Rest(), |r.lines|, hasData)
      decreases |r.lines| - r.pos
    {
      ghost var ts := r.Rest();
      var x := r.GetNext();
      if x.Eof? {
        return Err(ParseError(r.pos, MissingScenario));
      }
      assert ts[0] == x.tok && ts[1..] == r.Rest();
      if x.tok.op == "SCENARIO_BEGIN" {
        assert x.tok == Tok(x.tok.op, x.tok.args, r.pos);
        var sc := ParseScenario(x.tok.op, x.tok.args, r, hasData);
        if sc.Err? {
          return Err(ParseError(r.pos, sc.error));
        }
        return Ok((sc.value, config));
      }
    }
  }

  /**
    Without a CONFIG_END line the header loop reads the whole file, so no
    token is left and parsing fails with the missing-scenario cause at the
    last line.
  */
  lemma NoConfigEndMissingScenario(lines: seq<string>, hasData: string -> bool)
    requires forall i :: 0 <= i < |lines| ==> !StartsWith(lines[i], "CONFIG_END")
    ensures FileSpec(lines, 0, hasData) == Err(ParseError(|lines|, MissingScenario))
  {
    var k := HeaderEnd(lines, 0);
    assert k == |lines|;
  }
}
