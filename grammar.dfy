/**
  The grammar of the scenario body, stated over the token stream that
  `get_next` delivers.  Each function here is the meaning of one parse
  routine: from the tokens that follow the one that opened the construct it
  yields the value built and the tokens left over, or the cause of the
  exception raised and the line number `lineno()` reports at that moment.

  A failure at a token reports that token's line (the cursor has just read
  it); a failure at the end of the input reports `eof`, the number of lines
  of the file.
*/
module Grammar {
  import opened Wrappers
  import opened Text
  import opened Lexer
  import opened Document

  /** What a parse routine does with the stream: a value and the tokens after it, or an exception at a line. */
  datatype Outcome<T> = Done(value: T, rest: seq<Tok>) | Fail(cause: Cause, line: nat)

  // ---------------------------------------------------------------------
  // parse_entry

  /** A token `parse_entry` can route: only SECTION reads an argument that may be missing. */
  predicate Routable(t: Tok) {
    t.op == "SECTION" ==> t.args != []
  }

  /** The setter a token inside an entry is routed to; every other opcode becomes a record. */
  function Route(t: Tok): Item
    requires Routable(t)
  {
    if t.op == "REPLY" then Reply(t.args)
    else if t.op == "MATCH" then Match(t.args)
    else if t.op == "ADJUST" then Adjust(t.args)
    else if t.op == "SECTION" then Section(t.args[0])
    else if t.op == "RAW" then Raw
    else Record(t.op, t.args)
  }

  /** What a parse leaves unread is a tail of its input: parsing only ever consumes tokens from the front. */
  predicate SuffixOf(rest: seq<Tok>, ts: seq<Tok>) {
    |rest| <= |ts| && rest == ts[|ts| - |rest|..]
  }

  /**
    `parse_entry` after its ENTRY_BEGIN: the items routed, up to and
    including ENTRY_END, or up to the end of the input.
  */
  function EntryBody(ts: seq<Tok>): (o: Outcome<Entry>)
    ensures o.Done? ==> |o.rest| <= |ts|
  {
    if ts == [] then Done(Entry([]), [])
    else if ts[0].op == "ENTRY_END" then Done(Entry([]), ts[1..])
    else if !Routable(ts[0]) then Fail(IndexOutOfRange, ts[0].line)
    else
      match EntryBody(ts[1..])
      case Done(e, rest) => Done(Entry([Route(ts[0])] + e.items), rest)
      case Fail(c, l) => Fail(c, l)
  }

  /** The index of the first token with opcode `op`, or the length of the stream. */
  function FirstOp(ts: seq<Tok>, op: string): (k: nat)
    ensures k <= |ts|
    ensures forall i :: 0 <= i < k ==> ts[i].op != op
    ensures k < |ts| ==> ts[k].op == op
  {
    if ts == [] || ts[0].op == op then 0 else FirstOp(ts[1..], op) + 1
  }

  /** Every token of `ts` routed, position by position. */
  function Routes(ts: seq<Tok>): (items: seq<Item>)
    requires forall i :: 0 <= i < |ts| ==> Routable(ts[i])
    ensures |items| == |ts|
  {
    seq(|ts|, i requires 0 <= i < |ts| => Route(ts[i]))
  }

  lemma RoutesCons(ts: seq<Tok>)
    requires ts != [] && forall i :: 0 <= i < |ts| ==> Routable(ts[i])
    ensures Routes(ts) == [Route(ts[0])] + Routes(ts[1..])
  {
    assert forall i :: 0 <= i < |ts| - 1 ==> ts[1..][i] == ts[i + 1];
  }

  /**
    An entry holds exactly the tokens before the first ENTRY_END, each
    routed in the order of the file, and parsing resumes just after that
    ENTRY_END (or at the end of the input when there is none) -- provided
    no SECTION among them lacks its argument.
  */
  lemma {:induction false} EntryBodyMeaning(ts: seq<Tok>)
    requires forall i :: 0 <= i < FirstOp(ts, "ENTRY_END") ==> Routable(ts[i])
    ensures var k := FirstOp(ts, "ENTRY_END");
      EntryBody(ts) == Done(Entry(Routes(ts[..k])), if k < |ts| then ts[k + 1..] else [])
  {
    var k := FirstOp(ts, "ENTRY_END");
    if ts != [] && ts[0].op != "ENTRY_END" {
      var tail := ts[1..];
      assert FirstOp(tail, "ENTRY_END") == k - 1;
      EntryBodyMeaning(tail);
      RoutesCons(ts[..k]);
      assert tail[..k - 1] == ts[..k][1..];
      assert k < |ts| ==> tail[k - 1 + 1..] == ts[k + 1..];
    } else {
      assert ts[..k] == [];
    }
  }

  /**
    A SECTION without argument before the first ENTRY_END fails the entry
    at its own line, once every token before it routes.
  */
  lemma {:induction false} EntryBodyFails(ts: seq<Tok>, j: nat)
    requires j < FirstOp(ts, "ENTRY_END")
    requires forall i :: 0 <= i < j ==> Routable(ts[i])
    requires !Routable(ts[j])
    ensures EntryBody(ts) == Fail(IndexOutOfRange, ts[j].line)
  {
    if j > 0 {
      assert FirstOp(ts[1..], "ENTRY_END") == FirstOp(ts, "ENTRY_END") - 1;
      EntryBodyFails(ts[1..], j - 1);
    }
  }

  // ---------------------------------------------------------------------
  // parse_step

  /**
    `parse_step` on STEP with arguments `t.args`: the step, with the entry
    read after it when its type has data.
  */
  function StepSpec(t: Tok, ts: seq<Tok>, eof: nat, hasData: string -> bool): (o: Outcome<Step>)
    ensures o.Done? ==> |o.rest| <= |ts|
  {
    if |t.args| < 2 then Fail(ExpectedStep, t.line)
    else
      var s := Step(t.args[0], t.args[1], t.args[2..], None);
      if !hasData(t.args[1]) then Done(s, ts)
      else if ts == [] then Fail(UnpackEndOfInput, eof)
      else if ts[0].op != "ENTRY_BEGIN" then Fail(ExpectedEntryBegin, ts[0].line)
      else
        match EntryBody(ts[1..])
        case Done(e, rest) => Done(s.(entry := Some(e)), rest)
        case Fail(c, l) => Fail(c, l)
  }

  /**
    A step with enough arguments keeps its id, type and the remaining
    arguments as extras, and carries an entry exactly when its type has
    data.  Without data it reads no token; with data it reads exactly the
    ENTRY_BEGIN token and then the entry.
  */
  lemma StepSpecShape(t: Tok, ts: seq<Tok>, eof: nat, hasData: string -> bool)
    requires |t.args| >= 2
    ensures var o := StepSpec(t, ts, eof, hasData);
      o.Done? ==>
        && o.value.id == t.args[0] && o.value.kind == t.args[1]
        && t.args == [o.value.id, o.value.kind] + o.value.extra
        && (o.value.entry.Some? <==> hasData(t.args[1]))
        && (!hasData(t.args[1]) ==> o.rest == ts)
        && (hasData(t.args[1]) ==> ts[0].op == "ENTRY_BEGIN" && EntryBody(ts[1..]) == Done(o.value.entry.value, o.rest))
  {
    assert t.args == [t.args[0], t.args[1]] + t.args[2..];
  }

  // ---------------------------------------------------------------------
  // parse_range

  /**
    The loop of `parse_range`: the address and the entries collected up to
    and including RANGE_END, or up to the end of the input.  An ADDRESS
    only counts when no later ADDRESS of the same range follows.
  */
  function RangeBody(ts: seq<Tok>): (o: Outcome<(Option<string>, seq<Entry>)>)
    ensures o.Done? ==> |o.rest| <= |ts|
    decreases |ts|
  {
    if ts == [] then Done((None, []), [])
    else
      var t := ts[0];
      if t.op == "ADDRESS" then
        if t.args == [] then Fail(IndexOutOfRange, t.line)
        else
          match RangeBody(ts[1..])
          case Done(r, rest) => Done((if r.0.Some? then r.0 else Some(t.args[0]), r.1), rest)
          case Fail(c, l) => Fail(c, l)
      else if t.op == "ENTRY_BEGIN" then
        match EntryBody(ts[1..])
        case Done(e, rest1) =>
          (match RangeBody(rest1)
           case Done(r, rest) => Done((r.0, [e] + r.1), rest)
           case Fail(c, l) => Fail(c, l))
        case Fail(c, l) => Fail(c, l)
      else if t.op == "RANGE_END" then Done((None, []), ts[1..])
      else RangeBody(ts[1..])
  }

  /** `parse_range` on RANGE_BEGIN with arguments `t.args`. */
  function RangeSpec(t: Tok, ts: seq<Tok>): (o: Outcome<Range>)
    ensures o.Done? ==> |o.rest| <= |ts|
  {
    if |t.args| < 2 then Fail(ExpectedRange, t.line)
    else
      match ParseInt(t.args[0])
      case None => Fail(NotAnInteger(t.args[0]), t.line)
      case Some(lo) =>
        match ParseInt(t.args[1])
        case None => Fail(NotAnInteger(t.args[1]), t.line)
        case Some(hi) =>
          match RangeBody(ts)
          case Done(r, rest) => Done(Range(lo, hi, r.0, r.1), rest)
          case Fail(c, l) => Fail(c, l)
  }

  /**
    A range that parses has as bounds the integers its first two
    arguments spell; a first bound that is not an integer is reported
    before the second is looked at.
  */
  lemma RangeSpecBounds(t: Tok, ts: seq<Tok>)
    ensures var o := RangeSpec(t, ts);
      && (o.Done? ==> |t.args| >= 2 && ParseInt(t.args[0]) == Some(o.value.lo) && ParseInt(t.args[1]) == Some(o.value.hi))
      && (|t.args| >= 2 && ParseInt(t.args[0]).None? ==> o == Fail(NotAnInteger(t.args[0]), t.line))
  {
  }

  // ---------------------------------------------------------------------
  // parse_scenario

  /**
    The loop of `parse_scenario`: the ranges and the steps, each in the
    order of the file, up to and including SCENARIO_END, or up to the end
    of the input.
  */
  function ScenarioBody(ts: seq<Tok>, eof: nat, hasData: string -> bool): (o: Outcome<(seq<Range>, seq<Step>)>)
    ensures o.Done? ==> |o.rest| <= |ts|
    decreases |ts|
  {
    if ts == [] then Done(([], []), [])
    else
      var t := ts[0];
      if t.op == "SCENARIO_END" then Done(([], []), ts[1..])
      else if t.op == "RANGE_BEGIN" then
        match RangeSpec(t, ts[1..])
        case Done(rg, rest1) =>
          (match ScenarioBody(rest1, eof, hasData)
           case Done(r, rest) => Done(([rg] + r.0, r.1), rest)
           case Fail(c, l) => Fail(c, l))
        case Fail(c, l) => Fail(c, l)
      else if t.op == "STEP" then
        match StepSpec(t, ts[1..], eof, hasData)
        case Done(st, rest1) =>
          (match ScenarioBody(rest1, eof, hasData)
           case Done(r, rest) => Done((r.0, [st] + r.1), rest)
           case Fail(c, l) => Fail(c, l))
        case Fail(c, l) => Fail(c, l)
      else ScenarioBody(ts[1..], eof, hasData)
  }

  /** `parse_scenario` on SCENARIO_BEGIN with arguments `t.args`: the scenario is named by its first argument. */
  function ScenarioSpec(t: Tok, ts: seq<Tok>, eof: nat, hasData: string -> bool): (o: Outcome<Scenario>)
    ensures o.Done? ==> |o.rest| <= |ts|
  {
    if t.args == [] then Fail(IndexOutOfRange, t.line)
    else
      match ScenarioBody(ts, eof, hasData)
      case Done(r, rest) => Done(Scenario(t.args[0], r.0, r.1), rest)
      case Fail(c, l) => Fail(c, l)
  }

  /** The token loop of `parse_file`: everything before the first SCENARIO_BEGIN is skipped. */
  function FindScenario(ts: seq<Tok>, eof: nat, hasData: string -> bool): (o: Outcome<Scenario>)
    ensures (forall i :: 0 <= i < |ts| ==> ts[i].op != "SCENARIO_BEGIN") ==> o == Fail(MissingScenario, eof)
  {
    if ts == [] then Fail(MissingScenario, eof)
    else if ts[0].op == "SCENARIO_BEGIN" then ScenarioSpec(ts[0], ts[1..], eof, hasData)
    else FindScenario(ts[1..], eof, hasData)
  }

  /**
    The scenario parsed is the one opened by the first SCENARIO_BEGIN of
    the stream; with none, parsing fails with the missing-scenario cause at
    the end of the input.
  */
  lemma {:induction false} FindScenarioFirst(ts: seq<Tok>, eof: nat, hasData: string -> bool)
    ensures var k := FirstOp(ts, "SCENARIO_BEGIN");
      FindScenario(ts, eof, hasData) ==
        if k < |ts| then ScenarioSpec(ts[k], ts[k + 1..], eof, hasData) else Fail(MissingScenario, eof)
  {
    if ts != [] && ts[0].op != "SCENARIO_BEGIN" {
      var k := FirstOp(ts, "SCENARIO_BEGIN");
      assert FirstOp(ts[1..], "SCENARIO_BEGIN") == k - 1;
      FindScenarioFirst(ts[1..], eof, hasData);
      if k < |ts| {
        assert ts[1..][k - 1] == ts[k];
        assert ts[1..][k - 1 + 1..] == ts[k + 1..];
      }
    }
  }

  // ---------------------------------------------------------------------
  // Parsing consumes a prefix

  lemma {:induction false} EntryBodySuffix(ts: seq<Tok>)
    ensures var o := EntryBody(ts); o.Done? ==> SuffixOf(o.rest, ts)
    decreases |ts|
  {
    if ts != [] && ts[0].op != "ENTRY_END" && Routable(ts[0]) {
      EntryBodySuffix(ts[1..]);
    }
  }

  lemma StepSpecSuffix(t: Tok, ts: seq<Tok>, eof: nat, hasData: string -> bool)
    ensures var o := StepSpec(t, ts, eof, hasData); o.Done? ==> SuffixOf(o.rest, ts)
  {
    if ts != [] {
      EntryBodySuffix(ts[1..]);
    }
  }

  lemma {:induction false} RangeBodySuffix(ts: seq<Tok>)
    ensures var o := RangeBody(ts); o.Done? ==> SuffixOf(o.rest, ts)
    decreases |ts|
  {
    if ts != [] {
      var t := ts[0];
      if t.op == "ENTRY_BEGIN" {
        EntryBodySuffix(ts[1..]);
        var e := EntryBody(ts[1..]);
        if e.Done? {
          RangeBodySuffix(e.rest);
        }
      } else if t.op != "RANGE_END" {
        RangeBodySuffix(ts[1..]);
      }
    }
  }

  lemma RangeSpecSuffix(t: Tok, ts: seq<Tok>)
    ensures var o := RangeSpec(t, ts); o.Done? ==> SuffixOf(o.rest, ts)
  {
    RangeBodySuffix(ts);
  }

  lemma {:induction false} ScenarioBodySuffix(ts: seq<Tok>, eof: nat, hasData: string -> bool)
    ensures var o := ScenarioBody(ts, eof, hasData); o.Done? ==> SuffixOf(o.rest, ts)
    decreases |ts|
  {
    if ts != [] {
      var t := ts[0];
      if t.op == "RANGE_BEGIN" {
        RangeSpecSuffix(t, ts[1..]);
        var r := RangeSpec(t, ts[1..]);
        if r.Done? {
          ScenarioBodySuffix(r.rest, eof, hasData);
        }
      } else if t.op == "STEP" {
        StepSpecSuffix(t, ts[1..], eof, hasData);
        var r := StepSpec(t, ts[1..], eof, hasData);
        if r.Done? {
          ScenarioBodySuffix(r.rest, eof, hasData);
        }
      } else if t.op != "SCENARIO_END" {
        ScenarioBodySuffix(ts[1..], eof, hasData);
      }
    }
  }

  lemma ScenarioSpecSuffix(t: Tok, ts: seq<Tok>, eof: nat, hasData: string -> bool)
    ensures var o := ScenarioSpec(t, ts, eof, hasData); o.Done? ==> SuffixOf(o.rest, ts)
  {
    ScenarioBodySuffix(ts, eof, hasData);
  }
}
