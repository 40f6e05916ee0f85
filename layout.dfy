/**
  Range and scenario bodies written in any layout, the partner of the two
  loops that skip what they do not know.  Inside a range the lines may
  hold any number of ADDRESS lines, entry blocks and other commands, in
  any order; inside a scenario, ranges, steps and other commands in any
  interleaving.  Reading such a body back keeps the last address, the
  entries, the ranges and the steps, each in the order of the file, and
  drops everything else.

  A predicate written `P(..) == true` in a lemma's contract means `P(..)`;
  the comparison keeps the verifier from unfolding the predicate at the
  lemma's boundary, so that only the lemmas whose bodies need its
  definition see it.
*/
module Layout {
  import opened Wrappers
  import opened Text
  import opened Lexer
  import opened Document
  import opened Grammar
  import opened Printer

  // ---------------------------------------------------------------------
  // Range bodies

  /** One line (or block of lines) between RANGE_BEGIN and RANGE_END. */
  datatype RangeLine =
    | AddressLine(address: string)   // ADDRESS <address>
    | EntryBlock(entry: Entry)       // ENTRY_BEGIN, the entry, ENTRY_END
    | OtherLine(cmd: Cmd)            // any other command, which `parse_range` passes over

  /** The opcodes `parse_range` gives a meaning of its own. */
  predicate RangeWord(op: string) {
    op == "ADDRESS" || op == "ENTRY_BEGIN" || op == "RANGE_END"
  }

  predicate PrintableRangeLine(l: RangeLine) {
    match l
    case AddressLine(_) => true
    case EntryBlock(e) => PrintableEntry(e)
    case OtherLine(c) => !RangeWord(c.op)
  }

  predicate PrintableRangeLines(ls: seq<RangeLine>) {
    forall i :: 0 <= i < |ls| ==> PrintableRangeLine(ls[i])
  }

  function RangeLineCmds(l: RangeLine): seq<Cmd>
  {
    match l
    case AddressLine(a) => [Cmd("ADDRESS", [a])]
    case EntryBlock(e) => [Cmd("ENTRY_BEGIN", [])] + EntryCmds(e)
    case OtherLine(c) => [c]
  }

  function RangeLinesCmds(ls: seq<RangeLine>): seq<Cmd>
  {
    if ls == [] then [] else RangeLineCmds(ls[0]) + RangeLinesCmds(ls[1..])
  }

  /** The argument of the last ADDRESS line, looking from the end; None when there is none. */
  function LastAddress(ls: seq<RangeLine>): Option<string>
    decreases |ls|
  {
    if ls == [] then None
    else if ls[|ls| - 1].AddressLine? then Some(ls[|ls| - 1].address)
    else LastAddress(ls[..|ls| - 1])
  }

  /** The entries of the entry blocks, in order. */
  function BlockEntries(ls: seq<RangeLine>): seq<Entry>
  {
    if ls == [] then [] else (if ls[0].EntryBlock? then [ls[0].entry] else []) + BlockEntries(ls[1..])
  }

  /**
    The last address is absent exactly when no line is an ADDRESS line;
    otherwise it is the argument of an ADDRESS line that no later ADDRESS
    line follows.
  */
  lemma LastAddressSpec(ls: seq<RangeLine>)
    ensures LastAddress(ls).None? <==> forall i :: 0 <= i < |ls| ==> !ls[i].AddressLine?
    ensures LastAddress(ls).Some? ==>
      exists i :: 0 <= i < |ls| && ls[i] == AddressLine(LastAddress(ls).value)
        && forall j :: i < j < |ls| ==> !ls[j].AddressLine?
  {
    LastAddressNone(ls);
    LastAddressSome(ls);
  }

  /** No address exactly when no line is an ADDRESS line. */
  lemma {:induction false} LastAddressNone(ls: seq<RangeLine>)
    ensures LastAddress(ls).None? <==> forall i :: 0 <= i < |ls| ==> !ls[i].AddressLine?
    decreases |ls|
  {
    if ls != [] {
      var n := |ls| - 1;
      if !ls[n].AddressLine? {
        var u := ls[..n];
        LastAddressNone(u);
        assert forall i :: 0 <= i < n ==> ls[i] == u[i];
      }
    }
  }

  /** An address found is that of an ADDRESS line no later ADDRESS line follows. */
  lemma {:induction false} LastAddressSome(ls: seq<RangeLine>)
    ensures LastAddress(ls).Some? ==>
      exists i :: 0 <= i < |ls| && ls[i] == AddressLine(LastAddress(ls).value)
        && forall j :: i < j < |ls| ==> !ls[j].AddressLine?
    decreases |ls|
  {
    if ls != [] {
      var n := |ls| - 1;
      if ls[n].AddressLine? {
        assert ls[n] == AddressLine(LastAddress(ls).value);
      } else {
        var u := ls[..n];
        LastAddressSome(u);
        if LastAddress(u).Some? {
          var i :| 0 <= i < |u| && u[i] == AddressLine(LastAddress(u).value)
            && forall j :: i < j < |u| ==> !u[j].AddressLine?;
          assert ls[i] == u[i];
          assert forall j :: i < j < n ==> ls[j] == u[j];
        }
      }
    }
  }

  /** A line read first counts as the address only when no later ADDRESS line follows. */
  lemma {:induction false} LastAddressCons(l: RangeLine, ls: seq<RangeLine>)
    ensures LastAddress([l] + ls) ==
      if LastAddress(ls).Some? then LastAddress(ls) else if l.AddressLine? then Some(l.address) else None
    decreases |ls|
  {
    var s := [l] + ls;
    if ls == [] {
      assert s[..|s| - 1] == [];
    } else {
      var n := |ls| - 1;
      assert s[|s| - 1] == ls[n];
      assert s[..|s| - 1] == [l] + ls[..n];
      if !ls[n].AddressLine? {
        LastAddressCons(l, ls[..n]);
      }
    }
  }

  /** An ADDRESS at the head of a range body counts unless the rest of the body names an address. */
  lemma {:induction false} RangeBodyAddressLine(ts: seq<Tok>, at: nat, end: nat, v: (Option<string>, seq<Entry>))
    requires at < |ts| && end <= |ts| && ts[at].op == "ADDRESS" && ts[at].args != []
    requires RangeBody(ts[at + 1..]) == Done(v, ts[end..])
    ensures RangeBody(ts[at..]) == Done((if v.0.Some? then v.0 else Some(ts[at].args[0]), v.1), ts[end..])
  {
    DropCons(ts, at);
  }

  /** `parse_range` passes over a command it gives no meaning. */
  lemma {:induction false} RangeBodySkip(ts: seq<Tok>, at: nat)
    requires at < |ts| && !RangeWord(ts[at].op)
    ensures RangeBody(ts[at..]) == RangeBody(ts[at + 1..])
  {
    DropCons(ts, at);
  }

  lemma {:induction false} PrintableRangeLinesTail(ls: seq<RangeLine>)
    requires ls != [] && PrintableRangeLines(ls)
    ensures PrintableRangeLine(ls[0]) && PrintableRangeLines(ls[1..])
  {
    forall i | 0 <= i < |ls| - 1 ensures PrintableRangeLine(ls[1..][i]) {
      assert ls[1..][i] == ls[i + 1];
    }
  }

  lemma {:induction false} BlockEntriesCons(l: RangeLine, ls: seq<RangeLine>)
    ensures l.EntryBlock? ==> BlockEntries([l] + ls) == [l.entry] + BlockEntries(ls)
    ensures !l.EntryBlock? ==> BlockEntries([l] + ls) == BlockEntries(ls)
  {
    assert ([l] + ls)[1..] == ls;
    assert [] + BlockEntries(ls) == BlockEntries(ls);
  }

  /**
    The range body from `at` on is the body `ls` closed by RANGE_END: it
    reads back as the last address and the entries of `ls`, and parsing
    resumes right after RANGE_END.
  */
  predicate RangeRead(ls: seq<RangeLine>, ts: seq<Tok>, at: nat) {
    at + |RangeLinesCmds(ls)| + 1 <= |ts| &&
    RangeBody(ts[at..]) == Done((LastAddress(ls), BlockEntries(ls)), ts[at + |RangeLinesCmds(ls)| + 1..])
  }

  /** An ADDRESS line at the head of a range body, then the rest of the body. */
  lemma {:induction false} AddressLineStep(ls: seq<RangeLine>, ts: seq<Tok>, at: nat, mid: nat, end: nat)
    requires ls != [] && ls[0].AddressLine? && mid == at + |RangeLineCmds(ls[0])|
    requires Carries(ts, at, RangeLineCmds(ls[0])) && end <= |ts|
    requires RangeBody(ts[mid..]) == Done((LastAddress(ls[1..]), BlockEntries(ls[1..])), ts[end..])
    ensures RangeBody(ts[at..]) == Done((LastAddress(ls), BlockEntries(ls)), ts[end..])
  {
    var l := ls[0];
    assert RangeLineCmds(l) == [Cmd("ADDRESS", [l.address])] + [];
    CarriesHead(ts, at, Cmd("ADDRESS", [l.address]), []);
    assert ls == [l] + ls[1..];
    LastAddressCons(l, ls[1..]);
    BlockEntriesCons(l, ls[1..]);
    RangeBodyAddressLine(ts, at, end, (LastAddress(ls[1..]), BlockEntries(ls[1..])));
  }

  /** An entry block at the head of a range body, then the rest of the body. */
  lemma {:induction false} EntryBlockStep(ls: seq<RangeLine>, ts: seq<Tok>, at: nat, mid: nat, end: nat)
    requires ls != [] && ls[0].EntryBlock? && PrintableEntry(ls[0].entry) && mid == at + |RangeLineCmds(ls[0])|
    requires Carries(ts, at, RangeLineCmds(ls[0])) && end <= |ts|
    requires RangeBody(ts[mid..]) == Done((LastAddress(ls[1..]), BlockEntries(ls[1..])), ts[end..])
    ensures RangeBody(ts[at..]) == Done((LastAddress(ls), BlockEntries(ls)), ts[end..])
  {
    var l := ls[0];
    CarriesHead(ts, at, Cmd("ENTRY_BEGIN", []), EntryCmds(l.entry));
    EntryRoundTrip(l.entry, ts, at + 1);
    assert ls == [l] + ls[1..];
    LastAddressCons(l, ls[1..]);
    BlockEntriesCons(l, ls[1..]);
    RangeBodyEntry(ts, at, mid, end, l.entry, (LastAddress(ls[1..]), BlockEntries(ls[1..])));
  }

  /** A command `parse_range` passes over, at the head of a range body. */
  lemma {:induction false} OtherLineStep(ls: seq<RangeLine>, ts: seq<Tok>, at: nat, mid: nat, end: nat)
    requires ls != [] && ls[0].OtherLine? && !RangeWord(ls[0].cmd.op) && mid == at + |RangeLineCmds(ls[0])|
    requires Carries(ts, at, RangeLineCmds(ls[0])) && end <= |ts|
    requires RangeBody(ts[mid..]) == Done((LastAddress(ls[1..]), BlockEntries(ls[1..])), ts[end..])
    ensures RangeBody(ts[at..]) == Done((LastAddress(ls), BlockEntries(ls)), ts[end..])
  {
    var l := ls[0];
    assert RangeLineCmds(l) == [l.cmd] + [];
    CarriesHead(ts, at, l.cmd, []);
    assert ls == [l] + ls[1..];
    LastAddressCons(l, ls[1..]);
    BlockEntriesCons(l, ls[1..]);
    RangeBodySkip(ts, at);
  }

  /** The line at the head of a range body, read before the rest of the body. */
  lemma {:induction false} RangeLineStep(ls: seq<RangeLine>, ts: seq<Tok>, at: nat, mid: nat)
    requires ls != [] && PrintableRangeLine(ls[0]) == true && mid == at + |RangeLineCmds(ls[0])|
    requires Carries(ts, at, RangeLineCmds(ls[0])) == true && RangeRead(ls[1..], ts, mid) == true
    ensures RangeRead(ls, ts, at) == true
  {
    var end := mid + |RangeLinesCmds(ls[1..])| + 1;
    assert end == at + |RangeLinesCmds(ls)| + 1;
    RangeLineHead(ls, ts, at, mid, end);
  }

  /** Any printable line at the head of a range body, by its kind. */
  lemma {:induction false} RangeLineHead(ls: seq<RangeLine>, ts: seq<Tok>, at: nat, mid: nat, end: nat)
    requires ls != [] && PrintableRangeLine(ls[0]) && mid == at + |RangeLineCmds(ls[0])|
    requires Carries(ts, at, RangeLineCmds(ls[0])) && end <= |ts|
    requires RangeBody(ts[mid..]) == Done((LastAddress(ls[1..]), BlockEntries(ls[1..])), ts[end..])
    ensures RangeBody(ts[at..]) == Done((LastAddress(ls), BlockEntries(ls)), ts[end..])
  {
    if ls[0].AddressLine? {
      AddressLineStep(ls, ts, at, mid, end);
    } else if ls[0].EntryBlock? {
      EntryBlockStep(ls, ts, at, mid, end);
    } else {
      OtherLineStep(ls, ts, at, mid, end);
    }
  }

  /**
    A range body in any layout, closed by RANGE_END, reads back as the
    last address and the entries of its entry blocks in order; every other
    command is passed over, and parsing resumes after RANGE_END.
  */
  lemma {:induction false} RangeLinesRoundTrip(ls: seq<RangeLine>, ts: seq<Tok>, at: nat)
    requires PrintableRangeLines(ls)
    requires Carries(ts, at, RangeLinesCmds(ls) + [Cmd("RANGE_END", [])])
    ensures RangeBody(ts[at..]) == Done((LastAddress(ls), BlockEntries(ls)), ts[at + |RangeLinesCmds(ls)| + 1..])
  {
    RangeLinesRead(ls, ts, at);
  }

  /** The induction behind RangeLinesRoundTrip, one line at a time. */
  lemma {:induction false} RangeLinesRead(ls: seq<RangeLine>, ts: seq<Tok>, at: nat)
    requires PrintableRangeLines(ls) == true
    requires Carries(ts, at, RangeLinesCmds(ls) + [Cmd("RANGE_END", [])]) == true
    ensures RangeRead(ls, ts, at) == true
    decreases |ls|, 2
  {
    if ls == [] {
      RangeLinesNil(ts, at);
    } else {
      RangeLinesCons(ls, ts, at);
    }
  }

  /** RANGE_END right away: no address, no entry. */
  lemma {:induction false} RangeLinesNil(ts: seq<Tok>, at: nat)
    requires Carries(ts, at, RangeLinesCmds([]) + [Cmd("RANGE_END", [])])
    ensures RangeRead([], ts, at)
  {
    assert RangeLinesCmds([]) + [Cmd("RANGE_END", [])] == [Cmd("RANGE_END", [])] + [];
    CarriesHead(ts, at, Cmd("RANGE_END", []), []);
    DropCons(ts, at);
  }

  /** One step of the induction. Writing `== true` keeps the verifier from unfolding the
      predicates at this lemma's boundary: only the lemmas it calls need their bodies. */
  lemma {:induction false} RangeLinesCons(ls: seq<RangeLine>, ts: seq<Tok>, at: nat)
    requires ls != [] && PrintableRangeLines(ls) == true
    requires Carries(ts, at, RangeLinesCmds(ls) + [Cmd("RANGE_END", [])]) == true
    ensures RangeRead(ls, ts, at) == true
    decreases |ls|, 1
  {
    RangeLinesTailRead(ls, ts, at, at + |RangeLineCmds(ls[0])|);
    RangeLineStep(ls, ts, at, at + |RangeLineCmds(ls[0])|);
  }

  /** The commands of a range body with a first line: that line's, then the rest's, then RANGE_END. */
  lemma {:induction false} RangeLinesSplit(ls: seq<RangeLine>, ts: seq<Tok>, at: nat, mid: nat)
    requires ls != [] && PrintableRangeLines(ls) && mid == at + |RangeLineCmds(ls[0])|
    requires Carries(ts, at, RangeLinesCmds(ls) + [Cmd("RANGE_END", [])])
    ensures PrintableRangeLine(ls[0]) && PrintableRangeLines(ls[1..])
    ensures Carries(ts, at, RangeLineCmds(ls[0])) == true && Carries(ts, mid, RangeLinesCmds(ls[1..]) + [Cmd("RANGE_END", [])]) == true
  {
    CarriesSplit(ts, at, RangeLineCmds(ls[0]), RangeLinesCmds(ls[1..]), [Cmd("RANGE_END", [])]);
    PrintableRangeLinesTail(ls);
  }

  /** The first line's commands come first, and the rest of the body reads back on its own. */
  lemma {:induction false} RangeLinesTailRead(ls: seq<RangeLine>, ts: seq<Tok>, at: nat, mid: nat)
    requires ls != [] && PrintableRangeLines(ls) == true && mid == at + |RangeLineCmds(ls[0])|
    requires Carries(ts, at, RangeLinesCmds(ls) + [Cmd("RANGE_END", [])]) == true
    ensures PrintableRangeLine(ls[0]) == true && Carries(ts, at, RangeLineCmds(ls[0])) == true && RangeRead(ls[1..], ts, mid) == true
    decreases |ls|, 0
  {
    RangeLinesSplit(ls, ts, at, mid);
    RangeLinesRead(ls[1..], ts, mid);
  }

  /** RANGE_BEGIN with the bounds in decimal, the body lines, RANGE_END. */
  function RangeLayoutCmds(lo: int, hi: int, ls: seq<RangeLine>): seq<Cmd>
  {
    [Cmd("RANGE_BEGIN", [IntToString(lo), IntToString(hi)])] + RangeLinesCmds(ls) + [Cmd("RANGE_END", [])]
  }

  /** The range such a layout stands for. */
  function LayoutRange(lo: int, hi: int, ls: seq<RangeLine>): Range
  {
    Range(lo, hi, LastAddress(ls), BlockEntries(ls))
  }

  /** A range written in any layout reads back with its bounds, its last address and its entries. */
  lemma {:induction false} RangeLayoutRoundTrip(lo: int, hi: int, ls: seq<RangeLine>, ts: seq<Tok>, at: nat)
    requires PrintableRangeLines(ls) && Carries(ts, at, RangeLayoutCmds(lo, hi, ls))
    ensures at < |ts| && ts[at].op == "RANGE_BEGIN"
    ensures RangeSpec(ts[at], ts[at + 1..]) == Done(LayoutRange(lo, hi, ls), ts[at + |RangeLayoutCmds(lo, hi, ls)|..])
  {
    var head := Cmd("RANGE_BEGIN", [IntToString(lo), IntToString(hi)]);
    CmdsAssoc([head], RangeLinesCmds(ls), [Cmd("RANGE_END", [])]);
    CarriesHead(ts, at, head, RangeLinesCmds(ls) + [Cmd("RANGE_END", [])]);
    IntToStringRoundTrip(lo);
    IntToStringRoundTrip(hi);
    RangeLinesRoundTrip(ls, ts, at + 1);
  }

  // ---------------------------------------------------------------------
  // Scenario bodies

  /** One line (or block of lines) between SCENARIO_BEGIN and SCENARIO_END. */
  datatype BodyLine =
    | RangeBlock(lo: int, hi: int, lines: seq<RangeLine>)  // a range in any layout
    | StepBlock(step: Step)                                // STEP, with its entry block when it has one
    | OtherItem(cmd: Cmd)                                  // any other command, which `parse_scenario` passes over

  /** The opcodes `parse_scenario` gives a meaning of its own. */
  predicate BodyWord(op: string) {
    op == "RANGE_BEGIN" || op == "STEP" || op == "SCENARIO_END"
  }

  predicate PrintableBodyLine(l: BodyLine, hasData: string -> bool) {
    match l
    case RangeBlock(_, _, rl) => PrintableRangeLines(rl)
    case StepBlock(s) => PrintableStep(s, hasData)
    case OtherItem(c) => !BodyWord(c.op)
  }

  predicate PrintableBodyLines(ls: seq<BodyLine>, hasData: string -> bool) {
    forall i :: 0 <= i < |ls| ==> PrintableBodyLine(ls[i], hasData)
  }

  function BodyLineCmds(l: BodyLine): seq<Cmd>
  {
    match l
    case RangeBlock(lo, hi, rl) => RangeLayoutCmds(lo, hi, rl)
    case StepBlock(s) => StepCmds(s)
    case OtherItem(c) => [c]
  }

  function BodyLinesCmds(ls: seq<BodyLine>): seq<Cmd>
  {
    if ls == [] then [] else BodyLineCmds(ls[0]) + BodyLinesCmds(ls[1..])
  }

  /** The ranges of the range blocks, in order. */
  function RangesOf(ls: seq<BodyLine>): seq<Range>
  {
    if ls == [] then []
    else (if ls[0].RangeBlock? then [LayoutRange(ls[0].lo, ls[0].hi, ls[0].lines)] else []) + RangesOf(ls[1..])
  }

  /** The steps of the step blocks, in order. */
  function StepsOf(ls: seq<BodyLine>): seq<Step>
  {
    if ls == [] then [] else (if ls[0].StepBlock? then [ls[0].step] else []) + StepsOf(ls[1..])
  }

  /** `parse_scenario` passes over a command it gives no meaning. */
  lemma {:induction false} ScenarioBodySkip(ts: seq<Tok>, at: nat, eof: nat, hasData: string -> bool)
    requires at < |ts| && !BodyWord(ts[at].op)
    ensures ScenarioBody(ts[at..], eof, hasData) == ScenarioBody(ts[at + 1..], eof, hasData)
  {
    DropCons(ts, at);
  }

  lemma {:induction false} PrintableBodyLinesTail(ls: seq<BodyLine>, hasData: string -> bool)
    requires ls != [] && PrintableBodyLines(ls, hasData)
    ensures PrintableBodyLine(ls[0], hasData) && PrintableBodyLines(ls[1..], hasData)
  {
    forall i | 0 <= i < |ls| - 1 ensures PrintableBodyLine(ls[1..][i], hasData) {
      assert ls[1..][i] == ls[i + 1];
    }
  }

  lemma {:induction false} BodyLinesCons(l: BodyLine, ls: seq<BodyLine>)
    ensures l.RangeBlock? ==> RangesOf([l] + ls) == [LayoutRange(l.lo, l.hi, l.lines)] + RangesOf(ls)
    ensures !l.RangeBlock? ==> RangesOf([l] + ls) == RangesOf(ls)
    ensures l.StepBlock? ==> StepsOf([l] + ls) == [l.step] + StepsOf(ls)
    ensures !l.StepBlock? ==> StepsOf([l] + ls) == StepsOf(ls)
  {
    assert ([l] + ls)[1..] == ls;
    assert [] + RangesOf(ls) == RangesOf(ls);
    assert [] + StepsOf(ls) == StepsOf(ls);
  }

  /** A range block at the head of a scenario body, then the rest of the body. */
  lemma {:induction false} RangeBlockStep(ls: seq<BodyLine>, ts: seq<Tok>, at: nat, mid: nat, end: nat, eof: nat, hasData: string -> bool)
    requires ls != [] && ls[0].RangeBlock? && PrintableRangeLines(ls[0].lines) && mid == at + |BodyLineCmds(ls[0])|
    requires Carries(ts, at, BodyLineCmds(ls[0])) && end <= |ts|
    requires ScenarioBody(ts[mid..], eof, hasData) == Done((RangesOf(ls[1..]), StepsOf(ls[1..])), ts[end..])
    ensures ScenarioBody(ts[at..], eof, hasData) == Done((RangesOf(ls), StepsOf(ls)), ts[end..])
  {
    var l := ls[0];
    RangeLayoutRoundTrip(l.lo, l.hi, l.lines, ts, at);
    assert ls == [l] + ls[1..];
    BodyLinesCons(l, ls[1..]);
    ScenarioBodyRange(ts, at, mid, end, eof, hasData, LayoutRange(l.lo, l.hi, l.lines), (RangesOf(ls[1..]), StepsOf(ls[1..])));
  }

  /** A step block at the head of a scenario body, then the rest of the body. */
  lemma {:induction false} StepBlockStep(ls: seq<BodyLine>, ts: seq<Tok>, at: nat, mid: nat, end: nat, eof: nat, hasData: string -> bool)
    requires ls != [] && ls[0].StepBlock? && PrintableStep(ls[0].step, hasData) && mid == at + |BodyLineCmds(ls[0])|
    requires Carries(ts, at, BodyLineCmds(ls[0])) && end <= |ts|
    requires ScenarioBody(ts[mid..], eof, hasData) == Done((RangesOf(ls[1..]), StepsOf(ls[1..])), ts[end..])
    ensures ScenarioBody(ts[at..], eof, hasData) == Done((RangesOf(ls), StepsOf(ls)), ts[end..])
  {
    var l := ls[0];
    StepRoundTrip(l.step, ts, at, eof, hasData);
    assert ls == [l] + ls[1..];
    BodyLinesCons(l, ls[1..]);
    ScenarioBodyStep(ts, at, mid, end, eof, hasData, l.step, (RangesOf(ls[1..]), StepsOf(ls[1..])));
  }

  /** A command `parse_scenario` passes over, at the head of a scenario body. */
  lemma {:induction false} OtherItemStep(ls: seq<BodyLine>, ts: seq<Tok>, at: nat, mid: nat, end: nat, eof: nat, hasData: string -> bool)
    requires ls != [] && ls[0].OtherItem? && !BodyWord(ls[0].cmd.op) && mid == at + |BodyLineCmds(ls[0])|
    requires Carries(ts, at, BodyLineCmds(ls[0])) && end <= |ts|
    requires ScenarioBody(ts[mid..], eof, hasData) == Done((RangesOf(ls[1..]), StepsOf(ls[1..])), ts[end..])
    ensures ScenarioBody(ts[at..], eof, hasData) == Done((RangesOf(ls), StepsOf(ls)), ts[end..])
  {
    var l := ls[0];
    assert BodyLineCmds(l) == [l.cmd] + [];
    CarriesHead(ts, at, l.cmd, []);
    assert ls == [l] + ls[1..];
    BodyLinesCons(l, ls[1..]);
    ScenarioBodySkip(ts, at, eof, hasData);
  }

  /**
    The scenario body from `at` on is the body `ls` closed by SCENARIO_END:
    it reads back as the ranges and the steps of `ls`, and parsing resumes
    right after SCENARIO_END.
  */
  predicate BodyRead(ls: seq<BodyLine>, ts: seq<Tok>, at: nat, eof: nat, hasData: string -> bool) {
    at + |BodyLinesCmds(ls)| + 1 <= |ts| &&
    ScenarioBody(ts[at..], eof, hasData) == Done((RangesOf(ls), StepsOf(ls)), ts[at + |BodyLinesCmds(ls)| + 1..])
  }

  /** The block at the head of a scenario body, read before the rest of the body. */
  lemma {:induction false} BodyLineStep(ls: seq<BodyLine>, ts: seq<Tok>, at: nat, mid: nat, eof: nat, hasData: string -> bool)
    requires ls != [] && PrintableBodyLine(ls[0], hasData) == true && mid == at + |BodyLineCmds(ls[0])|
    requires Carries(ts, at, BodyLineCmds(ls[0])) == true && BodyRead(ls[1..], ts, mid, eof, hasData) == true
    ensures BodyRead(ls, ts, at, eof, hasData) == true
  {
    var end := mid + |BodyLinesCmds(ls[1..])| + 1;
    assert end == at + |BodyLinesCmds(ls)| + 1;
    BodyLineHead(ls, ts, at, mid, end, eof, hasData);
  }

  /** Any printable block at the head of a scenario body, by its kind. */
  lemma {:induction false} BodyLineHead(ls: seq<BodyLine>, ts: seq<Tok>, at: nat, mid: nat, end: nat, eof: nat, hasData: string -> bool)
    requires ls != [] && PrintableBodyLine(ls[0], hasData) && mid == at + |BodyLineCmds(ls[0])|
    requires Carries(ts, at, BodyLineCmds(ls[0])) && end <= |ts|
    requires ScenarioBody(ts[mid..], eof, hasData) == Done((RangesOf(ls[1..]), StepsOf(ls[1..])), ts[end..])
    ensures ScenarioBody(ts[at..], eof, hasData) == Done((RangesOf(ls), StepsOf(ls)), ts[end..])
  {
    if ls[0].RangeBlock? {
      RangeBlockStep(ls, ts, at, mid, end, eof, hasData);
    } else if ls[0].StepBlock? {
      StepBlockStep(ls, ts, at, mid, end, eof, hasData);
    } else {
      OtherItemStep(ls, ts, at, mid, end, eof, hasData);
    }
  }

  /**
    A scenario body in any layout, closed by SCENARIO_END, reads back as
    the ranges of its range blocks and the steps of its step blocks, each
    in the order of the file, however the two interleave; every other
    command is passed over, and parsing resumes after SCENARIO_END.
  */
  lemma {:induction false} BodyLinesRoundTrip(ls: seq<BodyLine>, ts: seq<Tok>, at: nat, eof: nat, hasData: string -> bool)
    requires PrintableBodyLines(ls, hasData)
    requires Carries(ts, at, BodyLinesCmds(ls) + [Cmd("SCENARIO_END", [])])
    ensures ScenarioBody(ts[at..], eof, hasData) == Done((RangesOf(ls), StepsOf(ls)), ts[at + |BodyLinesCmds(ls)| + 1..])
  {
    BodyLinesRead(ls, ts, at, eof, hasData);
  }

  /** The induction behind BodyLinesRoundTrip, one block at a time. */
  lemma {:induction false} BodyLinesRead(ls: seq<BodyLine>, ts: seq<Tok>, at: nat, eof: nat, hasData: string -> bool)
    requires PrintableBodyLines(ls, hasData) == true
    requires Carries(ts, at, BodyLinesCmds(ls) + [Cmd("SCENARIO_END", [])]) == true
    ensures BodyRead(ls, ts, at, eof, hasData) == true
    decreases |ls|, 2
  {
    if ls == [] {
      BodyLinesNil(ts, at, eof, hasData);
    } else {
      BodyLinesConsCase(ls, ts, at, eof, hasData);
    }
  }

  /** SCENARIO_END right away: no range, no step. */
  lemma {:induction false} BodyLinesNil(ts: seq<Tok>, at: nat, eof: nat, hasData: string -> bool)
    requires Carries(ts, at, BodyLinesCmds([]) + [Cmd("SCENARIO_END", [])])
    ensures BodyRead([], ts, at, eof, hasData)
  {
    assert BodyLinesCmds([]) + [Cmd("SCENARIO_END", [])] == [Cmd("SCENARIO_END", [])] + [];
    CarriesHead(ts, at, Cmd("SCENARIO_END", []), []);
    DropCons(ts, at);
  }

  /** One step of the induction; `== true` as in RangeLinesCons. */
  lemma {:induction false} BodyLinesConsCase(ls: seq<BodyLine>, ts: seq<Tok>, at: nat, eof: nat, hasData: string -> bool)
    requires ls != [] && PrintableBodyLines(ls, hasData) == true
    requires Carries(ts, at, BodyLinesCmds(ls) + [Cmd("SCENARIO_END", [])]) == true
    ensures BodyRead(ls, ts, at, eof, hasData) == true
    decreases |ls|, 1
  {
    BodyLinesTailRead(ls, ts, at, at + |BodyLineCmds(ls[0])|, eof, hasData);
    BodyLineStep(ls, ts, at, at + |BodyLineCmds(ls[0])|, eof, hasData);
  }

  /** The commands of a scenario body with a first block: that block's, then the rest's, then SCENARIO_END. */
  lemma {:induction false} BodyLinesSplit(ls: seq<BodyLine>, ts: seq<Tok>, at: nat, mid: nat, hasData: string -> bool)
    requires ls != [] && PrintableBodyLines(ls, hasData) && mid == at + |BodyLineCmds(ls[0])|
    requires Carries(ts, at, BodyLinesCmds(ls) + [Cmd("SCENARIO_END", [])])
    ensures PrintableBodyLine(ls[0], hasData) && PrintableBodyLines(ls[1..], hasData)
    ensures Carries(ts, at, BodyLineCmds(ls[0])) == true && Carries(ts, mid, BodyLinesCmds(ls[1..]) + [Cmd("SCENARIO_END", [])]) == true
  {
    CarriesSplit(ts, at, BodyLineCmds(ls[0]), BodyLinesCmds(ls[1..]), [Cmd("SCENARIO_END", [])]);
    PrintableBodyLinesTail(ls, hasData);
  }

  /** The first block's commands come first, and the rest of the body reads back on its own. */
  lemma {:induction false} BodyLinesTailRead(ls: seq<BodyLine>, ts: seq<Tok>, at: nat, mid: nat, eof: nat, hasData: string -> bool)
    requires ls != [] && PrintableBodyLines(ls, hasData) == true && mid == at + |BodyLineCmds(ls[0])|
    requires Carries(ts, at, BodyLinesCmds(ls) + [Cmd("SCENARIO_END", [])]) == true
    ensures PrintableBodyLine(ls[0], hasData) == true && Carries(ts, at, BodyLineCmds(ls[0])) == true && BodyRead(ls[1..], ts, mid, eof, hasData) == true
    decreases |ls|, 0
  {
    BodyLinesSplit(ls, ts, at, mid, hasData);
    BodyLinesRead(ls[1..], ts, mid, eof, hasData);
  }

  /** SCENARIO_BEGIN with the name, the body lines, SCENARIO_END. */
  function ScenarioLayoutCmds(name: string, ls: seq<BodyLine>): seq<Cmd>
  {
    [Cmd("SCENARIO_BEGIN", [name])] + BodyLinesCmds(ls) + [Cmd("SCENARIO_END", [])]
  }

  /** The scenario such a layout stands for. */
  function LayoutScenario(name: string, ls: seq<BodyLine>): Scenario
  {
    Scenario(name, RangesOf(ls), StepsOf(ls))
  }

  /** A scenario written in any layout reads back as its name, its ranges and its steps. */
  lemma {:induction false} ScenarioLayoutRoundTrip(name: string, ls: seq<BodyLine>, ts: seq<Tok>, at: nat, eof: nat, hasData: string -> bool)
    requires PrintableBodyLines(ls, hasData) && Carries(ts, at, ScenarioLayoutCmds(name, ls))
    ensures at < |ts| && ts[at].op == "SCENARIO_BEGIN"
    ensures ScenarioSpec(ts[at], ts[at + 1..], eof, hasData) == Done(LayoutScenario(name, ls), ts[at + |ScenarioLayoutCmds(name, ls)|..])
  {
    var head := Cmd("SCENARIO_BEGIN", [name]);
    CmdsAssoc([head], BodyLinesCmds(ls), [Cmd("SCENARIO_END", [])]);
    CarriesHead(ts, at, head, BodyLinesCmds(ls) + [Cmd("SCENARIO_END", [])]);
    BodyLinesRoundTrip(ls, ts, at + 1, eof, hasData);
  }
}
