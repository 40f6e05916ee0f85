/**
  Writing a scenario back out as scenario-file commands, the partner of the
  parser: every printable scenario, written out and read back by the
  grammar, is the scenario itself.

  A predicate written `P(..) == true` in a lemma's contract means `P(..)`;
  the comparison keeps the verifier from unfolding the predicate at the
  lemma's boundary, so that only the lemmas whose bodies need its
  definition see it.
*/
module Printer {
  import opened Wrappers
  import opened Text
  import opened Lexer
  import opened Document
  import opened Grammar

  /** One command of a scenario file: the opcode and its arguments, as one line holds them. */
  datatype Cmd = Cmd(op: string, args: seq<string>)

  /** The command a token spells: its opcode and arguments, without its line number. */
  function Cmds(ts: seq<Tok>): (cs: seq<Cmd>)
    ensures |cs| == |ts|
  {
    seq(|ts|, i requires 0 <= i < |ts| => Cmd(ts[i].op, ts[i].args))
  }

  /** The tokens of `ts` from `at` on spell the commands `cs`, whatever their line numbers. */
  predicate Carries(ts: seq<Tok>, at: nat, cs: seq<Cmd>)
    decreases |cs|
  {
    at + |cs| <= |ts| &&
    (|cs| == 0 || (ts[at].op == cs[0].op && ts[at].args == cs[0].args && Carries(ts, at + 1, cs[1..])))
  }

  /** The token at `at + i` spells the command at `i`. */
  lemma {:induction false} CarriesIndex(ts: seq<Tok>, at: nat, cs: seq<Cmd>, i: nat)
    requires Carries(ts, at, cs) && i < |cs|
    ensures at + i < |ts| && ts[at + i].op == cs[i].op && ts[at + i].args == cs[i].args
    decreases i
  {
    if i > 0 {
      CarriesIndex(ts, at + 1, cs[1..], i - 1);
    }
  }

  /** Tokens that spell the commands one position at a time carry them. */
  lemma {:induction false} CarriesPointwise(ts: seq<Tok>, at: nat, cs: seq<Cmd>)
    requires at + |cs| <= |ts|
    requires forall i :: 0 <= i < |cs| ==> ts[at + i].op == cs[i].op && ts[at + i].args == cs[i].args
    ensures Carries(ts, at, cs)
    decreases |cs|
  {
    if cs != [] {
      assert ts[at + 0].op == cs[0].op && ts[at + 0].args == cs[0].args;
      forall i | 0 <= i < |cs| - 1
        ensures ts[at + 1 + i].op == cs[1..][i].op && ts[at + 1 + i].args == cs[1..][i].args
      {
        assert cs[1..][i] == cs[i + 1];
        assert at + 1 + i == at + (i + 1);
      }
      CarriesPointwise(ts, at + 1, cs[1..]);
    }
  }

  /** Spelling `a + b` is spelling `a`, then `b` right after it. */
  lemma {:induction false} CarriesAppend(ts: seq<Tok>, at: nat, a: seq<Cmd>, b: seq<Cmd>)
    ensures Carries(ts, at, a + b) <==> Carries(ts, at, a) && Carries(ts, at + |a|, b)
    decreases |a|
  {
    if a == [] {
      assert a + b == b;
    } else {
      assert (a + b)[0] == a[0];
      assert (a + b)[1..] == a[1..] + b;
      CarriesAppend(ts, at + 1, a[1..], b);
      assert at + 1 + |a[1..]| == at + |a|;
    }
  }

  /** Spelling `[c] + cs` is the token at `at` spelling `c`, then `cs`. */
  lemma {:induction false} CarriesHead(ts: seq<Tok>, at: nat, c: Cmd, cs: seq<Cmd>)
    requires Carries(ts, at, [c] + cs)
    ensures at < |ts| && ts[at].op == c.op && ts[at].args == c.args && Carries(ts, at + 1, cs)
  {
    CarriesAppend(ts, at, [c], cs);
    CarriesIndex(ts, at, [c] + cs, 0);
  }

  /** Spelling `(a + b) + c` is spelling `a`, then `b + c` right after it, all within the stream. */
  lemma {:induction false} CarriesSplit(ts: seq<Tok>, at: nat, a: seq<Cmd>, b: seq<Cmd>, c: seq<Cmd>)
    requires Carries(ts, at, (a + b) + c)
    ensures Carries(ts, at, a) && Carries(ts, at + |a|, b + c)
    ensures at + |a| + |b| + |c| <= |ts|
  {
    assert (a + b) + c == a + (b + c);
    CarriesAppend(ts, at, a, b + c);
  }

  lemma {:induction false} CmdsAssoc(a: seq<Cmd>, b: seq<Cmd>, c: seq<Cmd>)
    ensures (a + b) + c == a + (b + c)
  {
  }

  /** The tokens from `at` on: the one at `at`, then those after it. */
  lemma {:induction false} DropCons(ts: seq<Tok>, at: nat)
    requires at < |ts|
    ensures ts[at..][0] == ts[at] && ts[at..][1..] == ts[at + 1..]
  {
  }

  // ---------------------------------------------------------------------
  // Entries

  /** The opcodes `parse_entry` gives a meaning of their own. */
  predicate EntryWord(op: string) {
    op == "ENTRY_END" || op == "REPLY" || op == "MATCH" || op == "ADJUST" || op == "SECTION" || op == "RAW"
  }

  /** A record can be written back only when its owner is not one of those opcodes. */
  predicate PrintableItem(it: Item) {
    it.Record? ==> !EntryWord(it.owner)
  }

  predicate PrintableEntry(e: Entry) {
    forall i :: 0 <= i < |e.items| ==> PrintableItem(e.items[i])
  }

  function ItemCmd(it: Item): Cmd
  {
    match it
    case Reply(flags) => Cmd("REPLY", flags)
    case Match(criteria) => Cmd("MATCH", criteria)
    case Adjust(rules) => Cmd("ADJUST", rules)
    case Section(name) => Cmd("SECTION", [name])
    case Raw => Cmd("RAW", [])
    case Record(owner, fields) => Cmd(owner, fields)
  }

  /** One line per item, in order. */
  function ItemsCmds(its: seq<Item>): (cs: seq<Cmd>)
    ensures |cs| == |its|
  {
    if its == [] then [] else [ItemCmd(its[0])] + ItemsCmds(its[1..])
  }

  /** The line at `i` is the command of the item at `i`. */
  lemma {:induction false} ItemsCmdsIndex(its: seq<Item>, i: nat)
    requires i < |its|
    ensures ItemsCmds(its)[i] == ItemCmd(its[i])
    decreases i
  {
    if i > 0 {
      ItemsCmdsIndex(its[1..], i - 1);
    }
  }

  /** The lines of an entry after its ENTRY_BEGIN: one per item, then ENTRY_END. */
  function EntryCmds(e: Entry): (cs: seq<Cmd>)
    ensures |cs| == |e.items| + 1
  {
    ItemsCmds(e.items) + [Cmd("ENTRY_END", [])]
  }

  /** A token spelling a printable item's command routes back to that item. */
  lemma {:induction false} ItemRoutes(t: Tok, it: Item)
    requires PrintableItem(it) && t.op == ItemCmd(it).op && t.args == ItemCmd(it).args
    ensures t.op != "ENTRY_END" && Routable(t) && Route(t) == it
  {
  }

  /** An entry written out reads back as itself, and parsing resumes after its ENTRY_END. */
  lemma {:induction false} EntryRoundTrip(e: Entry, ts: seq<Tok>, at: nat)
    requires PrintableEntry(e) && Carries(ts, at, EntryCmds(e))
    ensures EntryBody(ts[at..]) == Done(e, ts[at + |EntryCmds(e)|..])
  {
    var us := ts[at..];
    var n := |e.items|;
    assert EntryCmds(e)[n] == Cmd("ENTRY_END", []);
    forall i | 0 <= i < n ensures us[i].op != "ENTRY_END" && Routable(us[i]) && Route(us[i]) == e.items[i] {
      CarriesIndex(ts, at, EntryCmds(e), i);
      ItemsCmdsIndex(e.items, i);
      assert EntryCmds(e)[i] == ItemCmd(e.items[i]);
      ItemRoutes(us[i], e.items[i]);
    }
    CarriesIndex(ts, at, EntryCmds(e), n);
    var k := FirstOp(us, "ENTRY_END");
    assert us[n].op == "ENTRY_END";
    assert k == n;
    EntryBodyMeaning(us);
    assert Routes(us[..n]) == e.items;
    assert us[n + 1..] == ts[at + |EntryCmds(e)|..];
  }

  /** A range's entries, each as ENTRY_BEGIN and then its lines. */
  function EntriesCmds(es: seq<Entry>): seq<Cmd>
  {
    if es == [] then [] else [Cmd("ENTRY_BEGIN", [])] + EntryCmds(es[0]) + EntriesCmds(es[1..])
  }

  // ---------------------------------------------------------------------
  // Ranges

  function AddressCmds(address: Option<string>): seq<Cmd>
  {
    if address.Some? then [Cmd("ADDRESS", [address.value])] else []
  }

  /** RANGE_BEGIN with the bounds in decimal, the address, the entries, RANGE_END. */
  function RangeCmds(rg: Range): seq<Cmd>
  {
    [Cmd("RANGE_BEGIN", [IntToString(rg.lo), IntToString(rg.hi)])]
      + AddressCmds(rg.address) + EntriesCmds(rg.entries) + [Cmd("RANGE_END", [])]
  }

  predicate PrintableRange(rg: Range) {
    forall i :: 0 <= i < |rg.entries| ==> PrintableEntry(rg.entries[i])
  }

  /** An entry block inside a range: ENTRY_BEGIN, the entry, then the rest of the range. */
  lemma {:induction false} RangeBodyEntry(ts: seq<Tok>, at: nat, mid: nat, end: nat, e: Entry, v: (Option<string>, seq<Entry>))
    requires at < |ts| && mid <= |ts| && end <= |ts| && ts[at].op == "ENTRY_BEGIN"
    requires EntryBody(ts[at + 1..]) == Done(e, ts[mid..]) && RangeBody(ts[mid..]) == Done(v, ts[end..])
    ensures RangeBody(ts[at..]) == Done((v.0, [e] + v.1), ts[end..])
  {
    DropCons(ts, at);
  }

  /** Entries written out and closed by RANGE_END read back, in order, with no address. */
  lemma {:induction false} EntriesRoundTrip(es: seq<Entry>, ts: seq<Tok>, at: nat)
    requires forall i :: 0 <= i < |es| ==> PrintableEntry(es[i])
    requires Carries(ts, at, EntriesCmds(es) + [Cmd("RANGE_END", [])])
    ensures RangeBody(ts[at..]) == Done((None, es), ts[at + |EntriesCmds(es)| + 1..])
    decreases |es|
  {
    if es == [] {
      assert [] + [Cmd("RANGE_END", [])] == [Cmd("RANGE_END", [])] + [];
      CarriesHead(ts, at, Cmd("RANGE_END", []), []);
      DropCons(ts, at);
    } else {
      var tail := EntriesCmds(es[1..]) + [Cmd("RANGE_END", [])];
      CmdsAssoc([Cmd("ENTRY_BEGIN", [])] + EntryCmds(es[0]), EntriesCmds(es[1..]), [Cmd("RANGE_END", [])]);
      CmdsAssoc([Cmd("ENTRY_BEGIN", [])], EntryCmds(es[0]), tail);
      CarriesHead(ts, at, Cmd("ENTRY_BEGIN", []), EntryCmds(es[0]) + tail);
      CarriesAppend(ts, at + 1, EntryCmds(es[0]), tail);
      var mid := at + 1 + |EntryCmds(es[0])|;
      EntriesRoundTrip(es[1..], ts, mid);
      EntriesConsStep(es, ts, at, mid);
    }
  }

  /** An entry written out at the head of a range body is prepended to the entries read after it. */
  lemma {:induction false} EntriesConsStep(es: seq<Entry>, ts: seq<Tok>, at: nat, mid: nat)
    requires es != [] && PrintableEntry(es[0]) && mid == at + 1 + |EntryCmds(es[0])|
    requires at < |ts| && ts[at].op == "ENTRY_BEGIN" && Carries(ts, at + 1, EntryCmds(es[0]))
    requires mid + |EntriesCmds(es[1..])| + 1 <= |ts|
    requires RangeBody(ts[mid..]) == Done((None, es[1..]), ts[mid + |EntriesCmds(es[1..])| + 1..])
    ensures RangeBody(ts[at..]) == Done((None, es), ts[at + |EntriesCmds(es)| + 1..])
  {
    EntryRoundTrip(es[0], ts, at + 1);
    var end := mid + |EntriesCmds(es[1..])| + 1;
    assert end == at + |EntriesCmds(es)| + 1;
    RangeBodyEntry(ts, at, mid, end, es[0], (None, es[1..]));
    assert [es[0]] + es[1..] == es;
  }

  /** An ADDRESS at the head of a range body is kept when no later ADDRESS follows. */
  lemma {:induction false} RangeBodyAddress(ts: seq<Tok>, at: nat, end: nat, es: seq<Entry>)
    requires at < |ts| && end <= |ts| && ts[at].op == "ADDRESS" && ts[at].args != []
    requires RangeBody(ts[at + 1..]) == Done((None, es), ts[end..])
    ensures RangeBody(ts[at..]) == Done((Some(ts[at].args[0]), es), ts[end..])
  {
    DropCons(ts, at);
  }

  /** A range written out reads back as itself, and parsing resumes after its RANGE_END. */
  lemma {:induction false} RangeRoundTrip(rg: Range, ts: seq<Tok>, at: nat)
    requires PrintableRange(rg) && Carries(ts, at, RangeCmds(rg))
    ensures at < |ts| && ts[at].op == "RANGE_BEGIN"
    ensures RangeSpec(ts[at], ts[at + 1..]) == Done(rg, ts[at + |RangeCmds(rg)|..])
  {
    var head := Cmd("RANGE_BEGIN", [IntToString(rg.lo), IntToString(rg.hi)]);
    var body := EntriesCmds(rg.entries) + [Cmd("RANGE_END", [])];
    CmdsAssoc([head] + AddressCmds(rg.address), EntriesCmds(rg.entries), [Cmd("RANGE_END", [])]);
    CmdsAssoc([head], AddressCmds(rg.address), body);
    CarriesHead(ts, at, head, AddressCmds(rg.address) + body);
    CarriesAppend(ts, at + 1, AddressCmds(rg.address), body);
    IntToStringRoundTrip(rg.lo);
    IntToStringRoundTrip(rg.hi);
    var at2 := at + 1 + |AddressCmds(rg.address)|;
    EntriesRoundTrip(rg.entries, ts, at2);
    var end := at2 + |EntriesCmds(rg.entries)| + 1;
    assert end == at + |RangeCmds(rg)|;
    if rg.address.Some? {
      CarriesHead(ts, at + 1, Cmd("ADDRESS", [rg.address.value]), []);
      RangeBodyAddress(ts, at + 1, end, rg.entries);
    }
  }

  // ---------------------------------------------------------------------
  // Steps

  /** STEP with its id, type and extras, then its entry when it has one. */
  function StepCmds(s: Step): seq<Cmd>
  {
    [Cmd("STEP", [s.id, s.kind] + s.extra)]
      + (if s.entry.Some? then [Cmd("ENTRY_BEGIN", [])] + EntryCmds(s.entry.value) else [])
  }

  /** A step can be written back when it carries an entry exactly when its type has data. */
  predicate PrintableStep(s: Step, hasData: string -> bool) {
    && (s.entry.Some? <==> hasData(s.kind))
    && (s.entry.Some? ==> PrintableEntry(s.entry.value))
  }

  /** A step written out reads back as itself. */
  lemma {:induction false} StepRoundTrip(s: Step, ts: seq<Tok>, at: nat, eof: nat, hasData: string -> bool)
    requires PrintableStep(s, hasData) && Carries(ts, at, StepCmds(s))
    ensures at < |ts| && ts[at].op == "STEP"
    ensures StepSpec(ts[at], ts[at + 1..], eof, hasData) == Done(s, ts[at + |StepCmds(s)|..])
  {
    var head := Cmd("STEP", [s.id, s.kind] + s.extra);
    var more := if s.entry.Some? then [Cmd("ENTRY_BEGIN", [])] + EntryCmds(s.entry.value) else [];
    CarriesHead(ts, at, head, more);
    var t := ts[at];
    assert t.args[2..] == s.extra;
    if s.entry.Some? {
      CarriesHead(ts, at + 1, Cmd("ENTRY_BEGIN", []), EntryCmds(s.entry.value));
      EntryRoundTrip(s.entry.value, ts, at + 2);
      DropCons(ts, at + 1);
      StepSpecData(t, ts[at + 1..], eof, hasData, s.entry.value, ts[at + |StepCmds(s)|..]);
    }
  }

  /** A step whose type has data, followed by ENTRY_BEGIN and an entry, carries that entry. */
  lemma {:induction false} StepSpecData(t: Tok, us: seq<Tok>, eof: nat, hasData: string -> bool, e: Entry, rest: seq<Tok>)
    requires |t.args| >= 2 && hasData(t.args[1])
    requires us != [] && us[0].op == "ENTRY_BEGIN" && EntryBody(us[1..]) == Done(e, rest)
    ensures StepSpec(t, us, eof, hasData) == Done(Step(t.args[0], t.args[1], t.args[2..], Some(e)), rest)
  {
  }

  // ---------------------------------------------------------------------
  // Scenarios

  function RangesCmds(rs: seq<Range>): seq<Cmd>
  {
    if rs == [] then [] else RangeCmds(rs[0]) + RangesCmds(rs[1..])
  }

  function StepsCmds(ss: seq<Step>): seq<Cmd>
  {
    if ss == [] then [] else StepCmds(ss[0]) + StepsCmds(ss[1..])
  }

  /** SCENARIO_BEGIN with the name, every range, every step, SCENARIO_END. */
  function ScenarioCmds(sc: Scenario): seq<Cmd>
  {
    [Cmd("SCENARIO_BEGIN", [sc.name])] + RangesCmds(sc.ranges) + StepsCmds(sc.steps) + [Cmd("SCENARIO_END", [])]
  }

  predicate PrintableScenario(sc: Scenario, hasData: string -> bool) {
    && (forall i :: 0 <= i < |sc.ranges| ==> PrintableRange(sc.ranges[i]))
    && (forall i :: 0 <= i < |sc.steps| ==> PrintableStep(sc.steps[i], hasData))
  }

  /** A step at the head of a scenario body is appended to the steps of the rest. */
  lemma {:induction false} ScenarioBodyStep(ts: seq<Tok>, at: nat, mid: nat, end: nat, eof: nat, hasData: string -> bool,
                         st: Step, v: (seq<Range>, seq<Step>))
    requires at < |ts| && mid <= |ts| && end <= |ts| && ts[at].op == "STEP"
    requires StepSpec(ts[at], ts[at + 1..], eof, hasData) == Done(st, ts[mid..])
    requires ScenarioBody(ts[mid..], eof, hasData) == Done(v, ts[end..])
    ensures ScenarioBody(ts[at..], eof, hasData) == Done((v.0, [st] + v.1), ts[end..])
  {
    DropCons(ts, at);
  }

  /** A range at the head of a scenario body is prepended to the ranges of the rest. */
  lemma {:induction false} ScenarioBodyRange(ts: seq<Tok>, at: nat, mid: nat, end: nat, eof: nat, hasData: string -> bool,
                          rg: Range, v: (seq<Range>, seq<Step>))
    requires at < |ts| && mid <= |ts| && end <= |ts| && ts[at].op == "RANGE_BEGIN"
    requires RangeSpec(ts[at], ts[at + 1..]) == Done(rg, ts[mid..])
    requires ScenarioBody(ts[mid..], eof, hasData) == Done(v, ts[end..])
    ensures ScenarioBody(ts[at..], eof, hasData) == Done(([rg] + v.0, v.1), ts[end..])
  {
    DropCons(ts, at);
  }

  /** Steps written out and closed by SCENARIO_END read back, in order. */
  lemma {:induction false} StepsRoundTrip(ss: seq<Step>, ts: seq<Tok>, at: nat, eof: nat, hasData: string -> bool)
    requires forall i :: 0 <= i < |ss| ==> PrintableStep(ss[i], hasData)
    requires Carries(ts, at, StepsCmds(ss) + [Cmd("SCENARIO_END", [])])
    ensures ScenarioBody(ts[at..], eof, hasData) == Done(([], ss), ts[at + |StepsCmds(ss)| + 1..])
    decreases |ss|
  {
    if ss == [] {
      assert [] + [Cmd("SCENARIO_END", [])] == [Cmd("SCENARIO_END", [])] + [];
      CarriesHead(ts, at, Cmd("SCENARIO_END", []), []);
      DropCons(ts, at);
    } else {
      var tail := StepsCmds(ss[1..]) + [Cmd("SCENARIO_END", [])];
      CmdsAssoc(StepCmds(ss[0]), StepsCmds(ss[1..]), [Cmd("SCENARIO_END", [])]);
      CarriesAppend(ts, at, StepCmds(ss[0]), tail);
      var mid := at + |StepCmds(ss[0])|;
      StepsRoundTrip(ss[1..], ts, mid, eof, hasData);
      var end := mid + |StepsCmds(ss[1..])| + 1;
      assert end == at + |StepsCmds(ss)| + 1;
      StepsConsStep(ss, ts, at, mid, end, eof, hasData);
    }
  }

  /**
    A step written out at the head of a scenario body is prepended to the
    steps read after it. Writing `== true` keeps the verifier from
    unfolding the predicates here; StepRoundTrip is the lemma that needs them.
  */
  lemma {:induction false} StepsConsStep(ss: seq<Step>, ts: seq<Tok>, at: nat, mid: nat, end: nat, eof: nat, hasData: string -> bool)
    requires ss != [] && PrintableStep(ss[0], hasData) == true && mid == at + |StepCmds(ss[0])|
    requires Carries(ts, at, StepCmds(ss[0])) == true && end <= |ts|
    requires ScenarioBody(ts[mid..], eof, hasData) == Done(([], ss[1..]), ts[end..])
    ensures ScenarioBody(ts[at..], eof, hasData) == Done(([], ss), ts[end..])
  {
    StepRoundTrip(ss[0], ts, at, eof, hasData);
    ScenarioBodyStep(ts, at, mid, end, eof, hasData, ss[0], ([], ss[1..]));
    assert [ss[0]] + ss[1..] == ss;
  }

  lemma {:induction false} RangesCmdsCons(rs: seq<Range>, tail: seq<Cmd>)
    requires rs != []
    ensures RangesCmds(rs) + tail == RangeCmds(rs[0]) + (RangesCmds(rs[1..]) + tail)
    ensures |RangesCmds(rs)| == |RangeCmds(rs[0])| + |RangesCmds(rs[1..])|
  {
    CmdsAssoc(RangeCmds(rs[0]), RangesCmds(rs[1..]), tail);
  }

  /** A range written out at the head of a scenario body is prepended to the ranges read after it; `== true` as in StepsConsStep. */
  lemma {:induction false} RangesConsStep(rs: seq<Range>, ss: seq<Step>, ts: seq<Tok>, at: nat, mid: nat, end: nat, eof: nat, hasData: string -> bool)
    requires rs != [] && PrintableRange(rs[0]) == true && mid == at + |RangeCmds(rs[0])|
    requires Carries(ts, at, RangeCmds(rs[0])) == true && end <= |ts|
    requires ScenarioBody(ts[mid..], eof, hasData) == Done((rs[1..], ss), ts[end..])
    ensures ScenarioBody(ts[at..], eof, hasData) == Done((rs, ss), ts[end..])
  {
    RangeRoundTrip(rs[0], ts, at);
    ScenarioBodyRange(ts, at, mid, end, eof, hasData, rs[0], (rs[1..], ss));
    assert [rs[0]] + rs[1..] == rs;
  }

  /** Ranges, then steps, closed by SCENARIO_END, read back as both lists in order. */
  lemma {:induction false} RangesRoundTrip(rs: seq<Range>, ss: seq<Step>, ts: seq<Tok>, at: nat, eof: nat, hasData: string -> bool)
    requires forall i :: 0 <= i < |rs| ==> PrintableRange(rs[i])
    requires forall i :: 0 <= i < |ss| ==> PrintableStep(ss[i], hasData)
    requires Carries(ts, at, RangesCmds(rs) + (StepsCmds(ss) + [Cmd("SCENARIO_END", [])]))
    ensures ScenarioBody(ts[at..], eof, hasData) == Done((rs, ss), ts[at + |RangesCmds(rs)| + |StepsCmds(ss)| + 1..])
    decreases |rs|, 2
  {
    if rs == [] {
      assert [] + (StepsCmds(ss) + [Cmd("SCENARIO_END", [])]) == StepsCmds(ss) + [Cmd("SCENARIO_END", [])];
      StepsRoundTrip(ss, ts, at, eof, hasData);
    } else {
      RangesConsCase(rs, ss, ts, at, eof, hasData);
    }
  }

  /** One step of the induction behind RangesRoundTrip; `== true` as in StepsConsStep. */
  lemma {:induction false} RangesConsCase(rs: seq<Range>, ss: seq<Step>, ts: seq<Tok>, at: nat, eof: nat, hasData: string -> bool)
    requires rs != [] && forall i :: 0 <= i < |rs| ==> PrintableRange(rs[i])
    requires forall i :: 0 <= i < |ss| ==> PrintableStep(ss[i], hasData)
    requires Carries(ts, at, RangesCmds(rs) + (StepsCmds(ss) + [Cmd("SCENARIO_END", [])])) == true
    ensures ScenarioBody(ts[at..], eof, hasData) == Done((rs, ss), ts[at + |RangesCmds(rs)| + |StepsCmds(ss)| + 1..])
    decreases |rs|, 1
  {
    var mid := at + |RangeCmds(rs[0])|;
    RangesTailRead(rs, ss, ts, at, mid, eof, hasData);
    var end := mid + |RangesCmds(rs[1..])| + |StepsCmds(ss)| + 1;
    assert end == at + |RangesCmds(rs)| + |StepsCmds(ss)| + 1;
    RangesConsStep(rs, ss, ts, at, mid, end, eof, hasData);
  }

  /** The first range's commands come first, and the rest of the body reads back on its own. */
  lemma {:induction false} RangesTailRead(rs: seq<Range>, ss: seq<Step>, ts: seq<Tok>, at: nat, mid: nat, eof: nat, hasData: string -> bool)
    requires rs != [] && forall i :: 0 <= i < |rs| ==> PrintableRange(rs[i])
    requires forall i :: 0 <= i < |ss| ==> PrintableStep(ss[i], hasData)
    requires Carries(ts, at, RangesCmds(rs) + (StepsCmds(ss) + [Cmd("SCENARIO_END", [])])) && mid == at + |RangeCmds(rs[0])|
    ensures PrintableRange(rs[0]) && Carries(ts, at, RangeCmds(rs[0]))
    ensures mid + |RangesCmds(rs[1..])| + |StepsCmds(ss)| + 1 <= |ts|
    ensures ScenarioBody(ts[mid..], eof, hasData) == Done((rs[1..], ss), ts[mid + |RangesCmds(rs[1..])| + |StepsCmds(ss)| + 1..])
    decreases |rs|, 0
  {
    var tail := StepsCmds(ss) + [Cmd("SCENARIO_END", [])];
    RangesCmdsCons(rs, tail);
    CarriesAppend(ts, at, RangeCmds(rs[0]), RangesCmds(rs[1..]) + tail);
    assert forall i :: 0 <= i < |rs[1..]| ==> rs[1..][i] == rs[i + 1];
    RangesRoundTrip(rs[1..], ss, ts, mid, eof, hasData);
  }

  /** A scenario written out reads back as itself, and parsing resumes after its SCENARIO_END. */
  lemma {:induction false} ScenarioRoundTrip(sc: Scenario, ts: seq<Tok>, at: nat, eof: nat, hasData: string -> bool)
    requires PrintableScenario(sc, hasData) && Carries(ts, at, ScenarioCmds(sc))
    ensures at < |ts| && ScenarioSpec(ts[at], ts[at + 1..], eof, hasData) == Done(sc, ts[at + |ScenarioCmds(sc)|..])
  {
    var head := Cmd("SCENARIO_BEGIN", [sc.name]);
    var body := RangesCmds(sc.ranges) + (StepsCmds(sc.steps) + [Cmd("SCENARIO_END", [])]);
    CmdsAssoc([head] + RangesCmds(sc.ranges), StepsCmds(sc.steps), [Cmd("SCENARIO_END", [])]);
    CmdsAssoc([head], RangesCmds(sc.ranges), StepsCmds(sc.steps) + [Cmd("SCENARIO_END", [])]);
    CarriesHead(ts, at, head, body);
    RangesRoundTrip(sc.ranges, sc.steps, ts, at + 1, eof, hasData);
  }
}
