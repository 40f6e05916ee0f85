/**
  The scenario document the parser builds, and its failures.

  Entry, Step, Range and Scenario are objects of the scenario engine, whose
  source is not part of this model; here each is the value the parser hands
  to it: an Entry is the ordered list of the directives and records routed
  into it, a Step its id, type, extra arguments and optional entry, a Range
  its bounds, optional address and entries, a Scenario its name and its two
  ordered lists.
*/
module Document {
  import opened Wrappers
  import opened Text

  /** One line routed into an entry, in the order of the file. */
  datatype Item =
    | Reply(flags: seq<string>)              // REPLY -> set_reply(args)
    | Match(criteria: seq<string>)           // MATCH -> set_match(args)
    | Adjust(rules: seq<string>)             // ADJUST -> set_adjust(args)
    | Section(name: string)                  // SECTION -> begin_section(args[0])
    | Raw                                    // RAW -> begin_raw()
    | Record(owner: string, fields: seq<string>)  // anything else -> add_record(op, args)

  datatype Entry = Entry(items: seq<Item>)

  /** STEP <id> <type> <extra>*, with the entry that follows when the type has data. */
  datatype Step = Step(id: string, kind: string, extra: seq<string>, entry: Option<Entry>)

  /** RANGE_BEGIN <from> <to>: `lo` and `hi` are the two bounds. */
  datatype Range = Range(lo: int, hi: int, address: Option<string>, entries: seq<Entry>)

  datatype Scenario = Scenario(name: string, ranges: seq<Range>, steps: seq<Step>)

  /** The header: one list of stripped colon-separated fields per kept line. */
  type Config = seq<seq<string>>

  /** What a parse can raise, before `parse_file` adds the line number. */
  datatype Cause =
    | ExpectedStep            // STEP with fewer than two arguments
    | ExpectedRange           // RANGE_BEGIN with fewer than two arguments
    | ExpectedEntryBegin      // a step with data not followed by ENTRY_BEGIN
    | MissingScenario         // no SCENARIO_BEGIN after the header
    | IndexOutOfRange         // args[0] of SECTION, ADDRESS or SCENARIO_BEGIN without arguments
    | NotAnInteger(text: string)  // int() of a RANGE_BEGIN bound that is not a number
    | UnpackEndOfInput        // `op, args = get_next(...)` when get_next returned False

  /** The exception `parse_file` re-raises: the line count and the cause. */
  datatype ParseError = ParseError(line: nat, cause: Cause)

  /** `str(e)` of each cause; `int()` quotes at most the first 200 characters of its text. */
  function CauseText(c: Cause): string
  {
    match c
    case ExpectedStep => "expected STEP <id> <type>"
    case ExpectedRange => "expected RANGE_BEGIN <from> <to>"
    case ExpectedEntryBegin => "expected \"ENTRY_BEGIN\""
    case MissingScenario => "IGNORE (missing scenario)"
    case IndexOutOfRange => "list index out of range"
    case NotAnInteger(s) => "invalid literal for int() with base 10: '" + (if |s| <= 200 then s else s[..200]) + "'"
    case UnpackEndOfInput => "'bool' object is not iterable"
  }

  /** `'line %d: %s' % (file_in.lineno(), str(e))`. */
  function ErrorText(e: ParseError): string
  {
    "line " + NatToString(e.line) + ": " + CauseText(e.cause)
  }

  /**
    The message of a parse error starts with "line ", then the decimal line
    number, which `int()` reads back as that number, and ends with the
    text of the cause after ": ".
  */
  lemma ErrorTextReadsBack(e: ParseError)
    ensures var m := ErrorText(e); var k := |NatToString(e.line)|;
      && 5 + k + 2 <= |m|
      && m[..5] == "line "
      && ParseInt(m[5..5 + k]) == Some(e.line as int)
      && m[5 + k..5 + k + 2] == ": "
      && m[5 + k + 2..] == CauseText(e.cause)
  {
    var d := NatToString(e.line);
    var m := ErrorText(e);
    assert m == "line " + d + ": " + CauseText(e.cause);
    assert m[5..5 + |d|] == d;
    IntToStringRoundTrip(e.line);
  }
}
