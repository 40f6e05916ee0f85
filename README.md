# Scenario-file front end of the Knot Resolver integration harness

The integration harness of Knot Resolver (`tests/test_integration.py`)
drives the resolver through *scenario files*. Each file has two parts:

- A header of `key: value` lines, closed by a line that starts with
  `CONFIG_END`.
- A scenario body of commands: `SCENARIO_BEGIN`, `RANGE_BEGIN` ...
  `RANGE_END` blocks, `STEP`s, and `ENTRY_BEGIN` ... `ENTRY_END` entries with
  their `REPLY`, `MATCH`, `ADJUST`, `SECTION`, `RAW` and record lines.

This project models that front end and proves properties of the model.

**The tokenizer.** `get_next` reads lines until it finds one with a word.
It cuts each line at the first `;` and then at the first `#`, splits on
whitespace, and returns the opcode and its arguments. It returns `False`
at the end of the file.

**The parse routines.** `parse_entry`, `parse_step`, `parse_range`,
`parse_scenario` and `parse_file` share the one line cursor of the open
file. Any exception they raise is re-raised as `line N: message`, where N
is the number of lines read so far.

**The settings the harness derives before it starts a resolver:**

- `str2bool`: a JSON-ish boolean.
- The two socket_wrapper interface numbers, read from
  `SOCKET_WRAPPER_DEFAULT_IFACE` and `KRESD_WRAPPER_DEFAULT_IFACE` and
  normalised into 2..254 so that they are distinct.
- The child environment of `setup_env`, in particular `CONFIG_NO_MINIMIZE`.

**Module layout.**

| module | file | content |
|---|---|---|
| `Wrappers` | `wrappers.dfy` | `Option` and `Result` |
| `Text` | `text.dfy` | Python's string operations: `strip`, `split()`, `split(c)`, `' '.join`, `index`, `int`, `'%d'` |
| `Lexer` | `lexer.dfy` | the comment cut and tokenization; the token-stream meaning of `get_next` (`NextIn`, `TokensIn`); the open file as a class `LineReader` whose `ReadLine` and `GetNext` move its cursor |
| `Document` | `document.dfy` | the values the parser builds (entries, steps, ranges, scenarios), the causes of failure and the error text |
| `Header` | `header.dfy` | the header block as a function of the file's lines |
| `Grammar` | `grammar.dfy` | one function per parse routine, over the token stream: the value built and the tokens left, or the cause and the line number of the failure |
| `Parser` | `parser.dfy` | the parse routines as imperative methods over a `LineReader`, each proved to do what its grammar function says |
| `Setup` | `setup.dfy` | `str2bool`, the interface normalisation, and the child environment of `setup_env` |
| `Printer` | `printer.dfy` | the partner of the grammar: each document value written back as commands, with round-trip lemmas showing the grammar reads each one back |
| `Layout` | `layout.dfy` | range and scenario bodies written in any layout: several ADDRESS lines, entries, ranges and steps interleaved, and commands the parser passes over; round-trip lemmas showing what the grammar makes of each |
| `Writer` | `writer.dfy` | whole files written from a config and a scenario; `FileRoundTrip` shows `parse_file` returns exactly that scenario and that config, and `FileLayoutRoundTrip` does the same for a body in any layout |

**Modelling conventions.**

- A file is the sequence of its lines, without their terminators. Every
  use of a line in the source strips or splits the terminator away, or
  tests a prefix that the terminator cannot affect.
  `readline()` returning the empty string is the cursor reaching the end
  of that sequence.
- Whitespace is the set Python's byte-string `isspace` accepts: space, tab,
  line feed, carriage return, vertical tab, form feed.
- Each token carries the number of the line it was read from. That number
  is what `lineno()` returns right after the token is read, so a failure
  at a token reports that token's line, and a failure at the end of the
  file reports the number of lines.
- `Step.has_data` belongs to the scenario module, which is not part of
  this model. It is the parameter `hasData: string -> bool`, applied to
  the step's type.

## Model

| member | source | states |
|---|---|---|
| `Text.CutAt` | tests/test_integration.py:71-73 | `line[0:line.index(c)]` (or the line itself when `c` is absent) is the prefix of the line that stops right before the first `c`, and it holds no `c` |
| `Text.SplitWsStrip` | tests/test_integration.py:74 | splitting a stripped line on whitespace gives the same words as splitting the line itself |
| `Text.SplitWsJoin` | tests/test_integration.py:74 | joining non-empty, space-free words with single spaces and splitting again gives back exactly those words |
| `Text.SplitWsEmpty` | tests/test_integration.py:75-76 | a text splits into no words exactly when it is all whitespace |
| `Text.SplitOn` | tests/test_integration.py:160 | `split(':')` yields at least one piece, at least two exactly when the text holds a `:`, and no piece holds a `:` |
| `Text.JoinSplitOn` | tests/test_integration.py:160 | joining the pieces of `split(c)` with `c` gives back the original text |
| `Text.StripPadded` | tests/test_integration.py:160 | `strip()` removes exactly the whitespace around a text that neither starts nor ends with whitespace |
| `Text.ParseInt` | tests/test_integration.py:123 | `int()` of a token succeeds only on non-empty text without whitespace; a negative value is spelled with a leading `-`, a positive one is not; `Text.ParseIntNumeral` gives exactly the texts it accepts |
| `Text.ParseIntLeadingZeros` | tests/test_integration.py:123 | zeros in front of the digits, and a `+` in front of those, do not change the value `int()` reads |
| `Text.ParseIntMinusZeros` | tests/test_integration.py:123 | a minus sign, zeros, then the decimal text of `n` read as `-n` |
| `Text.ParseIntNumeral` | tests/test_integration.py:123 | `int()` of a token reads `n` exactly when the token is an optional sign (`-` only when `n <= 0`), zeros, then the decimal text of `abs(n)`; anything else, such as `1a`, `1.5` or `--1`, raises ValueError |
| `Text.SignedDigits` | tests/test_integration.py:34-35 | on text without whitespace, the sign-then-digits rule of Python 2's `int()` agrees with `Text.ParseInt` |
| `Text.IntOf` | tests/test_integration.py:34-35 | Python 2's `int()` on any text agrees with `Text.ParseInt` on text without whitespace, so the two readings of a token coincide |
| `Text.IntOfPadded` | tests/test_integration.py:34-35 | the decimal text of any integer, with any whitespace around it, reads as that integer |
| `Text.IntOfBlankAfterSign` | tests/test_integration.py:34-35 | a minus sign, then whitespace, then digits reads as the negative number |
| `Text.IntOfNoDigit` | tests/test_integration.py:34-35 | a text that holds no digit at all is not a number |
| `Text.IntToStringRoundTrip` | tests/test_integration.py:35-51 | `int()` of the decimal text of any integer (what `"{}".format` writes back into the environment) is that integer |
| `Lexer.StripComments` | tests/test_integration.py:71-73 | the comment cut of `get_next` is the longest prefix of the line that holds neither `;` nor `#`; when it is shorter than the line, the next character is one of the two |
| `Lexer.CommentOrderIrrelevant` | tests/test_integration.py:71-73 | cutting at `#` first and then at `;` gives the same text as the source's order |
| `Lexer.Tokenize` | tests/test_integration.py:71-74 | the join-and-resplit of `get_next` is plain `split()` of the comment-free prefix |
| `Lexer.TokenizeClean` | tests/test_integration.py:74 | no token is empty or holds whitespace, `;` or `#` |
| `Lexer.BlankMeansCommentOrSpace` | tests/test_integration.py:71-76 | a line is skipped as empty exactly when everything before its first comment character is whitespace |
| `Lexer.NextIn` | tests/test_integration.py:65-78 | the token found from line index `p` comes from a line after `p` and within the file |
| `Lexer.NextInSpec` | tests/test_integration.py:65-78 | end of input is returned exactly when no remaining line has a word. Otherwise the opcode and the arguments are the words of the first line that has any, in order, and every line skipped before it has none |
| `Lexer.NextTokenClean` | tests/test_integration.py:74-78 | neither the opcode nor any argument `get_next` returns is empty or holds whitespace or a comment character |
| `Lexer.LineReader.ReadLine` | tests/test_integration.py:68-70 | the next line is returned and the cursor moves past it, or `None` is returned at the end of the file and the cursor stays |
| `Lexer.LineReader.GetNext` | tests/test_integration.py:65-78 | the result is the token `NextIn` names from the old cursor. On a token, the cursor stands just after its line and the stream still to read is the old stream without that first token. On end of input, the whole file has been read and no token is left |
| `Document.ErrorTextReadsBack` | tests/test_integration.py:168-169 | the message `line %d: %s` starts with "line ", then the decimal line number, which `int()` reads back as that number, then ": " and the text of the cause |
| `Header.StripAll` | tests/test_integration.py:160 | there is one result per piece, and the i-th result is the i-th piece with its surrounding whitespace stripped |
| `Header.ConfigLine` | tests/test_integration.py:155-162 | a header line adds at most one entry. It adds one exactly when it does not start with `;` and holds a `:` before any `#`, and an entry always has at least two fields. Its fields are the pieces of the text before the first `#`, split at every `:`, each one stripped |
| `Header.ConfigOf` | tests/test_integration.py:150-163 | a run of header lines contributes at most one entry per line, each with at least two fields |
| `Header.ConfigOfSnoc` | tests/test_integration.py:160-162 | reading one more header line appends what that line contributes to the config |
| `Header.HeaderEnd` | tests/test_integration.py:152-154 | the header ends at the first line starting with CONFIG_END at or after the cursor (no line before it starts so), or at the end of the file |
| `Header.ConfigBlock` | tests/test_integration.py:150-163 | the header loop leaves the cursor between its start and the end of the file |
| `Header.HeaderDone` | tests/test_integration.py:150-163 | a header whose first CONFIG_END line is at `done` yields the config of the lines before `done` and a cursor just past `done`, or at the end of the file |
| `Header.HeaderThenEnd` | tests/test_integration.py:150-163 | header lines `h` followed by a CONFIG_END line yield the config of `h`, and the cursor lands just after the CONFIG_END line |
| `Header.KeyValueRoundTrip` | tests/test_integration.py:155-162 | a `key: value` line with a plain key and value (no `:`, no `#`, no surrounding whitespace, key not starting with `;`) is read back as the entry `[key, value]` |
| `Header.ThreeFieldSplit` | tests/test_integration.py:160 | `split(':')` of three colon-free pieces joined by colons gives back those three pieces |
| `Header.ThreeFieldLine` | tests/test_integration.py:155-162 | a line `a: b: c` with plain fields is read as the three-field entry `[a, b, c]`: the header splits at every `:` |
| `Header.KeyValueNotConfigEnd` | tests/test_integration.py:153-154 | a `key: value` line never closes the header unless its key starts with CONFIG_END |
| `Grammar.EntryBody` | tests/test_integration.py:81-99 | a successful entry parse leaves no more tokens than it was given |
| `Grammar.EntryBodySuffix` | tests/test_integration.py:81-99 | what a successful entry parse leaves unread is a tail of its tokens: it only reads from the front |
| `Grammar.EntryBodyMeaning` | tests/test_integration.py:81-99 | an entry holds exactly the tokens before the first ENTRY_END, each routed to its setter or to `add_record`, in file order. Parsing resumes just after that ENTRY_END, or at the end of the input when there is none |
| `Grammar.EntryBodyFails` | tests/test_integration.py:93-94 | a SECTION without an argument before the first ENTRY_END fails the entry with an index error at its own line |
| `Grammar.StepSpec` | tests/test_integration.py:102-116 | a successful step parse leaves no more tokens than it was given |
| `Grammar.StepSpecSuffix` | tests/test_integration.py:102-116 | what a successful step parse leaves unread is a tail of its tokens |
| `Grammar.StepSpecShape` | tests/test_integration.py:102-116 | a parsed step keeps its id and type, with the remaining arguments as extras. It carries an entry exactly when its type has data. Without data it reads no token; with data the next token is ENTRY_BEGIN and the entry is the one that follows |
| `Grammar.RangeBody` | tests/test_integration.py:124-131 | a successful parse of a range's commands leaves no more tokens than it was given |
| `Grammar.RangeBodySuffix` | tests/test_integration.py:124-131 | what a successful parse of a range's commands leaves unread is a tail of its tokens |
| `Grammar.RangeSpec` | tests/test_integration.py:119-131 | a successful range parse leaves no more tokens than it was given |
| `Grammar.RangeSpecSuffix` | tests/test_integration.py:119-131 | what a successful range parse leaves unread is a tail of its tokens |
| `Grammar.RangeSpecBounds` | tests/test_integration.py:119-123 | a parsed range has as bounds the integers its first two arguments spell; a first bound that is not an integer fails at the range's line before the second is looked at |
| `Grammar.ScenarioBody` | tests/test_integration.py:137-144 | a successful parse of a scenario's commands leaves no more tokens than it was given |
| `Grammar.ScenarioBodySuffix` | tests/test_integration.py:137-144 | what a successful parse of a scenario's commands leaves unread is a tail of its tokens |
| `Grammar.ScenarioSpec` | tests/test_integration.py:134-144 | a successful scenario parse leaves no more tokens than it was given |
| `Grammar.ScenarioSpecSuffix` | tests/test_integration.py:134-144 | what a successful scenario parse leaves unread is a tail of its tokens |
| `Grammar.FindScenario` | tests/test_integration.py:164-167 | a token stream without SCENARIO_BEGIN fails with the missing-scenario cause at the end of the input |
| `Grammar.FindScenarioFirst` | tests/test_integration.py:164-167 | the scenario parsed is the one opened by the first SCENARIO_BEGIN of the token stream; with none, parsing fails with "IGNORE (missing scenario)" at the end of the input |
| `Parser.ParseEntry` | tests/test_integration.py:81-99 | on success, returns the entry `Grammar.EntryBody` gives for the tokens still unread and leaves unread the tokens it leaves; on failure, raises its cause with the cursor at its line |
| `Parser.ParseStep` | tests/test_integration.py:102-116 | the same agreement with `Grammar.StepSpec`, including failures for too few arguments, end of input, and a missing ENTRY_BEGIN |
| `Parser.ParseRange` | tests/test_integration.py:119-131 | the same agreement with `Grammar.RangeSpec`: bounds via `int`, the last ADDRESS kept, entries appended in order |
| `Parser.ParseScenario` | tests/test_integration.py:134-144 | the same agreement with `Grammar.ScenarioSpec`: ranges and steps appended in file order, up to SCENARIO_END |
| `Parser.ReadConfig` | tests/test_integration.py:150-163 | the header loop returns the config of `Header.ConfigBlock` and leaves the cursor where `Header.ConfigBlock` says |
| `Parser.FileSpec` | tests/test_integration.py:147-169 | on success, the config has at most one entry per header line, and each entry has at least two fields |
| `Parser.ParseFile` | tests/test_integration.py:147-169 | returns exactly `Parser.FileSpec`: the header's config with the first scenario after it, or the cause of the first failure with the line count at that moment |
| `Parser.NoConfigEndMissingScenario` | tests/test_integration.py:150-167 | a file without a CONFIG_END line is consumed entirely by the header loop and fails with the missing-scenario cause at its last line |
| `Setup.LowerIsWord` | tests/test_integration.py:18 | a value lower-cases to a lower-case word exactly when it spells that word with each letter in either case |
| `Setup.Str2Bool` | tests/test_integration.py:16-18 | `str2bool` accepts "yes", "true" and "on" with every letter in either case, and nothing else |
| `Setup.Str2BoolIgnoresCase` | tests/test_integration.py:16-18 | lower-casing first does not change the verdict |
| `Setup.NormalIfaces` | tests/test_integration.py:36-48 | both interfaces end up in 2..254 and distinct. A valid harness interface is kept; an invalid one becomes 10. A valid child interface that differs from the harness's is kept; otherwise the child gets the harness's interface plus one, or 2 when the harness's is 254 |
| `Setup.NormalIfacesKeepsValid` | tests/test_integration.py:36-44 | valid, distinct interfaces are left as they are |
| `Setup.NormalIfacesIdempotent` | tests/test_integration.py:36-51 | normalising twice is normalising once |
| `Setup.EnvIface` | tests/test_integration.py:34-35 | an unset variable reads as 0; only a set variable can fail, and the failure carries its text |
| `Setup.EnvIfacePadded` | tests/test_integration.py:34-35 | a variable holding the decimal text of a number, with any whitespace around it, reads as that number |
| `Setup.EnvIfaceNoDigit` | tests/test_integration.py:34-35 | a set variable that holds no digit fails with its own text |
| `Setup.Interfaces` | tests/test_integration.py:34-51 | on success both interfaces are in 2..254 and distinct |
| `Setup.InterfacesWrittenBack` | tests/test_integration.py:34-51 | the interfaces read, rendered as decimal text, read back as the same interfaces |
| `Setup.ReadEnvironment` | tests/test_integration.py:21-51 | loading the module succeeds exactly when TEST_DEBUG and both interface variables read as numbers; it yields the debug level and the interfaces of `Setup.Interfaces`; a bad TEST_DEBUG is reported first, with its text |
| `Setup.ReadEnvironmentBadDebug` | tests/test_integration.py:21-23 | a TEST_DEBUG with no digit stops the module with its own text, whatever the interface variables hold |
| `Setup.NoMinimize` | tests/test_integration.py:196-201 | CONFIG_NO_MINIMIZE ends as "0" or "1"; a failure names an entry that is not a key-value pair |
| `Setup.NoMinimizeFirst` | tests/test_integration.py:197-201 | the first entry that is not a pair or that enables minimisation (`query-minimization` with a true value) decides. There is "1" when there is none, the failure when it is not a pair, and "0" when it enables minimisation |
| `Setup.SetupChildEnv` | tests/test_integration.py:194-201 | the child environment holds the child interface, the socket directory and CONFIG_NO_MINIMIZE as `Setup.NoMinimize` gives it, and nothing else changes. The loop fails exactly when `Setup.NoMinimize` does |
| `Printer.ItemRoutes` | tests/test_integration.py:87-98 | a token that spells a printable item's command is routed back to that item |
| `Printer.EntryRoundTrip` | tests/test_integration.py:81-99 | an entry written out as commands is parsed back as itself, and parsing resumes just after its ENTRY_END |
| `Printer.EntriesRoundTrip` | tests/test_integration.py:124-131 | entry blocks followed by RANGE_END are read back as those entries in order, with no address |
| `Printer.RangeRoundTrip` | tests/test_integration.py:119-131 | a range written out (bounds in decimal, its address, its entries) is parsed back as itself |
| `Printer.StepRoundTrip` | tests/test_integration.py:102-116 | a step written out, with its entry when its type has data, is parsed back as itself |
| `Printer.StepsRoundTrip` | tests/test_integration.py:137-144 | steps written out and closed by SCENARIO_END are read back as those steps in order |
| `Printer.RangesRoundTrip` | tests/test_integration.py:137-144 | ranges then steps, closed by SCENARIO_END, are read back as those ranges and steps in order |
| `Printer.ScenarioRoundTrip` | tests/test_integration.py:134-144 | a scenario written out is parsed back as itself, and parsing resumes after its SCENARIO_END |
| `Layout.LastAddressSpec` | tests/test_integration.py:125-126 | a range has no address exactly when it has no ADDRESS line; otherwise its address is that of an ADDRESS line with no ADDRESS line after it |
| `Layout.LastAddressNone` | tests/test_integration.py:125-126 | the address is absent exactly when no line of the range is an ADDRESS line |
| `Layout.LastAddressSome` | tests/test_integration.py:125-126 | an address found is the argument of an ADDRESS line that no later ADDRESS line follows |
| `Layout.LastAddressCons` | tests/test_integration.py:125-126 | an ADDRESS line in front of a range's lines counts only when no ADDRESS line follows |
| `Layout.RangeLineHead` | tests/test_integration.py:124-131 | whatever kind of line heads a range body (ADDRESS, entry block, other command), the body reads back as that line's contribution put in front of what the rest reads back as |
| `Layout.RangeLinesRoundTrip` | tests/test_integration.py:124-131 | range lines in any order, closed by RANGE_END, read back as the address of the last ADDRESS line (none when there is none) and the entries in file order; any other command between them is passed over |
| `Layout.RangeLinesRead` | tests/test_integration.py:124-131 | by induction over the lines: the range body from any position reads back as the last address and the entries of its lines, and parsing resumes after RANGE_END |
| `Layout.RangeLayoutRoundTrip` | tests/test_integration.py:119-131 | a range written in any layout reads back with its bounds, its last address and its entries in order |
| `Layout.BodyLineHead` | tests/test_integration.py:137-144 | whatever kind of block heads a scenario body (range, step, other command), the body reads back as that block's range or step put in front of what the rest reads back as |
| `Layout.BodyLinesRoundTrip` | tests/test_integration.py:137-144 | ranges, steps and other commands interleaved in any order, closed by SCENARIO_END, read back as the ranges in file order and the steps in file order; every other command is passed over |
| `Layout.BodyLinesRead` | tests/test_integration.py:137-144 | by induction over the blocks: the scenario body from any position reads back as its ranges and its steps, and parsing resumes after SCENARIO_END |
| `Layout.ScenarioLayoutRoundTrip` | tests/test_integration.py:134-144 | a scenario written in any layout reads back with its name, its ranges and its steps, each in file order |
| `Writer.CmdLineTokens` | tests/test_integration.py:65-78 | a command written on a line of its own, its words being clean tokens, tokenizes back into its opcode and arguments |
| `Writer.TokensOfCmdLines` | tests/test_integration.py:65-78 | one command per line gives a token stream that spells exactly those commands, in order |
| `Writer.EntryLineRoundTrip` | tests/test_integration.py:155-162 | a printable config entry written as `key: value` is read back as that entry |
| `Writer.HeaderLinesRoundTrip` | tests/test_integration.py:150-163 | the header lines written from a printable config contribute exactly that config |
| `Writer.HeaderLinesOpen` | tests/test_integration.py:153-154 | no written header line closes the header early |
| `Writer.FileHeader` | tests/test_integration.py:150-163 | the header loop of a written file returns its config, and the command lines start right after CONFIG_END |
| `Writer.FileRoundTrip` | tests/test_integration.py:147-169 | `parse_file` of a file written from a printable config and a printable scenario returns exactly that scenario and that config |
| `Writer.FileLayoutRoundTrip` | tests/test_integration.py:147-169 | `parse_file` of a file whose scenario body is written in any layout returns the scenario with its ranges and steps in file order, each range with its last address, and the config |

## Left out

- Reading the file, the environment, and the processes: the file object
  is replaced by the sequence of its lines; `os.environ` by `Option`s and
  a `map`. Sockets, `subprocess`, `tempfile`, libfaketime, `del_files`,
  `find_objects`, `testserver.*`, `test.Test` and the `__main__` block are
  I/O or process control and are not part of this model.
- The `syn_print` diagnostics that TEST_DEBUG switches on (lines 37-38 and 49-50):
  they only print. Reading TEST_DEBUG itself is `Setup.ReadEnvironment`.
- The SOCKET_WRAPPER_DIR fallback (lines 53-60): it asks the file system
  whether a directory exists and creates a temporary one; `Setup.SetupChildEnv`
  takes the directory as a parameter.
- CONFIG_SELF_ADDR and CONFIG_CHILD_ADDR (lines 202-205): their values
  come from `testserver.get_local_addr_str`, which is not part of this model.
- Parser.ParseEntry: the setters of `scenario.Entry` (`set_reply`,
  `set_match`, `set_adjust`, `begin_section`, `begin_raw`, `add_record`)
  belong to the scenario module, which is not part of this model. An entry
  records the ordered calls; any validation or exception of theirs is not
  modelled.
- Parser.ParseStep: `scenario.Step` is built from the id, the type and
  the extras. Any conversion or check its constructor makes is not modelled;
  the id stays the token's text.
- Setup.EnvIface: Python 2's `int()` is modelled by `Text.IntOf`, which
  follows its machine-word path. A value too large for a machine word is
  handed to Python 2's long-integer parser, and the model reads it by the
  same rule.
- Document.CauseText: the text of a `ValueError` from `int()` quotes the
  value, cut to its first 200 characters, with Python 2's `repr`; here the
  cut value is put between single quotes as it is. `repr` also escapes
  quotes, backslashes, non-printable bytes and bytes outside ASCII, and
  uses double quotes for a value that holds a single quote and no double
  quote. A bound token holding a NUL byte gets a message of its own from
  `int()`, which is not modelled either.
- Setup.Str2Bool: `lower()` is ASCII lower-casing, as for Python 2 byte
  strings; Unicode case mappings are not modelled.
- Parser.ReadConfig: the source turns each header line into its entry as
  soon as it reads the line. The model collects the header lines first and
  then computes their config with `Header.ConfigOf`. Nothing the loop reads
  depends on the entries, and `Header.ConfigOfSnoc` shows that adding one
  line's entry at a time gives `Header.ConfigOf`.
- The header splits a line on every `:`, so `a: b: c` becomes three
  fields (`Header.ThreeFieldLine`). `setup_env`'s `for k, v in config` then raises on that entry;
  `Setup.NoMinimize` and `Setup.SetupChildEnv` model that failure as an
  error result naming the entry.
- A step whose type has data at the very end of the input makes
  `op, args = get_next(...)` raise a TypeError, since `False` cannot be
  unpacked. The model keeps this as its own cause with Python's message.
