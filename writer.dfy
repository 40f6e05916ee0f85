/**
  Scenario files written out line by line: a header of `key: value`
  lines closed by CONFIG_END, then one line per command of the scenario.
  Reading such a file back with `parse_file` gives the scenario and the
  config that were written.
*/
module Writer {
  import opened Wrappers
  import opened Text
  import opened Lexer
  import opened Document
  import opened Header
  import opened Grammar
  import opened Parser
  import opened Printer
  import opened Layout

  /** A command on a line of its own: the opcode and the arguments, separated by single spaces. */
  function CmdLine(c: Cmd): string
  {
    JoinWith([c.op] + c.args, " ")
  }

  /** Every word of the command is one token the tokenizer gives back unchanged. */
  predicate CleanCmd(c: Cmd) {
    CleanToken(c.op) && forall i :: 0 <= i < |c.args| ==> CleanToken(c.args[i])
  }

  predicate CleanCmds(cs: seq<Cmd>) {
    forall i :: 0 <= i < |cs| ==> CleanCmd(cs[i])
  }

  function CmdLines(cs: seq<Cmd>): (ls: seq<string>)
    ensures |ls| == |cs|
  {
    seq(|cs|, i requires 0 <= i < |cs| => CmdLine(cs[i]))
  }

  /** A config entry that reads back from a `key: value` header line. */
  predicate PrintableField(kv: seq<string>) {
    && |kv| == 2 && PlainField(kv[0]) && PlainField(kv[1])
    && (kv[0] == [] || kv[0][0] != ';')
    && !StartsWith(kv[0], "CONFIG_END")
  }

  predicate PrintableConfig(cfg: Config) {
    forall i :: 0 <= i < |cfg| ==> PrintableField(cfg[i])
  }

  /** One header line per config entry, its fields joined by ": ". */
  function HeaderLines(cfg: Config): (ls: seq<string>)
    ensures |ls| == |cfg|
  {
    if cfg == [] then [] else [JoinWith(cfg[0], ": ")] + HeaderLines(cfg[1..])
  }

  /** A whole file: the header, CONFIG_END, then one line per command. */
  function FileOf(cfg: Config, cs: seq<Cmd>): seq<string>
  {
    HeaderLines(cfg) + ["CONFIG_END"] + CmdLines(cs)
  }

  /** The file written from a config and a scenario. */
  function FileLines(cfg: Config, sc: Scenario): seq<string>
  {
    FileOf(cfg, ScenarioCmds(sc))
  }

  // ---------------------------------------------------------------------
  // One command line

  /** Words joined by spaces hold no comment character when no word does. */
  lemma {:induction false} JoinHasNoComment(ws: seq<string>)
    requires forall i :: 0 <= i < |ws| ==> CleanToken(ws[i])
    ensures ';' !in JoinWith(ws, " ") && '#' !in JoinWith(ws, " ")
  {
    if |ws| > 1 {
      JoinHasNoComment(ws[1..]);
      var w := ws[0];
      assert ';' !in w && '#' !in w by {
        assert CleanToken(w);
      }
    } else if |ws| == 1 {
      assert CleanToken(ws[0]);
    }
  }

  /** A line with no comment character keeps all of its text. */
  lemma NoCommentKept(line: string)
    requires ';' !in line && '#' !in line
    ensures StripComments(line) == line
  {
  }

  /** A clean command's line tokenizes into its opcode and arguments. */
  lemma CmdLineTokens(c: Cmd)
    requires CleanCmd(c)
    ensures Tokenize(CmdLine(c)) == [c.op] + c.args
  {
    var ws := [c.op] + c.args;
    assert forall i :: 0 <= i < |ws| ==> CleanToken(ws[i]) by {
      forall i | 0 <= i < |ws| ensures CleanToken(ws[i]) {
        if i > 0 { assert ws[i] == c.args[i - 1]; }
      }
    }
    JoinHasNoComment(ws);
    NoCommentKept(CmdLine(c));
    SplitWsJoin(ws);
  }

  // ---------------------------------------------------------------------
  // The command lines as a token stream

  lemma CmdsCons(t: Tok, ts: seq<Tok>)
    ensures Cmds([t] + ts) == [Cmd(t.op, t.args)] + Cmds(ts)
  {
    var l := [t] + ts;
    assert forall i :: 1 <= i < |l| ==> l[i] == ts[i - 1];
  }

  /**
    Lines that each hold one command, from `q` to the end, yield exactly
    those commands as tokens, in order.
  */
  lemma {:induction false} TokensOfWords(lt: seq<seq<string>>, q: nat, cs: seq<Cmd>)
    requires q <= |lt| && |lt| - q == |cs|
    requires forall i :: q <= i < |lt| ==> lt[i] == [cs[i - q].op] + cs[i - q].args
    ensures Cmds(TokensIn(lt, q)) == cs
    decreases |lt| - q
  {
    if q < |lt| {
      assert lt[q] == [cs[0].op] + cs[0].args;
      assert NextIn(lt, q) == Next(Tok(cs[0].op, cs[0].args, q + 1));
      forall i | q + 1 <= i < |lt| ensures lt[i] == [cs[1..][i - (q + 1)].op] + cs[1..][i - (q + 1)].args {
        assert cs[1..][i - (q + 1)] == cs[i - q];
      }
      TokensOfWords(lt, q + 1, cs[1..]);
      CmdsCons(Tok(cs[0].op, cs[0].args, q + 1), TokensIn(lt, q + 1));
      assert [cs[0]] + cs[1..] == cs;
    }
  }

  /** The token stream of a file's command lines spells its commands. */
  lemma TokensOfCmdLines(lines: seq<string>, q: nat, cs: seq<Cmd>)
    requires q <= |lines| && lines[q..] == CmdLines(cs) && CleanCmds(cs)
    ensures Carries(Tokens(lines, q), 0, cs)
  {
    var lt := TokenLines(lines);
    forall i | q <= i < |lt| ensures lt[i] == [cs[i - q].op] + cs[i - q].args {
      assert lines[i] == lines[q..][i - q] == CmdLine(cs[i - q]);
      CmdLineTokens(cs[i - q]);
    }
    TokensOfWords(lt, q, cs);
    var ts := Tokens(lines, q);
    forall i | 0 <= i < |cs| ensures ts[0 + i].op == cs[i].op && ts[0 + i].args == cs[i].args {
      assert Cmds(ts)[i] == cs[i];
    }
    CarriesPointwise(ts, 0, cs);
  }

  // ---------------------------------------------------------------------
  // The header

  /** The rest of a printable config is printable. */
  lemma PrintableConfigTail(cfg: Config)
    requires cfg != [] && PrintableConfig(cfg)
    ensures PrintableField(cfg[0]) && PrintableConfig(cfg[1..])
  {
    forall i | 0 <= i < |cfg| - 1 ensures PrintableField(cfg[1..][i]) {
      assert cfg[1..][i] == cfg[i + 1];
    }
  }

  /** A printable entry's line is `key: value`. */
  lemma HeaderLineOf(kv: seq<string>)
    requires |kv| == 2
    ensures JoinWith(kv, ": ") == KeyValueLine(kv[0], kv[1])
  {
    assert kv[1..] == [kv[1]];
  }

  /** The header lines read back as the config they were written from. */
  lemma {:induction false} HeaderLinesRoundTrip(cfg: Config)
    requires PrintableConfig(cfg)
    ensures ConfigOf(HeaderLines(cfg)) == cfg
  {
    if cfg != [] {
      PrintableConfigTail(cfg);
      HeaderLinesRoundTrip(cfg[1..]);
      HeaderConsStep(cfg);
    }
  }

  /** A printable entry's line reads back as that entry. */
  lemma EntryLineRoundTrip(kv: seq<string>)
    requires PrintableField(kv)
    ensures ConfigLine(JoinWith(kv, ": ")) == [kv]
  {
    var key, value := kv[0], kv[1];
    var line := JoinWith(kv, ": ");
    assert kv == [key, value];
    assert line == KeyValueLine(key, value) by {
      HeaderLineOf(kv);
    }
    KeyValueRoundTrip(key, value);
  }

  /** A printable entry's line, read first, puts that entry in front of the rest. */
  lemma HeaderConsStep(cfg: Config)
    requires cfg != [] && PrintableField(cfg[0])
    requires ConfigOf(HeaderLines(cfg[1..])) == cfg[1..]
    ensures ConfigOf(HeaderLines(cfg)) == cfg
  {
    EntryLineRoundTrip(cfg[0]);
    ConfigOfCons(JoinWith(cfg[0], ": "), HeaderLines(cfg[1..]));
    assert [cfg[0]] + cfg[1..] == cfg;
  }

  /** No header line closes the header early. */
  lemma {:induction false} HeaderLinesOpen(cfg: Config)
    requires PrintableConfig(cfg)
    ensures forall i :: 0 <= i < |cfg| ==> !StartsWith(HeaderLines(cfg)[i], "CONFIG_END")
  {
    if cfg != [] {
      PrintableConfigTail(cfg);
      HeaderLinesOpen(cfg[1..]);
      HeaderLineOf(cfg[0]);
      KeyValueNotConfigEnd(cfg[0][0], cfg[0][1]);
      var h := HeaderLines(cfg);
      forall i | 0 <= i < |cfg| ensures !StartsWith(h[i], "CONFIG_END") {
        if i > 0 { assert h[i] == HeaderLines(cfg[1..])[i - 1]; }
      }
    }
  }

  /** The header of a written file is its config, and the commands start right after CONFIG_END. */
  lemma FileHeader(cfg: Config, cs: seq<Cmd>)
    requires PrintableConfig(cfg)
    ensures ConfigBlock(FileOf(cfg, cs), 0) == (cfg, |cfg| + 1)
    ensures FileOf(cfg, cs)[|cfg| + 1..] == CmdLines(cs)
  {
    var lines := FileOf(cfg, cs);
    var h := HeaderLines(cfg);
    assert lines[0..|h| + 1] == h + ["CONFIG_END"];
    HeaderLinesOpen(cfg);
    HeaderThenEnd(lines, 0, h, "CONFIG_END");
    HeaderLinesRoundTrip(cfg);
  }

  // ---------------------------------------------------------------------
  // The whole file

  /**
    A file written from a config and a scenario, every word of which is a
    clean token, reads back as that scenario and that config.
  */
  lemma FileRoundTrip(cfg: Config, sc: Scenario, hasData: string -> bool)
    requires PrintableConfig(cfg) && PrintableScenario(sc, hasData) && CleanCmds(ScenarioCmds(sc))
    ensures FileSpec(FileLines(cfg, sc), 0, hasData) == Ok((sc, cfg))
  {
    var lines := FileLines(cfg, sc);
    FileHeader(cfg, ScenarioCmds(sc));
    var q := |cfg| + 1;
    var ts := Tokens(lines, q);
    TokensOfCmdLines(lines, q, ScenarioCmds(sc));
    ScenarioRoundTrip(sc, ts, 0, |lines|, hasData);
    CarriesIndex(ts, 0, ScenarioCmds(sc), 0);
    assert ts[0..] == ts;
  }

  /**
    A file whose scenario body is written in any layout -- ranges and steps
    interleaved, ranges with several ADDRESS lines, commands the parser
    passes over -- reads back as the scenario's name, the ranges and the
    steps in the order of the file, each range with its last address, and
    the config.
  */
  lemma FileLayoutRoundTrip(cfg: Config, name: string, ls: seq<BodyLine>, hasData: string -> bool)
    requires PrintableConfig(cfg) && PrintableBodyLines(ls, hasData) && CleanCmds(ScenarioLayoutCmds(name, ls))
    ensures FileSpec(FileOf(cfg, ScenarioLayoutCmds(name, ls)), 0, hasData) == Ok((LayoutScenario(name, ls), cfg))
  {
    var cs := ScenarioLayoutCmds(name, ls);
    var lines := FileOf(cfg, cs);
    FileHeader(cfg, cs);
    var q := |cfg| + 1;
    var ts := Tokens(lines, q);
    TokensOfCmdLines(lines, q, cs);
    ScenarioLayoutRoundTrip(name, ls, ts, 0, |lines|, hasData);
    CarriesIndex(ts, 0, cs, 0);
    assert ts[0..] == ts;
  }
}
