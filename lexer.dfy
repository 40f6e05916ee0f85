/**
  The tokenizer of the scenario-file front end: comment stripping, the
  splitting of one line into an opcode and its arguments, and `get_next`,
  which advances a line cursor until it finds a line that holds a token.

  A scenario file is the sequence of its lines, each without its line
  terminator (Python keeps the terminator, but every use below strips or
  splits it away); Python's `readline()` returning '' is the cursor reaching
  the end of that sequence.
*/
module Lexer {
  import opened Wrappers
  import opened Text

  /** A token a line can yield: no whitespace and no comment character. */
  predicate CleanToken(w: string) {
    w != [] && forall j :: 0 <= j < |w| ==> !IsSpace(w[j]) && w[j] != ';' && w[j] != '#'
  }

  /**
    The comment cut of `get_next`: first at the first ';', then at the first
    '#'.  The result is the longest prefix of the line that holds neither.
  */
  function StripComments(line: string): (r: string)
    ensures |r| <= |line| && r == line[..|r|]
    ensures ';' !in r && '#' !in r
    ensures |r| < |line| ==> line[|r|] == ';' || line[|r|] == '#'
  {
    var a := CutAt(line, ';');
    var b := CutAt(a, '#');
    assert b == line[..|b|];
    b
  }

  /** The longest comment-free prefix is unique. */
  lemma CommentFreePrefixUnique(line: string, r1: string, r2: string)
    requires |r1| <= |line| && r1 == line[..|r1|] && ';' !in r1 && '#' !in r1
    requires |r1| < |line| ==> line[|r1|] == ';' || line[|r1|] == '#'
    requires |r2| <= |line| && r2 == line[..|r2|] && ';' !in r2 && '#' !in r2
    requires |r2| < |line| ==> line[|r2|] == ';' || line[|r2|] == '#'
    ensures r1 == r2
  {
  }

  /**
    The order in which the two comment characters are cut away does not
    matter: cutting at '#' first and then at ';' gives the same text.
  */
  lemma CommentOrderIrrelevant(line: string)
    ensures StripComments(line) == CutAt(CutAt(line, '#'), ';')
  {
    var a := CutAt(line, '#');
    var b := CutAt(a, ';');
    assert b == line[..|b|];
    CommentFreePrefixUnique(line, StripComments(line), b);
  }

  /**
    `' '.join(line.strip().split()).split()` after the comment cut, exactly
    as the harness writes it.  The join-and-resplit is plain `split()`: the
    tokens of a line are the whitespace-separated words of its comment-free
    prefix.
  */
  function Tokenize(line: string): (ws: seq<string>)
    ensures ws == SplitWs(StripComments(line))
  {
    var cut := StripComments(line);
    SplitWsStrip(cut);
    SplitWsWords(Strip(cut));
    SplitWsJoin(SplitWs(Strip(cut)));
    SplitWs(JoinWith(SplitWs(Strip(cut)), " "))
  }

  /** No token holds whitespace, ';' or '#', and none is empty. */
  lemma TokenizeClean(line: string)
    ensures forall i :: 0 <= i < |Tokenize(line)| ==> CleanToken(Tokenize(line)[i])
  {
    var cut := StripComments(line);
    var ws := SplitWs(cut);
    SplitWsWords(cut);
    forall i | 0 <= i < |ws| ensures CleanToken(ws[i]) {
      forall j | 0 <= j < |ws[i]| ensures ws[i][j] != ';' && ws[i][j] != '#' {
        assert ws[i][j] in cut;
      }
    }
  }

  /** A line that yields no token: blank, or a comment only. */
  predicate Blank(line: string) {
    Tokenize(line) == []
  }

  /** A line is blank exactly when everything before its first comment character is whitespace. */
  lemma BlankMeansCommentOrSpace(line: string)
    ensures Blank(line) <==> AllSpace(StripComments(line))
  {
    SplitWsEmpty(StripComments(line));
  }

  /** The words of every line of the file, line by line. */
  function TokenLines(lines: seq<string>): (lt: seq<seq<string>>)
    ensures |lt| == |lines|
  {
    seq(|lines|, i requires 0 <= i < |lines| => Tokenize(lines[i]))
  }

  /** One token: the opcode, its arguments, and the number of the line it was read from (1-based). */
  datatype Tok = Tok(op: string, args: seq<string>, line: nat)

  /** What `get_next` returns: a token, or `False` at the true end of the input. */
  datatype Lexed = Eof | Next(tok: Tok)

  /**
    The token `get_next` finds when the cursor is at line index `p`, given
    the words `lt` of every line: the first word of the first line at or
    after `p` that has any, with the other words as arguments and the
    cursor after that line as its line number; or Eof when there is none.
  */
  function NextIn(lt: seq<seq<string>>, p: nat): (x: Lexed)
    requires p <= |lt|
    ensures x.Next? ==> p < x.tok.line <= |lt|
    decreases |lt| - p
  {
    if p == |lt| then Eof
    else if lt[p] == [] then NextIn(lt, p + 1)
    else Next(Tok(lt[p][0], lt[p][1..], p + 1))
  }

  /** The token `get_next` returns when the cursor of the file `lines` is at `p`. */
  function NextToken(lines: seq<string>, p: nat): (x: Lexed)
    requires p <= |lines|
    ensures x.Next? ==> p < x.tok.line <= |lines|
  {
    NextIn(TokenLines(lines), p)
  }

  /**
    `get_next` returns end-of-input only when no remaining line has a word;
    otherwise the opcode is the first word of the first line that has one,
    the arguments are its other words in order, and every line skipped on
    the way has no word.
  */
  lemma {:induction false} NextInSpec(lt: seq<seq<string>>, p: nat)
    requires p <= |lt|
    ensures NextIn(lt, p).Eof? <==> forall i :: p <= i < |lt| ==> lt[i] == []
    ensures NextIn(lt, p).Next? ==>
      var t := NextIn(lt, p).tok;
      && lt[t.line - 1] == [t.op] + t.args
      && forall i :: p <= i < t.line - 1 ==> lt[i] == []
    decreases |lt| - p
  {
    if p < |lt| {
      if lt[p] == [] {
        NextInSpec(lt, p + 1);
      } else {
        assert lt[p] == [lt[p][0]] + lt[p][1..];
      }
    }
  }

  /** Every word of every line is a clean token. */
  lemma TokenLinesClean(lines: seq<string>)
    ensures forall i, j :: 0 <= i < |lines| && 0 <= j < |TokenLines(lines)[i]| ==> CleanToken(TokenLines(lines)[i][j])
  {
    forall i | 0 <= i < |lines| ensures forall j :: 0 <= j < |TokenLines(lines)[i]| ==> CleanToken(TokenLines(lines)[i][j]) {
      TokenizeClean(lines[i]);
    }
  }

  /** Tokens found among clean words are clean. */
  lemma NextInClean(lt: seq<seq<string>>, p: nat)
    requires p <= |lt|
    requires forall i, j :: 0 <= i < |lt| && 0 <= j < |lt[i]| ==> CleanToken(lt[i][j])
    ensures NextIn(lt, p).Next? ==>
      var t := NextIn(lt, p).tok;
      CleanToken(t.op) && forall i :: 0 <= i < |t.args| ==> CleanToken(t.args[i])
  {
    var x := NextIn(lt, p);
    NextInSpec(lt, p);
    if x.Next? {
      var ws := lt[x.tok.line - 1];
      assert ws[0] == x.tok.op;
      assert forall i :: 0 <= i < |x.tok.args| ==> x.tok.args[i] == ws[i + 1];
    }
  }

  /** No opcode or argument `get_next` returns holds whitespace, ';' or '#', and none is empty. */
  lemma NextTokenClean(lines: seq<string>, p: nat)
    requires p <= |lines|
    ensures NextToken(lines, p).Next? ==>
      var t := NextToken(lines, p).tok;
      CleanToken(t.op) && forall i :: 0 <= i < |t.args| ==> CleanToken(t.args[i])
  {
    TokenLinesClean(lines);
    NextInClean(TokenLines(lines), p);
  }

  /** The stream of tokens found among the words `lt`, from line index `p` on. */
  function TokensIn(lt: seq<seq<string>>, p: nat): seq<Tok>
    requires p <= |lt|
    decreases |lt| - p
  {
    match NextIn(lt, p)
    case Eof => []
    case Next(t) => [t] + TokensIn(lt, t.line)
  }

  /** The whole token stream of the file from line index `p` on, as `get_next` would deliver it. */
  function Tokens(lines: seq<string>, p: nat): seq<Tok>
    requires p <= |lines|
  {
    TokensIn(TokenLines(lines), p)
  }

  /**
    `words` holds the words of every line of `lines`.  The trigger keeps
    the fact dormant until a tokenization of a line is in view.
  */
  ghost predicate WordsOfLines(words: seq<seq<string>>, lines: seq<string>) {
    && |words| == |lines|
    && forall i {:trigger Tokenize(lines[i])} :: 0 <= i < |lines| ==> words[i] == Tokenize(lines[i])
  }

  /** Words that hold the words of every line are the file's words. */
  lemma LexedAll(words: seq<seq<string>>, lines: seq<string>)
    requires WordsOfLines(words, lines)
    ensures words == TokenLines(lines)
  {
    forall i | 0 <= i < |lines| ensures words[i] == TokenLines(lines)[i] {
      assert words[i] == Tokenize(lines[i]);
    }
  }

  /**
    The open scenario file: its lines and the cursor of `readline()`.  The
    cursor is also Python's `lineno()`, the number of lines read so far.
    `words` is the words of every line, kept alongside for the proofs.
  */
  class LineReader {
    const lines: seq<string>
    ghost const words: seq<seq<string>>
    var pos: nat

    ghost predicate Valid()
      reads this
    {
      pos <= |lines| && WordsOfLines(words, lines)
    }

    constructor (lines: seq<string>)
      ensures Valid() && this.lines == lines && pos == 0
    {
      this.lines := lines;
      words := TokenLines(lines);
      pos := 0;
    }

    /** The tokens that are still to be read. */
    ghost function Rest(): seq<Tok>
      requires Valid()
      reads this
    {
      TokensIn(words, pos)
    }

    /** `readline()`: the next line, or None at the end of the file. */
    method ReadLine() returns (line: Option<string>)
      requires Valid()
      modifies this
      ensures Valid()
      ensures old(pos) < |lines| ==> line == Some(lines[old(pos)]) && pos == old(pos) + 1
      ensures old(pos) == |lines| ==> line == None && pos == old(pos)
    {
      if pos < |lines| {
        line := Some(lines[pos]);
        pos := pos + 1;
      } else {
        line := None;
      }
    }

    /**
      `get_next`: reads lines until one holds a token and returns it, or
      returns Eof once the file is exhausted.  The token read is the first
      of the remaining stream, and the rest of the stream is what remains.
    */
    method GetNext() returns (x: Lexed)
      requires Valid()
      modifies this
      ensures Valid() && old(pos) <= pos
      ensures x == NextIn(words, old(pos))
      ensures x.Eof? ==> pos == |lines| && old(Rest()) == [] && Rest() == []
      ensures x.Next? ==> pos == x.tok.line && old(Rest()) == [x.tok] + Rest()
    {
      while true
        invariant Valid() && old(pos) <= pos
        invariant NextIn(words, old(pos)) == NextIn(words, pos)
        decreases |lines| - pos
      {
        var line := ReadLine();
        if line.None? {
          return Eof;
        }
        var cut := line.value;
        var seps := [';', '#'];
        for k := 0 to 2
          invariant k == 0 ==> cut == line.value
          invariant k == 1 ==> cut == CutAt(line.value, ';')
          invariant k == 2 ==> cut == StripComments(line.value)
        {
          if seps[k] in cut {
            cut := cut[..IndexOf(cut, seps[k])];
          }
        }
        var tokens := SplitWs(JoinWith(SplitWs(Strip(cut)), " "));
        assert words[pos - 1] == Tokenize(lines[pos - 1]);
        if tokens == [] {
          continue;
        }
        return Next(Tok(tokens[0], tokens[1..], pos));
      }
    }
  }
}
