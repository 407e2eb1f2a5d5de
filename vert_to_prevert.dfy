/**
 * Conversion of a vertical corpus (one token per line, structure tags on
 * lines of their own) to prevertical text: the first token of each token
 * line is gathered into a buffer, and at each closing tag the buffer is
 * written as one line, with the space before closing punctuation and after
 * an opening parenthesis removed.
 */
module VertToPrevert {
  import opened Wrappers
  import opened Text

  /** The characters the first rewrite pulls the preceding whitespace onto. */
  const Closers: set<char> := {'.', ',', ';', '?', '!', ')'}

  /** `re.sub(r"\s([.,;?!)])", r"\1", s)`: scanning left to right, a whitespace character followed by a closer is dropped. */
  function DropBeforeClosers(s: string): string
    decreases |s|
  {
    if |s| < 2 then s
    else if IsSpace(s[0]) && s[1] in Closers then [s[1]] + DropBeforeClosers(s[2..])
    else [s[0]] + DropBeforeClosers(s[1..])
  }

  /** `re.sub(r"([(])\s", r"\1", s)`: scanning left to right, a whitespace character following "(" is dropped. */
  function DropAfterParen(s: string): string
    decreases |s|
  {
    if |s| < 2 then s
    else if s[0] == '(' && IsSpace(s[1]) then "(" + DropAfterParen(s[2..])
    else [s[0]] + DropAfterParen(s[1..])
  }

  /** The two rewrites, in the order the script applies them. */
  function Clean(buf: string): string
  {
    DropAfterParen(DropBeforeClosers(buf))
  }

  /** Some whitespace character is directly followed by a closer. */
  predicate SpaceBeforeCloser(s: string)
    decreases |s|
  {
    |s| >= 2 && ((IsSpace(s[0]) && s[1] in Closers) || SpaceBeforeCloser(s[1..]))
  }

  /** Some "(" is directly followed by whitespace. */
  predicate SpaceAfterParen(s: string)
    decreases |s|
  {
    |s| >= 2 && ((s[0] == '(' && IsSpace(s[1])) || SpaceAfterParen(s[1..]))
  }

  /** Two whitespace characters in a row. */
  predicate DoubleSpace(s: string)
    decreases |s|
  {
    |s| >= 2 && ((IsSpace(s[0]) && IsSpace(s[1])) || DoubleSpace(s[1..]))
  }

  /** The non-whitespace characters, in order: the text the rewrites must keep. */
  function Visible(s: string): string
    decreases |s|
  {
    if s == [] then [] else (if IsSpace(s[0]) then [] else [s[0]]) + Visible(s[1..])
  }

  /** The first rewrite starts with the first character unless it drops that one. */
  lemma DropBeforeClosersHead(s: string)
    requires s != [] && !IsSpace(s[0])
    ensures DropBeforeClosers(s) != [] && DropBeforeClosers(s)[0] == s[0]
  {
  }

  /** The second rewrite never changes the first character. */
  lemma DropAfterParenHead(s: string)
    requires s != []
    ensures DropAfterParen(s) != [] && DropAfterParen(s)[0] == s[0]
  {
  }

  /**
   * On text without two whitespace characters in a row, the first rewrite
   * leaves no whitespace before a closer, keeps the text single-spaced, and
   * removes nothing but whitespace.
   */
  lemma {:induction false} DropBeforeClosersCleans(s: string)
    requires !DoubleSpace(s)
    ensures var r := DropBeforeClosers(s);
      !SpaceBeforeCloser(r) && !DoubleSpace(r) && Visible(r) == Visible(s)
    decreases |s|
  {
    if |s| >= 2 {
      var r := DropBeforeClosers(s);
      if IsSpace(s[0]) && s[1] in Closers {
        var rest := DropBeforeClosers(s[2..]);
        assert !DoubleSpace(s[1..]) && !DoubleSpace(s[1..][1..]);
        assert s[1..][1..] == s[2..];
        DropBeforeClosersCleans(s[2..]);
        assert r == [s[1]] + rest;
        assert r[1..] == rest;
        assert Visible(s[1..]) == [s[1]] + Visible(s[2..]);
      } else {
        var rest := DropBeforeClosers(s[1..]);
        DropBeforeClosersCleans(s[1..]);
        assert r == [s[0]] + rest;
        assert r[1..] == rest;
        if IsSpace(s[0]) {
          DropBeforeClosersHead(s[1..]);
        }
      }
    }
  }

  /**
   * The second rewrite leaves no whitespace after "(" on single-spaced
   * text, brings no whitespace before a closer, and removes nothing but
   * whitespace.
   */
  lemma {:induction false} DropAfterParenCleans(s: string)
    requires !DoubleSpace(s) && !SpaceBeforeCloser(s)
    ensures var r := DropAfterParen(s);
      !SpaceAfterParen(r) && !SpaceBeforeCloser(r) && Visible(r) == Visible(s)
    decreases |s|
  {
    if |s| >= 2 {
      var r := DropAfterParen(s);
      if s[0] == '(' && IsSpace(s[1]) {
        var rest := DropAfterParen(s[2..]);
        assert !DoubleSpace(s[1..]) && !SpaceBeforeCloser(s[1..]);
        assert s[1..][1..] == s[2..];
        DropAfterParenCleans(s[2..]);
        assert r == "(" + rest;
        assert r[1..] == rest;
        if |s| > 2 {
          DropAfterParenHead(s[2..]);
        }
        assert Visible(s[1..]) == Visible(s[2..]);
      } else {
        var rest := DropAfterParen(s[1..]);
        DropAfterParenCleans(s[1..]);
        DropAfterParenHead(s[1..]);
        assert r == [s[0]] + rest;
        assert r[1..] == rest;
      }
    }
  }

  /**
   * What a closing tag writes: on single-spaced text the cleaned buffer has
   * no whitespace before a closer and none after "(", and keeps every other
   * character in order.
   */
  lemma CleanSentence(buf: string)
    requires !DoubleSpace(buf)
    ensures !SpaceBeforeCloser(Clean(buf)) && !SpaceAfterParen(Clean(buf)) && Visible(Clean(buf)) == Visible(buf)
  {
    DropBeforeClosersCleans(buf);
    DropAfterParenCleans(DropBeforeClosers(buf));
  }

  // ---------------------------------------------------------------------------
  // The per-line state machine
  // ---------------------------------------------------------------------------

  /** What a line is to the script. */
  datatype Kind =
    | Closing(line: string)   // starts with "</": flush the buffer, copy the line
    | Opening(tag: string)    // starts with "<": write its first token and ">"
    | Word(word: string)      // anything else: its first token goes to the buffer
    | Blank                   // a token line with no token: `split()[0]` raises

  function KindOf(line: string): Kind
  {
    if StartsWith(line, "<") then
      if StartsWith(line, "</") then Closing(line)
      else Opening(LStrip(SplitWs(line)[0], {'>'}))
    else
      var tokens := SplitWs(line);
      if tokens == [] then Blank else Word(tokens[0])
  }

  lemma ClosingLine(line: string)
    requires StartsWith(line, "</")
    ensures KindOf(line) == Closing(line)
  {
    assert line[..2][0] == '<';
    assert line[..1] == "<";
  }

  /** A tag line's first token is written as it stands: `lstrip(">")` cannot touch a token that starts with "<". */
  lemma OpeningTag(line: string)
    requires StartsWith(line, "<") && !StartsWith(line, "</")
    ensures KindOf(line) == Opening(line[..TokenEnd(line)])
  {
    assert line[0] == '<';
  }

  /** `split()` finds no token exactly in blank text. */
  lemma {:induction false} SplitWsBlank(s: string)
    ensures SplitWs(s) == [] <==> IsBlank(s)
    decreases |s|
  {
    if s != [] && IsSpace(s[0]) {
      SplitWsBlank(s[1..]);
    }
  }

  /** A token line fails exactly when it is blank; otherwise its word is a non-empty run without whitespace. */
  lemma WordLine(line: string)
    requires !StartsWith(line, "<")
    ensures KindOf(line) == Blank <==> IsBlank(line)
    ensures KindOf(line).Word? ==> KindOf(line).word != [] && NoSpace(KindOf(line).word)
  {
    SplitWsBlank(line);
  }

  /** The buffer and the text written so far. */
  datatype State = State(buf: string, out: string)

  /**
   * Where the script is after some lines: still going, or stopped by an
   * exception, with the text it had written to the output file by then.
   */
  datatype Progress = Going(st: State) | Stopped(out: string, error: Raised)

  /** One line of the loop. */
  function Step(st: State, k: Kind): Progress
  {
    match k
    case Closing(line) => Going(State("", st.out + Strip(Clean(st.buf)) + "\n" + line))
    case Opening(tag) => Going(State(st.buf, st.out + tag + ">\n"))
    case Word(w) => Going(State(st.buf + " " + w, st.out))
    case Blank => Stopped(st.out, IndexError)
  }

  /** The state after the lines of the given kinds, or where the script stopped. */
  function Run(kinds: seq<Kind>): Progress
  {
    if kinds == [] then Going(State("", ""))
    else
      var prior := Run(kinds[..|kinds| - 1]);
      if prior.Stopped? then prior else Step(prior.st, kinds[|kinds| - 1])
  }

  function Kinds(lines: seq<string>): (ks: seq<Kind>)
    ensures |ks| == |lines| && forall i | 0 <= i < |lines| :: ks[i] == KindOf(lines[i])
  {
    seq(|lines|, i requires 0 <= i < |lines| => KindOf(lines[i]))
  }

  /**
   * What the script leaves in its output file: the text written, and the
   * exception that stopped it, if any. The text written before the
   * exception stays in the file.
   */
  datatype Output = Output(text: string, error: Option<Raised>)

  /** What the script writes for the lines of its input file, and the error it stops with. */
  function Prevert(lines: seq<string>): Output
  {
    match Run(Kinds(lines))
    case Going(st) => Output(st.out, None)
    case Stopped(out, e) => Output(out, Some(e))
  }

  lemma RunNext(kinds: seq<Kind>, i: nat)
    requires i < |kinds|
    ensures Run(kinds[..i + 1]) == if Run(kinds[..i]).Stopped? then Run(kinds[..i]) else Step(Run(kinds[..i]).st, kinds[i])
  {
    assert kinds[..i + 1][..i] == kinds[..i];
  }

  lemma {:induction false} RunErrorSticks(kinds: seq<Kind>, i: nat)
    requires i <= |kinds| && Run(kinds[..i]).Stopped?
    ensures Run(kinds) == Run(kinds[..i])
    decreases |kinds| - i
  {
    if i < |kinds| {
      RunNext(kinds, i);
      RunErrorSticks(kinds, i + 1);
    } else {
      assert kinds[..i] == kinds;
    }
  }

  /**
   * A blank token line stops the script with an IndexError, and the output
   * file keeps exactly what the lines before it wrote.
   */
  lemma BlankLineKeepsWritten(lines: seq<string>, i: nat)
    requires i < |lines| && Prevert(lines[..i]).error.None?
    requires !StartsWith(lines[i], "<") && IsBlank(lines[i])
    ensures Prevert(lines) == Output(Prevert(lines[..i]).text, Some(IndexError))
  {
    var kinds := Kinds(lines);
    assert kinds[..i] == Kinds(lines[..i]);
    WordLine(lines[i]);
    RunNext(kinds, i);
    RunErrorSticks(kinds, i + 1);
  }

  /** The parsing of one line in the loop. */
  method ReadKind(line: string) returns (k: Kind)
    ensures k == KindOf(line)
  {
    if StartsWith(line, "<") {
      if StartsWith(line, "</") {
        return Closing(line);
      }
      var tokens := SplitWs(line);
      return Opening(LStrip(tokens[0], {'>'}));
    }
    var tokens := SplitWs(line);
    if tokens == [] {
      return Blank;
    }
    k := Word(tokens[0]);
  }

  /** One pass of `main`'s loop: the buffer and text after `line`, or the error it raises with the text so far. */
  method Feed(buf: string, out: string, line: string) returns (r: Progress)
    ensures r == Step(State(buf, out), KindOf(line))
  {
    var k := ReadKind(line);
    match k {
      case Closing(tagLine) =>
        r := Going(State("", out + Strip(Clean(buf)) + "\n" + tagLine));
      case Opening(tag) =>
        r := Going(State(buf, out + tag + ">\n"));
      case Word(w) =>
        r := Going(State(buf + " " + w, out));
      case Blank =>
        r := Stopped(out, IndexError);
    }
  }

  /** `main`'s loop over the lines of the input file: the text written, and the error raised, if any. */
  method Convert(lines: seq<string>) returns (r: Output)
    ensures r == Prevert(lines)
  {
    ghost var kinds := Kinds(lines);
    var buf, out := "", "";
    for i := 0 to |lines|
      invariant Run(kinds[..i]) == Going(State(buf, out))
    {
      RunNext(kinds, i);
      var next := Feed(buf, out, lines[i]);
      if next.Stopped? {
        RunErrorSticks(kinds, i + 1);
        return Output(next.out, Some(next.error));
      }
      buf, out := next.st.buf, next.st.out;
    }
    assert kinds[..|lines|] == kinds;
    r := Output(out, None);
  }

  /** The written file: its name, its text, and the exception that ended the script, if any. */
  datatype Written = Written(name: string, text: string, error: Option<Raised>)

  /** The output path: "prevert_" and the part of the input path behind its last backslash, under "desam". */
  function OutputName(path: string, sep: string): string
  {
    var parts := Split(path, "\\");
    "desam" + sep + "prevert_" + parts[|parts| - 1]
  }

  /**
   * The script on its arguments (without the program name) and the lines of
   * the file the first one names: nothing without an argument; otherwise
   * the output file, opened before the first line is read, holding the
   * prevertical text written until the end of the input or until the
   * exception that stopped the script.
   */
  method VertToPrevert(args: seq<string>, sep: string, lines: seq<string>) returns (r: Option<Written>)
    ensures args == [] <==> r.None?
    ensures args != [] ==>
      r == Some(Written(OutputName(args[0], sep), Prevert(lines).text, Prevert(lines).error))
  {
    if args == [] {
      return None;
    }
    var name := OutputName(args[0], sep);
    var output := Convert(lines);
    r := Some(Written(name, output.text, output.error));
  }

  // ---------------------------------------------------------------------------
  // Properties of a run
  // ---------------------------------------------------------------------------

  /** The words read since the last closing tag. */
  function Pending(kinds: seq<Kind>): seq<string>
  {
    if kinds == [] then []
    else
      match kinds[|kinds| - 1]
      case Closing(_) => []
      case Word(w) => Pending(kinds[..|kinds| - 1]) + [w]
      case _ => Pending(kinds[..|kinds| - 1])
  }

  /** `" " + w` for each word, in order: how the buffer grows. */
  function Spaced(words: seq<string>): string
  {
    if words == [] then "" else Spaced(words[..|words| - 1]) + " " + words[|words| - 1]
  }

  /** Every word of the run is a non-empty token without whitespace, as `split()` makes them. */
  predicate WordsAreTokens(kinds: seq<Kind>)
  {
    forall i | 0 <= i < |kinds| :: kinds[i].Word? ==> kinds[i].word != [] && NoSpace(kinds[i].word)
  }

  lemma KindsAreTokens(lines: seq<string>)
    ensures WordsAreTokens(Kinds(lines))
  {
    forall i | 0 <= i < |lines| && KindOf(lines[i]).Word?
      ensures KindOf(lines[i]).word != [] && NoSpace(KindOf(lines[i]).word)
    {
      WordLine(lines[i]);
    }
  }

  /** The buffer holds exactly the words read since the last closing tag, each after one space. */
  lemma {:induction false} RunBuffer(kinds: seq<Kind>)
    requires Run(kinds).Going?
    ensures Run(kinds).st.buf == Spaced(Pending(kinds))
  {
    if kinds != [] {
      var init := kinds[..|kinds| - 1];
      assert Run(init).Going?;
      RunBuffer(init);
    }
  }

  /** Whitespace at the junction of two texts, or inside either. */
  lemma {:induction false} DoubleSpaceAppend(a: string, b: string)
    ensures DoubleSpace(a + b) <==>
      DoubleSpace(a) || DoubleSpace(b) || (a != [] && b != [] && IsSpace(a[|a| - 1]) && IsSpace(b[0]))
    decreases |a|
  {
    if a == [] {
      assert a + b == b;
    } else {
      DoubleSpaceAppend(a[1..], b);
      assert (a + b)[1..] == a[1..] + b;
      if |a| == 1 {
        assert a[1..] == [];
        assert a[1..] + b == b;
      } else {
        assert a[1..][|a| - 2] == a[|a| - 1];
      }
    }
  }

  lemma {:induction false} NoSpaceSingle(w: string)
    requires NoSpace(w)
    ensures !DoubleSpace(w)
    decreases |w|
  {
    if w != [] {
      NoSpaceSingle(w[1..]);
    }
  }

  /** A buffer of tokens is single-spaced and does not end in whitespace. */
  lemma {:induction false} SpacedSingle(words: seq<string>)
    requires forall i | 0 <= i < |words| :: words[i] != [] && NoSpace(words[i])
    ensures var buf := Spaced(words);
      !DoubleSpace(buf) && (buf == [] || !IsSpace(buf[|buf| - 1]))
  {
    if words != [] {
      var init := Spaced(words[..|words| - 1]);
      var w := words[|words| - 1];
      SpacedSingle(words[..|words| - 1]);
      NoSpaceSingle(w);
      DoubleSpaceAppend(init, " ");
      DoubleSpaceAppend(init + " ", w);
      assert (init + " ")[|init + " "| - 1] == ' ';
      assert (init + " " + w)[|init + " " + w| - 1] == w[|w| - 1];
    }
  }

  /** Pending words of a run whose words are tokens are tokens. */
  lemma {:induction false} PendingTokens(kinds: seq<Kind>)
    requires WordsAreTokens(kinds)
    ensures forall i | 0 <= i < |Pending(kinds)| :: Pending(kinds)[i] != [] && NoSpace(Pending(kinds)[i])
  {
    if kinds != [] {
      var init := kinds[..|kinds| - 1];
      assert WordsAreTokens(init) by {
        forall i | 0 <= i < |init| && init[i].Word?
          ensures init[i].word != [] && NoSpace(init[i].word)
        {
          assert init[i] == kinds[i];
        }
      }
      PendingTokens(init);
    }
  }

  /** The buffer of a run whose words are tokens is single-spaced. */
  lemma RunSingleSpaced(kinds: seq<Kind>)
    requires Run(kinds).Going? && WordsAreTokens(kinds)
    ensures !DoubleSpace(Run(kinds).st.buf)
  {
    PendingTokens(kinds);
    RunBuffer(kinds);
    SpacedSingle(Pending(kinds));
  }

  lemma KindsSnoc(lines: seq<string>, line: string)
    ensures Kinds(lines + [line]) == Kinds(lines) + [KindOf(line)]
  {
  }

  lemma RunClosing(kinds: seq<Kind>, line: string)
    requires Run(kinds).Going?
    ensures var st := Run(kinds).st;
      Run(kinds + [Closing(line)]) == Going(State("", st.out + Strip(Clean(st.buf)) + "\n" + line))
  {
    assert (kinds + [Closing(line)])[..|kinds|] == kinds;
  }

  /** The cleaned buffer of a run whose words are tokens. */
  lemma PendingClean(kinds: seq<Kind>)
    requires Run(kinds).Going? && WordsAreTokens(kinds)
    ensures var text := Clean(Run(kinds).st.buf);
      && !SpaceBeforeCloser(text) && !SpaceAfterParen(text)
      && Visible(text) == Visible(Spaced(Pending(kinds)))
  {
    RunSingleSpaced(kinds);
    RunBuffer(kinds);
    CleanSentence(Run(kinds).st.buf);
  }

  /**
   * A closing tag after any run of the script writes the stripped, cleaned
   * buffer as one line, then the tag line, and empties the buffer; the
   * cleaned text has no whitespace before a closer nor after "(", and keeps
   * the words read since the previous closing tag.
   */
  lemma ClosingTag(lines: seq<string>, line: string)
    requires Run(Kinds(lines)).Going? && StartsWith(line, "</")
    ensures var st := Run(Kinds(lines)).st;
      var text := Clean(st.buf);
      && Run(Kinds(lines + [line])) == Going(State("", st.out + Strip(text) + "\n" + line))
      && !SpaceBeforeCloser(text) && !SpaceAfterParen(text)
      && Visible(text) == Visible(Spaced(Pending(Kinds(lines))))
  {
    var kinds := Kinds(lines);
    KindsSnoc(lines, line);
    ClosingLine(line);
    RunClosing(kinds, line);
    KindsAreTokens(lines);
    PendingClean(kinds);
  }

  /** Only tag lines write: words buffered after the last closing tag never reach the output. */
  lemma {:induction false} WordsAloneWriteNothing(kinds: seq<Kind>, rest: seq<Kind>)
    requires Run(kinds + rest).Going?
    requires forall i | 0 <= i < |rest| :: !rest[i].Closing? && !rest[i].Opening?
    ensures Run(kinds).Going? && Run(kinds + rest).st.out == Run(kinds).st.out
  {
    if rest != [] {
      var init := rest[..|rest| - 1];
      assert (kinds + rest)[..|kinds + rest| - 1] == kinds + init;
      assert Run(kinds + init).Going?;
      WordsAloneWriteNothing(kinds, init);
    } else {
      assert kinds + rest == kinds;
    }
  }
}
