/**
 * Reading the morphological database's two text files: the paradigm
 * template file (ending groups and paradigms) and the dictionary file
 * (lemma:paradigm lines), the fixed repair of mis-encoded letters applied to
 * every line of both, and the crossing of paradigm heads with ending groups
 * into one affix -> tags table per paradigm.
 */
module MorphFiles {
  import opened Wrappers
  import opened Text
  import opened OrderedMaps

  // ---------------------------------------------------------------------
  // Encoding repair

  /** The five letters the legacy encoding garbles, each mapped to the letter meant. */
  function Repair(c: char): char
  {
    if c == 'ą' then 'š'
    else if c == 'ľ' then 'ž'
    else if c == '»' then 'ť'
    else if c == '®' then 'Ž'
    else if c == '©' then 'Š'
    else c
  }

  /** The repair applied to one line: five successive single-letter replacements. */
  function CorrectEncoding(line: string): (r: string)
    ensures |r| == |line|
    ensures forall i | 0 <= i < |line| :: r[i] == Repair(line[i])
  {
    var s1 := Replace(line, "ą", "š");
    var s2 := Replace(s1, "ľ", "ž");
    var s3 := Replace(s2, "»", "ť");
    var s4 := Replace(s3, "®", "Ž");
    var s5 := Replace(s4, "©", "Š");
    ReplaceOneChar(line, 'ą', 'š');
    ReplaceOneChar(s1, 'ľ', 'ž');
    ReplaceOneChar(s2, '»', 'ť');
    ReplaceOneChar(s3, '®', 'Ž');
    ReplaceOneChar(s4, '©', 'Š');
    s5
  }

  /** Repairing a repaired line changes nothing more. */
  lemma CorrectEncodingIdempotent(line: string)
    ensures CorrectEncoding(CorrectEncoding(line)) == CorrectEncoding(line)
  {
    var once := CorrectEncoding(line);
    assert forall i | 0 <= i < |once| :: CorrectEncoding(once)[i] == once[i];
  }

  /** A line free of the five garbled letters comes through unchanged. */
  lemma CorrectEncodingKeepsClean(line: string)
    requires forall i | 0 <= i < |line| :: line[i] !in {'ą', 'ľ', '»', '®', '©'}
    ensures CorrectEncoding(line) == line
  {
    assert forall i | 0 <= i < |line| :: CorrectEncoding(line)[i] == line[i];
  }

  // ---------------------------------------------------------------------
  // Paradigm template file

  /** One `{literal,tag}` row of an ending group; `_` in the file stands for the empty literal. */
  datatype Ending = Ending(literal: string, tags: seq<string>)

  /** head -> the ending-group aliases listed for it */
  type Forms = OMap<string, seq<string>>

  /**
   * What the reader has built so far: paradigm name -> its heads, alias ->
   * its endings, and the name of the section being read.
   */
  datatype ParFile = ParFile(database: OMap<string, Forms>, groups: OMap<string, seq<Ending>>, current: string)

  /** The alias group a `=alias` line opens. */
  function GroupName(line: string): string { RStrip(LStrip(line, {'='}), Whitespace) }

  /** The paradigm a `+name` line opens. */
  function ParadigmName(line: string): string { RStrip(LStrip(line, {'+'}), Whitespace) }

  /** The comma-separated fields of a `\t{literal,tag}` line. */
  function EndingFields(line: string): seq<string> { Split(RStrip(LStrip(line, {'\t', '{'}), {'}', '\n'}), ",") }

  /** The whitespace-separated fields of a `\t<head> alias, alias` line. */
  function HeadFields(line: string): seq<string> { SplitWs(Strip(line)) }

  /**
   * One line of the paradigm file (before repair) applied to the reader's
   * state; the lemmas below say what each kind of line does.
   */
  function ParadigmLine(st: ParFile, raw: string): (r: Result<ParFile>)
    ensures r.Err? ==> StartsWith(CorrectEncoding(raw), "\t{") || StartsWith(CorrectEncoding(raw), "\t<")
  {
    var line := CorrectEncoding(raw);
    if StartsWith(line, "=") then
      var name := GroupName(line);
      Ok(st.(groups := Put(st.groups, name, []), current := name))
    else if StartsWith(line, "\t{") then
      match Get(st.groups, st.current)
      case None => Err(KeyError)
      case Some(endings) =>
        var vals := EndingFields(line);
        if |vals| < 2 then Err(IndexError)
        else
          var e := Ending(if vals[0] == "_" then "" else vals[0], [Strip(vals[1])]);
          Ok(st.(groups := Put(st.groups, st.current, endings + [e])))
    else if StartsWith(line, "+") then
      var name := ParadigmName(line);
      Ok(st.(database := Put(st.database, name, []), current := name))
    else if StartsWith(line, "\t<") then
      var vals := HeadFields(line);
      match Get(st.database, st.current)
      case None => Err(KeyError)
      case Some(heads) =>
        if vals == [] then Err(IndexError)
        else
          var head := RStrip(LStrip(vals[0], {'<'}), {'>'});
          Ok(st.(database := Put(st.database, st.current, Put(heads, head, HeadAliases(vals)))))
    else Ok(st)
  }

  /** `=alias` opens an empty group and makes it current; nothing else changes. */
  lemma GroupLine(st: ParFile, raw: string)
    requires StartsWith(CorrectEncoding(raw), "=")
    ensures var r := ParadigmLine(st, raw);
      var name := GroupName(CorrectEncoding(raw));
      r.Ok? && r.value.database == st.database && r.value.current == name
      && Get(r.value.groups, name) == Some([])
      && forall a | a != name :: Get(r.value.groups, a) == Get(st.groups, a)
  {
    var line := CorrectEncoding(raw);
    var name := GroupName(line);
    PutGet(st.groups, name, [], name);
    forall a | a != name ensures Get(ParadigmLine(st, raw).value.groups, a) == Get(st.groups, a) {
      PutGet(st.groups, name, [], a);
    }
  }

  /** `\t{lit,tag}` appends one ending with one tag to the current group, or raises. */
  lemma EndingLine(st: ParFile, raw: string)
    requires !StartsWith(CorrectEncoding(raw), "=") && StartsWith(CorrectEncoding(raw), "\t{")
    ensures var r := ParadigmLine(st, raw);
      var vals := EndingFields(CorrectEncoding(raw));
      (r == Err(KeyError) <==> st.current !in Keys(st.groups))
      && (r == Err(IndexError) <==> st.current in Keys(st.groups) && |vals| < 2)
      && (r.Ok? ==>
            r.value.database == st.database && r.value.current == st.current
            && Get(r.value.groups, st.current)
               == Some(Get(st.groups, st.current).value + [Ending(if vals[0] == "_" then "" else vals[0], [Strip(vals[1])])])
            && forall a | a != st.current :: Get(r.value.groups, a) == Get(st.groups, a))
  {
    var line := CorrectEncoding(raw);
    var r := ParadigmLine(st, raw);
    if r.Ok? {
      var vals := EndingFields(line);
      var endings := Get(st.groups, st.current).value;
      var e := Ending(if vals[0] == "_" then "" else vals[0], [Strip(vals[1])]);
      assert r.value.groups == Put(st.groups, st.current, endings + [e]);
      PutGet(st.groups, st.current, endings + [e], st.current);
      forall a | a != st.current ensures Get(r.value.groups, a) == Get(st.groups, a) {
        PutGet(st.groups, st.current, endings + [e], a);
      }
    }
  }

  /** `+name` opens a paradigm with no heads and makes it current. */
  lemma ParadigmNameLine(st: ParFile, raw: string)
    requires !StartsWith(CorrectEncoding(raw), "=") && !StartsWith(CorrectEncoding(raw), "\t{")
    requires StartsWith(CorrectEncoding(raw), "+")
    ensures var r := ParadigmLine(st, raw);
      var name := ParadigmName(CorrectEncoding(raw));
      r.Ok? && r.value.groups == st.groups && r.value.current == name
      && Get(r.value.database, name) == Some([])
      && forall p | p != name :: Get(r.value.database, p) == Get(st.database, p)
  {
    var line := CorrectEncoding(raw);
    var name := ParadigmName(line);
    PutGet(st.database, name, [], name);
    forall p | p != name ensures Get(ParadigmLine(st, raw).value.database, p) == Get(st.database, p) {
      PutGet(st.database, name, [], p);
    }
  }

  /** `\t<head> aliases` records the head's alias list in the current paradigm, or raises. */
  lemma HeadLine(st: ParFile, raw: string)
    requires !StartsWith(CorrectEncoding(raw), "=") && !StartsWith(CorrectEncoding(raw), "\t{")
    requires !StartsWith(CorrectEncoding(raw), "+") && StartsWith(CorrectEncoding(raw), "\t<")
    ensures var r := ParadigmLine(st, raw);
      var vals := HeadFields(CorrectEncoding(raw));
      (r == Err(KeyError) <==> st.current !in Keys(st.database))
      && (r == Err(IndexError) <==> st.current in Keys(st.database) && vals == [])
      && (r.Ok? ==>
            r.value.groups == st.groups && r.value.current == st.current
            && st.current in Keys(r.value.database)
            && Get(Get(r.value.database, st.current).value, RStrip(LStrip(vals[0], {'<'}), {'>'}))
               == Some(HeadAliases(vals))
            && forall p | p != st.current :: Get(r.value.database, p) == Get(st.database, p))
  {
    var line := CorrectEncoding(raw);
    var r := ParadigmLine(st, raw);
    if r.Ok? {
      var vals := HeadFields(line);
      var heads := Get(st.database, st.current).value;
      var head := RStrip(LStrip(vals[0], {'<'}), {'>'});
      var heads' := Put(heads, head, HeadAliases(vals));
      assert r.value.database == Put(st.database, st.current, heads');
      PutGet(st.database, st.current, heads', st.current);
      PutGet(heads, head, HeadAliases(vals), head);
      forall p | p != st.current ensures Get(r.value.database, p) == Get(st.database, p) {
        PutGet(st.database, st.current, heads', p);
      }
    }
  }

  /** Every other line leaves the state as it was. */
  lemma OtherLine(st: ParFile, raw: string)
    requires !StartsWith(CorrectEncoding(raw), "=") && !StartsWith(CorrectEncoding(raw), "\t{")
    requires !StartsWith(CorrectEncoding(raw), "+") && !StartsWith(CorrectEncoding(raw), "\t<")
    ensures ParadigmLine(st, raw) == Ok(st)
  {
  }

  /** The aliases after the head on a `\t<head>` line, each with trailing commas removed. */
  function HeadAliases(vals: seq<string>): (aliases: seq<string>)
    requires vals != []
    ensures |aliases| == |vals| - 1
    ensures forall i | 0 <= i < |aliases| :: aliases[i] == RStrip(vals[i + 1], {','})
  {
    seq(|vals| - 1, i requires 0 <= i < |vals| - 1 => RStrip(vals[i + 1], {','}))
  }

  /** The reader's state after the given lines, or the exception the first bad line raises. */
  function ReadLines(lines: seq<string>): Result<ParFile>
  {
    if lines == [] then Ok(ParFile([], [], ""))
    else
      match ReadLines(lines[..|lines| - 1])
      case Err(e) => Err(e)
      case Ok(st) => ParadigmLine(st, lines[|lines| - 1])
  }

  /** Reads the paradigm file into (paradigm -> heads, alias -> endings). */
  method ReadParadigms(lines: seq<string>) returns (r: Result<(OMap<string, Forms>, OMap<string, seq<Ending>>)>)
    ensures ReadLines(lines).Err? ==> r == Err(ReadLines(lines).error)
    ensures ReadLines(lines).Ok? ==> r == Ok((ReadLines(lines).value.database, ReadLines(lines).value.groups))
  {
    var st := ParFile([], [], "");
    for i := 0 to |lines|
      invariant ReadLines(lines[..i]) == Ok(st)
    {
      assert lines[..i + 1][..i] == lines[..i];
      var next := ParadigmLine(st, lines[i]);
      if next.Err? {
        assert ReadLines(lines[..i + 1]).Err?;
        ReadLinesErrSticks(lines, i + 1);
        return Err(next.error);
      }
      st := next.value;
    }
    assert lines[..|lines|] == lines;
    return Ok((st.database, st.groups));
  }

  /** Once a line raises, reading more lines raises the same exception. */
  lemma {:induction false} ReadLinesErrSticks(lines: seq<string>, n: nat)
    requires n <= |lines| && ReadLines(lines[..n]).Err?
    ensures ReadLines(lines) == ReadLines(lines[..n])
    decreases |lines| - n
  {
    if n < |lines| {
      assert lines[..n + 1][..n] == lines[..n];
      ReadLinesErrSticks(lines, n + 1);
    } else {
      assert lines[..n] == lines;
    }
  }

  /** The reader keeps one entry per paradigm and per alias group. */
  lemma {:induction false} ReadLinesDistinct(lines: seq<string>)
    requires ReadLines(lines).Ok?
    ensures Distinct(ReadLines(lines).value.database) && Distinct(ReadLines(lines).value.groups)
  {
    if lines != [] {
      var prefix := lines[..|lines| - 1];
      ReadLinesDistinct(prefix);
      ParadigmLineDistinct(ReadLines(prefix).value, lines[|lines| - 1]);
    }
  }

  /** One line keeps both tables free of repeated keys. */
  lemma ParadigmLineDistinct(st: ParFile, raw: string)
    requires Distinct(st.database) && Distinct(st.groups)
    ensures ParadigmLine(st, raw).Ok? ==> Distinct(ParadigmLine(st, raw).value.database) && Distinct(ParadigmLine(st, raw).value.groups)
  {
    var line := CorrectEncoding(raw);
    if StartsWith(line, "=") {
      PutDistinct(st.groups, GroupName(line), []);
    } else if StartsWith(line, "\t{") {
      if ParadigmLine(st, raw).Ok? {
        var vals := EndingFields(line);
        var e := Ending(if vals[0] == "_" then "" else vals[0], [Strip(vals[1])]);
        PutDistinct(st.groups, st.current, Get(st.groups, st.current).value + [e]);
      }
    } else if StartsWith(line, "+") {
      PutDistinct(st.database, ParadigmName(line), []);
    } else if StartsWith(line, "\t<") {
      if ParadigmLine(st, raw).Ok? {
        var vals := HeadFields(line);
        var heads := Get(st.database, st.current).value;
        PutDistinct(st.database, st.current, Put(heads, RStrip(LStrip(vals[0], {'<'}), {'>'}), HeadAliases(vals)));
      }
    }
  }

  // ---------------------------------------------------------------------
  // Dictionary file

  /** What one dictionary line says: nothing, a lemma with its paradigm, or too few fields. */
  datatype DicLine = Skipped | Entry(headword: string, paradigm: string) | Malformed

  /**
   * One `lemma:paradigm|...` line (before repair); `DicLineKind` and
   * `DicLineEntry` say what it yields.
   */
  function DicLineOf(raw: string): DicLine
  {
    var line := CorrectEncoding(raw);
    if StartsWith(line, " ") || StartsWith(line, "|") || Strip(line) == [] then Skipped
    else
      var fields := Split(Split(line, "|")[0], ":");
      if |fields| < 2 then Malformed
      else Entry(fields[0], RStrip(fields[1], {'!', '%', '\n'}))
  }

  /**
   * Lines starting with a space or `|`, and blank lines, say nothing; any
   * other line is malformed exactly when the part before its first `|` has
   * no `:`.
   */
  lemma DicLineKind(raw: string)
    ensures var line := CorrectEncoding(raw); var d := DicLineOf(raw);
      (d.Skipped? <==> StartsWith(line, " ") || StartsWith(line, "|") || forall i | 0 <= i < |line| :: IsSpace(line[i]))
      && (d.Malformed? <==> !d.Skipped? && !Contains(Split(line, "|")[0], ":"))
  {
    var line := CorrectEncoding(raw);
    StripEmpty(line);
    SplitHead(Split(line, "|")[0], ":");
  }

  /**
   * The headword of an entry is the text before the first `:` of the line,
   * and that text has no `|`. The paradigm field `f` runs from there to the
   * next `:` or `|`, or to the end of the line; the paradigm is `f` with its
   * trailing `!`, `%` and newline characters removed, and no other change.
   */
  lemma DicLineEntry(raw: string)
    requires DicLineOf(raw).Entry?
    ensures var line := CorrectEncoding(raw); var d := DicLineOf(raw);
      var f := Split(Split(line, "|")[0], ":")[1];
      var k := |d.headword| + 1 + |f|;
      && StartsWith(line, d.headword + ":" + f) && !Contains(d.headword, ":") && !Contains(d.headword, "|")
      && !Contains(f, ":") && !Contains(f, "|") && (k == |line| || line[k] == ':' || line[k] == '|')
      && d.paradigm <= f && !Contains(d.paradigm, ":") && !Contains(d.paradigm, "|")
      && (d.paradigm == [] || d.paradigm[|d.paradigm| - 1] !in {'!', '%', '\n'})
      && forall i | |d.paradigm| <= i < |f| :: f[i] in {'!', '%', '\n'}
  {
    var line := CorrectEncoding(raw);
    var fields := Split(Split(line, "|")[0], ":");
    assert DicLineOf(raw) == Entry(fields[0], RStrip(fields[1], {'!', '%', '\n'}));
    EntryFields(line);
  }

  /** The facts of `DicLineEntry`, for the repaired line's two leading fields. */
  lemma EntryFields(line: string)
    requires |Split(Split(line, "|")[0], ":")| >= 2
    ensures var fields := Split(Split(line, "|")[0], ":");
      var h, f, p := fields[0], fields[1], RStrip(fields[1], {'!', '%', '\n'});
      var k := |h| + 1 + |f|;
      && StartsWith(line, h + ":" + f) && !Contains(h, ":") && !Contains(h, "|")
      && !Contains(f, ":") && !Contains(f, "|") && (k == |line| || line[k] == ':' || line[k] == '|')
      && p <= f && !Contains(p, ":") && !Contains(p, "|")
      && (p == [] || p[|p| - 1] !in {'!', '%', '\n'})
      && forall i | |p| <= i < |f| :: f[i] in {'!', '%', '\n'}
  {
    assert "|" == ['|'] && ":" == [':'];
    var fields := Split(Split(line, "|")[0], ":");
    NestedHead(line, "|", ":");
    SecondField(line, '|', ':');
    StrippedField(fields[1]);
  }

  /** `f.rstrip("!%\n")` of a field free of `:` and `|` is a prefix of it, free of both, cut only at those characters. */
  lemma StrippedField(f: string)
    requires !Contains(f, ":") && !Contains(f, "|")
    ensures var p := RStrip(f, {'!', '%', '\n'});
      && p <= f && !Contains(p, ":") && !Contains(p, "|")
      && (p == [] || p[|p| - 1] !in {'!', '%', '\n'})
      && forall i | |p| <= i < |f| :: f[i] in {'!', '%', '\n'}
  {
    RStripSpec(f, {'!', '%', '\n'});
    var p := RStrip(f, {'!', '%', '\n'});
    if Contains(p, ":") {
      ContainsPrefix(f, p, ":");
    }
    if Contains(p, "|") {
      ContainsPrefix(f, p, "|");
    }
  }

  /** The dictionary file, line by line. */
  function ParseDic(lines: seq<string>): (ds: seq<DicLine>)
    ensures |ds| == |lines|
    ensures forall i | 0 <= i < |lines| :: ds[i] == DicLineOf(lines[i])
  {
    seq(|lines|, i requires 0 <= i < |lines| => DicLineOf(lines[i]))
  }

  /** One dictionary line applied to the vocabulary built so far. */
  function VocabStep(vocab: OMap<string, string>, d: DicLine): Result<OMap<string, string>>
  {
    match d
    case Skipped => Ok(vocab)
    case Malformed => Err(IndexError)
    case Entry(headword, paradigm) => Ok(Put(vocab, headword, paradigm))
  }

  /** The vocabulary after the given lines, or the IndexError of the first malformed one. */
  function VocabFold(ds: seq<DicLine>): Result<OMap<string, string>>
  {
    if ds == [] then Ok([])
    else
      match VocabFold(ds[..|ds| - 1])
      case Err(e) => Err(e)
      case Ok(vocab) => VocabStep(vocab, ds[|ds| - 1])
  }

  /** The loop body's reading of one dictionary line. */
  method ReadDicLine(raw: string) returns (d: DicLine)
    ensures d == DicLineOf(raw)
  {
    var line := CorrectEncoding(raw);
    if StartsWith(line, " ") || StartsWith(line, "|") || Strip(line) == [] {
      return Skipped;
    }
    var lemPar := Split(Split(line, "|")[0], ":");
    if |lemPar| < 2 {
      return Malformed;
    }
    d := Entry(lemPar[0], RStrip(lemPar[1], {'!', '%', '\n'}));
  }

  /** Reads the dictionary file into headword -> paradigm. */
  method Vocabulary(lines: seq<string>) returns (r: Result<OMap<string, string>>)
    ensures r == VocabFold(ParseDic(lines))
  {
    ghost var ds := ParseDic(lines);
    var vocab: OMap<string, string> := [];
    for i := 0 to |lines|
      invariant VocabFold(ds[..i]) == Ok(vocab)
    {
      assert ds[..i + 1][..i] == ds[..i];
      var d := ReadDicLine(lines[i]);
      var next := VocabStep(vocab, d);
      if next.Err? {
        VocabFoldErrSticks(ds, i + 1);
        return next;
      }
      vocab := next.value;
    }
    assert ds[..|lines|] == ds;
    return Ok(vocab);
  }

  lemma {:induction false} VocabFoldErrSticks(ds: seq<DicLine>, n: nat)
    requires n <= |ds| && VocabFold(ds[..n]).Err?
    ensures VocabFold(ds) == VocabFold(ds[..n])
    decreases |ds| - n
  {
    if n < |ds| {
      assert ds[..n + 1][..n] == ds[..n];
      VocabFoldErrSticks(ds, n + 1);
    } else {
      assert ds[..n] == ds;
    }
  }

  /** The paradigm of the last entry for `headword`, if there is one. */
  function LastEntry(ds: seq<DicLine>, headword: string): Option<string>
  {
    if ds == [] then None
    else
      var d := ds[|ds| - 1];
      if d.Entry? && d.headword == headword then Some(d.paradigm) else LastEntry(ds[..|ds| - 1], headword)
  }

  /** Reading fails exactly when some line is malformed, and then with IndexError. */
  lemma {:induction false} VocabularyErrors(ds: seq<DicLine>)
    ensures VocabFold(ds).Err? <==> exists i | 0 <= i < |ds| :: ds[i].Malformed?
    ensures VocabFold(ds).Err? ==> VocabFold(ds).error == IndexError
  {
    if ds != [] {
      var prefix := ds[..|ds| - 1];
      VocabularyErrors(prefix);
      if exists i | 0 <= i < |prefix| :: prefix[i].Malformed? {
        var i :| 0 <= i < |prefix| && prefix[i].Malformed?;
        assert ds[i] == prefix[i];
      } else if !ds[|ds| - 1].Malformed? {
        forall i | 0 <= i < |ds| ensures !ds[i].Malformed? {
          if i < |prefix| {
            assert ds[i] == prefix[i];
          }
        }
      }
    }
  }

  /**
   * Each headword maps to the paradigm of its last entry line (a later
   * duplicate overwrites an earlier one), and is stored once.
   */
  lemma {:induction false} VocabularyLookup(ds: seq<DicLine>, headword: string)
    requires VocabFold(ds).Ok?
    ensures Get(VocabFold(ds).value, headword) == LastEntry(ds, headword)
    ensures Distinct(VocabFold(ds).value)
  {
    if ds != [] {
      var prefix := ds[..|ds| - 1];
      VocabularyLookup(prefix, headword);
      var vocab := VocabFold(prefix).value;
      match ds[|ds| - 1]
      case Skipped =>
      case Malformed =>
      case Entry(l, p) =>
        PutGet(vocab, l, p, headword);
        PutDistinct(vocab, l, p);
    }
  }

  // ---------------------------------------------------------------------
  // Crossing heads with ending groups

  /** The tags kept: all of them, or with `only_formal` those not containing "wH". */
  function FormalTags(tags: seq<string>, onlyFormal: bool): (kept: seq<string>)
    ensures |kept| <= |tags|
    ensures onlyFormal ==> forall i | 0 <= i < |kept| :: !Contains(kept[i], "wH")
    ensures !onlyFormal ==> kept == tags
  {
    if !onlyFormal || tags == [] then tags
    else
      var prev := FormalTags(tags[..|tags| - 1], onlyFormal);
      var t := tags[|tags| - 1];
      if Contains(t, "wH") then prev else prev + [t]
  }

  /** The positions of the tags without "wH", in increasing order: every such position, and only those. */
  function FormalPositions(tags: seq<string>): (ps: seq<nat>)
    ensures forall j | 0 <= j < |ps| :: ps[j] < |tags| && !Contains(tags[ps[j]], "wH")
    ensures forall j, k | 0 <= j < k < |ps| :: ps[j] < ps[k]
    ensures forall i | 0 <= i < |tags| && !Contains(tags[i], "wH") :: i in ps
  {
    if tags == [] then []
    else
      var prev := FormalPositions(tags[..|tags| - 1]);
      if Contains(tags[|tags| - 1], "wH") then prev else prev + [|tags| - 1]
  }

  /**
   * With `only_formal`, the kept tags are the tags at the formal positions,
   * in order: none dropped and none reordered.
   */
  lemma {:induction false} FormalTagsExact(tags: seq<string>)
    ensures var kept := FormalTags(tags, true); var ps := FormalPositions(tags);
      |kept| == |ps| && forall j | 0 <= j < |ps| :: kept[j] == tags[ps[j]]
  {
    if tags != [] {
      var init := tags[..|tags| - 1];
      FormalTagsExact(init);
      var kept, ps := FormalTags(tags, true), FormalPositions(tags);
      forall j | 0 <= j < |ps| ensures kept[j] == tags[ps[j]] {
        if j < |FormalPositions(init)| {
          assert tags[ps[j]] == init[ps[j]];
        }
      }
    }
  }

  /** With `only_formal`, a tag is kept exactly when it is one of the tags and has no "wH". */
  lemma FormalTagsMembers(tags: seq<string>)
    ensures forall t :: t in FormalTags(tags, true) <==> t in tags && !Contains(t, "wH")
  {
    FormalTagsExact(tags);
    var kept, ps := FormalTags(tags, true), FormalPositions(tags);
    forall t ensures t in kept <==> t in tags && !Contains(t, "wH") {
      if t in tags && !Contains(t, "wH") {
        var i :| 0 <= i < |tags| && tags[i] == t;
        var j :| 0 <= j < |ps| && ps[j] == i;
        assert kept[j] == t;
      }
      if t in kept {
        var j :| 0 <= j < |kept| && kept[j] == t;
        assert tags[ps[j]] == t;
      }
    }
  }

  /** The (affix, tags) pairs that one head contributes through a list of endings, in order. */
  function EndingContribs(head: string, endings: seq<Ending>, onlyFormal: bool): seq<(string, seq<string>)>
  {
    if endings == [] then []
    else
      var prev := EndingContribs(head, endings[..|endings| - 1], onlyFormal);
      var e := endings[|endings| - 1];
      var tags := FormalTags(e.tags, onlyFormal);
      if tags == [] then prev else prev + [(head + e.literal, tags)]
  }

  /** The pairs a head contributes through each of its aliases in turn. */
  function AliasContribs(head: string, aliases: seq<string>, groups: OMap<string, seq<Ending>>, onlyFormal: bool)
    : seq<(string, seq<string>)>
  {
    if aliases == [] then []
    else
      AliasContribs(head, aliases[..|aliases| - 1], groups, onlyFormal)
      + EndingContribs(head, GetOr(groups, aliases[|aliases| - 1], []), onlyFormal)
  }

  /** The pairs all heads of one paradigm contribute, head after head. */
  function FormContribs(forms: Forms, groups: OMap<string, seq<Ending>>, onlyFormal: bool): seq<(string, seq<string>)>
  {
    if forms == [] then []
    else
      var f := forms[|forms| - 1];
      FormContribs(forms[..|forms| - 1], groups, onlyFormal) + AliasContribs(f.0, f.1, groups, onlyFormal)
  }

  /** Gathers contributed pairs into a table: a new affix is appended, a known one has its tags extended. */
  function Accumulate(cs: seq<(string, seq<string>)>): OMap<string, seq<string>>
  {
    if cs == [] then []
    else
      var m := Accumulate(cs[..|cs| - 1]);
      var c := cs[|cs| - 1];
      Put(m, c.0, GetOr(m, c.0, []) + c.1)
  }

  /**
   * The accumulation as the source writes it (morph_database.py:111): the
   * list to extend is looked up in the paradigm's outer record, whose only
   * entry is "affixes", instead of in its affix table. Every other affix
   * therefore restarts from an empty list and keeps only the tags of its
   * last pair, and an affix spelled "affixes" fetches the table itself,
   * which has no `extend`.
   */
  function AccumulateAsWritten(cs: seq<(string, seq<string>)>): Result<OMap<string, seq<string>>>
  {
    if cs == [] then Ok([])
    else
      match AccumulateAsWritten(cs[..|cs| - 1])
      case Err(e) => Err(e)
      case Ok(m) =>
        var c := cs[|cs| - 1];
        if c.0 == "affixes" then Err(AttributeError) else Ok(Put(m, c.0, c.1))
  }

  /** The tags of the last pair contributed under `k`. */
  function LastTags(cs: seq<(string, seq<string>)>, k: string): Option<seq<string>>
  {
    if cs == [] then None
    else if cs[|cs| - 1].0 == k then Some(cs[|cs| - 1].1)
    else LastTags(cs[..|cs| - 1], k)
  }

  /** As written, an affix keeps only the tags of its last pair. */
  lemma {:induction false} AsWrittenKeepsLast(cs: seq<(string, seq<string>)>, k: string)
    requires AccumulateAsWritten(cs).Ok?
    ensures Get(AccumulateAsWritten(cs).value, k) == LastTags(cs, k)
  {
    if cs != [] {
      var c := cs[|cs| - 1];
      AsWrittenKeepsLast(cs[..|cs| - 1], k);
      PutGet(AccumulateAsWritten(cs[..|cs| - 1]).value, c.0, c.1, k);
    }
  }

  /**
   * Two endings of one group with the same literal, as the nominative and
   * accusative of many nouns have (`{_,k1gInSc1}` and `{_,k1gInSc4}` under
   * head `hrad`): the table as written keeps only the second tag, the
   * intended one both.
   */
  lemma RepeatedAffixLosesTags(head: string, t1: string, t2: string)
    requires head != "affixes"
    ensures var cs := EndingContribs(head, [Ending("", [t1]), Ending("", [t2])], false);
      AccumulateAsWritten(cs) == Ok([(head, [t2])])
      && Accumulate(cs) == [(head, [t1, t2])]
  {
    SameLiteralPairs(head, t1, t2);
    TwoPairsSameKey(head, [t1], [t2]);
    assert [t1] + [t2] == [t1, t2];
  }

  lemma SameLiteralPairs(head: string, t1: string, t2: string)
    ensures EndingContribs(head, [Ending("", [t1]), Ending("", [t2])], false) == [(head, [t1]), (head, [t2])]
  {
    var e1, e2 := Ending("", [t1]), Ending("", [t2]);
    assert head + "" == head;
    assert [e1, e2][..1] == [e1];
    assert [e1][..0] == [];
    assert EndingContribs(head, [e1], false) == [(head, [t1])];
  }

  lemma TwoPairsSameKey(k: string, v1: seq<string>, v2: seq<string>)
    requires k != "affixes"
    ensures AccumulateAsWritten([(k, v1), (k, v2)]) == Ok([(k, v2)])
    ensures Accumulate([(k, v1), (k, v2)]) == [(k, v1 + v2)]
  {
    var c1, c2 := (k, v1), (k, v2);
    SingletonPut(k, v1);
    OnePair(c1);
    assert [c1, c2][..1] == [c1];
    AccumulateSnoc([c1], c2, [c1, c2]);
  }

  lemma OnePair(c: (string, seq<string>))
    requires c.0 != "affixes"
    ensures AccumulateAsWritten([c]) == Ok([c])
    ensures Accumulate([c]) == [c]
  {
    SingletonPut(c.0, c.1);
    var empty: OMap<string, seq<string>> := [];
    assert GetOr(empty, c.0, []) == [];
    assert [] + c.1 == c.1;
    assert [c][..0] == [];
  }

  /** Storing under the one key of a one-entry table replaces its value. */
  lemma SingletonPut(k: string, v: seq<string>)
    ensures Put([], k, v) == [(k, v)]
    ensures forall w :: Put([(k, v)], k, w) == [(k, w)]
    ensures GetOr([(k, v)], k, []) == v
  {
    assert IndexOf([(k, v)], k) == 0;
  }

  /** All tags contributed under affix `k`, in the order contributed. */
  function TagsFor(cs: seq<(string, seq<string>)>, k: string): seq<string>
  {
    if cs == [] then []
    else TagsFor(cs[..|cs| - 1], k) + (if cs[|cs| - 1].0 == k then cs[|cs| - 1].1 else [])
  }

  /**
   * The accumulated table holds exactly the contributed affixes, once each,
   * and each affix's tag list is the in-order concatenation of the tags
   * contributed under it.
   */
  lemma {:induction false} AccumulateContents(cs: seq<(string, seq<string>)>, k: string)
    ensures Distinct(Accumulate(cs))
    ensures k in Keys(Accumulate(cs)) <==> k in Keys(cs)
    ensures GetOr(Accumulate(cs), k, []) == TagsFor(cs, k)
  {
    if cs != [] {
      var p := cs[..|cs| - 1];
      var c := cs[|cs| - 1];
      AccumulateContents(p, k);
      var m := Accumulate(p);
      var m' := Put(m, c.0, GetOr(m, c.0, []) + c.1);
      assert Accumulate(cs) == m';
      assert Keys(cs) == Keys(p) + [c.0];
      PutDistinct(m, c.0, GetOr(m, c.0, []) + c.1);
      PutKeys(m, c.0, GetOr(m, c.0, []) + c.1);
      PutGet(m, c.0, GetOr(m, c.0, []) + c.1, k);
    }
  }

  /** No tag in the list marks an informal form ("wH"). */
  predicate Formal(tags: seq<string>)
  {
    forall t | 0 <= t < |tags| :: !Contains(tags[t], "wH")
  }

  /** Every pair in `cs` has non-empty tags, and formal ones with `only_formal`. */
  predicate Kept(cs: seq<(string, seq<string>)>, onlyFormal: bool)
  {
    forall i | 0 <= i < |cs| :: cs[i].1 != [] && (onlyFormal ==> Formal(cs[i].1))
  }

  /** The tags gathered under `k` are non-empty when `k` is contributed, and formal when every contribution is. */
  lemma {:induction false} TagsForFacts(cs: seq<(string, seq<string>)>, onlyFormal: bool, k: string)
    requires Kept(cs, onlyFormal)
    ensures k in Keys(cs) ==> TagsFor(cs, k) != []
    ensures onlyFormal ==> Formal(TagsFor(cs, k))
  {
    if cs != [] {
      var p := cs[..|cs| - 1];
      var c := cs[|cs| - 1];
      assert forall i | 0 <= i < |p| :: p[i] == cs[i];
      TagsForFacts(p, onlyFormal, k);
      assert Keys(cs) == Keys(p) + [c.0];
      var extra := if c.0 == k then c.1 else [];
      assert TagsFor(cs, k) == TagsFor(p, k) + extra;
      if onlyFormal {
        forall t | 0 <= t < |TagsFor(cs, k)| ensures !Contains(TagsFor(cs, k)[t], "wH") {
          if t >= |TagsFor(p, k)| {
            assert TagsFor(cs, k)[t] == extra[t - |TagsFor(p, k)|];
          }
        }
      }
    }
  }

  /** `c` is what ending `e` of `endings` gives `head`, for some `e`. */
  predicate FromEnding(c: (string, seq<string>), head: string, endings: seq<Ending>, onlyFormal: bool)
  {
    exists e | 0 <= e < |endings| :: c.0 == head + endings[e].literal && c.1 == FormalTags(endings[e].tags, onlyFormal)
  }

  /** What a head gets from one of its aliases. */
  predicate FromAlias(c: (string, seq<string>), head: string, aliases: seq<string>,
                      groups: OMap<string, seq<Ending>>, onlyFormal: bool)
  {
    exists a | 0 <= a < |aliases| :: FromEnding(c, head, GetOr(groups, aliases[a], []), onlyFormal)
  }

  /** What some head of the paradigm gets from one of its aliases. */
  predicate FromForms(c: (string, seq<string>), forms: Forms, groups: OMap<string, seq<Ending>>, onlyFormal: bool)
  {
    exists j | 0 <= j < |forms| :: FromAlias(c, forms[j].0, forms[j].1, groups, onlyFormal)
  }

  /** A head's pairs through one group keep non-empty (and, when asked, formal) tags. */
  lemma {:induction false} EndingContribsKept(head: string, endings: seq<Ending>, onlyFormal: bool)
    ensures Kept(EndingContribs(head, endings, onlyFormal), onlyFormal)
  {
    if endings != [] {
      var p := endings[..|endings| - 1];
      var n := |endings| - 1;
      EndingContribsKept(head, p, onlyFormal);
      var tags := FormalTags(endings[n].tags, onlyFormal);
      var last: seq<(string, seq<string>)> := if tags == [] then [] else [(head + endings[n].literal, tags)];
      assert EndingContribs(head, endings, onlyFormal) == EndingContribs(head, p, onlyFormal) + last;
      KeptAppend(EndingContribs(head, p, onlyFormal), last, onlyFormal);
    }
  }

  /** Each pair of a head through one group comes from one of the group's endings. */
  lemma {:induction false} EndingContribsSound(head: string, endings: seq<Ending>, onlyFormal: bool, c: (string, seq<string>))
    requires c in EndingContribs(head, endings, onlyFormal)
    ensures FromEnding(c, head, endings, onlyFormal)
  {
    var p := endings[..|endings| - 1];
    var n := |endings| - 1;
    var tags := FormalTags(endings[n].tags, onlyFormal);
    var last: seq<(string, seq<string>)> := if tags == [] then [] else [(head + endings[n].literal, tags)];
    assert EndingContribs(head, endings, onlyFormal) == EndingContribs(head, p, onlyFormal) + last;
    if c in EndingContribs(head, p, onlyFormal) {
      EndingContribsSound(head, p, onlyFormal, c);
      var e :| 0 <= e < |p| && c.0 == head + p[e].literal && c.1 == FormalTags(p[e].tags, onlyFormal);
      assert p[e] == endings[e];
    } else {
      assert c.0 == head + endings[n].literal && c.1 == FormalTags(endings[n].tags, onlyFormal);
    }
  }

  /** Each ending of the group whose kept tags are non-empty gives the head a pair. */
  lemma {:induction false} EndingContribsComplete(head: string, endings: seq<Ending>, onlyFormal: bool, c: (string, seq<string>))
    requires FromEnding(c, head, endings, onlyFormal) && c.1 != []
    ensures c in EndingContribs(head, endings, onlyFormal)
  {
    var e :| 0 <= e < |endings| && c.0 == head + endings[e].literal && c.1 == FormalTags(endings[e].tags, onlyFormal);
    var p := endings[..|endings| - 1];
    var n := |endings| - 1;
    var tags := FormalTags(endings[n].tags, onlyFormal);
    var last: seq<(string, seq<string>)> := if tags == [] then [] else [(head + endings[n].literal, tags)];
    assert EndingContribs(head, endings, onlyFormal) == EndingContribs(head, p, onlyFormal) + last;
    if e < n {
      assert p[e] == endings[e];
      assert FromEnding(c, head, p, onlyFormal);
      EndingContribsComplete(head, p, onlyFormal, c);
    }
  }

  /**
   * A head's pairs through one group are exactly the (head + literal,
   * kept tags) of its endings whose kept tags are non-empty.
   */
  lemma EndingContribsExact(head: string, endings: seq<Ending>, onlyFormal: bool)
    ensures Kept(EndingContribs(head, endings, onlyFormal), onlyFormal)
    ensures forall c | c in EndingContribs(head, endings, onlyFormal) :: FromEnding(c, head, endings, onlyFormal)
    ensures forall c | FromEnding(c, head, endings, onlyFormal) && c.1 != [] :: c in EndingContribs(head, endings, onlyFormal)
  {
    EndingContribsKept(head, endings, onlyFormal);
    forall c | c in EndingContribs(head, endings, onlyFormal) ensures FromEnding(c, head, endings, onlyFormal) {
      EndingContribsSound(head, endings, onlyFormal, c);
    }
    forall c | FromEnding(c, head, endings, onlyFormal) && c.1 != [] ensures c in EndingContribs(head, endings, onlyFormal) {
      EndingContribsComplete(head, endings, onlyFormal, c);
    }
  }

  lemma {:induction false} AliasContribsKept(head: string, aliases: seq<string>, groups: OMap<string, seq<Ending>>, onlyFormal: bool)
    ensures Kept(AliasContribs(head, aliases, groups, onlyFormal), onlyFormal)
  {
    if aliases != [] {
      var p := aliases[..|aliases| - 1];
      var endings := GetOr(groups, aliases[|aliases| - 1], []);
      AliasContribsKept(head, p, groups, onlyFormal);
      EndingContribsKept(head, endings, onlyFormal);
      KeptAppend(AliasContribs(head, p, groups, onlyFormal), EndingContribs(head, endings, onlyFormal), onlyFormal);
    }
  }

  lemma {:induction false} AliasContribsSound(head: string, aliases: seq<string>, groups: OMap<string, seq<Ending>>,
                                              onlyFormal: bool, c: (string, seq<string>))
    requires c in AliasContribs(head, aliases, groups, onlyFormal)
    ensures FromAlias(c, head, aliases, groups, onlyFormal)
  {
    var p := aliases[..|aliases| - 1];
    var n := |aliases| - 1;
    var endings := GetOr(groups, aliases[n], []);
    if c in AliasContribs(head, p, groups, onlyFormal) {
      AliasContribsSound(head, p, groups, onlyFormal, c);
      var a :| 0 <= a < |p| && FromEnding(c, head, GetOr(groups, p[a], []), onlyFormal);
      assert p[a] == aliases[a];
    } else {
      EndingContribsSound(head, endings, onlyFormal, c);
    }
  }

  lemma {:induction false} AliasContribsComplete(head: string, aliases: seq<string>, groups: OMap<string, seq<Ending>>,
                                                 onlyFormal: bool, c: (string, seq<string>))
    requires FromAlias(c, head, aliases, groups, onlyFormal) && c.1 != []
    ensures c in AliasContribs(head, aliases, groups, onlyFormal)
  {
    var a :| 0 <= a < |aliases| && FromEnding(c, head, GetOr(groups, aliases[a], []), onlyFormal);
    var p := aliases[..|aliases| - 1];
    var n := |aliases| - 1;
    if a < n {
      assert p[a] == aliases[a];
      assert FromAlias(c, head, p, groups, onlyFormal);
      AliasContribsComplete(head, p, groups, onlyFormal, c);
    } else {
      EndingContribsComplete(head, GetOr(groups, aliases[n], []), onlyFormal, c);
    }
  }

  /** A head's pairs through its aliases are exactly what it gets from some alias. */
  lemma AliasContribsExact(head: string, aliases: seq<string>, groups: OMap<string, seq<Ending>>, onlyFormal: bool)
    ensures Kept(AliasContribs(head, aliases, groups, onlyFormal), onlyFormal)
    ensures forall c | c in AliasContribs(head, aliases, groups, onlyFormal) :: FromAlias(c, head, aliases, groups, onlyFormal)
    ensures forall c | FromAlias(c, head, aliases, groups, onlyFormal) && c.1 != [] :: c in AliasContribs(head, aliases, groups, onlyFormal)
  {
    AliasContribsKept(head, aliases, groups, onlyFormal);
    forall c | c in AliasContribs(head, aliases, groups, onlyFormal) ensures FromAlias(c, head, aliases, groups, onlyFormal) {
      AliasContribsSound(head, aliases, groups, onlyFormal, c);
    }
    forall c | FromAlias(c, head, aliases, groups, onlyFormal) && c.1 != [] ensures c in AliasContribs(head, aliases, groups, onlyFormal) {
      AliasContribsComplete(head, aliases, groups, onlyFormal, c);
    }
  }

  lemma {:induction false} FormContribsKept(forms: Forms, groups: OMap<string, seq<Ending>>, onlyFormal: bool)
    ensures Kept(FormContribs(forms, groups, onlyFormal), onlyFormal)
  {
    if forms != [] {
      var p := forms[..|forms| - 1];
      var f := forms[|forms| - 1];
      FormContribsKept(p, groups, onlyFormal);
      AliasContribsKept(f.0, f.1, groups, onlyFormal);
      KeptAppend(FormContribs(p, groups, onlyFormal), AliasContribs(f.0, f.1, groups, onlyFormal), onlyFormal);
    }
  }

  lemma {:induction false} FormContribsSound(forms: Forms, groups: OMap<string, seq<Ending>>, onlyFormal: bool,
                                             c: (string, seq<string>))
    requires c in FormContribs(forms, groups, onlyFormal)
    ensures FromForms(c, forms, groups, onlyFormal)
  {
    var p := forms[..|forms| - 1];
    var n := |forms| - 1;
    if c in FormContribs(p, groups, onlyFormal) {
      FormContribsSound(p, groups, onlyFormal, c);
      var j :| 0 <= j < |p| && FromAlias(c, p[j].0, p[j].1, groups, onlyFormal);
      assert p[j] == forms[j];
    } else {
      AliasContribsSound(forms[n].0, forms[n].1, groups, onlyFormal, c);
    }
  }

  lemma {:induction false} FormContribsComplete(forms: Forms, groups: OMap<string, seq<Ending>>, onlyFormal: bool,
                                                c: (string, seq<string>))
    requires FromForms(c, forms, groups, onlyFormal) && c.1 != []
    ensures c in FormContribs(forms, groups, onlyFormal)
  {
    var j :| 0 <= j < |forms| && FromAlias(c, forms[j].0, forms[j].1, groups, onlyFormal);
    var p := forms[..|forms| - 1];
    var n := |forms| - 1;
    if j < n {
      assert p[j] == forms[j];
      assert FromForms(c, p, groups, onlyFormal);
      FormContribsComplete(p, groups, onlyFormal, c);
    } else {
      AliasContribsComplete(forms[n].0, forms[n].1, groups, onlyFormal, c);
    }
  }

  /** A paradigm's pairs are exactly what its heads get from their aliases. */
  lemma FormContribsExact(forms: Forms, groups: OMap<string, seq<Ending>>, onlyFormal: bool)
    ensures Kept(FormContribs(forms, groups, onlyFormal), onlyFormal)
    ensures forall c | c in FormContribs(forms, groups, onlyFormal) :: FromForms(c, forms, groups, onlyFormal)
    ensures forall c | FromForms(c, forms, groups, onlyFormal) && c.1 != [] :: c in FormContribs(forms, groups, onlyFormal)
  {
    FormContribsKept(forms, groups, onlyFormal);
    forall c | c in FormContribs(forms, groups, onlyFormal) ensures FromForms(c, forms, groups, onlyFormal) {
      FormContribsSound(forms, groups, onlyFormal, c);
    }
    forall c | FromForms(c, forms, groups, onlyFormal) && c.1 != [] ensures c in FormContribs(forms, groups, onlyFormal) {
      FormContribsComplete(forms, groups, onlyFormal, c);
    }
  }

  lemma KeptAppend(a: seq<(string, seq<string>)>, b: seq<(string, seq<string>)>, onlyFormal: bool)
    requires Kept(a, onlyFormal) && Kept(b, onlyFormal)
    ensures Kept(a + b, onlyFormal)
  {
    forall i | 0 <= i < |a + b| ensures (a + b)[i].1 != [] && (onlyFormal ==> Formal((a + b)[i].1)) {
      if i >= |a| {
        assert (a + b)[i] == b[i - |a|];
      }
    }
  }

  /**
   * The keys of a paradigm's affix table, once each, are exactly the
   * head + literal strings some head gets with non-empty kept tags.
   */
  lemma AffixTableKeys(forms: Forms, groups: OMap<string, seq<Ending>>, onlyFormal: bool, k: string)
    ensures Distinct(AffixTable(forms, groups, onlyFormal))
    ensures k in Keys(AffixTable(forms, groups, onlyFormal))
            <==> exists t :: t != [] && FromForms((k, t), forms, groups, onlyFormal)
  {
    var cs := FormContribs(forms, groups, onlyFormal);
    AccumulateContents(cs, k);
    FormContribsExact(forms, groups, onlyFormal);
    KeysMember(cs, onlyFormal, k);
  }

  /** In pairs with non-empty tags, `k` is a key exactly when some `(k, t)` with `t != []` is present. */
  lemma KeysMember(cs: seq<(string, seq<string>)>, onlyFormal: bool, k: string)
    requires Kept(cs, onlyFormal)
    ensures k in Keys(cs) <==> exists t :: t != [] && (k, t) in cs
  {
    if k in Keys(cs) {
      var i :| 0 <= i < |cs| && Keys(cs)[i] == k;
      assert cs[i] == (k, cs[i].1);
    }
    if exists t :: t != [] && (k, t) in cs {
      var t :| t != [] && (k, t) in cs;
      var i :| 0 <= i < |cs| && cs[i] == (k, t);
      assert Keys(cs)[i] == k;
    }
  }

  /**
   * Each key's tags in a paradigm's affix table are all the tags contributed
   * under it, in order; they are never empty, and with `only_formal` none
   * marks an informal form.
   */
  lemma AffixTableTags(forms: Forms, groups: OMap<string, seq<Ending>>, onlyFormal: bool, k: string)
    ensures GetOr(AffixTable(forms, groups, onlyFormal), k, []) == TagsFor(FormContribs(forms, groups, onlyFormal), k)
    ensures k in Keys(AffixTable(forms, groups, onlyFormal)) ==> GetOr(AffixTable(forms, groups, onlyFormal), k, []) != []
    ensures onlyFormal ==> Formal(GetOr(AffixTable(forms, groups, onlyFormal), k, []))
  {
    var cs := FormContribs(forms, groups, onlyFormal);
    AccumulateContents(cs, k);
    FormContribsExact(forms, groups, onlyFormal);
    TagsForFacts(cs, onlyFormal, k);
  }

  /** Every paradigm names only alias groups the file defines. */
  predicate AliasesKnown(database: OMap<string, Forms>, groups: OMap<string, seq<Ending>>)
  {
    forall i | 0 <= i < |database| :: FormsKnown(database[i].1, groups)
  }

  predicate FormsKnown(forms: Forms, groups: OMap<string, seq<Ending>>)
  {
    forall j | 0 <= j < |forms| :: AliasListKnown(forms[j].1, groups)
  }

  predicate AliasListKnown(aliases: seq<string>, groups: OMap<string, seq<Ending>>)
  {
    forall a | 0 <= a < |aliases| :: aliases[a] in Keys(groups)
  }

  /** The affix -> tags table of one paradigm. */
  function AffixTable(forms: Forms, groups: OMap<string, seq<Ending>>, onlyFormal: bool): OMap<string, seq<string>>
  {
    Accumulate(FormContribs(forms, groups, onlyFormal))
  }

  /** paradigm -> affix table, paradigm after paradigm. */
  function TranslateAll(database: OMap<string, Forms>, groups: OMap<string, seq<Ending>>, onlyFormal: bool)
    : OMap<string, OMap<string, seq<string>>>
  {
    if database == [] then []
    else
      var d := database[|database| - 1];
      Put(TranslateAll(database[..|database| - 1], groups, onlyFormal), d.0, AffixTable(d.1, groups, onlyFormal))
  }

  /** With one entry per paradigm, the result holds the same paradigms in the same order. */
  lemma {:induction false} TranslateAllKeys(database: OMap<string, Forms>, groups: OMap<string, seq<Ending>>, onlyFormal: bool)
    requires Distinct(database)
    ensures Keys(TranslateAll(database, groups, onlyFormal)) == Keys(database)
  {
    if database != [] {
      var n := |database| - 1;
      var p := database[..n];
      var d := database[n];
      assert Distinct(p);
      assert Keys(database) == Keys(p) + [d.0];
      assert d.0 !in Keys(p);
      TranslateAllKeys(p, groups, onlyFormal);
      PutKeys(TranslateAll(p, groups, onlyFormal), d.0, AffixTable(d.1, groups, onlyFormal));
    }
  }

  /** With one entry per paradigm, each paradigm gets the affix table of its own heads. */
  lemma {:induction false} TranslateAllGet(database: OMap<string, Forms>, groups: OMap<string, seq<Ending>>,
                                           onlyFormal: bool, i: nat)
    requires Distinct(database) && i < |database|
    ensures Get(TranslateAll(database, groups, onlyFormal), database[i].0) == Some(AffixTable(database[i].1, groups, onlyFormal))
  {
    var n := |database| - 1;
    var p := database[..n];
    var d := database[n];
    var table := AffixTable(d.1, groups, onlyFormal);
    assert TranslateAll(database, groups, onlyFormal) == Put(TranslateAll(p, groups, onlyFormal), d.0, table);
    PutGet(TranslateAll(p, groups, onlyFormal), d.0, table, database[i].0);
    if i < n {
      assert Distinct(p);
      assert database[i] == p[i];
      assert database[i].0 != d.0;
      TranslateAllGet(p, groups, onlyFormal, i);
    }
  }

  /**
   * With one entry per paradigm, the result holds the same paradigms in the
   * same order, each with the affix table of its own heads.
   */
  lemma TranslateAllContents(database: OMap<string, Forms>, groups: OMap<string, seq<Ending>>, onlyFormal: bool, i: nat)
    requires Distinct(database) && i < |database|
    ensures Keys(TranslateAll(database, groups, onlyFormal)) == Keys(database)
    ensures Get(TranslateAll(database, groups, onlyFormal), database[i].0) == Some(AffixTable(database[i].1, groups, onlyFormal))
  {
    TranslateAllKeys(database, groups, onlyFormal);
    TranslateAllGet(database, groups, onlyFormal, i);
  }

  /**
   * Builds every paradigm's affix table by crossing each head with the
   * endings of each of its aliases; fails with KeyError on an undefined alias.
   */
  method ParadigmDb(database: OMap<string, Forms>, groups: OMap<string, seq<Ending>>, onlyFormal: bool)
    returns (r: Result<OMap<string, OMap<string, seq<string>>>>)
    ensures r.Err? <==> !AliasesKnown(database, groups)
    ensures r.Ok? ==> r.value == TranslateAll(database, groups, onlyFormal)
  {
    var translated: OMap<string, OMap<string, seq<string>>> := [];
    for i := 0 to |database|
      invariant AliasesKnown(database[..i], groups)
      invariant translated == TranslateAll(database[..i], groups, onlyFormal)
    {
      var table := CrossForms(database[i].1, groups, onlyFormal);
      if table.None? {
        assert !FormsKnown(database[i].1, groups);
        return Err(KeyError);
      }
      TranslateAllSnoc(database, i, groups, onlyFormal);
      AliasesKnownSnoc(database, i, groups);
      translated := Put(translated, database[i].0, table.value);
    }
    assert database[..|database|] == database;
    return Ok(translated);
  }

  lemma TranslateAllSnoc(database: OMap<string, Forms>, i: nat, groups: OMap<string, seq<Ending>>, onlyFormal: bool)
    requires i < |database|
    ensures TranslateAll(database[..i + 1], groups, onlyFormal)
            == Put(TranslateAll(database[..i], groups, onlyFormal), database[i].0, AffixTable(database[i].1, groups, onlyFormal))
  {
    assert database[..i + 1][..i] == database[..i];
  }

  lemma AliasesKnownSnoc(database: OMap<string, Forms>, i: nat, groups: OMap<string, seq<Ending>>)
    requires i < |database|
    requires AliasesKnown(database[..i], groups) && FormsKnown(database[i].1, groups)
    ensures AliasesKnown(database[..i + 1], groups)
  {
    var d := database[..i + 1];
    forall k | 0 <= k < |d|
      ensures FormsKnown(d[k].1, groups)
    {
      if k < i {
        assert d[k] == database[..i][k];
      }
    }
  }

  /** The loop body of `ParadigmDb` for one paradigm: None when an alias is undefined. */
  method CrossForms(forms: Forms, groups: OMap<string, seq<Ending>>, onlyFormal: bool)
    returns (table: Option<OMap<string, seq<string>>>)
    ensures table.None? <==> !FormsKnown(forms, groups)
    ensures table.Some? ==> table.value == AffixTable(forms, groups, onlyFormal)
  {
    var acc: OMap<string, seq<string>> := [];
    for j := 0 to |forms|
      invariant FormsKnown(forms[..j], groups)
      invariant acc == Accumulate(FormContribs(forms[..j], groups, onlyFormal))
    {
      FormContribsSnoc(forms, j, groups, onlyFormal);
      var next := CrossHead(forms[j].0, forms[j].1, groups, onlyFormal, acc, FormContribs(forms[..j], groups, onlyFormal));
      if next.None? {
        FormsKnownPrefix(forms, j + 1, groups);
        return None;
      }
      FormsKnownSnoc(forms, j, groups);
      acc := next.value;
    }
    assert forms[..|forms|] == forms;
    return Some(acc);
  }

  /** One head crossed with each of its aliases, extending the table built from `done`. */
  method CrossHead(head: string, aliases: seq<string>, groups: OMap<string, seq<Ending>>, onlyFormal: bool,
                   acc: OMap<string, seq<string>>, ghost done: seq<(string, seq<string>)>)
    returns (next: Option<OMap<string, seq<string>>>)
    requires acc == Accumulate(done)
    ensures next.None? <==> !AliasListKnown(aliases, groups)
    ensures next.Some? ==> next.value == Accumulate(done + AliasContribs(head, aliases, groups, onlyFormal))
  {
    next := Some(acc);
    assert done + AliasContribs(head, aliases[..0], groups, onlyFormal) == done;
    for a := 0 to |aliases|
      invariant AliasListKnown(aliases[..a], groups)
      invariant next == Some(Accumulate(done + AliasContribs(head, aliases[..a], groups, onlyFormal)))
    {
      var found := Get(groups, aliases[a]);
      if found.None? {
        assert !AliasListKnown(aliases, groups);
        return None;
      }
      ghost var sofar := done + AliasContribs(head, aliases[..a], groups, onlyFormal);
      CrossHeadStep(head, aliases, a, groups, onlyFormal, done);
      var t := CrossEndings(head, found.value, onlyFormal, next.value, sofar);
      next := Some(t);
      AliasListKnownSnoc(aliases, a, groups);
    }
    assert aliases[..|aliases|] == aliases;
  }

  /** One head crossed with one alias group's endings, extending the table built from `done`. */
  method CrossEndings(head: string, endings: seq<Ending>, onlyFormal: bool,
                      acc: OMap<string, seq<string>>, ghost done: seq<(string, seq<string>)>)
    returns (table: OMap<string, seq<string>>)
    requires acc == Accumulate(done)
    ensures table == Accumulate(done + EndingContribs(head, endings, onlyFormal))
  {
    table := acc;
    assert done + EndingContribs(head, endings[..0], onlyFormal) == done;
    for e := 0 to |endings|
      invariant table == Accumulate(done + EndingContribs(head, endings[..e], onlyFormal))
    {
      CrossEndingStep(head, endings, e, onlyFormal, table, done);
      var tags := FormalTags(endings[e].tags, onlyFormal);
      if tags != [] {
        var suffix := head + endings[e].literal;
        table := Put(table, suffix, GetOr(table, suffix, []) + tags);
      }
    }
    assert endings[..|endings|] == endings;
  }

  lemma CrossHeadStep(head: string, aliases: seq<string>, a: nat, groups: OMap<string, seq<Ending>>, onlyFormal: bool,
                      done: seq<(string, seq<string>)>)
    requires a < |aliases|
    ensures done + AliasContribs(head, aliases[..a + 1], groups, onlyFormal)
            == (done + AliasContribs(head, aliases[..a], groups, onlyFormal))
               + EndingContribs(head, GetOr(groups, aliases[a], []), onlyFormal)
  {
    AliasContribsSnoc(head, aliases, a, groups, onlyFormal);
  }

  lemma CrossEndingStep(head: string, endings: seq<Ending>, e: nat, onlyFormal: bool,
                        table: OMap<string, seq<string>>, done: seq<(string, seq<string>)>)
    requires e < |endings|
    requires table == Accumulate(done + EndingContribs(head, endings[..e], onlyFormal))
    ensures var tags := FormalTags(endings[e].tags, onlyFormal);
      var suffix := head + endings[e].literal;
      (if tags == [] then table else Put(table, suffix, GetOr(table, suffix, []) + tags))
      == Accumulate(done + EndingContribs(head, endings[..e + 1], onlyFormal))
  {
    var tags := FormalTags(endings[e].tags, onlyFormal);
    var c := (head + endings[e].literal, tags);
    var cs := done + EndingContribs(head, endings[..e], onlyFormal);
    var all := done + EndingContribs(head, endings[..e + 1], onlyFormal);
    EndingStepSeq(head, endings, e, onlyFormal, done);
    if tags != [] {
      AccumulateSnoc(cs, c, all);
    } else {
      assert all == cs + [];
      assert cs + [] == cs;
    }
  }

  lemma EndingStepSeq(head: string, endings: seq<Ending>, e: nat, onlyFormal: bool, done: seq<(string, seq<string>)>)
    requires e < |endings|
    ensures var tags := FormalTags(endings[e].tags, onlyFormal);
      done + EndingContribs(head, endings[..e + 1], onlyFormal)
      == done + EndingContribs(head, endings[..e], onlyFormal) + (if tags == [] then [] else [(head + endings[e].literal, tags)])
  {
    EndingContribsSnoc(head, endings, e, onlyFormal);
  }

  lemma FormContribsSnoc(forms: Forms, j: nat, groups: OMap<string, seq<Ending>>, onlyFormal: bool)
    requires j < |forms|
    ensures FormContribs(forms[..j + 1], groups, onlyFormal)
            == FormContribs(forms[..j], groups, onlyFormal) + AliasContribs(forms[j].0, forms[j].1, groups, onlyFormal)
  {
    assert forms[..j + 1][..j] == forms[..j];
  }

  lemma FormsKnownSnoc(forms: Forms, j: nat, groups: OMap<string, seq<Ending>>)
    requires j < |forms| && FormsKnown(forms[..j], groups) && AliasListKnown(forms[j].1, groups)
    ensures FormsKnown(forms[..j + 1], groups)
  {
    var f := forms[..j + 1];
    forall k | 0 <= k < |f|
      ensures AliasListKnown(f[k].1, groups)
    {
      if k < j {
        assert f[k] == forms[..j][k];
      }
    }
  }

  /** A table whose prefix names an undefined alias names one itself. */
  lemma FormsKnownPrefix(forms: Forms, n: nat, groups: OMap<string, seq<Ending>>)
    requires n <= |forms| && !FormsKnown(forms[..n], groups)
    ensures !FormsKnown(forms, groups)
  {
    var k :| 0 <= k < n && !AliasListKnown(forms[..n][k].1, groups);
    assert forms[..n][k] == forms[k];
  }

  lemma AliasContribsSnoc(head: string, aliases: seq<string>, a: nat, groups: OMap<string, seq<Ending>>, onlyFormal: bool)
    requires a < |aliases|
    ensures AliasContribs(head, aliases[..a + 1], groups, onlyFormal)
            == AliasContribs(head, aliases[..a], groups, onlyFormal)
               + EndingContribs(head, GetOr(groups, aliases[a], []), onlyFormal)
  {
    assert aliases[..a + 1][..a] == aliases[..a];
  }

  lemma AliasListKnownSnoc(aliases: seq<string>, a: nat, groups: OMap<string, seq<Ending>>)
    requires a < |aliases| && AliasListKnown(aliases[..a], groups) && aliases[a] in Keys(groups)
    ensures AliasListKnown(aliases[..a + 1], groups)
  {
    var al := aliases[..a + 1];
    forall k | 0 <= k < |al|
      ensures al[k] in Keys(groups)
    {
      if k < a {
        assert al[k] == aliases[..a][k];
      }
    }
  }

  lemma EndingContribsSnoc(head: string, endings: seq<Ending>, e: nat, onlyFormal: bool)
    requires e < |endings|
    ensures var tags := FormalTags(endings[e].tags, onlyFormal);
      EndingContribs(head, endings[..e + 1], onlyFormal)
      == EndingContribs(head, endings[..e], onlyFormal) + (if tags == [] then [] else [(head + endings[e].literal, tags)])
  {
    assert endings[..e + 1][..e] == endings[..e];
  }

  lemma AccumulateSnoc(cs: seq<(string, seq<string>)>, c: (string, seq<string>), all: seq<(string, seq<string>)>)
    requires all == cs + [c]
    ensures Accumulate(all) == Put(Accumulate(cs), c.0, GetOr(Accumulate(cs), c.0, []) + c.1)
  {
    assert all[..|cs|] == cs;
  }
}
