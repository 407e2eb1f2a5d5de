/**
 * Queries on corpora and frequency lists: the corpus reader, the frequency
 * list row loop, suffix scoring of paradigms, the forms that occur in a
 * corpus, and the longest-common-substring similarity of two words.
 */
module DbStats {
  import opened Wrappers
  import opened Text

  // ---------------------------------------------------------------------
  // corpus_generator

  /** What `corpus_generator` yields for one line: field 1 (lemmas) or 0 (words) of a line with exactly 3 tab fields. */
  function Feature(line: string, lemmas: bool): Option<string>
  {
    var fields := Split(Strip(line), "\t");
    if |fields| == 3 then Some(fields[if lemmas then 1 else 0]) else None
  }

  /** The features of `lines`, all of them read. */
  function Features(lines: seq<string>, lemmas: bool): seq<string>
  {
    if lines == [] then []
    else
      Features(lines[..|lines| - 1], lemmas) + Yield(Feature(lines[|lines| - 1], lemmas))
  }

  /** What a generator yields for one optional value. */
  function Yield(f: Option<string>): seq<string>
  {
    if f.Some? then [f.value] else []
  }

  lemma FeaturesNext(lines: seq<string>, i: nat, lemmas: bool)
    requires i < |lines|
    ensures Features(lines[..i + 1], lemmas) == Features(lines[..i], lemmas) + Yield(Feature(lines[i], lemmas))
  {
    assert lines[..i + 1][..i] == lines[..i];
  }

  /** The number of lines read before the first one that is empty after `strip()`. */
  function UntilBlank(lines: seq<string>): (n: nat)
    ensures n <= |lines|
    ensures forall k | 0 <= k < n :: !IsBlank(lines[k])
    ensures n < |lines| ==> IsBlank(lines[n])
  {
    if lines == [] || IsBlank(lines[0]) then 0 else 1 + UntilBlank(lines[1..])
  }

  /** What `corpus_generator` yields from a file. */
  function Corpus(lines: seq<string>, lemmas: bool): seq<string>
  {
    Features(lines[..UntilBlank(lines)], lemmas)
  }

  /** A blank line is where reading stops, whatever follows it. */
  lemma UntilBlankAt(lines: seq<string>, n: nat)
    requires n <= |lines|
    requires forall k | 0 <= k < n :: !IsBlank(lines[k])
    requires n < |lines| ==> IsBlank(lines[n])
    ensures UntilBlank(lines) == n
  {
  }

  /** One line of `corpus_generator`'s loop: whether it ends the file, and what it yields. */
  method ReadFeature(raw: string, lemmas: bool) returns (blank: bool, f: Option<string>)
    ensures blank == IsBlank(raw) && f == Feature(raw, lemmas)
  {
    var line := Strip(raw);
    StripBlank(raw);
    blank := line == "";
    var fields := Split(line, "\t");
    f := if |fields| == 3 then Some(fields[if lemmas then 1 else 0]) else None;
  }

  /** `corpus_generator`: read lines until one is empty after `strip()`. */
  method CorpusGenerator(lines: seq<string>, lemmas: bool) returns (out: seq<string>)
    ensures out == Corpus(lines, lemmas)
  {
    out := [];
    var i := 0;
    var blank, f := ReadFeature(ReadLine(lines, i), lemmas);
    while !blank
      invariant i <= |lines| && blank == IsBlank(ReadLine(lines, i)) && f == Feature(ReadLine(lines, i), lemmas)
      invariant i <= UntilBlank(lines)
      invariant out == Features(lines[..i], lemmas)
      decreases |lines| - i
    {
      assert !IsBlank(lines[i]);
      assert i < UntilBlank(lines);
      FeaturesNext(lines, i, lemmas);
      out := out + Yield(f);
      i := i + 1;
      blank, f := ReadFeature(ReadLine(lines, i), lemmas);
    }
    assert i == UntilBlank(lines);
  }

  /** A feature is yielded exactly when some line before the first blank one carries it. */
  lemma {:induction false} FeaturesMembers(lines: seq<string>, lemmas: bool, w: string)
    ensures w in Features(lines, lemmas) <==> exists k | 0 <= k < |lines| :: Feature(lines[k], lemmas) == Some(w)
  {
    if lines != [] {
      var init := lines[..|lines| - 1];
      FeaturesMembers(init, lemmas, w);
      if w in Features(lines, lemmas) && w !in Features(init, lemmas) {
        assert Feature(lines[|lines| - 1], lemmas) == Some(w);
      }
      if exists k | 0 <= k < |lines| :: Feature(lines[k], lemmas) == Some(w) {
        var k :| 0 <= k < |lines| && Feature(lines[k], lemmas) == Some(w);
        if k < |lines| - 1 {
          assert init[k] == lines[k];
        }
      }
    }
  }

  /** Lines after a blank line are never read. */
  lemma CorpusStopsAtBlank(lines: seq<string>, more: seq<string>, lemmas: bool)
    requires exists k | 0 <= k < |lines| :: IsBlank(lines[k])
    ensures Corpus(lines + more, lemmas) == Corpus(lines, lemmas)
  {
    var n := UntilBlank(lines);
    var all := lines + more;
    assert forall k | 0 <= k < n :: all[k] == lines[k];
    UntilBlankAt(all, n);
    assert all[..n] == lines[..n];
  }

  // ---------------------------------------------------------------------
  // freqlist_to_dataframe

  /** One kept row of a frequency list: its word and its frequency. */
  datatype FreqRow = FreqRow(word: string, frequency: int)

  predicate IsDigit(c: char) { '0' <= c <= '9' }

  /** The value of a string of decimal digits. */
  function DigitsValue(s: string): (n: nat)
    requires forall i | 0 <= i < |s| :: IsDigit(s[i])
  {
    if s == [] then 0
    else
      assert IsDigit(s[|s| - 1]);
      10 * DigitsValue(s[..|s| - 1]) + (s[|s| - 1] as int - '0' as int)
  }

  /** The token without its sign, if it has one. */
  function Unsigned(s: string): string
  {
    if s != [] && (s[0] == '+' || s[0] == '-') then s[1..] else s
  }

  /** `int(s)` for a token: an optional sign and at least one decimal digit, else `ValueError`. */
  function ParseInt(s: string): (r: Result<int>)
    ensures r.Ok? <==> Unsigned(s) != [] && forall i | 0 <= i < |Unsigned(s)| :: IsDigit(Unsigned(s)[i])
    ensures r.Err? ==> r.error == ValueError
    ensures r.Ok? ==> s != [] && (IsDigit(s[0]) || s[0] == '+' || s[0] == '-')
    ensures r.Ok? && s[0] == '-' ==> r.value <= 0
    ensures r.Ok? && s[0] != '-' ==> r.value >= 0
  {
    var signed := s != [] && (s[0] == '+' || s[0] == '-');
    var digits := if signed then s[1..] else s;
    if digits == [] || exists i | 0 <= i < |digits| :: !IsDigit(digits[i]) then Err(ValueError)
    else
      var magnitude: int := DigitsValue(digits);
      Ok(if signed && s[0] == '-' then -magnitude else magnitude)
  }

  /** `str(n)`: the decimal digits of `n`, most significant first, without leading zeros. */
  function Decimal(n: nat): (d: string)
    ensures d != [] && forall i | 0 <= i < |d| :: IsDigit(d[i])
  {
    if n < 10 then [('0' as int + n) as char]
    else Decimal(n / 10) + [('0' as int + n % 10) as char]
  }

  lemma {:induction false} DecimalValue(n: nat)
    ensures DigitsValue(Decimal(n)) == n
  {
    var d := Decimal(n);
    if n >= 10 {
      DecimalValue(n / 10);
      assert d[..|d| - 1] == Decimal(n / 10);
    }
  }

  /** `int(str(n)) == n`, and a sign in front is read as a sign: `int` undoes `str`. */
  lemma ParseDecimal(n: nat)
    ensures ParseInt(Decimal(n)) == Ok(n)
    ensures ParseInt("+" + Decimal(n)) == Ok(n)
    ensures ParseInt("-" + Decimal(n)) == Ok(0 - n)
  {
    DecimalValue(n);
    assert ("+" + Decimal(n))[1..] == Decimal(n);
    assert ("-" + Decimal(n))[1..] == Decimal(n);
  }

  /**
   * What one line of the list holds: `None` when it has fewer than two
   * whitespace-separated fields, else its word and parsed frequency.
   */
  function RowOf(row: string): Option<Result<FreqRow>>
  {
    var elements := SplitWs(Strip(row));
    if |elements| < 2 then None
    else
      match ParseInt(elements[1])
      case Ok(n) => Some(Ok(FreqRow(elements[0], n)))
      case Err(e) => Some(Err(e))
  }

  /** One row through the loop: stop adding at `limit`, skip rows with fewer than two fields. */
  function FreqStep(acc: Result<seq<FreqRow>>, row: Option<Result<FreqRow>>, limit: int): Result<seq<FreqRow>>
  {
    if acc.Err? || |acc.value| == limit then acc
    else
      match row
      case None => acc
      case Some(Ok(r)) => Ok(acc.value + [r])
      case Some(Err(e)) => Err(e)
  }

  /** The rows `freqlist_to_dataframe` keeps from a file. */
  function FreqRows(lines: seq<string>, limit: int): Result<seq<FreqRow>>
  {
    if lines == [] then Ok([])
    else FreqStep(FreqRows(lines[..|lines| - 1], limit), RowOf(lines[|lines| - 1]), limit)
  }

  /** One line of `freqlist_to_dataframe`'s loop: split it and parse the frequency. */
  method ReadRow(line: string) returns (r: Option<Result<FreqRow>>)
    ensures r == RowOf(line)
  {
    var elements := SplitWs(Strip(line));
    if |elements| < 2 {
      return None;
    }
    var n := ParseInt(elements[1]);
    r := if n.Ok? then Some(Ok(FreqRow(elements[0], n.value))) else Some(Err(n.error));
  }

  /** The row loop of `freqlist_to_dataframe`. */
  method FreqlistRows(lines: seq<string>, limit: int) returns (r: Result<seq<FreqRow>>)
    ensures r == FreqRows(lines, limit)
  {
    var data := [];
    var i := 0;
    while i < |lines|
      invariant 0 <= i <= |lines|
      invariant FreqRows(lines[..i], limit) == Ok(data)
    {
      assert lines[..i + 1][..i] == lines[..i];
      if |data| == limit {
        StoppedRows(lines, i, limit);
        return Ok(data);
      }
      var row := ReadRow(lines[i]);
      if row.Some? && row.value.Err? {
        ErrorsStick(lines, i + 1, limit);
        return Err(row.value.error);
      }
      if row.Some? {
        data := data + [row.value.value];
      }
      i := i + 1;
    }
    assert lines[..i] == lines;
    r := Ok(data);
  }

  /** An error ends the rows: the remaining lines do not change it. */
  lemma {:induction false} ErrorsStick(lines: seq<string>, i: nat, limit: int)
    requires i <= |lines| && FreqRows(lines[..i], limit).Err?
    ensures FreqRows(lines, limit) == FreqRows(lines[..i], limit)
    decreases |lines| - i
  {
    if i < |lines| {
      assert lines[..i + 1][..i] == lines[..i];
      ErrorsStick(lines, i + 1, limit);
    } else {
      assert lines[..i] == lines;
    }
  }

  /** Once `limit` rows are kept, the remaining lines do not change them. */
  lemma {:induction false} StoppedRows(lines: seq<string>, i: nat, limit: int)
    requires i <= |lines| && FreqRows(lines[..i], limit).Ok? && |FreqRows(lines[..i], limit).value| == limit
    ensures FreqRows(lines, limit) == FreqRows(lines[..i], limit)
    decreases |lines| - i
  {
    if i < |lines| {
      assert lines[..i + 1][..i] == lines[..i];
      StoppedRows(lines, i + 1, limit);
    } else {
      assert lines[..i] == lines;
    }
  }

  /**
   * A non-negative `limit` keeps the first `limit` of the rows kept
   * without a limit (-1): reading stops once there are `limit` of them.
   */
  lemma {:induction false} FreqRowsLimit(lines: seq<string>, limit: nat)
    requires FreqRows(lines, -1).Ok?
    ensures FreqRows(lines, limit) == Ok(Take(FreqRows(lines, -1).value, limit))
  {
    if lines != [] {
      var init := lines[..|lines| - 1];
      var row := RowOf(lines[|lines| - 1]);
      assert FreqRows(lines, -1) == FreqStep(FreqRows(init, -1), row, -1);
      assert FreqRows(lines, limit) == FreqStep(FreqRows(init, limit), row, limit);
      FreqRowsLimit(init, limit);
      StepLimit(FreqRows(init, -1).value, row, limit);
    }
  }

  /** The first `limit` elements of `s`, or all of them. */
  function Take<T>(s: seq<T>, limit: nat): (r: seq<T>)
    ensures |r| == if limit < |s| then limit else |s|
    ensures r <= s
  {
    if limit < |s| then s[..limit] else s
  }

  /** One row, with and without a limit. */
  lemma StepLimit(before: seq<FreqRow>, row: Option<Result<FreqRow>>, limit: nat)
    requires FreqStep(Ok(before), row, -1).Ok?
    ensures FreqStep(Ok(Take(before, limit)), row, limit) == Ok(Take(FreqStep(Ok(before), row, -1).value, limit))
  {
    var all := FreqStep(Ok(before), row, -1).value;
    if limit <= |before| {
      assert Take(all, limit) == Take(before, limit);
    }
  }

  // ---------------------------------------------------------------------
  // lemma_scores

  /** A row of the lemma frame: the lemma (`headword`) and its paradigm ("" when unknown). */
  datatype LemmaRow = LemmaRow(headword: string, paradigm: string)

  /** `frame[frame.paradigm != ""]` */
  function Known(rows: seq<LemmaRow>): (r: seq<LemmaRow>)
    ensures forall x | x in r :: x in rows && x.paradigm != ""
    ensures forall x | x in rows && x.paradigm != "" :: x in r
  {
    if rows == [] then []
    else Known(rows[..|rows| - 1]) + (if rows[|rows| - 1].paradigm != "" then [rows[|rows| - 1]] else [])
  }

  /** The rows whose lemma ends with `suffix`. */
  function EndingWith(rows: seq<LemmaRow>, suffix: string): (r: seq<LemmaRow>)
    ensures forall x | x in r :: x in rows && EndsWith(x.headword, suffix)
    ensures forall x | x in rows && EndsWith(x.headword, suffix) :: x in r
  {
    if rows == [] then []
    else
      EndingWith(rows[..|rows| - 1], suffix)
      + (if EndsWith(rows[|rows| - 1].headword, suffix) then [rows[|rows| - 1]] else [])
  }

  /** The number of rows of paradigm `p` (the size of its group). */
  function Count(rows: seq<LemmaRow>, p: string): nat
  {
    if rows == [] then 0
    else Count(rows[..|rows| - 1], p) + (if rows[|rows| - 1].paradigm == p then 1 else 0)
  }

  /** The groups of `groupby("paradigm")`. */
  function Paradigms(rows: seq<LemmaRow>): set<string>
  {
    set x | x in rows :: x.paradigm
  }

  function Max(a: int, b: int): int { if a < b then b else a }

  /** `scores[p] = max(scores.get(p, 0), len(suffix) * count)` for every group of `rows`. */
  function Raise(scores: map<string, int>, rows: seq<LemmaRow>, suffix: string): map<string, int>
  {
    map p | p in scores.Keys + Paradigms(rows) ::
      if p in Paradigms(rows) then Raised(scores, rows, suffix, p) else scores[p]
  }

  /** The score of paradigm `p` once its group has counted: the better of the old score and the new. */
  function Raised(scores: map<string, int>, rows: seq<LemmaRow>, suffix: string, p: string): int
  {
    Max(if p in scores then scores[p] else 0, |suffix| * Count(rows, p))
  }

  /** The scores `lemma_scores` returns once `filtered` has reached `segs`. */
  function ScoreFrom(filtered: seq<LemmaRow>, segs: seq<string>, scores: map<string, int>): map<string, int>
    decreases |segs|
  {
    if segs == [] then scores
    else
      var next := EndingWith(filtered, segs[0]);
      if next == [] then scores else ScoreFrom(next, segs[1..], Raise(scores, next, segs[0]))
  }

  /** `lemma_scores(segments, frame)` */
  function LemmaScoresSpec(segments: seq<string>, frame: seq<LemmaRow>): map<string, int>
  {
    ScoreFrom(Known(frame), segments, map[])
  }

  /** The group loop of `lemma_scores` for one suffix. */
  method RaiseGroups(scores: map<string, int>, filtered: seq<LemmaRow>, suffix: string) returns (r: map<string, int>)
    ensures r == Raise(scores, filtered, suffix)
  {
    r := scores;
    var todo := Paradigms(filtered);
    while todo != {}
      invariant todo <= Paradigms(filtered)
      invariant r.Keys == scores.Keys + (Paradigms(filtered) - todo)
      invariant forall p | p in r && p in Paradigms(filtered) - todo :: r[p] == Raised(scores, filtered, suffix, p)
      invariant forall p | p in r && p !in Paradigms(filtered) - todo :: r[p] == scores[p]
      decreases todo
    {
      var p :| p in todo;
      r := r[p := Max(if p in r then r[p] else 0, |suffix| * Count(filtered, p))];
      todo := todo - {p};
    }
  }

  /** `lemma_scores`: narrow the known rows suffix by suffix, keeping each paradigm's best score. */
  method LemmaScores(segments: seq<string>, frame: seq<LemmaRow>) returns (scores: map<string, int>)
    ensures scores == LemmaScoresSpec(segments, frame)
  {
    var filtered := Known(frame);
    scores := map[];
    var i := 0;
    while i < |segments|
      invariant 0 <= i <= |segments|
      invariant ScoreFrom(filtered, segments[i..], scores) == LemmaScoresSpec(segments, frame)
    {
      var suffix := segments[i];
      assert segments[i..][1..] == segments[i + 1..];
      filtered := EndingWith(filtered, suffix);
      if |filtered| == 0 {
        return;
      }
      scores := RaiseGroups(scores, filtered, suffix);
      i := i + 1;
    }
  }

  /** The rows that end with every suffix of `segs`. */
  function NarrowAll(rows: seq<LemmaRow>, segs: seq<string>): seq<LemmaRow>
    decreases |segs|
  {
    if segs == [] then rows else NarrowAll(EndingWith(rows, segs[0]), segs[1..])
  }

  /**
   * The best product `len(suffix) * count` of paradigm `p` over every
   * suffix, each against the rows that end with it and with every suffix
   * before it, whether or not the narrowing has run empty.
   */
  function Best(rows: seq<LemmaRow>, segs: seq<string>, p: string): (b: nat)
    decreases |segs|
  {
    if segs == [] then 0
    else
      var next := EndingWith(rows, segs[0]);
      Max(|segs[0]| * Count(next, p), Best(next, segs[1..], p))
  }

  lemma CountEmpty(rows: seq<LemmaRow>, p: string)
    requires rows == []
    ensures Count(rows, p) == 0
  {
  }

  /** Narrowing an empty set of rows leaves nothing to score. */
  lemma {:induction false} BestOfNothing(segs: seq<string>, p: string)
    ensures Best([], segs, p) == 0
    decreases |segs|
  {
    if segs != [] {
      assert EndingWith([], segs[0]) == [];
      BestOfNothing(segs[1..], p);
    }
  }

  /** A paradigm's score is the maximum of its products over all suffixes: stopping at an empty narrowing loses nothing. */
  lemma {:induction false} ScoreIsBest(rows: seq<LemmaRow>, segs: seq<string>, scores: map<string, int>, p: string)
    requires forall q | q in scores :: scores[q] >= 0
    decreases |segs|
    ensures var r := ScoreFrom(rows, segs, scores);
      (if p in r then r[p] else 0) == Max(if p in scores then scores[p] else 0, Best(rows, segs, p))
  {
    if segs != [] {
      var next := EndingWith(rows, segs[0]);
      if next == [] {
        BestOfNothing(segs[1..], p);
        CountEmpty(next, p);
      } else {
        var raised := Raise(scores, next, segs[0]);
        assert forall q | q in raised :: raised[q] >= 0;
        ScoreIsBest(next, segs[1..], raised, p);
        if p !in Paradigms(next) {
          if Count(next, p) != 0 {
            CountedIsPresent(next, p);
          }
        }
      }
    }
  }

  /** A paradigm with a positive count has a row. */
  lemma {:induction false} CountedIsPresent(rows: seq<LemmaRow>, p: string)
    requires Count(rows, p) > 0
    ensures p in Paradigms(rows)
  {
    var last := rows[|rows| - 1];
    if last.paradigm != p {
      CountedIsPresent(rows[..|rows| - 1], p);
      var x :| x in rows[..|rows| - 1] && x.paradigm == p;
      assert x in rows;
    } else {
      assert last in rows;
    }
  }

  /** Narrowing by more suffixes keeps a subset of the rows. */
  lemma {:induction false} ScoreKeysNarrow(rows: seq<LemmaRow>, segs: seq<string>, scores: map<string, int>)
    ensures ScoreFrom(rows, segs, scores).Keys <= scores.Keys + Paradigms(rows)
    decreases |segs|
  {
    if segs != [] {
      var next := EndingWith(rows, segs[0]);
      if next != [] {
        ScoreKeysNarrow(next, segs[1..], Raise(scores, next, segs[0]));
        assert Paradigms(next) <= Paradigms(rows);
      }
    }
  }

  /**
   * The paradigms `lemma_scores` scores are exactly those of the known
   * rows whose lemma ends with the first segment; every score is the best
   * product over all segments.
   */
  lemma LemmaScoresMeaning(segments: seq<string>, frame: seq<LemmaRow>, p: string)
    ensures var r := LemmaScoresSpec(segments, frame);
      && (p in r <==> segments != [] && exists x | x in frame :: x.paradigm == p && p != "" && EndsWith(x.headword, segments[0]))
      && (if p in r then r[p] else 0) == Best(Known(frame), segments, p)
  {
    var r := LemmaScoresSpec(segments, frame);
    ScoreIsBest(Known(frame), segments, map[], p);
    if segments != [] {
      var next := EndingWith(Known(frame), segments[0]);
      if next != [] {
        var raised := Raise(map[], next, segments[0]);
        ScoreKeysNarrow(next, segments[1..], raised);
        assert raised.Keys == Paradigms(next);
        ScoreKeysGrow(next, segments[1..], raised);
      }
      if exists x | x in frame :: x.paradigm == p && p != "" && EndsWith(x.headword, segments[0]) {
        var x :| x in frame && x.paradigm == p && p != "" && EndsWith(x.headword, segments[0]);
        assert x in next;
      }
    }
  }

  /** Scores once given are kept. */
  lemma {:induction false} ScoreKeysGrow(rows: seq<LemmaRow>, segs: seq<string>, scores: map<string, int>)
    ensures scores.Keys <= ScoreFrom(rows, segs, scores).Keys
    decreases |segs|
  {
    if segs != [] {
      var next := EndingWith(rows, segs[0]);
      if next != [] {
        ScoreKeysGrow(next, segs[1..], Raise(scores, next, segs[0]));
      }
    }
  }

  /** A paradigm's score never decreases from one suffix to the next. */
  lemma RaiseNeverLowers(scores: map<string, int>, rows: seq<LemmaRow>, suffix: string, p: string)
    requires p in scores
    ensures p in Raise(scores, rows, suffix) && Raise(scores, rows, suffix)[p] >= scores[p]
  {
  }

  // ---------------------------------------------------------------------
  // occurring_forms

  /** `occurring_forms`: the forms that are the word of some row of the frame. */
  method OccurringForms(forms: set<string>, frameWords: seq<string>) returns (found: set<string>)
    ensures found <= forms
    ensures forall f | f in forms :: f in found <==> f in frameWords
  {
    found := {};
    var todo := forms;
    while todo != {}
      invariant todo <= forms && found <= forms - todo
      invariant forall f | f in forms - todo :: f in found <==> f in frameWords
      decreases todo
    {
      var form :| form in todo;
      if form in frameWords {
        found := found + {form};
      }
      todo := todo - {form};
    }
  }

  // ---------------------------------------------------------------------
  // word_similarity

  /** `word[s:e]` is a substring of `word` that occurs in `other`. */
  ghost predicate Shared(word: string, other: string, s: int, e: int)
  {
    0 <= s <= e <= |word| && Contains(other, word[s..e])
  }

  /** `n` is the length of the longest substring of `word` that occurs in `other`. */
  ghost predicate LongestCommon(word: string, other: string, n: int)
  {
    && 0 <= n <= |word|
    && (exists s, e | Shared(word, other, s, e) :: e - s == n)
    && (forall s, e | Shared(word, other, s, e) :: e - s <= n)
  }

  /** `word_similarity`: try every substring of `word`, longest found so far wins. */
  method WordSimilarity(word: string, other: string) returns (best: int)
    ensures LongestCommon(word, other, best)
  {
    best := 0;
    assert OccursAt(word[0..0], other, 0);
    assert Shared(word, other, 0, 0);
    var start := 0;
    while start < |word|
      invariant 0 <= start <= |word| && 0 <= best <= |word|
      invariant exists s, e | Shared(word, other, s, e) :: e - s == best
      invariant forall s, e | Shared(word, other, s, e) && s < start :: e - s <= best
    {
      var end := start;
      while end < |word| + 1
        invariant start <= end <= |word| + 1 && 0 <= best <= |word|
        invariant exists s, e | Shared(word, other, s, e) :: e - s == best
        invariant forall s, e | Shared(word, other, s, e) && s < start :: e - s <= best
        invariant forall e | Shared(word, other, start, e) && e < end :: e - start <= best
      {
        if end - start > best && Contains(other, word[start..end]) {
          assert Shared(word, other, start, end);
          best := end - start;
        }
        end := end + 1;
      }
      start := start + 1;
    }
    forall s, e | Shared(word, other, s, e)
      ensures e - s <= best
    {
      if s == |word| {
        assert e - s == 0;
      }
    }
  }

  /** The similarity never exceeds the length of the other word. */
  lemma SimilarityBound(word: string, other: string, n: int)
    requires LongestCommon(word, other, n)
    ensures n <= |other|
  {
    var s, e :| Shared(word, other, s, e) && e - s == n;
  }

  /** A word is fully similar to itself. */
  lemma SimilarityToSelf(word: string, n: int)
    requires LongestCommon(word, word, n)
    ensures n == |word|
  {
    assert word[0..|word|] == word;
    assert OccursAt(word, word, 0);
    assert Shared(word, word, 0, |word|);
  }

  /** The similarity of two words is determined: there is one longest length. */
  lemma SimilarityUnique(word: string, other: string, n: int, m: int)
    requires LongestCommon(word, other, n) && LongestCommon(word, other, m)
    ensures n == m
  {
    var s, e :| Shared(word, other, s, e) && e - s == n;
    var t, f :| Shared(word, other, t, f) && f - t == m;
  }

  /** An empty word has similarity 0 with anything. */
  lemma SimilarityOfEmpty(other: string, n: int)
    requires LongestCommon("", other, n)
    ensures n == 0
  {
  }
}
