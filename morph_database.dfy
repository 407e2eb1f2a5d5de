/**
 * The morphological database object: the vocabulary (lemma -> paradigm)
 * and, per paradigm, its affix table, the "common suffix" cut from a lemma
 * to get its root, and the spread of its forms in a frequency list.
 */
module MorphDb {
  import opened Wrappers
  import opened Text
  import opened OrderedMaps

  /** A spread entry: the 0.0 every affix starts with, or the number token a frequency row gave. */
  datatype SpreadValue = Zero | Parsed(token: string)

  /** What the database keeps per paradigm. */
  datatype ParData = ParData(affixes: OMap<string, seq<string>>, suffix: string, spread: OMap<string, SpreadValue>)

  /** The state an in-place update reached, and the exception that stopped it, if any. */
  datatype Outcome<T> = Outcome(state: T, error: Option<Raised>)

  // ---------------------------------------------------------------------
  // The common suffix of a paradigm

  /**
   * The paradigm name from the last occurrence of `affix` in its lemma part
   * (the text before the first "_") to the end; when the lemma part lacks
   * the affix, `rfind` gives -1 and the result is the last character.
   */
  function SuffixOf(name: string, affix: string): string
  {
    var stem := Split(name, "_")[0];
    SliceFrom(name, RFind(stem, affix))
  }

  /**
   * The suffix ends the name; when the lemma part holds the affix it starts
   * with the affix's last occurrence there, and otherwise it is the last
   * character.
   */
  lemma SuffixOfBounds(name: string, affix: string)
    ensures var r := SuffixOf(name, affix);
      EndsWith(name, r)
      && (var stem := Split(name, "_")[0];
          Contains(stem, affix) ==>
            StartsWith(r, affix)
            && forall j | |name| - |r| < j <= |stem| - |affix| :: !OccursAt(affix, stem, j))
      && (!Contains(Split(name, "_")[0], affix) ==> |r| == if name == [] then 0 else 1)
  {
    SplitHead(name, "_");
  }

  /**
   * The common suffix a paradigm gets from an affix its lemma part holds,
   * cut at the first "_", is that lemma part from the affix's last
   * occurrence on: the lemma part is the root followed by it, and it begins
   * with the affix. `word_root` therefore gives the paradigm's own lemma
   * back as that root.
   */
  lemma CommonSuffixSplitsStem(name: string, affix: string)
    requires Contains(Split(name, "_")[0], affix)
    ensures var stem := Split(name, "_")[0];
      var common := Split(SuffixOf(name, affix), "_")[0];
      EndsWith(stem, common) && StartsWith(common, affix)
      && common == stem[RFind(stem, affix)..]
  {
    var stem := Split(name, "_")[0];
    var i := RFind(stem, affix);
    SuffixOfCut(name, affix);
    SplitHead(name, "_");
    CutSuffix(stem, name[|stem|..], i, affix);
  }

  /** The suffix taken from a lemma part holding the affix is the lemma part's tail, then the rest of the name. */
  lemma SuffixOfCut(name: string, affix: string)
    requires Contains(Split(name, "_")[0], affix)
    ensures var stem := Split(name, "_")[0];
      var rest := name[|stem|..];
      |stem| <= |name| && SuffixOf(name, affix) == stem[RFind(stem, affix)..] + rest && (rest == [] || rest[0] == '_')
  {
    var stem := Split(name, "_")[0];
    HeadAndRest(name, '_');
    CutAt(name, stem, RFind(stem, affix));
  }

  /** Slicing from inside a prefix gives the prefix's tail, then the rest. */
  lemma CutAt(name: string, stem: string, i: int)
    requires StartsWith(name, stem) && 0 <= i <= |stem|
    ensures SliceFrom(name, i) == stem[i..] + name[|stem|..]
    ensures |stem| < |name| ==> name[|stem|..][0] == name[|stem|]
  {
    assert name == stem + name[|stem|..];
  }

  /** Cutting a tail free of "_" that starts with the affix, followed by "_" or nothing, at "_" gives the tail back. */
  lemma CutSuffix(stem: string, rest: string, i: int, affix: string)
    requires OccursAt(affix, stem, i) && !Contains(stem, "_") && (rest == [] || rest[0] == '_')
    ensures var common := Split(stem[i..] + rest, "_")[0];
      EndsWith(stem, common) && StartsWith(common, affix) && common == stem[i..]
  {
    ContainsSuffix(stem, i, "_");
    SplitHeadOf(stem[i..], rest, '_');
  }

  /** The first affix of a table, in insertion order. */
  function FirstAffix(affixes: OMap<string, seq<string>>): string
    requires affixes != []
  {
    affixes[0].0
  }

  /** How many paradigms, from the front, have at least one affix. */
  function LeadingWithAffixes(ps: OMap<string, ParData>): (n: nat)
    ensures n <= |ps|
    ensures forall i | 0 <= i < n :: ps[i].1.affixes != []
    ensures n < |ps| ==> ps[n].1.affixes == []
  {
    if ps == [] || ps[0].1.affixes == [] then 0 else 1 + LeadingWithAffixes(ps[1..])
  }

  /** The common suffix given to every paradigm before the first one without affixes. */
  function SuffixesAssigned(ps: OMap<string, ParData>): (r: OMap<string, ParData>)
    ensures |r| == |ps|
  {
    var n := LeadingWithAffixes(ps);
    seq(|ps|, i requires 0 <= i < |ps| =>
      if i < n then (ps[i].0, ps[i].1.(suffix := SuffixOf(ps[i].0, FirstAffix(ps[i].1.affixes)))) else ps[i])
  }

  /** Giving paradigm `i` its common suffix extends the assigned prefix by one. */
  lemma SuffixAssignedStep(start: OMap<string, ParData>, ps: OMap<string, ParData>, i: nat)
    requires i < |ps| == |start| && i <= LeadingWithAffixes(start) && ps[i].1.affixes != []
    requires forall j | 0 <= j < |start| :: ps[j] == (if j < i then SuffixesAssigned(start)[j] else start[j])
    ensures var next := ps[i := (ps[i].0, ps[i].1.(suffix := SuffixOf(ps[i].0, FirstAffix(ps[i].1.affixes))))];
      i + 1 <= LeadingWithAffixes(start)
      && forall j | 0 <= j < |start| :: next[j] == (if j < i + 1 then SuffixesAssigned(start)[j] else start[j])
  {
    assert ps[i] == start[i];
  }

  // ---------------------------------------------------------------------
  // Spread

  /** Every affix at 0.0, in the affix table's order. */
  function InitialSpread(affixes: OMap<string, seq<string>>): (s: OMap<string, SpreadValue>)
    ensures Keys(s) == Keys(affixes)
    ensures forall i | 0 <= i < |s| :: s[i].1 == Zero
  {
    seq(|affixes|, i requires 0 <= i < |affixes| => (affixes[i].0, Zero))
  }

  /** Every paradigm's spread reset to its initial one. */
  function ResetSpread(ps: OMap<string, ParData>): (r: OMap<string, ParData>)
    ensures |r| == |ps|
    ensures forall i | 0 <= i < |ps| :: r[i] == (ps[i].0, ps[i].1.(spread := InitialSpread(ps[i].1.affixes)))
  {
    seq(|ps|, i requires 0 <= i < |ps| => (ps[i].0, ps[i].1.(spread := InitialSpread(ps[i].1.affixes))))
  }

  /**
   * One frequency-list row `paradigm word number`: fewer than two fields
   * raise IndexError; an unknown paradigm is skipped; a known one needs the
   * third field and stores its number under the word's tail after the root.
   */
  function SpreadRow(ps: OMap<string, ParData>, line: string): Result<OMap<string, ParData>>
  {
    SpreadFields(ps, SplitWs(Strip(line)))
  }

  /** `SpreadRow` on the row's fields. */
  function SpreadFields(ps: OMap<string, ParData>, values: seq<string>): Result<OMap<string, ParData>>
  {
    if |values| < 2 then Err(IndexError)
    else
      var i := IndexOf(ps, values[0]);
      if i < 0 then Ok(ps)
      else if |values| < 3 then Err(IndexError)
      else
        var d := ps[i].1;
        var tail := SliceFrom(values[1], |values[0]| - |d.suffix|);
        Ok(ps[i := (ps[i].0, d.(spread := Put(d.spread, tail, Parsed(values[2]))))])
  }

  /** The rows applied in order by `row`, stopping at the first that raises. */
  function ApplyRows<T>(start: T, rows: seq<string>, row: (T, string) -> Result<T>): Outcome<T>
  {
    if rows == [] then Outcome(start, None)
    else
      var o := ApplyRows(start, rows[..|rows| - 1], row);
      if o.error.Some? then o
      else
        match row(o.state, rows[|rows| - 1])
        case Err(e) => Outcome(o.state, Some(e))
        case Ok(next) => Outcome(next, None)
  }

  /** The frequency rows applied in order, stopping at the first that raises. */
  function SpreadRows(ps: OMap<string, ParData>, rows: seq<string>): Outcome<OMap<string, ParData>>
  {
    ApplyRows(ps, rows, SpreadRow)
  }

  /** Where a row that is applied writes: paradigm index, spread key and number token. */
  function RowTarget(ps: OMap<string, ParData>, line: string): Option<(nat, string, string)>
  {
    FieldsTarget(ps, SplitWs(Strip(line)))
  }

  /** `RowTarget` on the row's fields. */
  function FieldsTarget(ps: OMap<string, ParData>, values: seq<string>): Option<(nat, string, string)>
  {
    if |values| < 3 then None
    else
      var i := IndexOf(ps, values[0]);
      if i < 0 then None
      else Some((i as nat, SliceFrom(values[1], |values[0]| - |ps[i].1.suffix|), values[2]))
  }

  /** The token of the last row writing key `k` of paradigm `i`, if any. */
  function LastToken(ps: OMap<string, ParData>, rows: seq<string>, i: nat, k: string): Option<SpreadValue>
  {
    if rows == [] then None
    else
      var t := RowTarget(ps, rows[|rows| - 1]);
      if t.Some? && t.value.0 == i && t.value.1 == k then Some(Parsed(t.value.2))
      else LastToken(ps, rows[..|rows| - 1], i, k)
  }

  /** Two paradigm tables agree on names, affixes and common suffixes. */
  predicate SameShape(a: OMap<string, ParData>, b: OMap<string, ParData>)
  {
    |a| == |b| && forall i | 0 <= i < |a| :: a[i].0 == b[i].0 && a[i].1.affixes == b[i].1.affixes && a[i].1.suffix == b[i].1.suffix
  }

  lemma SameShapeIndexOf(a: OMap<string, ParData>, b: OMap<string, ParData>, k: string)
    requires SameShape(a, b)
    ensures IndexOf(a, k) == IndexOf(b, k)
  {
    if a != [] {
      SameShapeIndexOf(a[1..], b[1..], k);
    }
  }

  /**
   * Applying rows changes spreads only: names, affix tables and common
   * suffixes stay. A row that is applied writes where `RowTarget` says.
   */
  lemma {:induction false} SpreadRowsShape(ps: OMap<string, ParData>, rows: seq<string>)
    ensures SameShape(SpreadRows(ps, rows).state, ps)
  {
    if rows != [] {
      SpreadRowsShape(ps, rows[..|rows| - 1]);
      var o := SpreadRows(ps, rows[..|rows| - 1]);
      if o.error.None? {
        SpreadFieldsShape(o.state, SplitWs(Strip(rows[|rows| - 1])));
      }
    }
  }

  /**
   * When every row went through, the spread of paradigm `i` maps key `k`
   * to the number token of the last row that wrote it, or else to what the
   * starting spread held.
   */
  lemma {:induction false} SpreadLookup(ps: OMap<string, ParData>, rows: seq<string>, i: nat, k: string)
    requires i < |ps| && SpreadRows(ps, rows).error.None?
    ensures var s := SpreadRows(ps, rows).state;
      |s| == |ps| && Get(s[i].1.spread, k) == if LastToken(ps, rows, i, k).Some? then LastToken(ps, rows, i, k) else Get(ps[i].1.spread, k)
  {
    SpreadRowsShape(ps, rows);
    if rows != [] {
      var prefix := rows[..|rows| - 1];
      var line := rows[|rows| - 1];
      SpreadLookup(ps, prefix, i, k);
      var o := SpreadRows(ps, prefix);
      SpreadRowsShape(ps, prefix);
      if o.error.None? && SpreadRow(o.state, line).Ok? {
        SpreadRowWrites(o.state, ps, line, i, k);
      }
    }
  }

  /** A row that goes through writes key `k` of paradigm `i` exactly when `RowTarget` names them. */
  lemma SpreadRowWrites(q: OMap<string, ParData>, ps: OMap<string, ParData>, line: string, i: nat, k: string)
    requires SameShape(q, ps) && i < |q| && SpreadRow(q, line).Ok?
    ensures var s := SpreadRow(q, line).value;
      var t := RowTarget(ps, line);
      |s| == |q|
      && Get(s[i].1.spread, k) == if t.Some? && t.value.0 == i && t.value.1 == k then Some(Parsed(t.value.2)) else Get(q[i].1.spread, k)
  {
    SpreadFieldsWrite(q, ps, SplitWs(Strip(line)), i, k);
  }

  lemma SpreadFieldsShape(q: OMap<string, ParData>, values: seq<string>)
    ensures SpreadFields(q, values).Ok? ==> SameShape(SpreadFields(q, values).value, q)
  {
  }

  lemma SpreadFieldsWrite(q: OMap<string, ParData>, ps: OMap<string, ParData>, values: seq<string>, i: nat, k: string)
    requires SameShape(q, ps) && i < |q| && SpreadFields(q, values).Ok?
    ensures var s := SpreadFields(q, values).value;
      var t := FieldsTarget(ps, values);
      |s| == |q|
      && Get(s[i].1.spread, k) == if t.Some? && t.value.0 == i && t.value.1 == k then Some(Parsed(t.value.2)) else Get(q[i].1.spread, k)
  {
    SameShapeIndexOf(q, ps, values[0]);
    var j := IndexOf(q, values[0]);
    if j >= 0 {
      var d := q[j].1;
      PutGet(d.spread, SliceFrom(values[1], |values[0]| - |d.suffix|), Parsed(values[2]), k);
    }
  }

  /**
   * Row `n` is where the rows raise: every row before it went through, the
   * state is the one they left, and the exception is row `n`'s.
   */
  ghost predicate StopsAt<T>(start: T, rows: seq<string>, row: (T, string) -> Result<T>, n: int)
  {
    && 0 <= n < |rows|
    && var o := ApplyRows(start, rows[..n], row);
    && o.error.None? && row(o.state, rows[n]).Err?
    && ApplyRows(start, rows, row) == Outcome(o.state, Some(row(o.state, rows[n]).error))
  }

  lemma TakeTake<T>(s: seq<T>, k: nat, n: nat)
    requires n < k <= |s|
    ensures s[..k][..n] == s[..n] && s[..k][n] == s[n]
  {
  }

  /** When the rows raise, it is at some row all rows before which went through. */
  lemma {:induction false} ApplyRowsStop<T>(start: T, rows: seq<string>, row: (T, string) -> Result<T>)
    requires ApplyRows(start, rows, row).error.Some?
    ensures exists n :: StopsAt(start, rows, row, n)
  {
    var prefix := rows[..|rows| - 1];
    var o := ApplyRows(start, prefix, row);
    if o.error.Some? {
      ApplyRowsStop(start, prefix, row);
      var n :| StopsAt(start, prefix, row, n);
      TakeTake(rows, |rows| - 1, n);
      assert ApplyRows(start, rows, row) == o;
      assert StopsAt(start, rows, row, n);
    } else {
      assert rows[..|rows| - 1] == prefix;
      assert StopsAt(start, rows, row, |rows| - 1);
    }
  }

  /** Once a prefix of the rows raises, the later rows change nothing. */
  lemma {:induction false} ApplyRowsErrSticks<T>(start: T, rows: seq<string>, row: (T, string) -> Result<T>, n: nat)
    requires n <= |rows| && ApplyRows(start, rows[..n], row).error.Some?
    ensures ApplyRows(start, rows, row) == ApplyRows(start, rows[..n], row)
    decreases |rows| - n
  {
    if n < |rows| {
      assert rows[..n + 1][..n] == rows[..n];
      ApplyRowsErrSticks(start, rows, row, n + 1);
    } else {
      assert rows[..n] == rows;
    }
  }

  // ---------------------------------------------------------------------
  // Productive paradigms

  /** A vocabulary entry whose lemma part differs from its paradigm's (both taken before the first "_"). */
  predicate Derived(entry: (string, string))
  {
    Split(entry.0, "_")[0] != Split(entry.1, "_")[0]
  }

  /** The paradigms the derived entries of `vocab` name, collected entry by entry. */
  function Productive(vocab: OMap<string, string>, ps: OMap<string, ParData>): Result<OMap<string, ParData>>
  {
    if vocab == [] then Ok([])
    else
      match Productive(vocab[..|vocab| - 1], ps)
      case Err(e) => Err(e)
      case Ok(found) =>
        var entry := vocab[|vocab| - 1];
        if entry.1 in Keys(found) || !Derived(entry) then Ok(found)
        else
          match Get(ps, entry.1)
          case None => Err(KeyError)
          case Some(d) => Ok(Put(found, entry.1, d))
  }

  lemma {:induction false} ProductiveErrSticks(vocab: OMap<string, string>, ps: OMap<string, ParData>, n: nat)
    requires n <= |vocab| && Productive(vocab[..n], ps).Err?
    ensures Productive(vocab, ps) == Productive(vocab[..n], ps)
    decreases |vocab| - n
  {
    if n < |vocab| {
      assert vocab[..n + 1][..n] == vocab[..n];
      ProductiveErrSticks(vocab, ps, n + 1);
    } else {
      assert vocab[..n] == vocab;
    }
  }

  /**
   * Collecting fails exactly when some derived entry names a paradigm the
   * database lacks, and then with KeyError.
   */
  lemma {:induction false} ProductiveErrors(vocab: OMap<string, string>, ps: OMap<string, ParData>)
    ensures Productive(vocab, ps).Err? <==> exists k | 0 <= k < |vocab| :: Derived(vocab[k]) && vocab[k].1 !in Keys(ps)
    ensures Productive(vocab, ps).Err? ==> Productive(vocab, ps).error == KeyError
  {
    if vocab != [] {
      var prefix := vocab[..|vocab| - 1];
      ProductiveErrors(prefix, ps);
      var entry := vocab[|vocab| - 1];
      assert forall k | 0 <= k < |prefix| :: prefix[k] == vocab[k];
      var pr := Productive(prefix, ps);
      if pr.Ok? && entry.1 in Keys(pr.value) && Derived(entry) {
        ProductiveContents(prefix, ps);
        var j :| 0 <= j < |pr.value| && pr.value[j].0 == entry.1;
        assert Get(ps, pr.value[j].0).Some?;
      }
    }
  }

  /**
   * When collecting succeeds, no paradigm is collected twice and each
   * carries the database's data for it.
   */
  lemma {:induction false} ProductiveContents(vocab: OMap<string, string>, ps: OMap<string, ParData>)
    ensures var r := Productive(vocab, ps);
      r.Ok? ==> Distinct(r.value) && forall j | 0 <= j < |r.value| :: Get(ps, r.value[j].0) == Some(r.value[j].1)
  {
    if vocab != [] {
      var prefix := vocab[..|vocab| - 1];
      ProductiveContents(prefix, ps);
      var pr := Productive(prefix, ps);
      var entry := vocab[|vocab| - 1];
      if pr.Ok? && entry.1 !in Keys(pr.value) && Derived(entry) && entry.1 in Keys(ps) {
        var found := pr.value;
        var d := Get(ps, entry.1).value;
        PutDistinct(found, entry.1, d);
        IndexOfKeys(found, entry.1);
        assert Put(found, entry.1, d) == found + [(entry.1, d)];
      }
    }
  }

  /** When collecting succeeds, a paradigm is collected exactly when some derived entry names it. */
  lemma {:induction false} ProductiveKeys(vocab: OMap<string, string>, ps: OMap<string, ParData>)
    ensures var r := Productive(vocab, ps);
      r.Ok? ==> forall p :: p in Keys(r.value) <==> exists k | 0 <= k < |vocab| :: Derived(vocab[k]) && vocab[k].1 == p
  {
    if vocab != [] {
      var prefix := vocab[..|vocab| - 1];
      ProductiveKeys(prefix, ps);
      assert forall k | 0 <= k < |prefix| :: prefix[k] == vocab[k];
      var pr := Productive(prefix, ps);
      var entry := vocab[|vocab| - 1];
      if pr.Ok? && entry.1 !in Keys(pr.value) && Derived(entry) && entry.1 in Keys(ps) {
        PutKeys(pr.value, entry.1, Get(ps, entry.1).value);
      }
    }
  }

  /** Whether `word` is `root` followed by one of the affixes. */
  method SpellsWithAffix(word: string, root: string, affixes: OMap<string, seq<string>>) returns (hit: bool)
    ensures hit <==> exists j | 0 <= j < |affixes| :: word == root + affixes[j].0
  {
    for j := 0 to |affixes|
      invariant forall j' | 0 <= j' < j :: word != root + affixes[j'].0
    {
      if word == root + affixes[j].0 {
        return true;
      }
    }
    return false;
  }

  /** A word that does not start with `root` is not `root` followed by an affix. */
  lemma AffixesExtendRoot(word: string, root: string, affixes: OMap<string, seq<string>>)
    ensures !StartsWith(word, root) ==> forall j | 0 <= j < |affixes| :: word != root + affixes[j].0
  {
  }

  // ---------------------------------------------------------------------
  // The database object

  class MorphDatabase {
    var vocab: OMap<string, string>
    var paradigms: OMap<string, ParData>

    /** Both tables are Python dicts: no key is stored twice. */
    predicate Valid()
      reads this
    {
      Distinct(vocab) && Distinct(paradigms)
    }

    /**
     * A database over the affix tables the paradigm file yields and the
     * dictionary's vocabulary; no paradigm has a common suffix or a spread yet.
     */
    constructor (tables: OMap<string, OMap<string, seq<string>>>, vocabulary: OMap<string, string>)
      requires Distinct(tables) && Distinct(vocabulary)
      ensures Valid()
      ensures vocab == vocabulary
      ensures Keys(paradigms) == Keys(tables)
      ensures forall i | 0 <= i < |tables| :: paradigms[i].1 == ParData(tables[i].1, "", [])
    {
      vocab := vocabulary;
      paradigms := seq(|tables|, i requires 0 <= i < |tables| => (tables[i].0, ParData(tables[i].1, "", [])));
    }

    /**
     * Gives each paradigm, in order, its common suffix cut from the name
     * at its first affix; a paradigm without affixes raises IndexError and
     * leaves it and the paradigms after it as they were.
     */
    method ParadigmSuffixes() returns (err: Option<Raised>)
      requires Valid()
      modifies this
      ensures Valid() && vocab == old(vocab)
      ensures paradigms == SuffixesAssigned(old(paradigms))
      ensures err.None? <==> forall i | 0 <= i < |paradigms| :: paradigms[i].1.affixes != []
      ensures err.Some? ==> err == Some(IndexError)
    {
      ghost var start := paradigms;
      var i := 0;
      while i < |paradigms|
        invariant 0 <= i <= |paradigms| == |start|
        invariant vocab == old(vocab)
        invariant forall j | 0 <= j < |start| :: paradigms[j].0 == start[j].0 && paradigms[j].1.affixes == start[j].1.affixes
        invariant forall j | 0 <= j < i :: start[j].1.affixes != []
        invariant forall j | 0 <= j < |start| :: paradigms[j] == (if j < i then SuffixesAssigned(start)[j] else start[j])
        invariant i <= LeadingWithAffixes(start)
      {
        var entry := paradigms[i];
        if entry.1.affixes == [] {
          assert LeadingWithAffixes(start) == i;
          assert paradigms == SuffixesAssigned(start);
          DistinctSameKeys(start, paradigms);
          return Some(IndexError);
        }
        var s := SuffixOf(entry.0, FirstAffix(entry.1.affixes));
        SuffixAssignedStep(start, paradigms, i);
        paradigms := paradigms[i := (entry.0, entry.1.(suffix := s))];
        i := i + 1;
      }
      assert paradigms == SuffixesAssigned(start);
      DistinctSameKeys(start, paradigms);
      return None;
    }

    /**
     * `word_root`: the lemma without as many trailing characters as the
     * paradigm's common suffix (its text before the first "_") has; the
     * lemma itself when that is empty. KeyError for an unknown paradigm.
     */
    function WordRoot(headword: string, paradigm: string): (r: Result<string>)
      reads this
      ensures r.Err? <==> paradigm !in Keys(paradigms)
      ensures r.Err? ==> r.error == KeyError
      ensures r.Ok? ==> StartsWith(headword, r.value)
      ensures r.Ok? ==>
        var common := Split(Get(paradigms, paradigm).value.suffix, "_")[0];
        (common == [] ==> r.value == headword)
        && (common != [] ==> |r.value| == if |common| <= |headword| then |headword| - |common| else 0)
        && (EndsWith(headword, common) ==> r.value + common == headword)
    {
      match Get(paradigms, paradigm)
      case None => Err(KeyError)
      case Some(d) =>
        var common := Split(d.suffix, "_")[0];
        if common == [] then Ok(headword) else Ok(SliceTo(headword, -|common|))
    }

    /** The affix table of a known paradigm. */
    function AffixesOf(paradigm: string): OMap<string, seq<string>>
      reads this
      requires paradigm in Keys(paradigms)
    {
      Get(paradigms, paradigm).value.affixes
    }

    /**
     * `lemma_forms`: the root followed by each affix of the paradigm; at
     * most as many forms as affixes. KeyError for an unknown paradigm.
     */
    method LemmaForms(headword: string, paradigm: string) returns (r: Result<set<string>>)
      ensures r.Err? <==> paradigm !in Keys(paradigms)
      ensures r.Err? ==> r.error == KeyError
      ensures r.Ok? ==> r.value == set a | a in Keys(AffixesOf(paradigm)) :: WordRoot(headword, paradigm).value + a
      ensures r.Ok? ==> |r.value| <= |AffixesOf(paradigm)|
    {
      var root := WordRoot(headword, paradigm);
      if root.Err? {
        return Err(KeyError);
      }
      var affixes := Get(paradigms, paradigm).value.affixes;
      var forms: set<string> := {};
      for i := 0 to |affixes|
        invariant forms == set a | a in Keys(affixes)[..i] :: root.value + a
        invariant |forms| <= i
      {
        assert Keys(affixes)[..i + 1] == Keys(affixes)[..i] + [affixes[i].0];
        forms := forms + {root.value + affixes[i].0};
      }
      assert Keys(affixes)[..|affixes|] == Keys(affixes);
      return Ok(forms);
    }

    /** The root `form_present` takes for paradigm `i`: its name without the common suffix, lower-cased. */
    function NameRoot(i: nat): string
      reads this
      requires i < |paradigms|
    {
      Lower(SliceTo(paradigms[i].0, |paradigms[i].0| - |paradigms[i].1.suffix|))
    }

    /** Some paradigm's name root followed by one of its affixes spells `word`. */
    predicate ParadigmHit(word: string)
      reads this
    {
      exists i, j | 0 <= i < |paradigms| && 0 <= j < |paradigms[i].1.affixes| ::
        word == NameRoot(i) + paradigms[i].1.affixes[j].0
    }

    /**
     * The vocabulary scan of `form_present` from entry `k` on: the first
     * entry whose lower-cased lemma yields `word` answers true; an entry
     * with an unknown paradigm raises KeyError first.
     */
    function VocabHit(k: nat, word: string): Result<bool>
      reads this
      decreases |vocab| - k
    {
      if k >= |vocab| then Ok(false)
      else
        var root := WordRoot(Lower(vocab[k].0), vocab[k].1);
        if root.Err? then Err(KeyError)
        else if exists a | a in Keys(AffixesOf(vocab[k].1)) :: word == root.value + a then Ok(true)
        else VocabHit(k + 1, word)
    }

    /**
     * `form_present`: true when a paradigm name's root and an affix spell
     * the word, or else when some vocabulary lemma's forms include it.
     */
    method FormPresent(word: string) returns (r: Result<bool>)
      ensures r == if ParadigmHit(word) then Ok(true) else VocabHit(0, word)
    {
      for i := 0 to |paradigms|
        invariant forall i', j | 0 <= i' < i && 0 <= j < |paradigms[i'].1.affixes| ::
          word != NameRoot(i') + paradigms[i'].1.affixes[j].0
      {
        AffixesExtendRoot(word, NameRoot(i), paradigms[i].1.affixes);
        var root := Lower(SliceTo(paradigms[i].0, |paradigms[i].0| - |paradigms[i].1.suffix|));
        if !StartsWith(word, root) {
          continue;
        }
        var hit := SpellsWithAffix(word, root, paradigms[i].1.affixes);
        if hit {
          return Ok(true);
        }
      }
      for k := 0 to |vocab|
        invariant VocabHit(0, word) == VocabHit(k, word)
      {
        var forms := LemmaForms(Lower(vocab[k].0), vocab[k].1);
        if forms.Err? {
          return Err(KeyError);
        }
        if word in forms.value {
          return Ok(true);
        }
      }
      return Ok(false);
    }

    /**
     * `productive_paradigms`: each paradigm a derived vocabulary entry
     * names, with its data, once, in the order first named; KeyError when a
     * derived entry names an unknown paradigm (see `ProductiveErrors` and
     * `ProductiveContents`).
     */
    method ProductiveParadigms() returns (r: Result<OMap<string, ParData>>)
      ensures r == Productive(vocab, paradigms)
      ensures r.Err? <==> exists k | 0 <= k < |vocab| :: Derived(vocab[k]) && vocab[k].1 !in Keys(paradigms)
      ensures r.Ok? ==> Distinct(r.value)
    {
      var found: OMap<string, ParData> := [];
      for k := 0 to |vocab|
        invariant Productive(vocab[..k], paradigms) == Ok(found)
      {
        assert vocab[..k + 1][..k] == vocab[..k];
        var entry := vocab[k];
        if entry.1 in Keys(found) || Split(entry.0, "_")[0] == Split(entry.1, "_")[0] {
          continue;
        }
        var data := Get(paradigms, entry.1);
        if data.None? {
          ProductiveErrSticks(vocab, paradigms, k + 1);
          ProductiveErrors(vocab, paradigms);
          return Err(KeyError);
        }
        found := Put(found, entry.1, data.value);
      }
      assert vocab[..|vocab|] == vocab;
      ProductiveErrors(vocab, paradigms);
      ProductiveContents(vocab, paradigms);
      return Ok(found);
    }

    /**
     * `form_spread`: every paradigm's spread is reset to 0.0 for each of its
     * affixes, then each frequency row overwrites one entry; a row with too
     * few fields raises IndexError and leaves the rows before it applied.
     */
    method FormSpread(rows: seq<string>) returns (err: Option<Raised>)
      requires Valid()
      modifies this
      ensures Valid() && vocab == old(vocab)
      ensures paradigms == SpreadRows(ResetSpread(old(paradigms)), rows).state
      ensures err == SpreadRows(ResetSpread(old(paradigms)), rows).error
    {
      var reset: OMap<string, ParData> := [];
      for i := 0 to |paradigms|
        invariant |reset| == i
        invariant forall j | 0 <= j < i :: reset[j] == ResetSpread(paradigms)[j]
      {
        reset := reset + [(paradigms[i].0, paradigms[i].1.(spread := InitialSpread(paradigms[i].1.affixes)))];
      }
      assert reset == ResetSpread(paradigms);
      ResetKeepsDistinct(paradigms, rows);
      paradigms := reset;
      err := None;
      var r := 0;
      while r < |rows|
        invariant r <= |rows| && vocab == old(vocab)
        invariant SpreadRows(reset, rows[..r]) == Outcome(paradigms, err)
        invariant err.Some? ==> SpreadRows(reset, rows) == Outcome(paradigms, err)
      {
        assert rows[..r + 1][..r] == rows[..r];
        var next := SpreadRow(paradigms, rows[r]);
        if next.Err? {
          err := Some(next.error);
          ApplyRowsErrSticks(reset, rows, SpreadRow, r + 1);
          break;
        }
        paradigms := next.value;
        r := r + 1;
      }
      assert rows[..|rows|] == rows;
    }
  }

  /** Resetting spreads and applying rows never stores a paradigm name twice. */
  lemma ResetKeepsDistinct(ps: OMap<string, ParData>, rows: seq<string>)
    requires Distinct(ps)
    ensures Distinct(SpreadRows(ResetSpread(ps), rows).state)
  {
    SpreadRowsShape(ResetSpread(ps), rows);
    DistinctSameKeys(ps, SpreadRows(ResetSpread(ps), rows).state);
  }

  /** Two tables with the same names in the same order are both free of repeats or neither is. */
  lemma DistinctSameKeys(a: OMap<string, ParData>, b: OMap<string, ParData>)
    requires |a| == |b| && forall i | 0 <= i < |a| :: a[i].0 == b[i].0
    ensures Distinct(a) <==> Distinct(b)
  {
  }
}
