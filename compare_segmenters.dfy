/**
 * The segmenter comparison's own counting: the bounded cache of common
 * lemma suffixes, the top-n success count over a guess log, and the
 * weighting of suffix scores by suffix length.
 */
module CompareSegmenters {
  import opened Wrappers
  import opened Text
  import opened OrderedMaps
  import opened SortedLists

  // ---------------------------------------------------------------------
  // Most common suffixes

  /** The lemma of a vocabulary line: the text before its first ":". */
  function LineLemma(line: string): string
  {
    Split(line, ":")[0]
  }

  /** The suffixes of a lemma, one per starting index, longest first. */
  function Suffixes(headword: string): (r: seq<string>)
    ensures |r| == |headword|
    ensures forall i | 0 <= i < |r| :: |r[i]| == |headword| - i && r[i] != [] && EndsWith(headword, r[i])
  {
    seq(|headword|, i requires 0 <= i < |headword| => headword[i..])
  }

  /** The suffixes the cache sees, line after line. */
  function AllSuffixes(lines: seq<string>): (r: seq<string>)
  {
    if lines == [] then []
    else AllSuffixes(lines[..|lines| - 1]) + Suffixes(LineLemma(lines[|lines| - 1]))
  }

  /** The number of characters in the lemmas of `lines`. */
  function LemmaLetters(lines: seq<string>): nat
  {
    if lines == [] then 0
    else LemmaLetters(lines[..|lines| - 1]) + |LineLemma(lines[|lines| - 1])|
  }

  /** Each lemma contributes as many suffixes as it has characters, and none is empty. */
  lemma {:induction false} AllSuffixesCount(lines: seq<string>)
    ensures |AllSuffixes(lines)| == LemmaLetters(lines)
    ensures forall w | w in AllSuffixes(lines) :: w != []
  {
    if lines != [] {
      AllSuffixesCount(lines[..|lines| - 1]);
      var ws := Suffixes(LineLemma(lines[|lines| - 1]));
      assert forall w | w in ws :: w != [];
    }
  }

  /** The cache holds at most this many suffixes. */
  function Capacity(size: int): int
  {
    100 * size
  }

  /**
   * One suffix through the cache: a known suffix has its count raised; an
   * unknown one is added with count 1, after a `pop` when the cache is at
   * capacity.
   */
  function CacheStep(s: ListState, suffix: string, size: int): (r: (ListState, Status))
    requires Linked(s)
    ensures Linked(r.0)
  {
    match ScanRight(s.cells, s.first, suffix, |s.cells|)
    case Stuck => (s, Hang)
    case Found(_) => IncreaseSpec(s, suffix)
    case NotFound =>
      if s.length >= Capacity(size) then
        var popped := PopSpec(s);
        if popped.1 != Done then popped else AddSpec(popped.0, suffix, 1)
      else AddSpec(s, suffix, 1)
  }

  /** The cache after the suffixes `ws`, stopping at the first failure. */
  function CacheAll(s: ListState, ws: seq<string>, size: int): (r: (ListState, Status))
    requires Linked(s)
    ensures Linked(r.0)
  {
    if ws == [] then (s, Done)
    else
      var before := CacheAll(s, ws[..|ws| - 1], size);
      if before.1 != Done then before else CacheStep(before.0, ws[|ws| - 1], size)
  }

  /** A failure ends the run: later suffixes change nothing. */
  lemma {:induction false} CacheAllSticks(s: ListState, ws: seq<string>, more: seq<string>, size: int)
    requires Linked(s) && CacheAll(s, ws, size).1 != Done
    ensures CacheAll(s, ws + more, size) == CacheAll(s, ws, size)
    decreases |more|
  {
    if more != [] {
      var init := more[..|more| - 1];
      CacheAllSticks(s, ws, init, size);
      assert (ws + more)[..|ws + more| - 1] == ws + init;
      assert CacheAll(s, ws + more, size) == CacheAll(s, ws + init, size);
    } else {
      assert ws + more == ws;
    }
  }

  /** A failure part-way through decides the whole run. */
  lemma CacheAllStopsAt(s: ListState, ws: seq<string>, all: seq<string>, size: int)
    requires Linked(s) && ws <= all && CacheAll(s, ws, size).1 != Done
    ensures CacheAll(s, all, size) == CacheAll(s, ws, size)
  {
    CacheAllSticks(s, ws, all[|ws|..], size);
    assert ws + all[|ws|..] == all;
  }

  const EmptyList := ListState([], NIL, NIL, 0)

  /** The largest length the cache can reach with capacity `Capacity(size)`. */
  function LengthBound(size: int): int
  {
    if Capacity(size) < 1 then 1 else Capacity(size)
  }

  /**
   * The cache never holds more than `100 * size` suffixes (one, when that
   * is not positive), whatever happens to its links: a new suffix is added
   * only below capacity or right after a `pop`.
   */
  lemma {:induction false} CacheLengthBound(ws: seq<string>, size: int)
    ensures 0 <= CacheAll(EmptyList, ws, size).0.length <= LengthBound(size)
  {
    if ws != [] {
      CacheLengthBound(ws[..|ws| - 1], size);
    }
  }

  /** `most_common_suffixes`: the first `size` names of the cache, or how the run failed. */
  function MostCommonSpec(lines: seq<string>, size: int): (Status, set<string>)
  {
    var run := CacheAll(EmptyList, AllSuffixes(lines), size);
    var t := run.0;
    if run.1 != Done then (run.1, {})
    else
      match Take(t.cells, t.first, if t.length < size then t.length else size)
      case Ok(names) => (Done, names)
      case Err(e) => (Raise(e), {})
  }

  /** Reading one more line extends the suffixes by that line's lemma's suffixes. */
  lemma AllSuffixesSnoc(lines: seq<string>, i: nat)
    requires i < |lines|
    ensures AllSuffixes(lines[..i + 1]) == AllSuffixes(lines[..i]) + Suffixes(LineLemma(lines[i]))
  {
    assert lines[..i + 1][..i] == lines[..i];
  }

  /** One more suffix of the current lemma. */
  lemma CacheAllSnoc(s: ListState, ws: seq<string>, w: string, size: int)
    requires Linked(s) && CacheAll(s, ws, size).1 == Done
    ensures CacheAll(s, ws + [w], size) == CacheStep(CacheAll(s, ws, size).0, w, size)
  {
    assert (ws + [w])[..|ws + [w]| - 1] == ws;
  }

  /** One pass of the inner loop of `most_common_suffixes` on `cache`. */
  method Feed(cache: SortedList, suffix: string, size: int) returns (st: Status)
    requires cache.Valid()
    modifies cache
    ensures cache.Valid()
    ensures (cache.State(), st) == CacheStep(old(cache.State()), suffix, size)
  {
    var scan := cache.Find(suffix);
    match scan {
      case Stuck =>
        st := Hang;
      case Found(_) =>
        st := cache.IncreaseValue(suffix);
      case NotFound =>
        st := Done;
        if cache.length >= Capacity(size) {
          st := cache.Pop();
        }
        if st == Done {
          st := cache.Add(suffix, 1);
        }
    }
  }

  /** The suffixes of the first `i` lines are a prefix of all of them. */
  lemma {:induction false} AllSuffixesPrefix(lines: seq<string>, i: nat)
    requires i <= |lines|
    ensures AllSuffixes(lines[..i]) <= AllSuffixes(lines)
    decreases |lines| - i
  {
    if i < |lines| {
      AllSuffixesPrefix(lines, i + 1);
      AllSuffixesSnoc(lines, i);
    } else {
      assert lines[..i] == lines;
    }
  }

  /** Running over `a + b` is running over `a`, then, if that succeeded, over `b`. */
  lemma {:induction false} CacheAllAppend(s: ListState, a: seq<string>, b: seq<string>, size: int)
    requires Linked(s)
    ensures var mid := CacheAll(s, a, size);
      CacheAll(s, a + b, size) == if mid.1 != Done then mid else CacheAll(mid.0, b, size)
    decreases |b|
  {
    if b == [] {
      assert a + b == a;
    } else if CacheAll(s, a, size).1 != Done {
      CacheAllSticks(s, a, b, size);
    } else {
      var init := b[..|b| - 1];
      CacheAllAppend(s, a, init, size);
      assert (a + b)[..|a + b| - 1] == a + init;
    }
  }

  /** The inner loop of `most_common_suffixes`: every suffix of one lemma, stopping at a failure. */
  method FeedAll(cache: SortedList, suffixes: seq<string>, size: int) returns (st: Status)
    requires cache.Valid()
    modifies cache
    ensures cache.Valid()
    ensures (cache.State(), st) == CacheAll(old(cache.State()), suffixes, size)
  {
    ghost var start := cache.State();
    var j := 0;
    while j < |suffixes|
      invariant 0 <= j <= |suffixes| && cache.Valid()
      invariant (cache.State(), Done) == CacheAll(start, suffixes[..j], size)
    {
      CacheAllSnoc(start, suffixes[..j], suffixes[j], size);
      assert suffixes[..j + 1] == suffixes[..j] + [suffixes[j]];
      st := Feed(cache, suffixes[j], size);
      if st != Done {
        CacheAllStopsAt(start, suffixes[..j + 1], suffixes, size);
        return;
      }
      j := j + 1;
    }
    assert suffixes[..j] == suffixes;
    st := Done;
  }

  /**
   * `most_common_suffixes`: feed every suffix of every lemma to a fresh
   * cache, then read off its first `size` names.
   */
  method MostCommonSuffixes(lines: seq<string>, size: int) returns (st: Status, top: set<string>)
    ensures (st, top) == MostCommonSpec(lines, size)
  {
    var cache := new SortedList();
    var i := 0;
    ghost var seen: seq<string> := [];
    while i < |lines|
      invariant 0 <= i <= |lines| && cache.Valid()
      invariant seen == AllSuffixes(lines[..i])
      invariant (cache.State(), Done) == CacheAll(EmptyList, seen, size)
    {
      var suffixes := Suffixes(LineLemma(lines[i]));
      var s := FeedAll(cache, suffixes, size);
      CacheAllAppend(EmptyList, seen, suffixes, size);
      AllSuffixesSnoc(lines, i);
      if s != Done {
        AllSuffixesPrefix(lines, i + 1);
        CacheAllStopsAt(EmptyList, seen + suffixes, AllSuffixes(lines), size);
        return s, {};
      }
      seen := seen + suffixes;
      i := i + 1;
    }
    assert lines[..i] == lines;
    var names := cache.FirstN(size);
    match names {
      case Ok(n) => return Done, n;
      case Err(e) => return Raise(e), {};
    }
  }

  // ---------------------------------------------------------------------
  // Evaluation of a guess log

  /** What `evaluate` returns: the correct entries and all entries. */
  datatype Counts = Counts(correct: int, entries: int)

  /**
   * An entry is correct when its paradigm is among all the guesses, if
   * there are fewer than `topN`, or else among the first `topN`.
   */
  predicate Hit(paradigm: string, guesses: seq<string>, topN: int)
  {
    if |guesses| < topN then paradigm in guesses
    else paradigm in SliceTo(guesses, topN)
  }

  /** For a non-negative `topN`, a hit is the paradigm at one of the first `topN` positions. */
  lemma HitFirst(paradigm: string, guesses: seq<string>, topN: int)
    requires topN >= 0
    ensures Hit(paradigm, guesses, topN) <==> exists j | 0 <= j < |guesses| && j < topN :: guesses[j] == paradigm
  {
    if |guesses| >= topN {
      var g := SliceTo(guesses, topN);
      assert forall j | 0 <= j < |g| :: g[j] == guesses[j];
    }
  }

  /**
   * What one entry adds to the correct count: its paradigm is the second
   * ":" field of `line`, its guesses the ", "-separated fields of `next`;
   * `None` when `line` has no second field.
   */
  function EntryScore(line: string, next: string, topN: int): (r: Option<int>)
    ensures r.Some? ==> 0 <= r.value <= 1
  {
    var fields := Split(Strip(line), ":");
    if |fields| < 2 then None
    else Some(if Hit(fields[1], Split(Strip(next), ", "), topN) then 1 else 0)
  }

  /** `(correct, entries)` added to the counts of the rest of the log. */
  function Shifted(r: Result<Counts>, correct: int, entries: int): (s: Result<Counts>)
    ensures r.Ok? && 0 <= correct <= entries && 0 <= r.value.correct <= r.value.entries ==> s.Ok? && 0 <= s.value.correct <= s.value.entries
  {
    match r
    case Ok(v) => Ok(Counts(v.correct + correct, v.entries + entries))
    case Err(e) => Err(e)
  }

  /**
   * The counts `(correct, entries)` from line `i` on, each entry scored by
   * `score` from its two lines; an empty line ends the log, an entry `score`
   * rejects ends it with an `IndexError`.
   */
  function EvalWith(lines: seq<string>, i: nat, score: (string, string) -> Option<int>): Result<Counts>
    decreases |lines| - i
  {
    var line := ReadLine(lines, i);
    if line == "" then Ok(Counts(0, 0))
    else
      match score(line, ReadLine(lines, i + 1))
      case None => Err(IndexError)
      case Some(c) => Shifted(EvalWith(lines, i + 2, score), c, 1)
  }

  /** What `evaluate` computes from line `i` on. */
  function EvalFrom(lines: seq<string>, i: nat, topN: int): Result<Counts>
  {
    EvalWith(lines, i, (line, next) => EntryScore(line, next, topN))
  }

  /** The counts never have more correct entries than entries. */
  lemma {:induction false} EvalBounds(lines: seq<string>, i: nat, topN: int)
    ensures EvalFrom(lines, i, topN).Ok? ==> 0 <= EvalFrom(lines, i, topN).value.correct <= EvalFrom(lines, i, topN).value.entries
    decreases |lines| - i
  {
    var line := ReadLine(lines, i);
    if line != "" {
      var score := EntryScore(line, ReadLine(lines, i + 1), topN);
      if score.Some? {
        EvalBounds(lines, i + 2, topN);
        assert EvalFrom(lines, i, topN) == Shifted(EvalFrom(lines, i + 2, topN), score.value, 1);
      }
    }
  }

  lemma ShiftedNothing(r: Result<Counts>)
    ensures Shifted(r, 0, 0) == r
  {
  }

  lemma ShiftedTwice(r: Result<Counts>, c: int, correct: int, entries: int)
    ensures Shifted(Shifted(r, c, 1), correct, entries) == Shifted(r, correct + c, entries + 1)
  {
  }

  /** `evaluate`'s loop: read the log two lines at a time, scoring each entry by `score`. */
  method EvaluateWith(lines: seq<string>, score: (string, string) -> Option<int>) returns (r: Result<Counts>)
    ensures r == EvalWith(lines, 0, score)
  {
    var correct, entries := 0, 0;
    var at: nat := 0;
    var line := ReadLine(lines, at);
    ghost var total := EvalWith(lines, 0, score);
    ShiftedNothing(total);
    while line != ""
      invariant line == ReadLine(lines, at)
      invariant total == Shifted(EvalWith(lines, at, score), correct, entries)
      decreases |lines| - at
    {
      var s := score(line, ReadLine(lines, at + 1));
      if s.None? {
        return Err(IndexError);
      }
      ShiftedTwice(EvalWith(lines, at + 2, score), s.value, correct, entries);
      entries := entries + 1;
      correct := correct + s.value;
      at := at + 2;
      line := ReadLine(lines, at);
    }
    r := Ok(Counts(correct, entries));
  }

  /** `evaluate`: the correct entries and all entries of the log, or the `IndexError` a malformed entry raises. */
  method Evaluate(lines: seq<string>, topN: int) returns (r: Result<Counts>)
    ensures r == EvalFrom(lines, 0, topN)
  {
    r := EvaluateWith(lines, (line, next) => EntryScore(line, next, topN));
  }

  // ---------------------------------------------------------------------
  // Weighting of suffix scores

  /** Every frequency multiplied by `n`. */
  function WeightedBy(freqs: OMap<string, int>, n: int): (r: OMap<string, int>)
    ensures |r| == |freqs|
    ensures forall j | 0 <= j < |freqs| :: r[j] == (freqs[j].0, freqs[j].1 * n)
  {
    seq(|freqs|, j requires 0 <= j < |freqs| => (freqs[j].0, freqs[j].1 * n))
  }

  /** Every suffix's frequencies multiplied by the suffix's length. */
  function Weighted(score: OMap<string, OMap<string, int>>): (r: OMap<string, OMap<string, int>>)
    ensures |r| == |score|
    ensures forall i | 0 <= i < |score| :: r[i] == (score[i].0, WeightedBy(score[i].1, |score[i].0|))
  {
    seq(|score|, i requires 0 <= i < |score| => (score[i].0, WeightedBy(score[i].1, |score[i].0|)))
  }

  /** Weighting keeps every suffix and paradigm and stores `freq * len(suffix)` under them. */
  lemma WeightedGet(score: OMap<string, OMap<string, int>>, suffix: string, paradigm: string)
    requires Distinct(score) && forall i | 0 <= i < |score| :: Distinct(score[i].1)
    ensures Keys(Weighted(score)) == Keys(score)
    ensures Get(score, suffix).Some? ==>
      var freqs := Get(score, suffix).value;
      Get(Weighted(score), suffix).Some?
      && Keys(Get(Weighted(score), suffix).value) == Keys(freqs)
      && (Get(freqs, paradigm).Some? ==>
            Get(Get(Weighted(score), suffix).value, paradigm) == Some(Get(freqs, paradigm).value * |suffix|))
  {
    var w := Weighted(score);
    assert Keys(w) == Keys(score);
    if Get(score, suffix).Some? {
      var i := IndexOf(score, suffix);
      assert Distinct(w);
      GetAt(score, i);
      GetAt(w, i);
      var freqs := score[i].1;
      var wf := w[i].1;
      assert Keys(wf) == Keys(freqs);
      if Get(freqs, paradigm).Some? {
        var j := IndexOf(freqs, paradigm);
        assert Distinct(wf);
        GetAt(freqs, j);
        GetAt(wf, j);
      }
    }
  }

  /** The inner loop of the weighting: `paradigms[paradigm] = freq * n` for every paradigm. */
  method WeightFreqs(paradigms: OMap<string, int>, n: int) returns (w: OMap<string, int>)
    requires Distinct(paradigms)
    ensures w == WeightedBy(paradigms, n)
  {
    w := paradigms;
    var j := 0;
    while j < |paradigms|
      invariant 0 <= j <= |paradigms| && |w| == |paradigms| && Distinct(w)
      invariant forall k | 0 <= k < j :: w[k] == (paradigms[k].0, paradigms[k].1 * n)
      invariant forall k | j <= k < |paradigms| :: w[k] == paradigms[k]
    {
      PutAt(w, j, paradigms[j].1 * n);
      PutDistinct(w, paradigms[j].0, paradigms[j].1 * n);
      w := Put(w, paradigms[j].0, paradigms[j].1 * n);
      j := j + 1;
    }
  }

  /**
   * The weighting step of `scores`: every suffix's paradigm frequencies are
   * multiplied by the suffix's length, under the same keys.
   */
  method WeightScores(score: OMap<string, OMap<string, int>>) returns (r: OMap<string, OMap<string, int>>)
    requires Distinct(score) && forall i | 0 <= i < |score| :: Distinct(score[i].1)
    ensures r == Weighted(score)
  {
    r := score;
    var i := 0;
    while i < |score|
      invariant 0 <= i <= |score| && |r| == |score| && Distinct(r)
      invariant forall k | 0 <= k < i :: r[k] == Weighted(score)[k]
      invariant forall k | i <= k < |score| :: r[k] == score[k]
    {
      var suffix := r[i].0;
      var weighted := WeightFreqs(r[i].1, |suffix|);
      PutAt(r, i, weighted);
      PutDistinct(r, suffix, weighted);
      r := Put(r, suffix, weighted);
      i := i + 1;
    }
  }
}
