/**
 * The top-n evaluation of a guess log: for each entry (a line naming the
 * true paradigm, then a line of comma-separated guesses) and each i below
 * n, whether the paradigm is among the first i+1 guesses.
 */
module EvalLogs {
  import opened Text

  /** The last ":" field of the stripped line: the entry's true paradigm. */
  function ParadigmOf(line: string): string
  {
    var fields := Split(Strip(line), ":");
    fields[|fields| - 1]
  }

  /** `xs.remove(x)` when `x` is present: only its first occurrence goes. */
  function RemoveFirst<T(==)>(xs: seq<T>, x: T): seq<T>
  {
    if xs == [] then []
    else if xs[0] == x then xs[1..]
    else [xs[0]] + RemoveFirst(xs[1..], x)
  }

  /** Where `x` first occurs in `xs`, or `|xs|`. */
  function FirstIndex<T(==)>(xs: seq<T>, x: T): (k: nat)
    ensures k <= |xs|
    ensures k < |xs| ==> xs[k] == x
    ensures forall j | 0 <= j < k :: xs[j] != x
  {
    if xs == [] then 0
    else if xs[0] == x then 0
    else 1 + FirstIndex(xs[1..], x)
  }

  /** Removing `x` drops exactly its first occurrence, and nothing when it is absent. */
  lemma {:induction false} RemoveFirstDrops<T>(xs: seq<T>, x: T)
    ensures var k := FirstIndex(xs, x);
      RemoveFirst(xs, x) == if k < |xs| then xs[..k] + xs[k + 1..] else xs
  {
    if xs != [] && xs[0] != x {
      var tail := xs[1..];
      RemoveFirstDrops(tail, x);
      var k := FirstIndex(tail, x);
      assert FirstIndex(xs, x) == k + 1;
      assert RemoveFirst(xs, x) == [xs[0]] + RemoveFirst(tail, x);
      if k < |tail| {
        calc {
          RemoveFirst(xs, x);
          [xs[0]] + (tail[..k] + tail[k + 1..]);
          { assert [xs[0]] + tail[..k] == xs[..k + 1]; assert tail[k + 1..] == xs[k + 2..]; }
          xs[..k + 1] + xs[k + 2..];
        }
      } else {
        assert xs == [xs[0]] + tail;
      }
    }
  }

  /** At most `top` of the first guesses: the padding guarantees at least `top` entries when `top` >= 0. */
  function Padding(n: int, top: int): string
  {
    Repeat('_', if top - n > 0 then top - n else 0)
  }

  /** The guesses of an entry: the ", " fields of the stripped line, the first "" removed, then one padding entry. */
  function GuessesOf(next: string, top: int): (g: seq<string>)
    ensures |g| >= 1
  {
    var split := RemoveFirst(Split(Strip(next), ", "), "");
    split + [Padding(|split|, top)]
  }

  /** `guesses[:n]` */
  function Prefix(guesses: seq<string>, n: nat): seq<string>
  {
    if n <= |guesses| then guesses[..n] else guesses
  }

  /** The paradigm is among the first i+1 guesses. */
  predicate HitAt(paradigm: string, guesses: seq<string>, i: nat)
  {
    paradigm in Prefix(guesses, i + 1)
  }

  /** A longer prefix holds every guess a shorter one does. */
  lemma PrefixGrows(guesses: seq<string>, m: nat, n: nat, p: string)
    requires m <= n && p in Prefix(guesses, m)
    ensures p in Prefix(guesses, n)
  {
    var k :| 0 <= k < |Prefix(guesses, m)| && Prefix(guesses, m)[k] == p;
    assert Prefix(guesses, n)[k] == p;
  }

  /** What one entry adds to the counters: 1 at each i whose first i+1 guesses hold the paradigm. */
  function EntryHits(paradigm: string, guesses: seq<string>, top: int): (h: seq<int>)
    ensures |h| == if top > 0 then top else 0
    ensures forall i | 0 <= i < |h| :: h[i] == if HitAt(paradigm, guesses, i) then 1 else 0
  {
    seq(if top > 0 then top else 0, i requires 0 <= i => if HitAt(paradigm, guesses, i) then 1 else 0)
  }

  /** The counters `top_n_check` returns. */
  datatype TopN = TopN(correct: seq<int>, entries: int, guessCount: int)

  function Zeros(top: int): (z: seq<int>)
    ensures |z| == if top > 0 then top else 0
    ensures forall i | 0 <= i < |z| :: z[i] == 0
  {
    seq(if top > 0 then top else 0, _ => 0)
  }

  /** Counters added pointwise. */
  function AddSeq(a: seq<int>, b: seq<int>): (r: seq<int>)
    requires |a| == |b|
    ensures |r| == |a| && forall i | 0 <= i < |r| :: r[i] == a[i] + b[i]
  {
    seq(|a|, i requires 0 <= i < |a| => a[i] + b[i])
  }

  function Plus(a: TopN, b: TopN): TopN
    requires |a.correct| == |b.correct|
  {
    TopN(AddSeq(a.correct, b.correct), a.entries + b.entries, a.guessCount + b.guessCount)
  }

  /** What one entry contributes, read from its paradigm line and its guess line. */
  function EntryStats(line: string, next: string, top: int): (e: TopN)
    ensures |e.correct| == if top > 0 then top else 0
  {
    var guesses := GuessesOf(next, top);
    TopN(EntryHits(ParadigmOf(line), guesses, top), 1, |guesses|)
  }

  /**
   * The counters from line `at` on, each entry (a line and the next) counted
   * by `entry`; the log ends at the first empty read.
   */
  function TopNWith(lines: seq<string>, at: nat, top: int, entry: (string, string) -> TopN): (r: TopN)
    requires forall line, next :: |entry(line, next).correct| == if top > 0 then top else 0
    ensures |r.correct| == if top > 0 then top else 0
    decreases |lines| - at
  {
    if ReadLine(lines, at) == "" then TopN(Zeros(top), 0, 0)
    else Plus(entry(ReadLine(lines, at), ReadLine(lines, at + 1)), TopNWith(lines, at + 2, top, entry))
  }

  /** The counters of `top_n_check` from line `at` on. */
  function TopNFrom(lines: seq<string>, at: nat, top: int): TopN
  {
    TopNWith(lines, at, top, (line, next) => EntryStats(line, next, top))
  }

  /** Each counter is 0 or 1 for one entry, and never less at a larger i. */
  lemma EntryHitsMonotone(paradigm: string, guesses: seq<string>, top: int, i: nat, j: nat)
    requires i <= j < |EntryHits(paradigm, guesses, top)|
    ensures 0 <= EntryHits(paradigm, guesses, top)[i] <= EntryHits(paradigm, guesses, top)[j] <= 1
  {
    if HitAt(paradigm, guesses, i) {
      PrefixGrows(guesses, i + 1, j + 1, paradigm);
    }
  }

  /** An entry counter: each entry counts once, and its counters are 0 or 1 and never less at a larger i. */
  ghost predicate MonotoneEntries(entry: (string, string) -> TopN)
  {
    forall line, next, i, j | 0 <= i <= j < |entry(line, next).correct| ::
      entry(line, next).entries == 1 && 0 <= entry(line, next).correct[i] <= entry(line, next).correct[j] <= 1
  }

  /**
   * The counters of `top_n_check` never fall as i grows, and none exceeds
   * the number of entries: correct[i] <= correct[j] <= entries for i <= j.
   */
  lemma CountersMonotone(lines: seq<string>, at: nat, top: int, i: nat, j: nat)
    requires i <= j < |TopNFrom(lines, at, top).correct|
    ensures var r := TopNFrom(lines, at, top);
      0 <= r.correct[i] <= r.correct[j] <= r.entries
  {
    var entry := (line, next) => EntryStats(line, next, top);
    forall line, next, x, y | 0 <= x <= y < |entry(line, next).correct|
      ensures entry(line, next).entries == 1 && 0 <= entry(line, next).correct[x] <= entry(line, next).correct[y] <= 1
    {
      EntryStatsMonotone(line, next, top, x, y);
    }
    CountersMonotoneWith(lines, at, top, entry, i, j);
  }

  lemma {:induction false} CountersMonotoneWith(lines: seq<string>, at: nat, top: int, entry: (string, string) -> TopN, i: nat, j: nat)
    requires forall line, next :: |entry(line, next).correct| == if top > 0 then top else 0
    requires MonotoneEntries(entry)
    requires i <= j < |TopNWith(lines, at, top, entry).correct|
    ensures var r := TopNWith(lines, at, top, entry);
      0 <= r.correct[i] <= r.correct[j] <= r.entries
    decreases |lines| - at
  {
    if ReadLine(lines, at) != "" {
      var e := entry(ReadLine(lines, at), ReadLine(lines, at + 1));
      var rest := TopNWith(lines, at + 2, top, entry);
      CountersMonotoneWith(lines, at + 2, top, entry, i, j);
      PlusAt(e, rest, i);
      PlusAt(e, rest, j);
    }
  }

  /** One entry counts itself once, and its counters are 0 or 1, never less at a larger i. */
  lemma EntryStatsMonotone(line: string, next: string, top: int, i: nat, j: nat)
    requires i <= j < |EntryStats(line, next, top).correct|
    ensures var e := EntryStats(line, next, top);
      e.entries == 1 && 0 <= e.correct[i] <= e.correct[j] <= 1
  {
    EntryHitsMonotone(ParadigmOf(line), GuessesOf(next, top), top, i, j);
  }

  lemma PlusAt(a: TopN, b: TopN, i: nat)
    requires |a.correct| == |b.correct| && i < |a.correct|
    ensures Plus(a, b).correct[i] == a.correct[i] + b.correct[i] && Plus(a, b).entries == a.entries + b.entries
  {
  }

  /** Each entry's guesses count those left after removing the first "" plus the one padding entry. */
  lemma GuessCountOfEntry(line: string, next: string, top: int)
    ensures EntryStats(line, next, top).guessCount == |RemoveFirst(Split(Strip(next), ", "), "")| + 1
    ensures EntryStats(line, next, top).entries == 1
  {
  }

  lemma PlusZero(a: TopN, top: int)
    requires |a.correct| == if top > 0 then top else 0
    ensures Plus(a, TopN(Zeros(top), 0, 0)) == a
  {
  }

  lemma ZeroPlus(a: TopN, top: int)
    requires |a.correct| == if top > 0 then top else 0
    ensures Plus(TopN(Zeros(top), 0, 0), a) == a
  {
  }

  /** One entry read: its counters added to those of the rest of the log. */
  lemma TopNStep(lines: seq<string>, at: nat, top: int)
    requires ReadLine(lines, at) != ""
    ensures TopNFrom(lines, at, top) == Plus(EntryStats(ReadLine(lines, at), ReadLine(lines, at + 1), top), TopNFrom(lines, at + 2, top))
  {
  }

  /** The parsing of one entry in `top_n_check`'s loop. */
  method ReadEntry(line: string, next: string, top: int) returns (paradigm: string, guesses: seq<string>)
    ensures paradigm == ParadigmOf(line) && guesses == GuessesOf(next, top)
  {
    paradigm := ParadigmOf(line);
    var split := Split(Strip(next), ", ");
    if "" in split {
      split := RemoveFirst(split, "");
    } else {
      RemoveFirstDrops(split, "");
    }
    guesses := split + [Padding(|split|, top)];
  }

  lemma PlusAssoc(a: TopN, b: TopN, c: TopN)
    requires |a.correct| == |b.correct| == |c.correct|
    ensures Plus(Plus(a, b), c) == Plus(a, Plus(b, c))
  {
  }

  /**
   * The inner loop of `top_n_check`: from the last counter down, stop at
   * the first i whose first i+1 guesses lack the paradigm, incrementing the
   * counters passed. Because prefixes only grow with i, this adds exactly
   * the entry's hits.
   */
  method CountHits(correct: array<int>, paradigm: string, guesses: seq<string>, top: int)
    requires correct.Length == if top > 0 then top else 0
    modifies correct
    ensures correct[..] == AddSeq(old(correct[..]), EntryHits(paradigm, guesses, top))
  {
    var i := correct.Length - 1;
    while i >= 0
      invariant -1 <= i < correct.Length
      invariant forall k | 0 <= k <= i :: correct[k] == old(correct[k])
      invariant forall k | i < k < correct.Length :: correct[k] == old(correct[k]) + 1 && HitAt(paradigm, guesses, k)
    {
      if paradigm !in Prefix(guesses, i + 1) {
        forall k | 0 <= k <= i
          ensures !HitAt(paradigm, guesses, k)
        {
          if HitAt(paradigm, guesses, k) {
            PrefixGrows(guesses, k + 1, i + 1, paradigm);
          }
        }
        break;
      }
      correct[i] := correct[i] + 1;
      i := i - 1;
    }
  }

  /** One pass of `top_n_check`'s loop: parse an entry and add it to the counters. */
  method AddEntry(counters: array<int>, entries: int, guessCount: int, line: string, next: string, top: int)
    returns (entries': int, guessCount': int)
    requires counters.Length == if top > 0 then top else 0
    modifies counters
    ensures TopN(counters[..], entries', guessCount') == Plus(TopN(old(counters[..]), entries, guessCount), EntryStats(line, next, top))
  {
    entries' := entries + 1;
    var paradigm, guesses := ReadEntry(line, next, top);
    guessCount' := guessCount + |guesses|;
    CountHits(counters, paradigm, guesses, top);
  }

  /** `top_n_check`: the counters for 1 to `top` guesses, the number of entries and the number of guesses read. */
  method TopNCheck(lines: seq<string>, top: int) returns (correct: seq<int>, entries: int, guessCount: int)
    ensures TopN(correct, entries, guessCount) == TopNFrom(lines, 0, top)
  {
    var counters := new int[if top > 0 then top else 0](_ => 0);
    entries, guessCount := 0, 0;
    var at: nat := 0;
    var line := ReadLine(lines, at);
    ghost var total := TopNFrom(lines, 0, top);
    ZeroPlus(total, top);
    assert counters[..] == Zeros(top);
    while line != ""
      invariant line == ReadLine(lines, at) && counters.Length == if top > 0 then top else 0
      invariant total == Plus(TopN(counters[..], entries, guessCount), TopNFrom(lines, at, top))
      decreases |lines| - at
    {
      ghost var before := TopN(counters[..], entries, guessCount);
      TopNStep(lines, at, top);
      ghost var e := EntryStats(line, ReadLine(lines, at + 1), top);
      entries, guessCount := AddEntry(counters, entries, guessCount, line, ReadLine(lines, at + 1), top);
      PlusAssoc(before, e, TopNFrom(lines, at + 2, top));
      at := at + 2;
      line := ReadLine(lines, at);
    }
    PlusZero(TopN(counters[..], entries, guessCount), top);
    correct := counters[..];
  }
}
