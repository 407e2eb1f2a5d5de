/**
 * Paradigm guessing from a segmented word: the scorer is asked about the
 * suffixes made of the last one, two, ... segments, so that longer matched
 * suffixes can be preferred. The scorer itself is a parameter here.
 */
module Guesser {
  import opened Wrappers
  import opened Text

  /** `["".join(segments[-i:]) for i in range(1, len(segments) + 1)]` */
  function Candidates(segments: seq<string>): seq<string>
  {
    seq(|segments|, k requires 0 <= k < |segments| => Concat(segments[|segments| - (k + 1)..]))
  }

  /** The segments from `j` on, joined, end the joined word. */
  lemma {:induction false} ConcatSuffix(segments: seq<string>, j: nat)
    requires j <= |segments|
    ensures EndsWith(Concat(segments), Concat(segments[j..]))
  {
    if j == 0 {
      assert segments[0..] == segments;
    } else {
      ConcatSuffix(segments, j - 1);
      var longer := Concat(segments[j - 1..]);
      var shorter := Concat(segments[j..]);
      assert segments[j - 1..][1..] == segments[j..];
      assert longer == segments[j - 1] + shorter;
      var word := Concat(segments);
      assert word[|word| - |shorter|..] == longer[|longer| - |shorter|..];
    }
  }

  /** Each next candidate has one more segment in front. */
  lemma CandidateStep(segments: seq<string>, k: nat)
    requires k + 1 < |segments|
    ensures Candidates(segments)[k + 1] == segments[|segments| - k - 2] + Candidates(segments)[k]
  {
    var n := |segments|;
    var longer := segments[n - (k + 2)..];
    assert Candidates(segments)[k + 1] == Concat(longer);
    assert Candidates(segments)[k] == Concat(segments[n - (k + 1)..]);
    assert longer[1..] == segments[n - (k + 1)..];
    assert longer[0] == segments[n - k - 2];
  }

  /** Each candidate ends the word. */
  lemma CandidateEnds(segments: seq<string>, k: nat)
    requires k < |segments|
    ensures EndsWith(Concat(segments), Candidates(segments)[k])
  {
    ConcatSuffix(segments, |segments| - (k + 1));
  }

  lemma EndsWithAppend(front: string, s: string)
    ensures EndsWith(front + s, s)
  {
    assert (front + s)[|front|..] == s;
  }

  /**
   * The candidates: one per segment; each ends the whole word; the first is
   * the last segment, the last is the whole word; and each next one is the
   * previous with one more segment in front, so each ends the next.
   */
  lemma CandidatesAreSuffixes(segments: seq<string>)
    ensures var c := Candidates(segments);
      && |c| == |segments|
      && (forall k | 0 <= k < |c| :: EndsWith(Concat(segments), c[k]))
      && (segments != [] ==> c[0] == segments[|segments| - 1] && c[|c| - 1] == Concat(segments))
      && (forall k | 0 <= k < |c| - 1 :: c[k + 1] == segments[|segments| - k - 2] + c[k] && EndsWith(c[k + 1], c[k]))
  {
    var n := |segments|;
    var c := Candidates(segments);
    forall k | 0 <= k < n
      ensures EndsWith(Concat(segments), c[k])
    {
      CandidateEnds(segments, k);
    }
    if n > 0 {
      var last := segments[n - 1..];
      assert last == [segments[n - 1]];
      assert last[1..] == [];
      assert c[0] == Concat(last) == segments[n - 1] + Concat([]);
      assert segments[n - n..] == segments;
    }
    forall k | 0 <= k < n - 1
      ensures c[k + 1] == segments[n - k - 2] + c[k] && EndsWith(c[k + 1], c[k])
    {
      CandidateStep(segments, k);
      EndsWithAppend(segments[n - k - 2], c[k]);
    }
  }

  /**
   * `guess_paradigm`: the scores `search` gives the suffix candidates under
   * `frame`. The morphological database and the lemma flag are accepted and
   * not consulted.
   */
  function GuessParadigm<D, F, R>(segments: seq<string>, morphDb: Option<D>, frame: F, onlyLemmas: bool,
                                  search: (seq<string>, F) -> R): R
  {
    search(Candidates(segments), frame)
  }

  /** `guess_paradigm_from_lemma`: `guess_paradigm` with no database and the lemma flag set. */
  function GuessParadigmFromLemma<D, F, R>(segments: seq<string>, frame: F, search: (seq<string>, F) -> R): R
  {
    GuessParadigm<D, F, R>(segments, None, frame, true, search)
  }
}
