/**
 * The Python `str` operations the corpus tools rely on, as functions over
 * Dafny strings, each with the contract that characterises it.
 */
module Text {

  /** The characters `str.split()` and `str.strip()` treat as whitespace (ASCII ones). */
  const Whitespace: set<char> := {' ', '\t', '\n', '\r', '\U{B}', '\U{C}'}

  predicate IsSpace(c: char) { c in Whitespace }

  predicate NoSpace(t: string) { forall i | 0 <= i < |t| :: !IsSpace(t[i]) }

  /** `s.startswith(p)` */
  predicate StartsWith(s: string, p: string) { |p| <= |s| && s[..|p|] == p }

  /** `s.endswith(p)` */
  predicate EndsWith(s: string, p: string) { |p| <= |s| && s[|s| - |p|..] == p }

  /** `p` occurs in `s` starting at index `i`. */
  predicate OccursAt(p: string, s: string, i: int) { 0 <= i && i + |p| <= |s| && s[i..i + |p|] == p }

  /** `p in s` for strings. */
  predicate Contains(s: string, p: string) { exists i | 0 <= i <= |s| - |p| :: OccursAt(p, s, i) }

  lemma OccursAtShift(p: string, s: string, j: int)
    requires |s| > 0
    ensures OccursAt(p, s[1..], j) <==> (j >= 0 && OccursAt(p, s, j + 1))
  {
    if j >= 0 && j + |p| <= |s| - 1 {
      assert s[1..][j..j + |p|] == s[j + 1..j + 1 + |p|];
    }
  }

  lemma OccursAtPrefix(p: string, s: string, n: nat, j: int)
    requires n <= |s|
    ensures OccursAt(p, s[..n], j) <==> (OccursAt(p, s, j) && j + |p| <= n)
  {
    if 0 <= j && j + |p| <= n {
      assert s[..n][j..j + |p|] == s[j..j + |p|];
    }
  }

  /** `s.find(p)`: the first index where `p` occurs, or -1. */
  function Find(s: string, p: string): (r: int)
    ensures -1 <= r
    ensures r == -1 <==> !Contains(s, p)
    ensures r >= 0 ==> OccursAt(p, s, r) && forall j | 0 <= j < r :: !OccursAt(p, s, j)
    decreases |s|
  {
    if |s| < |p| then -1
    else if s[..|p|] == p then (assert OccursAt(p, s, 0); 0)
    else
      var k := Find(s[1..], p);
      FindStep(s, p, k);
      if k < 0 then -1 else k + 1
  }

  lemma FindStep(s: string, p: string, k: int)
    requires |p| <= |s| && s[..|p|] != p && -1 <= k
    requires k == -1 <==> !Contains(s[1..], p)
    requires k >= 0 ==> OccursAt(p, s[1..], k) && forall j | 0 <= j < k :: !OccursAt(p, s[1..], j)
    ensures k < 0 ==> !Contains(s, p)
    ensures k >= 0 ==> OccursAt(p, s, k + 1) && forall j | 0 <= j < k + 1 :: !OccursAt(p, s, j)
  {
    assert !OccursAt(p, s, 0);
    forall j | 1 <= j <= |s| - |p|
      ensures OccursAt(p, s, j) <==> OccursAt(p, s[1..], j - 1)
    {
      OccursAtShift(p, s, j - 1);
    }
    if k >= 0 {
      OccursAtShift(p, s, k);
    } else {
      forall j | 0 <= j <= |s| - |p| ensures !OccursAt(p, s, j) {
        if j > 0 {
          OccursAtShift(p, s, j - 1);
        }
      }
    }
  }

  /** `s.rfind(p)`: the last index where `p` occurs, or -1. */
  function RFind(s: string, p: string): (r: int)
    ensures -1 <= r
    ensures r == -1 <==> !Contains(s, p)
    ensures r >= 0 ==> OccursAt(p, s, r) && forall j | r < j <= |s| - |p| :: !OccursAt(p, s, j)
    decreases |s|
  {
    if |s| < |p| then -1
    else if s[|s| - |p|..] == p then (assert OccursAt(p, s, |s| - |p|); |s| - |p|)
    else
      var k := RFind(s[..|s| - 1], p);
      RFindStep(s, s[..|s| - 1], p, k);
      k
  }

  lemma RFindStep(s: string, t: string, p: string, k: int)
    requires |p| <= |s| && s[|s| - |p|..] != p && t == s[..|s| - 1] && -1 <= k
    requires k == -1 <==> !Contains(t, p)
    requires k >= 0 ==> OccursAt(p, t, k) && forall j | k < j <= |t| - |p| :: !OccursAt(p, t, j)
    ensures k == -1 <==> !Contains(s, p)
    ensures k >= 0 ==> OccursAt(p, s, k) && forall j | k < j <= |s| - |p| :: !OccursAt(p, s, j)
  {
    assert !OccursAt(p, s, |s| - |p|);
    forall j | 0 <= j < |s| - |p|
      ensures OccursAt(p, s, j) <==> OccursAt(p, s[..|s| - 1], j)
    {
      OccursAtPrefix(p, s, |s| - 1, j);
    }
    if k >= 0 {
      OccursAtPrefix(p, s, |s| - 1, k);
    } else {
      forall j | 0 <= j <= |s| - |p| ensures !OccursAt(p, s, j) {
        if j < |s| - |p| {
          OccursAtPrefix(p, s, |s| - 1, j);
        }
      }
    }
  }

  /** `sep.join(parts)` */
  function Join(parts: seq<string>, sep: string): string
  {
    if |parts| == 0 then ""
    else if |parts| == 1 then parts[0]
    else parts[0] + sep + Join(parts[1..], sep)
  }

  /** `"".join(parts)` */
  function Concat(parts: seq<string>): string
  {
    if parts == [] then "" else parts[0] + Concat(parts[1..])
  }

  /** Joining one more part appends it. */
  lemma {:induction false} ConcatSnoc(parts: seq<string>, p: string)
    ensures Concat(parts + [p]) == Concat(parts) + p
  {
    if parts != [] {
      assert (parts + [p])[1..] == parts[1..] + [p];
      ConcatSnoc(parts[1..], p);
    }
  }

  /**
   * `s.split(sep)` for a non-empty separator: the pieces between the
   * leftmost non-overlapping occurrences of `sep`. Joining them back with
   * `sep` gives `s`, and no piece contains `sep`.
   */
  function Split(s: string, sep: string): (parts: seq<string>)
    requires sep != []
    ensures |parts| >= 1
    ensures Join(parts, sep) == s
    ensures forall k | 0 <= k < |parts| :: !Contains(parts[k], sep)
    decreases |s|
  {
    var i := Find(s, sep);
    if i < 0 then [s]
    else
      var rest := Split(s[i + |sep|..], sep);
      assert !Contains(s[..i], sep) by {
        forall j | 0 <= j <= i - |sep| ensures !OccursAt(sep, s[..i], j) {
          OccursAtPrefix(sep, s, i, j);
        }
      }
      assert s == s[..i] + sep + s[i + |sep|..];
      [s[..i]] + rest
  }

  /**
   * The first piece of `s.split(sep)` is the text before the first `sep`:
   * a prefix of `s`, followed by `sep` exactly when there are more pieces.
   */
  lemma SplitHead(s: string, sep: string)
    requires sep != []
    ensures StartsWith(s, Split(s, sep)[0])
    ensures |Split(s, sep)| == 1 <==> !Contains(s, sep)
    ensures |Split(s, sep)| >= 2 ==> StartsWith(s, Split(s, sep)[0] + sep)
  {
    var i := Find(s, sep);
    SplitUnfold(s, sep);
    if i >= 0 {
      var head := Split(s, sep)[0];
      assert head == s[..i];
      assert s[..|head|] == head;
      assert (s[..i] + sep) == s[..i + |sep|];
    } else {
      assert s[..|s|] == s;
    }
  }

  /** One step of `Split`: no separator leaves `s` whole, otherwise the text before the first one comes off. */
  lemma SplitUnfold(s: string, sep: string)
    requires sep != []
    ensures var i := Find(s, sep);
      Split(s, sep) == if i < 0 then [s] else [s[..i]] + Split(s[i + |sep|..], sep)
  {
  }

  /** Whatever occurs in a prefix of `s` occurs in `s`. */
  lemma ContainsPrefix(s: string, t: string, p: string)
    requires StartsWith(s, t) && Contains(t, p)
    ensures Contains(s, p)
  {
    var i :| 0 <= i <= |t| - |p| && OccursAt(p, t, i);
    assert s[i..i + |p|] == t[i..i + |p|];
    assert OccursAt(p, s, i);
  }

  /**
   * In `s.split(outer)[0].split(inner)` with at least two fields, the first
   * field followed by `inner` starts `s`, and it holds no `outer`.
   */
  lemma NestedHead(s: string, outer: string, inner: string)
    requires outer != [] && inner != [] && |Split(Split(s, outer)[0], inner)| >= 2
    ensures var f := Split(Split(s, outer)[0], inner)[0];
      StartsWith(s, f + inner) && !Contains(f, outer) && !Contains(f, inner)
  {
    var before := Split(s, outer)[0];
    var f := Split(before, inner)[0];
    SplitHead(s, outer);
    SplitHead(before, inner);
    StartsWithTrans(s, before, f + inner);
    assert !Contains(before, outer);
    if Contains(f, outer) {
      ContainsPrefix(before, f, outer);
    }
  }

  /**
   * In `s.split(outer)[0].split(inner)` with at least two fields (both
   * separators single characters), the second field follows the first and
   * its `inner` in `s`, holds neither separator, and ends where `s` ends or
   * at one of them.
   */
  lemma SecondField(s: string, outer: char, inner: char)
    requires |Split(Split(s, [outer])[0], [inner])| >= 2
    ensures var fields := Split(Split(s, [outer])[0], [inner]);
      var k := |fields[0]| + 1 + |fields[1]|;
      && StartsWith(s, fields[0] + [inner] + fields[1])
      && !Contains(fields[1], [inner]) && !Contains(fields[1], [outer])
      && (k == |s| || s[k] == inner || s[k] == outer)
  {
    var before := Split(s, [outer])[0];
    var fields := Split(before, [inner]);
    SecondPiece(before, inner);
    var rest := before[|fields[0]| + 1..];
    HeadAndRest(rest, inner);
    HeadAndRest(s, outer);
    FieldAt(s, before, fields[0], fields[1], outer, inner);
  }

  /** The second piece of a split at one character is the first piece of what follows the first separator. */
  lemma SecondPiece(s: string, c: char)
    requires |Split(s, [c])| >= 2
    ensures var parts := Split(s, [c]); var i := |parts[0]|;
      i < |s| && s[..i] == parts[0] && s[i] == c && parts[1] == Split(s[i + 1..], [c])[0]
  {
    SplitUnfold(s, [c]);
  }

  /**
   * A field `f` read from `before` (a prefix of `s` ended by `outer` or by
   * the end of `s`) right after `head` and `inner` sits at the same place
   * in `s`, and ends at a separator or at the end of `s`.
   */
  lemma FieldAt(s: string, before: string, head: string, f: string, outer: char, inner: char)
    requires StartsWith(s, before) && (|before| == |s| || s[|before|] == outer) && !Contains(before, [outer])
    requires |head| < |before| && before[..|head|] == head && before[|head|] == inner
    requires var rest := before[|head| + 1..];
      StartsWith(rest, f) && (|f| == |rest| || rest[|f|] == inner)
    ensures var k := |head| + 1 + |f|;
      && StartsWith(s, head + [inner] + f) && !Contains(f, [outer])
      && (k == |s| || s[k] == inner || s[k] == outer)
  {
    var rest := before[|head| + 1..];
    var k := |head| + 1 + |f|;
    assert before[..k] == head + [inner] + f;
    assert s[..k] == before[..k];
    ContainsSuffix(before, |head| + 1, [outer]);
    if Contains(f, [outer]) {
      ContainsPrefix(rest, f, [outer]);
    }
    if |f| < |rest| {
      assert s[k] == rest[|f|];
    }
  }

  lemma StartsWithTrans(s: string, t: string, u: string)
    requires StartsWith(s, t) && StartsWith(t, u)
    ensures StartsWith(s, u)
  {
    assert s[..|u|] == s[..|t|][..|u|];
  }

  /** A suffix of a string without `p` holds no `p` either. */
  lemma ContainsSuffix(s: string, i: nat, p: string)
    requires i <= |s| && !Contains(s, p)
    ensures !Contains(s[i..], p)
  {
    if Contains(s[i..], p) {
      var j :| 0 <= j <= |s[i..]| - |p| && OccursAt(p, s[i..], j);
      assert s[i + j..i + j + |p|] == s[i..][j..j + |p|];
      assert OccursAt(p, s, i + j);
    }
  }

  /**
   * Splitting at a one-character separator, a head free of it that is
   * followed by the separator or by nothing is the first piece.
   */
  lemma SplitHeadOf(a: string, rest: string, c: char)
    requires !Contains(a, [c]) && (rest == [] || rest[0] == c)
    ensures Split(a + rest, [c])[0] == a
  {
    var s := a + rest;
    if rest == [] {
      assert s == a;
      SplitNoSep(a, [c]);
    } else {
      assert OccursAt([c], s, |a|);
      forall j | 0 <= j < |a| ensures !OccursAt([c], s, j) {
        if OccursAt([c], s, j) {
          assert a[j..j + 1] == s[j..j + 1];
          assert OccursAt([c], a, j);
        }
      }
      assert Find(s, [c]) == |a|;
      assert s[..|a|] == a;
    }
  }

  /** The first piece of a split at one character starts the string and is followed by that character or by nothing. */
  lemma HeadAndRest(s: string, c: char)
    ensures var head := Split(s, [c])[0];
      StartsWith(s, head) && (|head| == |s| || s[|head|] == c)
  {
    SplitHead(s, [c]);
    if |Split(s, [c])| == 1 {
      SplitNoSep(s, [c]);
    }
  }

  /** A string without `sep` splits to itself alone. */
  lemma SplitNoSep(s: string, sep: string)
    requires sep != [] && !Contains(s, sep)
    ensures Split(s, sep) == [s]
  {
  }

  /** Field `k` of `s.split(sep)`, when there is one. */
  function Field(s: string, sep: string, k: nat): string
    requires sep != []
  {
    var parts := Split(s, sep);
    if k < |parts| then parts[k] else ""
  }

  /** The length of the leading run of non-whitespace characters. */
  function TokenEnd(s: string): (n: nat)
    ensures n <= |s|
    ensures NoSpace(s[..n])
    ensures n < |s| ==> IsSpace(s[n])
  {
    if s == [] || IsSpace(s[0]) then 0 else 1 + TokenEnd(s[1..])
  }

  /** `s.split()`: the maximal runs of non-whitespace characters, in order. */
  function SplitWs(s: string): (tokens: seq<string>)
    ensures forall k | 0 <= k < |tokens| :: tokens[k] != [] && NoSpace(tokens[k])
    decreases |s|
  {
    if s == [] then []
    else if IsSpace(s[0]) then SplitWs(s[1..])
    else
      var n := TokenEnd(s);
      [s[..n]] + SplitWs(s[n..])
  }

  /** A string with no whitespace in it splits into itself alone (or nothing, if empty). */
  lemma {:induction false} SplitWsOfToken(t: string)
    requires t != [] && NoSpace(t)
    ensures SplitWs(t) == [t]
  {
    var n := TokenEnd(t);
    assert n == |t|;
    assert t[n..] == [];
    assert t[..n] == t;
  }

  /** `s.lstrip(chars)` */
  function LStrip(s: string, chars: set<char>): string
  {
    if s != [] && s[0] in chars then LStrip(s[1..], chars) else s
  }

  /** `lstrip` removes a leading run of `chars` and stops at the first other character. */
  lemma {:induction false} LStripSpec(s: string, chars: set<char>)
    ensures var r := LStrip(s, chars);
      |r| <= |s| && r == s[|s| - |r|..]
      && (r == [] || r[0] !in chars)
      && forall i | 0 <= i < |s| - |r| :: s[i] in chars
  {
    if s != [] && s[0] in chars {
      LStripSpec(s[1..], chars);
    }
  }

  /** `s.rstrip(chars)` */
  function RStrip(s: string, chars: set<char>): string
  {
    if s != [] && s[|s| - 1] in chars then RStrip(s[..|s| - 1], chars) else s
  }

  /** `rstrip` removes a trailing run of `chars` and stops at the last other character. */
  lemma {:induction false} RStripSpec(s: string, chars: set<char>)
    ensures var r := RStrip(s, chars);
      |r| <= |s| && r == s[..|r|]
      && (r == [] || r[|r| - 1] !in chars)
      && forall i | |r| <= i < |s| :: s[i] in chars
  {
    if s != [] && s[|s| - 1] in chars {
      RStripSpec(s[..|s| - 1], chars);
    }
  }

  /** `s.strip()` */
  function Strip(s: string): string
  {
    RStrip(LStrip(s, Whitespace), Whitespace)
  }

  /** A string that `strip()` empties consists of whitespace only. */
  lemma StripEmpty(s: string)
    ensures Strip(s) == [] <==> forall i | 0 <= i < |s| :: IsSpace(s[i])
  {
    var l := LStrip(s, Whitespace);
    LStripSpec(s, Whitespace);
    RStripSpec(l, Whitespace);
    assert l != [] ==> l[0] == s[|s| - |l|];
  }

  /** Only whitespace: what `strip()` empties. */
  predicate IsBlank(s: string)
  {
    s == [] || (IsSpace(s[0]) && IsBlank(s[1..]))
  }

  /** `strip()` empties exactly the blank strings. */
  lemma {:induction false} StripBlank(s: string)
    ensures Strip(s) == [] <==> IsBlank(s)
  {
    StripEmpty(s);
    AllSpaceBlank(s);
  }

  lemma {:induction false} AllSpaceBlank(s: string)
    ensures IsBlank(s) <==> forall i | 0 <= i < |s| :: IsSpace(s[i])
  {
    if s != [] {
      AllSpaceBlank(s[1..]);
      assert forall i | 1 <= i < |s| :: s[1..][i - 1] == s[i];
    }
  }

  /**
   * `s.replace(pat, rep)` for a non-empty pattern: every leftmost
   * non-overlapping occurrence of `pat` is replaced by `rep`.
   */
  function Replace(s: string, pat: string, rep: string): string
    requires pat != []
    decreases |s|
  {
    if |s| < |pat| then s
    else if s[..|pat|] == pat then rep + Replace(s[|pat|..], pat, rep)
    else [s[0]] + Replace(s[1..], pat, rep)
  }

  /** Replacing a one-character pattern maps each character on its own. */
  lemma {:induction false} ReplaceOneChar(s: string, a: char, b: char)
    ensures |Replace(s, [a], [b])| == |s|
    ensures forall i | 0 <= i < |s| :: Replace(s, [a], [b])[i] == if s[i] == a then b else s[i]
    decreases |s|
  {
    if |s| >= 1 {
      ReplaceOneChar(s[1..], a, b);
      var r := Replace(s, [a], [b]);
      var tail := Replace(s[1..], [a], [b]);
      assert r == [if s[0] == a then b else s[0]] + tail;
      forall i | 1 <= i < |s| ensures r[i] == if s[i] == a then b else s[i] {
        assert r[i] == tail[i - 1];
      }
    }
  }

  /** Replacing a pattern that does not occur leaves the string alone. */
  lemma {:induction false} ReplaceAbsent(s: string, pat: string, rep: string)
    requires pat != [] && !Contains(s, pat)
    ensures Replace(s, pat, rep) == s
    decreases |s|
  {
    if |s| >= |pat| {
      assert !OccursAt(pat, s, 0);
      assert !Contains(s[1..], pat) by {
        forall j | 0 <= j <= |s| - 1 - |pat| ensures !OccursAt(pat, s[1..], j) {
          OccursAtShift(pat, s, j);
        }
      }
      ReplaceAbsent(s[1..], pat, rep);
      assert s == [s[0]] + s[1..];
    }
  }

  /** `c.islower()`, for ASCII and the letters of the Czech alphabet. */
  predicate IsLower(c: char)
  {
    ('a' <= c <= 'z') || c in LowerAccented
  }

  const UpperAccented: seq<char> := "ÁČĎÉĚÍŇÓŘŠŤÚŮÝŽ"
  const LowerAccented: seq<char> := "áčďéěíňóřšťúůýž"

  /** `c.lower()`, for ASCII and the letters of the Czech alphabet. */
  function LowerChar(c: char): (r: char)
    ensures r == c || IsLower(r)
  {
    if 'A' <= c <= 'Z' then (c as int + 32) as char
    else
      var k := IndexOfChar(UpperAccented, c);
      if 0 <= k < |LowerAccented| then LowerAccented[k] else c
  }

  function IndexOfChar(s: seq<char>, c: char): (k: int)
    ensures -1 <= k < |s|
    ensures k >= 0 ==> s[k] == c
  {
    if s == [] then -1
    else if s[0] == c then 0
    else var k := IndexOfChar(s[1..], c); if k < 0 then -1 else k + 1
  }

  /** `s.lower()` */
  function Lower(s: string): (r: string)
    ensures |r| == |s|
    ensures forall i | 0 <= i < |s| :: r[i] == LowerChar(s[i])
  {
    if s == [] then [] else [LowerChar(s[0])] + Lower(s[1..])
  }

  /** `c * n` for a one-character string `c`. */
  function Repeat(c: char, n: nat): (r: string)
    ensures |r| == n
    ensures forall i | 0 <= i < n :: r[i] == c
  {
    if n == 0 then [] else [c] + Repeat(c, n - 1)
  }

  /** `s[i:]`, with Python's treatment of negative and out-of-range starts. */
  function SliceFrom(s: string, i: int): (r: string)
    ensures |r| <= |s| && r == s[|s| - |r|..]
    ensures 0 <= i <= |s| ==> |r| == |s| - i
    ensures i < 0 ==> |r| == if -i <= |s| then -i else |s|
  {
    var k := if i < 0 then (if -i >= |s| then 0 else |s| + i) else (if i > |s| then |s| else i);
    s[k..]
  }

  /** `s[:j]`, with Python's treatment of negative and out-of-range ends. */
  function SliceTo<T>(s: seq<T>, j: int): (r: seq<T>)
    ensures |r| <= |s| && r == s[..|r|]
    ensures 0 <= j <= |s| ==> |r| == j
    ensures j < 0 ==> |r| == if -j <= |s| then |s| + j else 0
  {
    var k := if j < 0 then (if -j >= |s| then 0 else |s| + j) else (if j > |s| then |s| else j);
    s[..k]
  }

  /** `f.readline()` once `i` lines are read: the next line, or "" at the end of the file. */
  function ReadLine(lines: seq<string>, i: nat): (r: string)
    ensures i < |lines| ==> r == lines[i]
    ensures i >= |lines| ==> r == ""
  {
    if i < |lines| then lines[i] else ""
  }
}
