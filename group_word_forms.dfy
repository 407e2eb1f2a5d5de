/**
 * Counting word forms and their tags: the nested lemma -> word -> tag count
 * maps read from tagged corpora, merging two of them, the frequency buckets
 * of the forms, and the compression of a form's tags by the two-character
 * chunks they all share.
 */
module GroupWordForms {
  import opened Wrappers
  import opened Text
  import opened OrderedMaps
  import opened Sums

  /** A form's tags and how often each was seen. */
  type Tags = OMap<string, int>

  /** A lemma's forms and their tags. */
  type Forms = OMap<string, Tags>

  /** lemma -> word -> tag -> count */
  type MorphDb = OMap<string, Forms>

  // ---------------------------------------------------------------------
  // split_by_two

  /** `split_by_two`: the consecutive two-character chunks of `tag`; an odd last character is dropped. */
  method SplitByTwo(tag: string) returns (slices: seq<string>)
    ensures |slices| == |tag| / 2
    ensures forall i | 0 <= i < |slices| :: slices[i] == tag[2 * i..2 * i + 2]
    ensures Concat(slices) == tag[..2 * (|tag| / 2)]
  {
    slices := [];
    var i := 0;
    while i < |tag| / 2
      invariant 0 <= i <= |tag| / 2
      invariant |slices| == i
      invariant forall k | 0 <= k < i :: slices[k] == tag[2 * k..2 * k + 2]
      invariant Concat(slices) == tag[..2 * i]
    {
      var chunk := [tag[2 * i], tag[2 * i + 1]];
      ConcatSnoc(slices, chunk);
      assert tag[..2 * i] + chunk == tag[..2 * i + 2];
      slices := slices + [chunk];
      i := i + 1;
    }
  }

  /** The chunks `split_by_two` returns, as a function. */
  function Chunks(tag: string): (cs: seq<string>)
    ensures |cs| == |tag| / 2
    ensures forall i | 0 <= i < |cs| :: cs[i] == tag[2 * i..2 * i + 2]
    ensures forall c | c in cs :: |c| == 2
  {
    seq(|tag| / 2, i requires 0 <= i < |tag| / 2 => tag[2 * i..2 * i + 2])
  }

  // ---------------------------------------------------------------------
  // extract_common_tags

  /** `sub` occurs in every one of `keys`. */
  predicate InAll(sub: string, keys: seq<string>)
  {
    forall k | 0 <= k < |keys| :: Contains(keys[k], sub)
  }

  /** The chunks, in order, that occur in every key. */
  function CommonChunks(chunks: seq<string>, keys: seq<string>): (r: seq<string>)
  {
    if chunks == [] then []
    else
      var rest := CommonChunks(chunks[..|chunks| - 1], keys);
      var c := chunks[|chunks| - 1];
      if InAll(c, keys) then rest + [c] else rest
  }

  /** A chunk is common exactly when it is one of the chunks and occurs in every key. */
  lemma {:induction false} CommonChunksMembers(chunks: seq<string>, keys: seq<string>, c: string)
    ensures c in CommonChunks(chunks, keys) <==> c in chunks && InAll(c, keys)
  {
    if chunks != [] {
      var init := chunks[..|chunks| - 1];
      CommonChunksMembers(init, keys, c);
      assert chunks == init + [chunks[|chunks| - 1]];
    }
  }

  /** With no other keys to compare against, every chunk is common. */
  lemma {:induction false} CommonChunksOfNone(chunks: seq<string>)
    ensures CommonChunks(chunks, []) == chunks
  {
    if chunks != [] {
      CommonChunksOfNone(chunks[..|chunks| - 1]);
      assert chunks == chunks[..|chunks| - 1] + [chunks[|chunks| - 1]];
    }
  }

  /** What `extract_common_tags` returns for a non-empty map: the common chunks of the last inserted tag. */
  function Common(tags: Tags): (r: seq<string>)
    requires tags != []
    ensures forall i | 0 <= i < |r| :: |r[i]| == 2
  {
    var sample := tags[|tags| - 1].0;
    CommonChunksFrom(Chunks(sample), Keys(tags[..|tags| - 1]));
    CommonChunks(Chunks(sample), Keys(tags[..|tags| - 1]))
  }

  lemma {:induction false} CommonChunksFrom(chunks: seq<string>, keys: seq<string>)
    ensures forall c | c in CommonChunks(chunks, keys) :: c in chunks
  {
    forall c | c in CommonChunks(chunks, keys) ensures c in chunks {
      CommonChunksMembers(chunks, keys, c);
    }
  }

  /** The inner loop of `extract_common_tags`: does every key contain `sub`? Stops at the first that does not. */
  method AllHaving(sub: string, keys: seq<string>) returns (allHaving: bool)
    ensures allHaving == InAll(sub, keys)
  {
    allHaving := true;
    var i := 0;
    while i < |keys|
      invariant 0 <= i <= |keys|
      invariant forall k | 0 <= k < i :: Contains(keys[k], sub)
    {
      if !Contains(keys[i], sub) {
        allHaving := false;
        break;
      }
      i := i + 1;
    }
  }

  /**
   * `extract_common_tags`: pop the last inserted tag (`KeyError` when
   * there is none) and keep those of its chunks that every remaining tag
   * contains. `rest` is what the popped argument holds afterwards.
   */
  method ExtractCommonTags(tags: Tags) returns (common: Result<seq<string>>, rest: Tags)
    ensures tags == [] ==> common == Err(KeyError) && rest == []
    ensures tags != [] ==> rest == tags[..|tags| - 1]
    ensures tags != [] ==> common == Ok(Common(tags))
  {
    if tags == [] {
      return Err(KeyError), tags;
    }
    rest := tags[..|tags| - 1];
    var sample := tags[|tags| - 1].0;
    var chunks := SplitByTwo(sample);
    assert chunks == Chunks(sample);
    var found := [];
    var i := 0;
    while i < |chunks|
      invariant 0 <= i <= |chunks|
      invariant found == CommonChunks(chunks[..i], Keys(rest))
    {
      assert chunks[..i + 1][..i] == chunks[..i];
      var allHaving := AllHaving(chunks[i], Keys(rest));
      if allHaving {
        found := found + [chunks[i]];
      }
      i := i + 1;
    }
    assert chunks[..i] == chunks;
    common := Ok(found);
  }

  // ---------------------------------------------------------------------
  // compress_tags

  /** `tag` with every occurrence of each chunk, in turn, replaced by "". */
  function StripChunks(tag: string, chunks: seq<string>): string
    requires forall i | 0 <= i < |chunks| :: chunks[i] != []
  {
    if chunks == [] then tag
    else Replace(StripChunks(tag, chunks[..|chunks| - 1]), chunks[|chunks| - 1], "")
  }

  /** The compressed map: the joined chunks map to -1, then each stripped tag to its count, in order. */
  function Compressed(tags: Tags, common: seq<string>): Tags
    requires forall i | 0 <= i < |common| :: common[i] != []
  {
    if tags == [] then [(Concat(common), -1)]
    else
      var last := tags[|tags| - 1];
      Put(Compressed(tags[..|tags| - 1], common), StripChunks(last.0, common), last.1)
  }

  /** What `compress_tags` returns: `KeyError` for an empty map. */
  function CompressSpec(tags: Tags): Result<Tags>
  {
    if tags == [] then Err(KeyError) else Ok(Compressed(tags, Common(tags)))
  }

  /** The count of the last tag that strips to `k`, if any. */
  function LastStripped(tags: Tags, common: seq<string>, k: string): Option<int>
    requires forall i | 0 <= i < |common| :: common[i] != []
  {
    if tags == [] then None
    else if StripChunks(tags[|tags| - 1].0, common) == k then Some(tags[|tags| - 1].1)
    else LastStripped(tags[..|tags| - 1], common, k)
  }

  /**
   * A key of the compressed map holds the count of the last tag that
   * strips to it; the joined common chunks hold -1 unless a tag strips to
   * them; nothing else is a key.
   */
  lemma {:induction false} CompressedGet(tags: Tags, common: seq<string>, k: string)
    requires forall i | 0 <= i < |common| :: common[i] != []
    ensures Get(Compressed(tags, common), k) ==
      if LastStripped(tags, common, k).Some? then LastStripped(tags, common, k)
      else if k == Concat(common) then Some(-1)
      else None
  {
    if tags == [] {
      assert Get([(Concat(common), -1)], k) == if k == Concat(common) then Some(-1) else None by {
        if k == Concat(common) {
          assert IndexOf([(Concat(common), -1)], k) == 0;
        }
      }
    } else {
      var last := tags[|tags| - 1];
      CompressedGet(tags[..|tags| - 1], common, k);
      PutGet(Compressed(tags[..|tags| - 1], common), StripChunks(last.0, common), last.1, k);
    }
  }

  /** The inner loop of `compress_tags`: remove each common chunk from one tag. */
  method StripTag(tag: string, common: seq<string>) returns (t: string)
    requires forall i | 0 <= i < |common| :: common[i] != []
    ensures t == StripChunks(tag, common)
  {
    t := tag;
    var j := 0;
    while j < |common|
      invariant 0 <= j <= |common|
      invariant t == StripChunks(tag, common[..j])
    {
      assert common[..j + 1][..j] == common[..j];
      t := Replace(t, common[j], "");
      j := j + 1;
    }
    assert common[..j] == common;
  }

  /** `compress_tags`: the argument is left as it was; the common chunks are taken from a copy. */
  method CompressTags(tags: Tags) returns (r: Result<Tags>)
    ensures r == CompressSpec(tags)
  {
    var common, _ := ExtractCommonTags(tags);
    if common.Err? {
      return Err(common.error);
    }
    var newTags: Tags := [(Concat(common.value), -1)];
    var i := 0;
    while i < |tags|
      invariant 0 <= i <= |tags|
      invariant newTags == Compressed(tags[..i], common.value)
    {
      assert tags[..i + 1][..i] == tags[..i];
      var t := StripTag(tags[i].0, common.value);
      newTags := Put(newTags, t, tags[i].1);
      i := i + 1;
    }
    assert tags[..i] == tags;
    r := Ok(newTags);
  }

  // ---------------------------------------------------------------------
  // Looking up a count

  /** The count stored for the triple, `None` when the lemma, the word or the tag is missing. */
  function Lookup(db: MorphDb, l: string, w: string, t: string): Option<int>
  {
    match Get(db, l)
    case None => None
    case Some(forms) => FormLookup(forms, w, t)
  }

  /** The count a lemma's forms store for the word and tag. */
  function FormLookup(forms: Forms, w: string, t: string): Option<int>
  {
    match Get(forms, w)
    case None => None
    case Some(tags) => Get(tags, t)
  }

  /** The count stored for the triple, 0 when absent (`dict.get(…, 0)` at each level). */
  function Count(db: MorphDb, l: string, w: string, t: string): int
  {
    Lookup(db, l, w, t).UnwrapOr(0)
  }

  /** Every dictionary of the database, at every level, has each key once. */
  predicate WellFormed(db: MorphDb)
  {
    && Distinct(db)
    && (forall i | 0 <= i < |db| :: FormsWellFormed(db[i].1))
  }

  predicate FormsWellFormed(forms: Forms)
  {
    && Distinct(forms)
    && (forall j | 0 <= j < |forms| :: Distinct(forms[j].1))
  }

  // ---------------------------------------------------------------------
  // add_morph_db

  /** `target`'s tag counts added into `source`'s, tag by tag in `target`'s order. */
  function AddedTags(source: Tags, target: Tags): Tags
  {
    if target == [] then source
    else
      var r := AddedTags(source, target[..|target| - 1]);
      var last := target[|target| - 1];
      Put(r, last.0, GetOr(r, last.0, 0) + last.1)
  }

  /** `target`'s forms merged into `source`'s: a new word takes `target`'s tags as they are. */
  function AddedForms(source: Forms, target: Forms): Forms
  {
    if target == [] then source
    else
      var r := AddedForms(source, target[..|target| - 1]);
      var last := target[|target| - 1];
      match Get(r, last.0)
      case None => Put(r, last.0, last.1)
      case Some(prior) => Put(r, last.0, AddedTags(prior, last.1))
  }

  /** `target` merged into `source`: a new lemma takes `target`'s forms as they are. */
  function AddedDb(source: MorphDb, target: MorphDb): MorphDb
  {
    if target == [] then source
    else
      var r := AddedDb(source, target[..|target| - 1]);
      var last := target[|target| - 1];
      match Get(r, last.0)
      case None => Put(r, last.0, last.1)
      case Some(prior) => Put(r, last.0, AddedForms(prior, last.1))
  }

  /** What merging `target` into `source` should give for tag `t`. */
  function MergedTag(source: Tags, target: Tags, t: string): Option<int>
  {
    if Get(target, t).Some? then Some(GetOr(source, t, 0) + Get(target, t).value) else Get(source, t)
  }

  /** Merging tags: a tag of `target` gets the sum of both counts, every other tag keeps `source`'s. */
  lemma {:induction false} AddedTagsGet(source: Tags, target: Tags, t: string)
    requires Distinct(target)
    ensures Get(AddedTags(source, target), t) == MergedTag(source, target, t)
  {
    if target != [] {
      var init := target[..|target| - 1];
      var k, c := target[|target| - 1].0, target[|target| - 1].1;
      DistinctSnoc(target);
      AddedTagsGet(source, init, t);
      AddedTagsGet(source, init, k);
      var r := AddedTags(source, init);
      AddedTagsStep(source, init, r, k, c, t);
      assert AddedTags(source, target) == Put(r, k, GetOr(r, k, 0) + c);
      assert MergedTag(source, target, t) == MergedTag(source, Put(init, k, c), t);
    } else {
      assert MergedTag(source, target, t) == Get(source, t);
    }
  }

  /** One more tag merged keeps every lookup as `MergedTag` says. */
  lemma AddedTagsStep(source: Tags, init: Tags, r: Tags, k: string, c: int, t: string)
    requires k !in Keys(init)
    requires Get(r, t) == MergedTag(source, init, t) && Get(r, k) == MergedTag(source, init, k)
    ensures Get(Put(r, k, GetOr(r, k, 0) + c), t) == MergedTag(source, Put(init, k, c), t)
  {
    PutGet(r, k, GetOr(r, k, 0) + c, t);
    PutGet(init, k, c, t);
  }

  /** Merging forms: a word of `target` gets its tags merged (or taken as they are), every other word keeps `source`'s. */
  lemma {:induction false} AddedFormsGet(source: Forms, target: Forms, w: string)
    requires Distinct(target)
    ensures Get(AddedForms(source, target), w) ==
      if Get(target, w).None? then Get(source, w)
      else if Get(source, w).None? then Get(target, w)
      else Some(AddedTags(Get(source, w).value, Get(target, w).value))
  {
    if target != [] {
      var init := target[..|target| - 1];
      var last := target[|target| - 1];
      DistinctSnoc(target);
      var r := AddedForms(source, init);
      PutGet(init, last.0, last.1, w);
      if w == last.0 {
        AddedFormsGet(source, init, last.0);
        if Get(r, w).None? {
          PutGet(r, w, last.1, w);
        } else {
          PutGet(r, w, AddedTags(Get(r, w).value, last.1), w);
        }
      } else {
        AddedFormsGet(source, init, w);
        if Get(r, last.0).None? {
          PutGet(r, last.0, last.1, w);
        } else {
          PutGet(r, last.0, AddedTags(Get(r, last.0).value, last.1), w);
        }
      }
    }
  }

  /** Merging databases: a lemma of `target` gets its forms merged (or taken as they are), every other lemma keeps `source`'s. */
  lemma {:induction false} AddedDbGet(source: MorphDb, target: MorphDb, l: string)
    requires Distinct(target)
    ensures Get(AddedDb(source, target), l) ==
      if Get(target, l).None? then Get(source, l)
      else if Get(source, l).None? then Get(target, l)
      else Some(AddedForms(Get(source, l).value, Get(target, l).value))
  {
    if target != [] {
      var init := target[..|target| - 1];
      var last := target[|target| - 1];
      DistinctSnoc(target);
      var r := AddedDb(source, init);
      PutGet(init, last.0, last.1, l);
      if l == last.0 {
        AddedDbGet(source, init, last.0);
        if Get(r, l).None? {
          PutGet(r, l, last.1, l);
        } else {
          PutGet(r, l, AddedForms(Get(r, l).value, last.1), l);
        }
      } else {
        AddedDbGet(source, init, l);
        if Get(r, last.0).None? {
          PutGet(r, last.0, last.1, l);
        } else {
          PutGet(r, last.0, AddedForms(Get(r, last.0).value, last.1), l);
        }
      }
    }
  }

  /** Merging one lemma's forms, stated on the counts of its (word, tag) pairs. */
  lemma {:induction false} AddedFormsCounts(source: Forms, target: Forms, w: string, t: string)
    requires FormsWellFormed(target)
    ensures FormLookup(AddedForms(source, target), w, t) ==
      if FormLookup(target, w, t).Some? then Some(FormLookup(source, w, t).UnwrapOr(0) + FormLookup(target, w, t).value)
      else FormLookup(source, w, t)
  {
    AddedFormsGet(source, target, w);
    if Get(target, w).Some? && Get(source, w).Some? {
      StoredDistinct(target, w);
      AddedTagsGet(Get(source, w).value, Get(target, w).value, t);
    }
  }

  /** The tags a well-formed lemma entry stores for a word have each tag once. */
  lemma StoredDistinct(forms: Forms, w: string)
    requires FormsWellFormed(forms) && Get(forms, w).Some?
    ensures Distinct(Get(forms, w).value)
  {
    GetEntry(forms, w);
  }

  /** The forms a well-formed database stores for a lemma are well formed. */
  lemma StoredWellFormed(db: MorphDb, l: string)
    requires WellFormed(db) && Get(db, l).Some?
    ensures FormsWellFormed(Get(db, l).value)
  {
    GetEntry(db, l);
  }

  /**
   * After `add_morph_db`, every triple of `target` counts its old count in
   * `source` (0 when absent) plus its count in `target`; every triple
   * `target` lacks reads as it did in `source`.
   */
  lemma {:induction false} AddMorphDbCounts(source: MorphDb, target: MorphDb, l: string, w: string, t: string)
    requires WellFormed(target)
    ensures Lookup(target, l, w, t).Some? ==>
      Lookup(AddedDb(source, target), l, w, t) == Some(Count(source, l, w, t) + Lookup(target, l, w, t).value)
    ensures Lookup(target, l, w, t).None? ==> Lookup(AddedDb(source, target), l, w, t) == Lookup(source, l, w, t)
  {
    AddedDbGet(source, target, l);
    var merged := AddedDb(source, target);
    if Get(target, l).None? {
      assert Lookup(target, l, w, t) == None;
      assert Lookup(merged, l, w, t) == Lookup(source, l, w, t);
    } else if Get(source, l).None? {
      var found := Lookup(target, l, w, t);
      assert Lookup(source, l, w, t) == None;
      assert Lookup(merged, l, w, t) == found;
      assert found.Some? ==> found == Some(0 + found.value);
    } else {
      var sf, tf := Get(source, l).value, Get(target, l).value;
      StoredWellFormed(target, l);
      AddedFormsCounts(sf, tf, w, t);
      assert Lookup(merged, l, w, t) == FormLookup(AddedForms(sf, tf), w, t);
      assert Lookup(target, l, w, t) == FormLookup(tf, w, t);
      assert Lookup(source, l, w, t) == FormLookup(sf, w, t);
    }
  }

  /** The loop over one form's tags: add each count, inserting tags `source` lacks. */
  method AddTags(source: Tags, target: Tags) returns (r: Tags)
    ensures r == AddedTags(source, target)
  {
    r := source;
    var i := 0;
    while i < |target|
      invariant 0 <= i <= |target|
      invariant r == AddedTags(source, target[..i])
    {
      assert target[..i + 1][..i] == target[..i];
      var (t, c) := target[i];
      if t !in Keys(r) {
        r := Put(r, t, c);
      } else {
        r := Put(r, t, Get(r, t).value + c);
      }
      i := i + 1;
    }
    assert target[..i] == target;
  }

  /** The loop over one lemma's forms: a new word takes `target`'s tags, a known one merges them. */
  method AddForms(source: Forms, target: Forms) returns (r: Forms)
    ensures r == AddedForms(source, target)
  {
    r := source;
    var i := 0;
    while i < |target|
      invariant 0 <= i <= |target|
      invariant r == AddedForms(source, target[..i])
    {
      assert target[..i + 1][..i] == target[..i];
      var (w, tags) := target[i];
      if w !in Keys(r) {
        r := Put(r, w, tags);
      } else {
        var merged := AddTags(Get(r, w).value, tags);
        r := Put(r, w, merged);
      }
      i := i + 1;
    }
    assert target[..i] == target;
  }

  /** `add_morph_db`: merge `target` into `source`; a new lemma takes `target`'s forms, a known one merges them. */
  method AddMorphDb(source: MorphDb, target: MorphDb) returns (r: MorphDb)
    ensures r == AddedDb(source, target)
  {
    r := source;
    var i := 0;
    while i < |target|
      invariant 0 <= i <= |target|
      invariant r == AddedDb(source, target[..i])
    {
      assert target[..i + 1][..i] == target[..i];
      var (l, forms) := target[i];
      if l !in Keys(r) {
        r := Put(r, l, forms);
      } else {
        var merged := AddForms(Get(r, l).value, forms);
        r := Put(r, l, merged);
      }
      i := i + 1;
    }
    assert target[..i] == target;
  }

  // ---------------------------------------------------------------------
  // read_corpora

  /** One counted corpus line: lemma (`headword`), word (lower-cased when the lemma starts lower-case) and tag. */
  datatype Entry = Entry(headword: string, word: string, tag: string)

  /**
   * What one corpus line contributes: `None` for a line with fewer than
   * three tab fields or the lemma "#num#"; `IndexError` for an empty lemma,
   * whose first character is read.
   */
  function ParseEntry(line: string): Option<Result<Entry>>
  {
    var s := Split(RStrip(line, {'\n'}), "\t");
    if |s| < 3 || s[1] == "#num#" then None
    else if s[1] == [] then Some(Err(IndexError))
    else Some(Ok(Entry(s[1], if IsLower(s[1][0]) then Lower(s[0]) else s[0], s[2])))
  }

  /** Count one more occurrence of the entry's triple, inserting whatever level is missing. */
  function Bump(db: MorphDb, e: Entry): MorphDb
  {
    var forms := GetOr(db, e.headword, []);
    var tags := GetOr(forms, e.word, []);
    Put(db, e.headword, Put(forms, e.word, Put(tags, e.tag, GetOr(tags, e.tag, 0) + 1)))
  }

  /** One line through `read_corpora`'s loop. */
  function ReadStep(acc: Result<MorphDb>, entry: Option<Result<Entry>>): Result<MorphDb>
  {
    if acc.Err? then acc
    else
      match entry
      case None => acc
      case Some(Err(e)) => Err(e)
      case Some(Ok(e)) => Ok(Bump(acc.value, e))
  }

  /** What `read_corpora` returns for the lines of a corpus. */
  function ReadAll(lines: seq<string>): Result<MorphDb>
  {
    if lines == [] then Ok([])
    else ReadStep(ReadAll(lines[..|lines| - 1]), ParseEntry(lines[|lines| - 1]))
  }

  /** The number of lines counted for the triple `e`. */
  function Occurrences(lines: seq<string>, e: Entry): nat
  {
    if lines == [] then 0
    else Occurrences(lines[..|lines| - 1], e) + if ParseEntry(lines[|lines| - 1]) == Some(Ok(e)) then 1 else 0
  }

  /** Counting an entry adds exactly 1 to its own triple and changes no other count. */
  lemma BumpCount(db: MorphDb, e: Entry, l: string, w: string, t: string)
    ensures Count(Bump(db, e), l, w, t) == Count(db, l, w, t) + if e.headword == l && e.word == w && e.tag == t then 1 else 0
  {
    var forms := GetOr(db, e.headword, []);
    var tags := GetOr(forms, e.word, []);
    var forms' := Put(forms, e.word, Put(tags, e.tag, GetOr(tags, e.tag, 0) + 1));
    CountPut(db, e.headword, forms', l, w, t);
    if l == e.headword {
      FormBump(forms, e.word, e.tag, w, t);
      CountOf(db, l, w, t);
    }
  }

  /** Replacing a lemma's forms changes the counts of that lemma only. */
  lemma CountPut(db: MorphDb, l': string, forms: Forms, l: string, w: string, t: string)
    ensures Count(Put(db, l', forms), l, w, t) == if l == l' then FormLookup(forms, w, t).UnwrapOr(0) else Count(db, l, w, t)
  {
    PutGet(db, l', forms, l);
  }

  /** A lemma's counts are read from its forms, or from no forms when it is missing. */
  lemma CountOf(db: MorphDb, l: string, w: string, t: string)
    ensures Count(db, l, w, t) == FormLookup(GetOr(db, l, []), w, t).UnwrapOr(0)
  {
    if Get(db, l).None? {
      var none: Forms := [];
      assert Get(none, w) == None;
    }
  }

  /** One lemma's forms with one more occurrence of (`word`, `tag`): only that pair's count grows, by 1. */
  lemma FormBump(forms: Forms, word: string, tag: string, w: string, t: string)
    ensures var tags := GetOr(forms, word, []);
      FormLookup(Put(forms, word, Put(tags, tag, GetOr(tags, tag, 0) + 1)), w, t).UnwrapOr(0)
      == FormLookup(forms, w, t).UnwrapOr(0) + if w == word && t == tag then 1 else 0
  {
    var tags := GetOr(forms, word, []);
    var tags' := Put(tags, tag, GetOr(tags, tag, 0) + 1);
    PutGet(forms, word, tags', w);
    if w == word {
      PutGet(tags, tag, GetOr(tags, tag, 0) + 1, t);
      assert FormLookup(forms, w, t).UnwrapOr(0) == Get(tags, t).UnwrapOr(0);
    }
  }

  /** Counting keeps every dictionary free of repeated keys. */
  lemma BumpWellFormed(db: MorphDb, e: Entry)
    requires WellFormed(db)
    ensures WellFormed(Bump(db, e))
  {
    var forms := GetOr(db, e.headword, []);
    if Get(db, e.headword).Some? {
      StoredWellFormed(db, e.headword);
    }
    var tags := GetOr(forms, e.word, []);
    if Get(forms, e.word).Some? {
      StoredDistinct(forms, e.word);
    }
    var tags' := Put(tags, e.tag, GetOr(tags, e.tag, 0) + 1);
    PutDistinct(tags, e.tag, GetOr(tags, e.tag, 0) + 1);
    var forms' := Put(forms, e.word, tags');
    PutDistinct(forms, e.word, tags');
    PutEntries(forms, e.word, tags');
    PutDistinct(db, e.headword, forms');
    PutEntries(db, e.headword, forms');
  }

  /**
   * `read_corpora` counts, for each triple, exactly the lines that name it;
   * the database it builds has each key once at every level.
   */
  lemma {:induction false} ReadAllCounts(lines: seq<string>, l: string, w: string, t: string)
    requires ReadAll(lines).Ok?
    ensures Count(ReadAll(lines).value, l, w, t) == Occurrences(lines, Entry(l, w, t))
    ensures WellFormed(ReadAll(lines).value)
  {
    if lines != [] {
      var init := lines[..|lines| - 1];
      var entry := ParseEntry(lines[|lines| - 1]);
      assert ReadAll(lines) == ReadStep(ReadAll(init), entry);
      if ReadAll(init).Ok? {
        ReadAllCounts(init, l, w, t);
        if entry.Some? && entry.value.Ok? {
          BumpCount(ReadAll(init).value, entry.value.value, l, w, t);
          BumpWellFormed(ReadAll(init).value, entry.value.value);
        }
      }
    } else {
      var empty: MorphDb := [];
      assert Get(empty, l) == None;
    }
  }

  /** One more line read: the fold takes one step on that line's entry. */
  lemma ReadAllNext(lines: seq<string>, i: nat)
    requires i < |lines|
    ensures ReadAll(lines[..i + 1]) == ReadStep(ReadAll(lines[..i]), ParseEntry(lines[i]))
  {
    assert lines[..i + 1][..i] == lines[..i];
  }

  /** The per-line parsing of `read_corpora`'s loop. */
  method ReadEntry(line: string) returns (entry: Option<Result<Entry>>)
    ensures entry == ParseEntry(line)
  {
    var s := Split(RStrip(line, {'\n'}), "\t");
    if |s| < 3 {
      return None;
    }
    var word, headword, tag := s[0], s[1], s[2];
    if headword == "#num#" {
      return None;
    }
    if headword == [] {
      return Some(Err(IndexError));
    }
    if IsLower(headword[0]) {
      word := Lower(word);
    }
    entry := Some(Ok(Entry(headword, word, tag)));
  }

  /** The counting statements of `read_corpora`'s loop: the missing levels default to empty, a new tag to 0. */
  method CountEntry(allForms: MorphDb, e: Entry) returns (r: MorphDb)
    ensures r == Bump(allForms, e)
  {
    var forms := GetOr(allForms, e.headword, []);
    var tags := GetOr(forms, e.word, []);
    ghost var n := GetOr(tags, e.tag, 0) + 1;
    if e.tag !in Keys(tags) {
      PutGet(tags, e.tag, 0, e.tag);
      PutTwice(tags, e.tag, 0, n);
      tags := Put(tags, e.tag, 0);
    }
    tags := Put(tags, e.tag, Get(tags, e.tag).value + 1);
    r := Put(allForms, e.headword, Put(forms, e.word, tags));
  }

  /** `read_corpora`: count every accepted line of the corpus into a fresh database. */
  method ReadCorpora(lines: seq<string>) returns (r: Result<MorphDb>)
    ensures r == ReadAll(lines)
  {
    var allForms: MorphDb := [];
    var i := 0;
    while i < |lines|
      invariant 0 <= i <= |lines|
      invariant ReadAll(lines[..i]) == Ok(allForms)
    {
      ReadAllNext(lines, i);
      var entry := ReadEntry(lines[i]);
      if entry.Some? && entry.value.Err? {
        ReadFailsOn(lines, i + 1);
        return Err(entry.value.error);
      }
      if entry.Some? {
        allForms := CountEntry(allForms, entry.value.value);
      }
      i := i + 1;
    }
    assert lines[..i] == lines;
    r := Ok(allForms);
  }

  /** Once reading has raised, later lines do not change the outcome. */
  lemma {:induction false} ReadFailsOn(lines: seq<string>, i: nat)
    requires i <= |lines| && ReadAll(lines[..i]).Err?
    ensures ReadAll(lines) == ReadAll(lines[..i])
    decreases |lines| - i
  {
    if i < |lines| {
      assert lines[..i + 1][..i] == lines[..i];
      ReadFailsOn(lines, i + 1);
    } else {
      assert lines[..i] == lines;
    }
  }

  // ---------------------------------------------------------------------
  // db_stats

  function Pow2(i: nat): (p: nat)
    ensures p >= 1
  {
    if i == 0 then 1 else 2 * Pow2(i - 1)
  }

  /** ⌊log₂ c⌋ */
  function Log2(c: int): nat
    requires c >= 1
  {
    if c < 2 then 0 else 1 + Log2(c / 2)
  }

  lemma {:induction false} Log2Bounds(c: int)
    requires c >= 1
    ensures Pow2(Log2(c)) <= c < Pow2(Log2(c) + 1)
  {
    if c >= 2 {
      Log2Bounds(c / 2);
    }
  }

  lemma {:induction false} Pow2Grows(i: nat, j: nat)
    requires i <= j
    ensures Pow2(i) <= Pow2(j)
    decreases j
  {
    if i < j {
      Pow2Grows(i, j - 1);
    }
  }

  /** The bucket a form with total count `c` falls in: `None` for `c` < 1. */
  function Bucket(c: int): Option<nat>
  {
    if c < 1 then None
    else Some(19 - if Log2(c) < 19 then Log2(c) else 19)
  }

  /**
   * Bucket 0 holds the counts of at least 2^19; bucket `b` > 0 the counts
   * from 2^(19-b) up to, not including, 2^(20-b).
   */
  lemma BucketMeaning(c: int)
    requires c >= 1
    ensures Bucket(c).Some? && Bucket(c).value <= 19
    ensures Bucket(c).value == 0 <==> c >= Pow2(19)
    ensures Bucket(c).value > 0 ==> Pow2(19 - Bucket(c).value) <= c < Pow2(20 - Bucket(c).value)
  {
    Log2Bounds(c);
    if Log2(c) >= 19 {
      Pow2Grows(19, Log2(c));
    } else {
      Pow2Grows(Log2(c) + 1, 19);
    }
  }

  /** The first power of two, from 2^19 down, that `c` reaches picks its bucket. */
  lemma BucketAt(c: int, i: nat)
    requires i <= 19 && c >= Pow2(i) && (i < 19 ==> c < Pow2(i + 1))
    ensures Bucket(c) == Some(19 - i)
  {
    Log2Bounds(c);
    if Log2(c) < i {
      Pow2Grows(Log2(c) + 1, i);
    } else if Log2(c) > i && i < 19 {
      Pow2Grows(i + 1, Log2(c));
    }
  }

  /** The inner loop of `db_stats`: from 2^19 down, the first power of two `c` reaches picks the bucket. */
  method BucketOf(c: int) returns (b: Option<nat>)
    ensures b == Bucket(c)
  {
    var i := 19;
    while i >= 0
      invariant -1 <= i <= 19
      invariant i < 19 ==> c < Pow2(i + 1)
    {
      if c >= Pow2(i) {
        BucketAt(c, i);
        return Some(19 - i);
      }
      i := i - 1;
    }
    b := None;
  }

  /** Summed tag counts of one form: `sum(tags.values())`. */
  function TagSum(tags: Tags): int
  {
    if tags == [] then 0 else TagSum(tags[..|tags| - 1]) + tags[|tags| - 1].1
  }

  /** The summed count of every form of every lemma, in order. */
  function FormCounts(db: MorphDb): seq<int>
  {
    if db == [] then [] else FormCounts(db[..|db| - 1]) + FormSums(db[|db| - 1].1)
  }

  function FormSums(forms: Forms): (r: seq<int>)
    ensures |r| == |forms|
  {
    if forms == [] then [] else FormSums(forms[..|forms| - 1]) + [TagSum(forms[|forms| - 1].1)]
  }

  /** The number of (lemma, form) pairs. */
  function PairCount(db: MorphDb): nat
  {
    if db == [] then 0 else PairCount(db[..|db| - 1]) + |db[|db| - 1].1|
  }

  /** What `db_stats` prints: the number of forms, the unseen ones, and the twenty buckets. */
  datatype FormStats = FormStats(total: int, unseen: int, freqs: seq<int>)

  const NoStats := FormStats(0, 0, seq(20, _ => 0))

  /** One form's count tallied. */
  function Tally(st: FormStats, c: int): FormStats
  {
    if c == 0 then FormStats(st.total + 1, st.unseen + 1, st.freqs)
    else
      match Bucket(c)
      case None => FormStats(st.total + 1, st.unseen, st.freqs)
      case Some(b) =>
        FormStats(st.total + 1, st.unseen, if b < |st.freqs| then st.freqs[b := st.freqs[b] + 1] else st.freqs)
  }

  /** Tally the counts, in order, on top of `st`. */
  function TallyAll(st: FormStats, counts: seq<int>): FormStats
  {
    if counts == [] then st else Tally(TallyAll(st, counts[..|counts| - 1]), counts[|counts| - 1])
  }

  /**
   * With no negative count, every form is counted once: as unseen or in
   * exactly one of the twenty buckets.
   */
  lemma {:induction false} StatsAddUp(counts: seq<int>)
    requires forall k | 0 <= k < |counts| :: counts[k] >= 0
    ensures var st := TallyAll(NoStats, counts);
      |st.freqs| == 20 && st.total == |counts| && st.unseen + SumOf(st.freqs) == st.total
  {
    if counts == [] {
      SumOfZeros(20);
    } else {
      var init := counts[..|counts| - 1];
      StatsAddUp(init);
      TallyOne(TallyAll(NoStats, init), counts[|counts| - 1]);
    }
  }

  /** Tallying a count that is not negative adds one form, as unseen or in one of the twenty buckets. */
  lemma TallyOne(st: FormStats, c: int)
    requires |st.freqs| == 20 && c >= 0
    ensures var next := Tally(st, c);
      |next.freqs| == 20 && next.total == st.total + 1
      && next.unseen + SumOf(next.freqs) == st.unseen + SumOf(st.freqs) + 1
  {
    if c != 0 {
      var b := 19 - if Log2(c) < 19 then Log2(c) else 19;
      assert Bucket(c) == Some(b);
      SumOfUpdate(st.freqs, b, st.freqs[b] + 1);
    }
  }

  /** Tallying a concatenation tallies the first part, then the second. */
  lemma {:induction false} TallyAllAppend(st: FormStats, xs: seq<int>, ys: seq<int>)
    ensures TallyAll(st, xs + ys) == TallyAll(TallyAll(st, xs), ys)
  {
    if ys != [] {
      assert (xs + ys)[..|xs + ys| - 1] == xs + ys[..|ys| - 1];
      TallyAllAppend(st, xs, ys[..|ys| - 1]);
    } else {
      assert xs + ys == xs;
    }
  }

  /** There is one summed count per (lemma, form) pair. */
  lemma {:induction false} FormCountsLength(db: MorphDb)
    ensures |FormCounts(db)| == PairCount(db)
  {
    if db != [] {
      FormCountsLength(db[..|db| - 1]);
    }
  }

  /**
   * `db_stats` counts every (lemma, form) pair once; with no negative
   * summed count, the unseen forms and the twenty buckets add up to them.
   */
  lemma DbStatsAddUp(db: MorphDb)
    requires forall k | 0 <= k < |FormCounts(db)| :: FormCounts(db)[k] >= 0
    ensures var st := TallyAll(NoStats, FormCounts(db));
      st.total == PairCount(db) && st.unseen + SumOf(st.freqs) == st.total
  {
    StatsAddUp(FormCounts(db));
    FormCountsLength(db);
  }

  lemma TallyNext(st: FormStats, forms: Forms, j: nat)
    requires j < |forms|
    ensures TallyAll(st, FormSums(forms[..j + 1])) == Tally(TallyAll(st, FormSums(forms[..j])), TagSum(forms[j].1))
  {
    assert forms[..j + 1][..j] == forms[..j];
    var sums := FormSums(forms[..j + 1]);
    assert sums[..|sums| - 1] == FormSums(forms[..j]);
  }

  /** The loop over one lemma's forms, tallying into `freqs` in place. */
  method TallyForms(forms: Forms, st: FormStats, freqs: array<int>) returns (total: int, unseen: int)
    requires freqs.Length == 20 && freqs[..] == st.freqs
    modifies freqs
    ensures FormStats(total, unseen, freqs[..]) == TallyAll(st, FormSums(forms))
  {
    total, unseen := st.total, st.unseen;
    var j := 0;
    while j < |forms|
      invariant 0 <= j <= |forms|
      invariant FormStats(total, unseen, freqs[..]) == TallyAll(st, FormSums(forms[..j]))
    {
      TallyNext(st, forms, j);
      ghost var before := FormStats(total, unseen, freqs[..]);
      var c := TagSum(forms[j].1);
      total := total + 1;
      if c == 0 {
        unseen := unseen + 1;
      } else {
        var b := BucketOf(c);
        if b.Some? {
          BucketMeaning(c);
          freqs[b.value] := freqs[b.value] + 1;
        }
      }
      assert FormStats(total, unseen, freqs[..]) == Tally(before, c);
      j := j + 1;
    }
    assert forms[..j] == forms;
  }

  /** `db_stats`: count the forms, the unseen ones, and the forms per power-of-two bucket. */
  method DbStats(db: MorphDb) returns (total: int, unseen: int, freqs: seq<int>)
    ensures FormStats(total, unseen, freqs) == TallyAll(NoStats, FormCounts(db))
  {
    total, unseen := 0, 0;
    var buckets := new int[20](_ => 0);
    var i := 0;
    while i < |db|
      invariant 0 <= i <= |db|
      invariant FormStats(total, unseen, buckets[..]) == TallyAll(NoStats, FormCounts(db[..i]))
    {
      assert db[..i + 1][..i] == db[..i];
      TallyAllAppend(NoStats, FormCounts(db[..i]), FormSums(db[i].1));
      total, unseen := TallyForms(db[i].1, FormStats(total, unseen, buckets[..]), buckets);
      i := i + 1;
    }
    assert db[..i] == db;
    freqs := buckets[..];
  }
}
