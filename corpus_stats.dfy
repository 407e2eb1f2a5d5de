/**
 * Attribute statistics over a vertical corpus: each token line holds three
 * tab-separated fields, the last a positional tag such as "k1gMnSc1" in which
 * an attribute letter is followed by its value. `attribute_stat` counts the
 * values of one attribute; `stat_tree` builds a tree of counts whose layers
 * are the values of several attributes in turn.
 */
module CorpusStats {
  import opened Wrappers
  import opened Text
  import opened OrderedMaps
  import opened Sums

  /** The tag of a token line: the third of exactly three tab fields; structure lines ("<...") have none. */
  function TagOf(line: string): Option<string>
  {
    if StartsWith(line, "<") then None
    else
      var fields := Split(line, "\t");
      if |fields| != 3 then None else Some(fields[2])
  }

  /** `tag[tag.index(attr) + 1]`, which raises IndexError when the first occurrence of `attr` ends the tag. */
  function ValueAfter(tag: string, attr: string): (r: Result<string>)
    requires Contains(tag, attr)
    ensures r.Ok? <==> Find(tag, attr) + 1 < |tag|
    ensures r.Ok? ==> |r.value| == 1
    ensures r.Ok? && |attr| == 1 ==> OccursAt(attr + r.value, tag, Find(tag, attr))
  {
    var i := Find(tag, attr);
    if i + 1 < |tag| then
      assert tag[i..i + 2] == tag[i..i + 1] + [tag[i + 1]];
      Ok([tag[i + 1]])
    else Err(IndexError)
  }

  // ---------------------------------------------------------------------------
  // attribute_stat
  // ---------------------------------------------------------------------------

  /** What one line contributes to `attribute_stat`: nothing, the value it counts, or the IndexError it raises. */
  function AttrValue(line: string, attr: string, subcategory: string): Option<Result<string>>
  {
    match TagOf(line)
    case None => None
    case Some(tag) =>
      if !Contains(tag, subcategory) || !Contains(tag, attr) then None
      else Some(ValueAfter(tag, attr))
  }

  /** `stats[val] = stats.get(val, 0) + 1` */
  function Tick(stats: OMap<string, int>, val: string): OMap<string, int>
  {
    Put(stats, val, GetOr(stats, val, 0) + 1)
  }

  /** What each line contributes to `attribute_stat`, in order. */
  function LineValues(lines: seq<string>, attr: string, subcategory: string): (vs: seq<Option<Result<string>>>)
    ensures |vs| == |lines| && forall i | 0 <= i < |lines| :: vs[i] == AttrValue(lines[i], attr, subcategory)
  {
    seq(|lines|, i requires 0 <= i < |lines| => AttrValue(lines[i], attr, subcategory))
  }

  /** One line of `attribute_stat`'s loop; an exception ends the loop for good. */
  function AttrStep(acc: Result<OMap<string, int>>, v: Option<Result<string>>): Result<OMap<string, int>>
  {
    if acc.Err? then acc
    else
      match v
      case None => acc
      case Some(Err(e)) => Err(e)
      case Some(Ok(val)) => Ok(Tick(acc.value, val))
  }

  /** The counter built from the lines' contributions, or the first error raised. */
  function CountValues(vs: seq<Option<Result<string>>>): Result<OMap<string, int>>
  {
    if vs == [] then Ok([]) else AttrStep(CountValues(vs[..|vs| - 1]), vs[|vs| - 1])
  }

  /** The counter `attribute_stat` returns for `lines`, or the error it raises. */
  function AttrStats(lines: seq<string>, attr: string, subcategory: string): Result<OMap<string, int>>
  {
    CountValues(LineValues(lines, attr, subcategory))
  }

  lemma CountValuesNext(vs: seq<Option<Result<string>>>, i: nat)
    requires i < |vs|
    ensures CountValues(vs[..i + 1]) == AttrStep(CountValues(vs[..i]), vs[i])
  {
    assert vs[..i + 1][..i] == vs[..i];
  }

  /** Once a prefix raises, the whole corpus raises the same error. */
  lemma {:induction false} CountErrorSticks(vs: seq<Option<Result<string>>>, i: nat)
    requires i <= |vs| && CountValues(vs[..i]).Err?
    ensures CountValues(vs) == CountValues(vs[..i])
    decreases |vs| - i
  {
    if i < |vs| {
      CountValuesNext(vs, i);
      CountErrorSticks(vs, i + 1);
    } else {
      assert vs[..i] == vs;
    }
  }

  /** The parsing of one line inside `attribute_stat`'s loop. */
  method ReadValue(line: string, attr: string, subcategory: string) returns (v: Option<Result<string>>)
    ensures v == AttrValue(line, attr, subcategory)
  {
    if StartsWith(line, "<") {
      return None;
    }
    var fields := Split(line, "\t");
    if |fields| != 3 {
      return None;
    }
    var tag := fields[2];
    if Find(tag, subcategory) < 0 || Find(tag, attr) < 0 {
      return None;
    }
    v := Some(ValueAfter(tag, attr));
  }

  /** `attribute_stat` over the lines of a corpus. */
  method AttributeStat(corpus: seq<string>, attr: string, subcategory: string) returns (r: Result<OMap<string, int>>)
    ensures r == AttrStats(corpus, attr, subcategory)
  {
    ghost var vs := LineValues(corpus, attr, subcategory);
    var stats: OMap<string, int> := [];
    for i := 0 to |corpus|
      invariant CountValues(vs[..i]) == Ok(stats)
    {
      CountValuesNext(vs, i);
      var v := ReadValue(corpus[i], attr, subcategory);
      match v {
        case None =>
        case Some(Err(e)) =>
          CountErrorSticks(vs, i + 1);
          return Err(e);
        case Some(Ok(val)) =>
          stats := Tick(stats, val);
      }
    }
    assert vs[..|corpus|] == vs;
    r := Ok(stats);
  }

  /** How many lines count `val`. */
  function ValueCount(vs: seq<Option<Result<string>>>, val: string): nat
  {
    if vs == [] then 0
    else ValueCount(vs[..|vs| - 1], val) + if vs[|vs| - 1] == Some(Ok(val)) then 1 else 0
  }

  /** How many lines count some value. */
  function Counted(vs: seq<Option<Result<string>>>): nat
  {
    if vs == [] then 0
    else Counted(vs[..|vs| - 1]) + if vs[|vs| - 1].Some? && vs[|vs| - 1].value.Ok? then 1 else 0
  }

  /** Adding one to a key of a map without repeated keys adds one to the total. */
  lemma TickSum(stats: OMap<string, int>, val: string)
    requires Distinct(stats)
    ensures Distinct(Tick(stats, val))
    ensures SumOf(Values(Tick(stats, val))) == SumOf(Values(stats)) + 1
  {
    PutDistinct(stats, val, GetOr(stats, val, 0) + 1);
    IndexOfKeys(stats, val);
    var i := IndexOf(stats, val);
    var r := Tick(stats, val);
    if i < 0 {
      assert Values(r) == Values(stats) + [1];
      SumOfSnoc(Values(stats), 1);
    } else {
      assert Values(r) == Values(stats)[i := stats[i].1 + 1];
      SumOfUpdate(Values(stats), i, stats[i].1 + 1);
    }
  }

  /**
   * What `attribute_stat` returns: every value counted is a key with the
   * number of lines that count it, and a value no line counts is absent.
   */
  lemma {:induction false} AttrStatsCounts(vs: seq<Option<Result<string>>>, val: string)
    requires CountValues(vs).Ok?
    ensures var n := ValueCount(vs, val);
      Get(CountValues(vs).value, val) == if n > 0 then Some(n) else None
  {
    if vs != [] {
      var init := vs[..|vs| - 1];
      var v := vs[|vs| - 1];
      assert CountValues(init).Ok?;
      AttrStatsCounts(init, val);
      var m := CountValues(init).value;
      if v.Some? && v.value.Ok? {
        var x := v.value.value;
        PutGet(m, x, GetOr(m, x, 0) + 1, val);
      }
    }
  }

  /** The counter of `attribute_stat` stores each value once, and its counts add up to the number of lines counted. */
  lemma {:induction false} AttrStatsTotal(vs: seq<Option<Result<string>>>)
    requires CountValues(vs).Ok?
    ensures Distinct(CountValues(vs).value)
    ensures SumOf(Values(CountValues(vs).value)) == Counted(vs)
  {
    if vs != [] {
      var init := vs[..|vs| - 1];
      var v := vs[|vs| - 1];
      assert CountValues(init).Ok?;
      AttrStatsTotal(init);
      if v.Some? && v.value.Ok? {
        TickSum(CountValues(init).value, v.value.value);
      }
    }
  }

  /** The line at `i` raises. */
  predicate FailsAt(vs: seq<Option<Result<string>>>, i: int)
  {
    0 <= i < |vs| && vs[i].Some? && vs[i].value.Err?
  }

  /** `attribute_stat` raises exactly when some line raises. */
  lemma {:induction false} AttrStatsFails(vs: seq<Option<Result<string>>>)
    ensures CountValues(vs).Err? <==> exists i :: FailsAt(vs, i)
  {
    if vs != [] {
      var init := vs[..|vs| - 1];
      AttrStatsFails(init);
      if CountValues(init).Ok? && CountValues(vs).Err? {
        assert FailsAt(vs, |vs| - 1);
      }
      if exists i :: FailsAt(init, i) {
        var i :| FailsAt(init, i);
        assert FailsAt(vs, i);
      }
      if exists i :: FailsAt(vs, i) {
        var i :| FailsAt(vs, i);
        if i < |init| {
          assert FailsAt(init, i);
        }
      }
    }
  }

  /** A structure line, a line without exactly three fields, or a tag lacking `subcategory` leaves the counter as it was. */
  lemma SkippedLine(lines: seq<string>, line: string, attr: string, subcategory: string)
    requires StartsWith(line, "<") || |Split(line, "\t")| != 3 || !Contains(Split(line, "\t")[2], subcategory)
    ensures AttrStats(lines + [line], attr, subcategory) == AttrStats(lines, attr, subcategory)
  {
    var vs := LineValues(lines + [line], attr, subcategory);
    assert vs[|lines|] == None;
    assert vs[..|lines|] == LineValues(lines, attr, subcategory);
  }

  // ---------------------------------------------------------------------------
  // stat_tree
  // ---------------------------------------------------------------------------

  /** A node of the frequency tree: its "count" and its "sub" tree. */
  datatype Node = Node(count: int, sub: seq<(string, Node)>)

  /** A layer of the tree: attribute letter plus value, to node. */
  type Tree = seq<(string, Node)>

  /** The keys the per-line walk visits: `attr + val` for each attribute in order, up to the first one absent from the tag. */
  function PathKeys(tag: string, attrs: seq<string>): Result<seq<string>>
  {
    if attrs == [] || !Contains(tag, attrs[0]) then Ok([])
    else
      match ValueAfter(tag, attrs[0])
      case Err(e) => Err(e)
      case Ok(val) =>
        var rest := PathKeys(tag, attrs[1..]);
        if rest.Err? then Err(rest.error) else Ok([attrs[0] + val] + rest.value)
  }

  /**
   * A successful walk visits the attributes in order, one key per attribute
   * that occurs in the tag, and stops at the first that does not.
   */
  lemma {:induction false} PathKeysWalk(tag: string, attrs: seq<string>)
    ensures var r := PathKeys(tag, attrs);
      r.Ok? ==> (
        && |r.value| <= |attrs|
        && (forall i | 0 <= i < |r.value| ::
              Contains(tag, attrs[i]) && ValueAfter(tag, attrs[i]).Ok? && r.value[i] == attrs[i] + ValueAfter(tag, attrs[i]).value)
        && (|r.value| < |attrs| ==> !Contains(tag, attrs[|r.value|])))
  {
    if attrs != [] && Contains(tag, attrs[0]) && ValueAfter(tag, attrs[0]).Ok? {
      var rest := attrs[1..];
      PathKeysWalk(tag, rest);
      var r := PathKeys(tag, attrs);
      if r.Ok? {
        var tail := PathKeys(tag, rest).value;
        assert r.value == [attrs[0] + ValueAfter(tag, attrs[0]).value] + tail;
        forall i | 1 <= i < |r.value|
          ensures Contains(tag, attrs[i]) && ValueAfter(tag, attrs[i]).Ok? && r.value[i] == attrs[i] + ValueAfter(tag, attrs[i]).value
        {
          assert attrs[i] == rest[i - 1] && r.value[i] == tail[i - 1];
        }
        if |r.value| < |attrs| {
          assert attrs[|r.value|] == rest[|tail|];
        }
      }
    }
  }

  /** The walk gets as far as attribute `i`: it and every earlier one occur in the tag. */
  predicate Reaches(tag: string, attrs: seq<string>, i: int)
  {
    0 <= i < |attrs| && forall j | 0 <= j <= i :: Contains(tag, attrs[j])
  }

  /** A walk raises exactly when it reaches an attribute whose first occurrence ends the tag. */
  lemma {:induction false} PathKeysFails(tag: string, attrs: seq<string>)
    ensures PathKeys(tag, attrs).Err? <==> exists i :: Reaches(tag, attrs, i) && ValueAfter(tag, attrs[i]).Err?
  {
    if attrs != [] && Contains(tag, attrs[0]) {
      if ValueAfter(tag, attrs[0]).Err? {
        assert Reaches(tag, attrs, 0);
      } else {
        PathKeysFails(tag, attrs[1..]);
        if exists i :: Reaches(tag, attrs[1..], i) && ValueAfter(tag, attrs[1..][i]).Err? {
          var i :| Reaches(tag, attrs[1..], i) && ValueAfter(tag, attrs[1..][i]).Err?;
          assert Reaches(tag, attrs, i + 1) by {
            forall j | 0 <= j <= i + 1 ensures Contains(tag, attrs[j]) {
              if j > 0 {
                assert attrs[j] == attrs[1..][j - 1];
              }
            }
          }
        }
        if exists i :: Reaches(tag, attrs, i) && ValueAfter(tag, attrs[i]).Err? {
          var i :| Reaches(tag, attrs, i) && ValueAfter(tag, attrs[i]).Err?;
          assert i > 0;
          assert Reaches(tag, attrs[1..], i - 1) by {
            forall j | 0 <= j <= i - 1 ensures Contains(tag, attrs[1..][j]) {
              assert attrs[1..][j] == attrs[j + 1];
            }
          }
        }
      }
    }
  }

  /** What one line contributes to `stat_tree`: nothing when it is skipped, else the keys it walks or the error it raises. */
  function LineKeys(line: string, attrs: seq<string>, constraints: seq<string>): Option<Result<seq<string>>>
  {
    match TagOf(line)
    case None => None
    case Some(tag) =>
      if exists c | c in constraints :: !Contains(tag, c) then None
      else Some(PathKeys(tag, attrs))
  }

  /** One line's walk down the tree: each visited node's count goes up by one, and a missing node starts at zero. */
  function Insert(t: Tree, keys: seq<string>): Tree
    decreases |keys|
  {
    if keys == [] then t
    else
      var n := GetOr(t, keys[0], Node(0, []));
      Put(t, keys[0], Node(n.count + 1, Insert(n.sub, keys[1..])))
  }

  /** What each line contributes to `stat_tree`, in order. */
  function AllKeys(lines: seq<string>, attrs: seq<string>, constraints: seq<string>): (ks: seq<Option<Result<seq<string>>>>)
    ensures |ks| == |lines| && forall i | 0 <= i < |lines| :: ks[i] == LineKeys(lines[i], attrs, constraints)
  {
    seq(|lines|, i requires 0 <= i < |lines| => LineKeys(lines[i], attrs, constraints))
  }

  /** One line of `stat_tree`'s loop; an exception ends the loop for good. */
  function TreeStep(acc: Result<Tree>, keys: Option<Result<seq<string>>>): Result<Tree>
  {
    if acc.Err? then acc
    else
      match keys
      case None => acc
      case Some(Err(e)) => Err(e)
      case Some(Ok(ks)) => Ok(Insert(acc.value, ks))
  }

  /** The tree built from the lines' walks, or the first error raised. */
  function TreeOf(walks: seq<Option<Result<seq<string>>>>): Result<Tree>
  {
    if walks == [] then Ok([]) else TreeStep(TreeOf(walks[..|walks| - 1]), walks[|walks| - 1])
  }

  /** The tree `stat_tree` returns, or the error it raises; no attributes give the empty tree. */
  function StatTreeOf(lines: seq<string>, attrs: seq<string>, constraints: seq<string>): Result<Tree>
  {
    if attrs == [] then Ok([]) else TreeOf(AllKeys(lines, attrs, constraints))
  }

  lemma TreeOfNext(walks: seq<Option<Result<seq<string>>>>, i: nat)
    requires i < |walks|
    ensures TreeOf(walks[..i + 1]) == TreeStep(TreeOf(walks[..i]), walks[i])
  {
    assert walks[..i + 1][..i] == walks[..i];
  }

  lemma {:induction false} TreeErrorSticks(walks: seq<Option<Result<seq<string>>>>, i: nat)
    requires i <= |walks| && TreeOf(walks[..i]).Err?
    ensures TreeOf(walks) == TreeOf(walks[..i])
    decreases |walks| - i
  {
    if i < |walks| {
      TreeOfNext(walks, i);
      TreeErrorSticks(walks, i + 1);
    } else {
      assert walks[..i] == walks;
    }
  }

  /** `Ok(ks + rest)` when the rest of the walk succeeds. */
  function Prepend(ks: seq<string>, rest: Result<seq<string>>): Result<seq<string>>
  {
    if rest.Err? then rest else Ok(ks + rest.value)
  }

  /** One attribute of the walk from position `i` on. */
  lemma PathKeysStep(tag: string, attrs: seq<string>, i: nat)
    requires i < |attrs| && Contains(tag, attrs[i]) && ValueAfter(tag, attrs[i]).Ok?
    ensures PathKeys(tag, attrs[i..]) == Prepend([attrs[i] + ValueAfter(tag, attrs[i]).value], PathKeys(tag, attrs[i + 1..]))
  {
    assert attrs[i..][0] == attrs[i] && attrs[i..][1..] == attrs[i + 1..];
  }

  /** The inner loop of `stat_tree`: walk the attributes in order until one is absent from the tag. */
  method WalkKeys(tag: string, attrs: seq<string>) returns (r: Result<seq<string>>)
    ensures r == PathKeys(tag, attrs)
  {
    var keys: seq<string> := [];
    var i := 0;
    assert attrs[0..] == attrs;
    assert PathKeys(tag, attrs).Ok? ==> [] + PathKeys(tag, attrs).value == PathKeys(tag, attrs).value;
    while i < |attrs|
      invariant i <= |attrs|
      invariant PathKeys(tag, attrs) == Prepend(keys, PathKeys(tag, attrs[i..]))
    {
      if Find(tag, attrs[i]) < 0 {
        assert PathKeys(tag, attrs[i..]) == Ok([]);
        break;
      }
      var val := ValueAfter(tag, attrs[i]);
      if val.Err? {
        assert PathKeys(tag, attrs[i..]) == Err(val.error);
        return Err(val.error);
      }
      PathKeysStep(tag, attrs, i);
      ghost var rest := PathKeys(tag, attrs[i + 1..]);
      assert rest.Ok? ==> keys + ([attrs[i] + val.value] + rest.value) == (keys + [attrs[i] + val.value]) + rest.value;
      keys := keys + [attrs[i] + val.value];
      i := i + 1;
    }
    if i == |attrs| {
      assert attrs[i..] == [];
    }
    assert keys + [] == keys;
    r := Ok(keys);
  }

  /** The parsing of one line inside `stat_tree`'s loop. */
  method ReadKeys(line: string, attrs: seq<string>, constraints: seq<string>) returns (r: Option<Result<seq<string>>>)
    ensures r == LineKeys(line, attrs, constraints)
  {
    if StartsWith(line, "<") {
      return None;
    }
    var fields := Split(line, "\t");
    if |fields| != 3 {
      return None;
    }
    var tag := fields[2];
    for k := 0 to |constraints|
      invariant forall c | c in constraints[..k] :: Contains(tag, c)
    {
      if Find(tag, constraints[k]) < 0 {
        return None;
      }
    }
    assert constraints[..|constraints|] == constraints;
    var keys := WalkKeys(tag, attrs);
    r := Some(keys);
  }

  /** `stat_tree` over the lines of a corpus. */
  method StatTree(corpus: seq<string>, attrs: seq<string>, constraints: seq<string>) returns (r: Result<Tree>)
    ensures r == StatTreeOf(corpus, attrs, constraints)
  {
    if attrs == [] {
      return Ok([]);
    }
    ghost var walks := AllKeys(corpus, attrs, constraints);
    var tree: Tree := [];
    for i := 0 to |corpus|
      invariant TreeOf(walks[..i]) == Ok(tree)
    {
      TreeOfNext(walks, i);
      var keys := ReadKeys(corpus[i], attrs, constraints);
      match keys {
        case None =>
        case Some(Err(e)) =>
          TreeErrorSticks(walks, i + 1);
          return Err(e);
        case Some(Ok(ks)) =>
          tree := Insert(tree, ks);
      }
    }
    assert walks[..|corpus|] == walks;
    r := Ok(tree);
  }

  // ---------------------------------------------------------------------------
  // Properties of the tree
  // ---------------------------------------------------------------------------

  function Counts(t: Tree): (cs: seq<int>)
    ensures |cs| == |t| && forall i | 0 <= i < |t| :: cs[i] == t[i].1.count
  {
    seq(|t|, i requires 0 <= i < |t| => t[i].1.count)
  }

  /** The sum of the counts of a layer. */
  function TreeSum(t: Tree): int
  {
    SumOf(Counts(t))
  }

  /**
   * A well-formed tree of at most `depth` layers: no key twice in a layer,
   * and every node well formed.
   */
  predicate Valid(t: Tree, depth: nat)
    decreases depth, 1
  {
    if depth == 0 then t == []
    else Distinct(t) && forall i | 0 <= i < |t| :: NodeOk(t[i].1, depth)
  }

  /** A node on a layer of a tree of `depth` layers: counted at least once, at least as often as its children together. */
  predicate NodeOk(n: Node, depth: nat)
    decreases depth, 0
  {
    depth > 0 && 1 <= n.count && TreeSum(n.sub) <= n.count && Valid(n.sub, depth - 1)
  }

  /** The node a walk finds under `k`, or the fresh one it starts. */
  lemma ChildOf(t: Tree, depth: nat, k: string)
    requires Valid(t, depth) && depth > 0
    ensures var n := GetOr(t, k, Node(0, []));
      0 <= n.count && TreeSum(n.sub) <= n.count && Valid(n.sub, depth - 1)
  {
    IndexOfKeys(t, k);
    var i := IndexOf(t, k);
    if i >= 0 {
      assert NodeOk(t[i].1, depth);
    } else {
      assert TreeSum([]) == 0;
    }
  }

  /** Putting a well-formed node into a well-formed layer keeps it well formed. */
  lemma PutValid(t: Tree, depth: nat, k: string, n: Node)
    requires Valid(t, depth) && NodeOk(n, depth)
    ensures Valid(Put(t, k, n), depth)
  {
    PutDistinct(t, k, n);
    var r := Put(t, k, n);
    forall j | 0 <= j < |r|
      ensures NodeOk(r[j].1, depth)
    {
      PutEntries(t, k, n);
    }
  }

  /** The count of the node that `path` leads to, or 0 when there is none. */
  function CountAt(t: Tree, path: seq<string>): int
    requires path != []
    decreases |path|
  {
    match Get(t, path[0])
    case None => 0
    case Some(n) => if |path| == 1 then n.count else CountAt(n.sub, path[1..])
  }

  predicate IsPrefix(path: seq<string>, keys: seq<string>)
  {
    |path| <= |keys| && keys[..|path|] == path
  }

  /** Putting a node into a layer changes the layer's sum by the difference of the counts. */
  lemma PutSum(t: Tree, k: string, n: Node)
    requires Distinct(t)
    ensures TreeSum(Put(t, k, n)) == TreeSum(t) - GetOr(t, k, Node(0, [])).count + n.count
  {
    IndexOfKeys(t, k);
    var i := IndexOf(t, k);
    if i < 0 {
      assert Counts(Put(t, k, n)) == Counts(t) + [n.count];
      SumOfSnoc(Counts(t), n.count);
    } else {
      assert Counts(Put(t, k, n)) == Counts(t)[i := n.count];
      SumOfUpdate(Counts(t), i, n.count);
    }
  }

  /** A walk that visits any node adds one to the sum of the top layer. */
  lemma InsertSum(t: Tree, keys: seq<string>)
    requires Distinct(t)
    ensures TreeSum(Insert(t, keys)) == TreeSum(t) + if keys == [] then 0 else 1
  {
    if keys != [] {
      var n := GetOr(t, keys[0], Node(0, []));
      PutSum(t, keys[0], Node(n.count + 1, Insert(n.sub, keys[1..])));
    }
  }

  /** A walk of at most `depth` keys keeps a tree of `depth` layers well formed. */
  lemma {:induction false} InsertValid(t: Tree, depth: nat, keys: seq<string>)
    requires Valid(t, depth) && |keys| <= depth
    ensures Valid(Insert(t, keys), depth)
    decreases |keys|
  {
    if keys != [] {
      var k := keys[0];
      var n := GetOr(t, k, Node(0, []));
      ChildOf(t, depth, k);
      InsertValid(n.sub, depth - 1, keys[1..]);
      if depth > 1 {
        InsertSum(n.sub, keys[1..]);
      } else {
        assert Insert(n.sub, keys[1..]) == [];
        assert TreeSum([]) == 0;
      }
      var node := Node(n.count + 1, Insert(n.sub, keys[1..]));
      assert NodeOk(node, depth);
      PutValid(t, depth, k, node);
    }
  }

  /** A path leads along the keys exactly when its head is theirs and its tail leads along the rest. */
  lemma PrefixCons(path: seq<string>, keys: seq<string>)
    requires path != [] && keys != []
    ensures IsPrefix(path, keys) <==> path[0] == keys[0] && (|path| == 1 || IsPrefix(path[1..], keys[1..]))
  {
    if IsPrefix(path, keys) {
      assert keys[..|path|][0] == keys[0];
      if |path| > 1 {
        assert keys[1..][..|path| - 1] == keys[..|path|][1..];
      }
    }
    if path[0] == keys[0] && (|path| == 1 || IsPrefix(path[1..], keys[1..])) {
      if |path| == 1 {
        assert keys[..1] == [keys[0]];
      } else {
        assert keys[..|path|] == [keys[0]] + keys[1..][..|path| - 1];
      }
    }
  }

  /** The count `path` leads to, one layer at a time. */
  lemma CountAtGet(t: Tree, path: seq<string>)
    requires path != []
    ensures Get(t, path[0]).None? ==> CountAt(t, path) == 0
    ensures Get(t, path[0]).Some? && |path| == 1 ==> CountAt(t, path) == Get(t, path[0]).value.count
    ensures Get(t, path[0]).Some? && |path| > 1 ==> CountAt(t, path) == CountAt(Get(t, path[0]).value.sub, path[1..])
  {
  }

  /** One line's walk adds one to exactly the nodes along its keys, and leaves every other count as it was. */
  lemma {:induction false} InsertCountAt(t: Tree, keys: seq<string>, path: seq<string>)
    requires path != []
    ensures CountAt(Insert(t, keys), path) == CountAt(t, path) + if IsPrefix(path, keys) then 1 else 0
    decreases |keys|
  {
    if keys != [] {
      var k := keys[0];
      var n := GetOr(t, k, Node(0, []));
      var node := Node(n.count + 1, Insert(n.sub, keys[1..]));
      var r := Insert(t, keys);
      assert r == Put(t, k, node);
      PutGet(t, k, node, path[0]);
      PrefixCons(path, keys);
      CountAtGet(t, path);
      CountAtGet(r, path);
      if path[0] == k && |path| > 1 {
        InsertCountAt(n.sub, keys[1..], path[1..]);
        if Get(t, k).None? {
          assert n.sub == [];
          CountAtGet([], path[1..]);
        }
      }
    }
  }

  /** How many accepted lines walk down through `path`. */
  function PathHits(walks: seq<Option<Result<seq<string>>>>, path: seq<string>): nat
  {
    if walks == [] then 0
    else
      var w := walks[|walks| - 1];
      PathHits(walks[..|walks| - 1], path) + if w.Some? && w.value.Ok? && IsPrefix(path, w.value.value) then 1 else 0
  }

  /** How many accepted lines visit at least one node. */
  function Walked(walks: seq<Option<Result<seq<string>>>>): nat
  {
    if walks == [] then 0
    else
      var w := walks[|walks| - 1];
      Walked(walks[..|walks| - 1]) + if w.Some? && w.value.Ok? && w.value.value != [] then 1 else 0
  }

  /** No walk is longer than `depth`. */
  predicate Bounded(walks: seq<Option<Result<seq<string>>>>, depth: nat)
  {
    forall i | 0 <= i < |walks| :: walks[i].Some? && walks[i].value.Ok? ==> |walks[i].value.value| <= depth
  }

  /** No line walks further than there are attributes. */
  lemma AllKeysBounded(lines: seq<string>, attrs: seq<string>, constraints: seq<string>)
    ensures Bounded(AllKeys(lines, attrs, constraints), |attrs|)
  {
    var walks := AllKeys(lines, attrs, constraints);
    forall i | 0 <= i < |walks| && walks[i].Some? && walks[i].value.Ok?
      ensures |walks[i].value.value| <= |attrs|
    {
      PathKeysWalk(TagOf(lines[i]).value, attrs);
    }
  }

  /**
   * What `stat_tree` builds from the lines' walks: a well-formed tree no
   * deeper than the longest walk allows, whose top layer sums to the number
   * of lines that visit a node, and in which the node reached by a path
   * counts exactly the accepted lines whose walk passes through it.
   */
  lemma {:induction false} StatTreeCounts(walks: seq<Option<Result<seq<string>>>>, depth: nat, path: seq<string>)
    requires TreeOf(walks).Ok? && Bounded(walks, depth) && path != []
    ensures var t := TreeOf(walks).value;
      && Valid(t, depth)
      && TreeSum(t) == Walked(walks)
      && CountAt(t, path) == PathHits(walks, path)
  {
    if walks != [] {
      var init := walks[..|walks| - 1];
      assert TreeOf(init).Ok?;
      assert Bounded(init, depth);
      StatTreeCounts(init, depth, path);
      var t := TreeOf(init).value;
      match walks[|walks| - 1] {
        case None =>
        case Some(Ok(ks)) =>
          InsertValid(t, depth, ks);
          if depth > 0 {
            InsertSum(t, ks);
          }
          InsertCountAt(t, ks, path);
      }
    } else {
      assert TreeSum([]) == 0;
    }
  }

  /** A line whose tag misses one of the constraints leaves the tree as it was. */
  lemma ConstraintMissing(lines: seq<string>, line: string, attrs: seq<string>, constraints: seq<string>, c: string)
    requires TagOf(line).Some? && c in constraints && !Contains(TagOf(line).value, c)
    ensures StatTreeOf(lines + [line], attrs, constraints) == StatTreeOf(lines, attrs, constraints)
  {
    var walks := AllKeys(lines + [line], attrs, constraints);
    assert walks[|lines|] == None;
    assert walks[..|lines|] == AllKeys(lines, attrs, constraints);
  }
}
