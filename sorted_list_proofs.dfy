/**
 * What the sorted-list operations do to a well-formed list: one whose cells,
 * followed from `first` by right links, form a chain of distinct cells that
 * ends at `last`, whose left links mirror the right ones, and whose length
 * is the chain's.
 */
module SortedListProofs {
  import opened Wrappers
  import opened SortedLists

  function Head(c: seq<int>): int { if c == [] then NIL else c[0] }

  function Tail(c: seq<int>): int { if c == [] then NIL else c[|c| - 1] }

  /** Every index of `c` is a cell of the arena. */
  predicate InArena(cells: seq<Cell>, c: seq<int>)
  {
    forall k | 0 <= k < |c| :: 0 <= c[k] < |cells|
  }

  /** No cell occurs twice in `c`. */
  predicate Distinct(c: seq<int>)
  {
    forall i, j | 0 <= i < j < |c| :: c[i] != c[j]
  }

  /** Each cell of `c` links right to the next one, the last to nothing. */
  predicate RightLinks(cells: seq<Cell>, c: seq<int>)
    requires InArena(cells, c)
  {
    (forall k | 0 <= k < |c| - 1 :: cells[c[k]].right == c[k + 1])
    && (c != [] ==> cells[c[|c| - 1]].right == NIL)
  }

  /** Each cell of `c` links left to the one before, the first to nothing. */
  predicate LeftLinks(cells: seq<Cell>, c: seq<int>)
    requires InArena(cells, c)
  {
    (forall k | 0 < k < |c| :: cells[c[k]].left == c[k - 1])
    && (c != [] ==> cells[c[0]].left == NIL)
  }

  /**
   * `c` is a chain of distinct cells linked both ways, with no neighbour
   * before its first cell or after its last (a chain of distinct cells is
   * never longer than the arena).
   */
  predicate Links(cells: seq<Cell>, c: seq<int>)
  {
    InArena(cells, c) && |c| <= |cells| && Distinct(c) && RightLinks(cells, c) && LeftLinks(cells, c)
  }

  /** The list is exactly the chain `c`. */
  predicate ChainOf(s: ListState, c: seq<int>)
  {
    Links(s.cells, c) && s.first == Head(c) && s.last == Tail(c) && s.length == |c|
  }

  /** The entries along the chain. */
  function Contents(cells: seq<Cell>, c: seq<int>): (es: seq<Entry>)
    requires InArena(cells, c)
    ensures |es| == |c| && forall k | 0 <= k < |c| :: es[k] == cells[c[k]].entry
  {
    seq(|c|, k requires 0 <= k < |c| => cells[c[k]].entry)
  }

  /** No entry is greater than the one before it. */
  predicate Sorted(es: seq<Entry>)
  {
    forall k | 0 <= k < |es| - 1 :: !Gt(es[k + 1], es[k])
  }

  /**
   * Where the source puts entry `e`: right after the nearest entry, counted
   * from the tail, that is greater than `e`, or at the head when none is.
   */
  function InsertAt(es: seq<Entry>, e: Entry): (p: nat)
    ensures p <= |es|
    ensures p > 0 ==> Gt(es[p - 1], e)
    ensures forall k | p <= k < |es| :: !Gt(es[k], e)
  {
    if es == [] then 0
    else if Gt(es[|es| - 1], e) then |es|
    else InsertAt(es[..|es| - 1], e)
  }

  // ---------------------------------------------------------------------
  // Order facts

  /** In a sorted sequence no entry is greater than any before it. */
  lemma {:induction false} SortedGlobal(es: seq<Entry>, i: nat, j: nat)
    requires Sorted(es) && i <= j < |es|
    ensures !Gt(es[j], es[i])
    decreases j - i
  {
    if i < j {
      SortedGlobal(es, i, j - 1);
    }
  }

  /**
   * In a sorted sequence every entry before the insertion point is greater
   * than `e`: the greater entries are a prefix.
   */
  lemma InsertAtSorted(es: seq<Entry>, e: Entry)
    requires Sorted(es)
    ensures forall k | 0 <= k < InsertAt(es, e) :: Gt(es[k], e)
  {
    var p := InsertAt(es, e);
    forall k | 0 <= k < p ensures Gt(es[k], e) {
      SortedGlobal(es, k, p - 1);
    }
  }

  /** Inserting at the insertion point keeps a sorted sequence sorted. */
  lemma InsertKeepsSorted(es: seq<Entry>, e: Entry)
    requires Sorted(es)
    ensures var p := InsertAt(es, e); Sorted(es[..p] + [e] + es[p..])
  {
    var p := InsertAt(es, e);
    var r := es[..p] + [e] + es[p..];
    forall k | 0 <= k < |r| - 1 ensures !Gt(r[k + 1], r[k]) {
      if k + 1 < p || k > p {
      } else if k + 1 == p {
      } else {
      }
    }
  }

  // ---------------------------------------------------------------------
  // Walks along a chain

  lemma ContentsPrefix(cells: seq<Cell>, c: seq<int>, k: nat)
    requires InArena(cells, c) && k <= |c|
    ensures InArena(cells, c[..k]) && Contents(cells, c[..k]) == Contents(cells, c)[..k]
  {
  }

  /**
   * Walking left along a chain from its `k`-th cell for a cell greater than
   * `x` finds the cell just before the insertion point of `x` among the
   * first `k + 1` entries, and none when that point is the head.
   */
  lemma {:induction false} ScanLeftChain(cells: seq<Cell>, c: seq<int>, k: nat, x: Entry, fuel: nat)
    requires LinkedCells(cells) && InArena(cells, c) && LeftLinks(cells, c) && k < |c| && fuel > k
    ensures var p := InsertAt(Contents(cells, c)[..k + 1], x);
      ScanLeft(cells, c[k], x, fuel) == if p == 0 then NotFound else Found(c[p - 1])
  {
    var es := Contents(cells, c);
    var s := es[..k + 1];
    assert s[k] == es[k] == cells[c[k]].entry;
    if !Gt(es[k], x) {
      assert s[..k] == es[..k];
      assert InsertAt(s, x) == InsertAt(es[..k], x);
      if k > 0 {
        assert cells[c[k]].left == c[k - 1];
        ScanLeftChain(cells, c, k - 1, x, fuel - 1);
      }
    }
  }

  /**
   * Walking right along a chain from its `j`-th cell (or from nothing, past
   * its end) for a cell named `name` finds the first such cell at or after
   * `j`, and none when there is none.
   */
  lemma {:induction false} ScanRightChain(cells: seq<Cell>, c: seq<int>, j: nat, name: string, fuel: nat)
    requires LinkedCells(cells) && InArena(cells, c) && RightLinks(cells, c) && j <= |c| && fuel >= |c| - j
    ensures var cur := if j == |c| then NIL else c[j];
      ScanRight(cells, cur, name, fuel) ==
        if exists k | j <= k < |c| :: cells[c[k]].entry.name == name
        then Found(c[FirstNamed(cells, c, j, name)])
        else NotFound
    decreases |c| - j
  {
    if j < |c| && cells[c[j]].entry.name != name {
      ScanRightChain(cells, c, j + 1, name, fuel - 1);
    }
  }

  /** The first position at or after `j` whose cell is named `name`. */
  function FirstNamed(cells: seq<Cell>, c: seq<int>, j: nat, name: string): (k: nat)
    requires InArena(cells, c) && j <= |c| && exists k | j <= k < |c| :: cells[c[k]].entry.name == name
    ensures j <= k < |c| && cells[c[k]].entry.name == name
    ensures forall i | j <= i < k :: cells[c[i]].entry.name != name
    decreases |c| - j
  {
    if cells[c[j]].entry.name == name then j else FirstNamed(cells, c, j + 1, name)
  }

  // ---------------------------------------------------------------------
  // Splicing a cell into a chain

  /**
   * `cells2` is `cells` with cell `x` spliced into chain `c` at position
   * `p`: `x` links to its new neighbours, they link to `x`, and every other
   * cell, and every entry, is as it was.
   */
  predicate Spliced(cells: seq<Cell>, cells2: seq<Cell>, c: seq<int>, p: nat, x: nat)
    requires InArena(cells, c) && p <= |c| && x < |cells|
  {
    |cells2| == |cells|
    && (forall i | 0 <= i < |cells| :: cells2[i].entry == cells[i].entry)
    && cells2[x].left == (if p == 0 then NIL else c[p - 1])
    && cells2[x].right == (if p == |c| then NIL else c[p])
    && (p > 0 ==> cells2[c[p - 1]].right == x && cells2[c[p - 1]].left == cells[c[p - 1]].left)
    && (p < |c| ==> cells2[c[p]].left == x && cells2[c[p]].right == cells[c[p]].right)
    && (forall i | 0 <= i < |cells| && i != x && (p == 0 || i != c[p - 1]) && (p == |c| || i != c[p])
          :: cells2[i] == cells[i])
  }

  lemma SpliceRight(cells: seq<Cell>, cells2: seq<Cell>, c: seq<int>, p: nat, x: nat)
    requires Links(cells, c) && |c| < |cells| && p <= |c| && x < |cells| && x !in c
    requires Spliced(cells, cells2, c, p, x)
    ensures var c2 := c[..p] + [x] + c[p..]; InArena(cells2, c2) && RightLinks(cells2, c2)
  {
    var c2 := c[..p] + [x] + c[p..];
    forall k | 0 <= k < |c2| - 1 ensures cells2[c2[k]].right == c2[k + 1] {
      if k < p - 1 {
        assert c2[k] == c[k] && c2[k + 1] == c[k + 1];
      } else if k == p - 1 {
      } else if k == p {
      } else {
        assert c2[k] == c[k - 1] && c2[k + 1] == c[k];
      }
    }
  }

  lemma SpliceLeft(cells: seq<Cell>, cells2: seq<Cell>, c: seq<int>, p: nat, x: nat)
    requires Links(cells, c) && |c| < |cells| && p <= |c| && x < |cells| && x !in c
    requires Spliced(cells, cells2, c, p, x)
    ensures var c2 := c[..p] + [x] + c[p..]; InArena(cells2, c2) && LeftLinks(cells2, c2)
  {
    var c2 := c[..p] + [x] + c[p..];
    forall k | 0 < k < |c2| ensures cells2[c2[k]].left == c2[k - 1] {
      if k < p {
        assert c2[k] == c[k] && c2[k - 1] == c[k - 1];
      } else if k == p {
      } else if k == p + 1 {
      } else {
        assert c2[k] == c[k - 1] && c2[k - 1] == c[k - 2];
      }
    }
  }

  lemma SpliceDistinct(c: seq<int>, p: nat, x: int)
    requires Distinct(c) && p <= |c| && x !in c
    ensures Distinct(c[..p] + [x] + c[p..])
  {
    var c2 := c[..p] + [x] + c[p..];
    forall i, j | 0 <= i < j < |c2| ensures c2[i] != c2[j] {
      if j < p {
      } else if i > p {
        assert c2[i] == c[i - 1] && c2[j] == c[j - 1];
      } else if i < p && j > p {
        assert c2[i] == c[i] && c2[j] == c[j - 1];
      }
    }
  }

  /** The entries along a spliced chain: the old ones with the new cell's entry at position `p`. */
  lemma SpliceContents(cells: seq<Cell>, cells2: seq<Cell>, c: seq<int>, p: nat, x: nat)
    requires InArena(cells, c) && p <= |c| && x < |cells| && |cells2| == |cells|
    requires forall i | 0 <= i < |cells| :: cells2[i].entry == cells[i].entry
    ensures var c2 := c[..p] + [x] + c[p..];
      InArena(cells2, c2)
      && Contents(cells2, c2) == Contents(cells, c)[..p] + [cells[x].entry] + Contents(cells, c)[p..]
  {
    var c2 := c[..p] + [x] + c[p..];
    var es := Contents(cells, c);
    var es2 := es[..p] + [cells[x].entry] + es[p..];
    assert InArena(cells2, c2);
    assert |Contents(cells2, c2)| == |es2|;
    forall k | 0 <= k < |c2| ensures Contents(cells2, c2)[k] == es2[k] {
      if k > p {
        assert c2[k] == c[k - 1];
      }
    }
  }

  /** Splicing a cell into a chain gives the longer chain, with its entry at position `p`. */
  lemma InsertLinks(cells: seq<Cell>, cells2: seq<Cell>, c: seq<int>, p: nat, x: nat)
    requires Links(cells, c) && |c| < |cells| && p <= |c| && x < |cells| && x !in c
    requires Spliced(cells, cells2, c, p, x)
    ensures var c2 := c[..p] + [x] + c[p..];
      Links(cells2, c2)
      && Contents(cells2, c2) == Contents(cells, c)[..p] + [cells[x].entry] + Contents(cells, c)[p..]
  {
    SpliceRight(cells, cells2, c, p, x);
    SpliceLeft(cells, cells2, c, p, x);
    SpliceDistinct(c, p, x);
    SpliceContents(cells, cells2, c, p, x);
  }

  /** A chain keeps its links and entries when a cell is appended to the arena. */
  lemma LinksGrow(cells: seq<Cell>, cell: Cell, c: seq<int>)
    requires Links(cells, c)
    ensures Links(cells + [cell], c) && Contents(cells + [cell], c) == Contents(cells, c)
  {
    var cells' := cells + [cell];
    assert forall i | 0 <= i < |cells| :: cells'[i] == cells[i];
  }

  // ---------------------------------------------------------------------
  // add

  /** The writes of `add` after a greater tail splice the new cell in at the end. */
  lemma AddAfterTailSplices(cells: seq<Cell>, c: seq<int>, x: nat)
    requires Links(cells, c) && c != [] && x < |cells| && x !in c
    requires cells[x].left == NIL && cells[x].right == NIL
    ensures var t := c[|c| - 1]; Spliced(cells, SetLeft(SetRight(cells, t, x), x, t), c, |c|, x)
  {
  }

  /** The writes of `add` after a greater inner cell `c[p - 1]` splice the new cell in at `p`. */
  lemma AddInsideSplices(cells: seq<Cell>, c: seq<int>, x: nat, p: nat)
    requires Links(cells, c) && 0 < p < |c| && x < |cells| && x !in c
    ensures var cur := c[p - 1];
      var c1 := SetLeft(SetRight(cells, x, cells[cur].right), x, cur);
      var r := c1[cur].right;
      r == c[p] && Spliced(cells, SetRight(SetLeft(c1, r, x), cur, x), c, p, x)
  {
  }

  /** The writes of `add` in front of the head splice the new cell in at position 0. */
  lemma AddAtHeadSplices(cells: seq<Cell>, c: seq<int>, x: nat)
    requires Links(cells, c) && c != [] && x < |cells| && x !in c
    requires cells[x].left == NIL
    ensures Spliced(cells, SetLeft(SetRight(cells, x, c[0]), c[0], x), c, 0, x)
  {
  }

  /**
   * `r` is `s` with a cell holding `e`, at arena index `|s.cells|`, spliced
   * into chain `c` at the insertion point of `e`, and no error.
   */
  predicate AddedAtInsertionPoint(s: ListState, c: seq<int>, e: Entry, r: (ListState, Status))
    requires InArena(s.cells, c)
  {
    var es := Contents(s.cells, c);
    var p := InsertAt(es, e);
    var c2 := c[..p] + [|s.cells|] + c[p..];
    r.1 == Done && ChainOf(r.0, c2) && Contents(r.0.cells, c2) == es[..p] + [e] + es[p..]
  }

  lemma AddToEmpty(s: ListState, name: string, value: int)
    requires Linked(s) && ChainOf(s, [])
    ensures AddedAtInsertionPoint(s, [], Entry(name, value), AddSpec(s, name, value))
  {
    var x := |s.cells|;
    assert [][..0] + [x] + [][0..] == [x];
  }

  lemma AddAfterTail(s: ListState, c: seq<int>, name: string, value: int)
    requires Linked(s) && ChainOf(s, c) && c != []
    requires Gt(s.cells[s.last].entry, Entry(name, value))
    ensures AddedAtInsertionPoint(s, c, Entry(name, value), AddSpec(s, name, value))
  {
    var x := |s.cells|;
    var e := Entry(name, value);
    var cells := s.cells + [Cell(e, NIL, NIL)];
    LinksGrow(s.cells, Cell(e, NIL, NIL), c);
    assert x !in c;
    AddAfterTailSplices(cells, c, x);
    var cells2 := SetLeft(SetRight(cells, s.last, x), x, s.last);
    assert AddSpec(s, name, value) == (ListState(cells2, s.first, x, |c| + 1), Done);
    InsertLinks(cells, cells2, c, |c|, x);
  }

  /** The walk left from the tail of the arena with the new cell appended. */
  lemma AddWalk(s: ListState, c: seq<int>, e: Entry)
    requires Linked(s) && ChainOf(s, c) && c != []
    ensures var cells := s.cells + [Cell(e, NIL, NIL)];
      var p := InsertAt(Contents(s.cells, c), e);
      Links(cells, c) && |s.cells| !in c
      && ScanLeft(cells, s.last, e, |cells|) == if p == 0 then NotFound else Found(c[p - 1])
  {
    var cells := s.cells + [Cell(e, NIL, NIL)];
    var es := Contents(s.cells, c);
    LinksGrow(s.cells, Cell(e, NIL, NIL), c);
    ScanLeftChain(cells, c, |c| - 1, e, |cells|);
    assert es[..|c| - 1 + 1] == es;
  }

  lemma AddAtHead(s: ListState, c: seq<int>, name: string, value: int)
    requires Linked(s) && ChainOf(s, c) && c != []
    requires InsertAt(Contents(s.cells, c), Entry(name, value)) == 0
    ensures AddedAtInsertionPoint(s, c, Entry(name, value), AddSpec(s, name, value))
  {
    var x := |s.cells|;
    var e := Entry(name, value);
    var cells := s.cells + [Cell(e, NIL, NIL)];
    LinksGrow(s.cells, Cell(e, NIL, NIL), c);
    AddWalk(s, c, e);
    AddAtHeadSplices(cells, c, x);
    var cells2 := SetLeft(SetRight(cells, x, s.first), s.first, x);
    assert AddSpec(s, name, value) == (ListState(cells2, x, s.last, |c| + 1), Done);
    InsertLinks(cells, cells2, c, 0, x);
  }

  lemma AddInside(s: ListState, c: seq<int>, name: string, value: int)
    requires Linked(s) && ChainOf(s, c) && c != []
    requires !Gt(s.cells[s.last].entry, Entry(name, value))
    requires InsertAt(Contents(s.cells, c), Entry(name, value)) > 0
    ensures AddedAtInsertionPoint(s, c, Entry(name, value), AddSpec(s, name, value))
  {
    var x := |s.cells|;
    var e := Entry(name, value);
    var cells := s.cells + [Cell(e, NIL, NIL)];
    var p := InsertAt(Contents(s.cells, c), e);
    LinksGrow(s.cells, Cell(e, NIL, NIL), c);
    AddWalk(s, c, e);
    AddInsideSplices(cells, c, x, p);
    var cur := c[p - 1];
    var c1 := SetLeft(SetRight(cells, x, cells[cur].right), x, cur);
    var cells2 := SetRight(SetLeft(c1, c[p], x), cur, x);
    assert AddSpec(s, name, value) == (ListState(cells2, s.first, s.last, |c| + 1), Done);
    InsertLinks(cells, cells2, c, p, x);
  }

  /**
   * `add` on a well-formed list succeeds and splices the new cell in at the
   * insertion point of its entry: right after the nearest greater entry
   * counted from the tail, or at the head; nothing about order is assumed.
   */
  lemma AddProper(s: ListState, c: seq<int>, name: string, value: int)
    requires Linked(s) && ChainOf(s, c)
    ensures var r := AddSpec(s, name, value);
      var e := Entry(name, value);
      var es := Contents(s.cells, c);
      var p := InsertAt(es, e);
      var c2 := c[..p] + [|s.cells|] + c[p..];
      r.1 == Done && ChainOf(r.0, c2) && Contents(r.0.cells, c2) == es[..p] + [e] + es[p..]
      && (Sorted(es) ==> Sorted(es[..p] + [e] + es[p..]))
  {
    if Sorted(Contents(s.cells, c)) {
      InsertKeepsSorted(Contents(s.cells, c), Entry(name, value));
    }
    if c == [] {
      AddToEmpty(s, name, value);
    } else if Gt(s.cells[s.last].entry, Entry(name, value)) {
      AddAfterTail(s, c, name, value);
    } else if InsertAt(Contents(s.cells, c), Entry(name, value)) == 0 {
      AddAtHead(s, c, name, value);
    } else {
      AddInside(s, c, name, value);
    }
  }

  // ---------------------------------------------------------------------
  // increase_value

  /** The entry with its count raised by one. */
  function Bumped(e: Entry): (r: Entry)
    ensures r.name == e.name && r.value == e.value + 1 && Gt(r, e)
  {
    e.(value := e.value + 1)
  }

  /** The chain with its `k`-th cell left out. */
  function Without(c: seq<int>, k: nat): (r: seq<int>)
    requires k < |c|
    ensures |r| == |c| - 1 && r[..k] == c[..k]
  {
    c[..k] + c[k + 1..]
  }

  /** Raising a count changes that entry only, and no link. */
  lemma BumpLinks(cells: seq<Cell>, c: seq<int>, k: nat)
    requires Links(cells, c) && k < |c|
    ensures var b := Bump(cells, c[k]);
      Links(b, c) && Contents(b, c) == Contents(cells, c)[k := Bumped(cells[c[k]].entry)]
      && (forall i | 0 <= i < |cells| && i != c[k] :: b[i] == cells[i])
      && b[c[k]].left == cells[c[k]].left && b[c[k]].right == cells[c[k]].right
  {
  }

  /**
   * `u` is `cells` with the `k`-th cell (not the head) of chain `c` cut
   * out: its neighbours link to each other, every other cell, the cut
   * cell's left link and every entry are as they were.
   */
  predicate Unspliced(cells: seq<Cell>, u: seq<Cell>, c: seq<int>, k: nat)
    requires InArena(cells, c) && 0 < k < |c|
  {
    var l := c[k - 1];
    var r := if k == |c| - 1 then NIL else c[k + 1];
    |u| == |cells|
    && (forall i | 0 <= i < |cells| :: u[i].entry == cells[i].entry)
    && u[l].right == r && u[l].left == cells[l].left
    && (r != NIL ==> u[r].left == l && u[r].right == cells[r].right)
    && u[c[k]].left == cells[c[k]].left
    && (forall i | 0 <= i < |cells| && i != l && i != r :: u[i] == cells[i])
  }

  lemma UnlinkUnsplices(cells: seq<Cell>, c: seq<int>, k: nat)
    requires LinkedCells(cells) && Links(cells, c) && 0 < k < |c|
    ensures Unspliced(cells, Unlink(cells, c[k]), c, k)
  {
  }

  lemma UnspliceRight(cells: seq<Cell>, u: seq<Cell>, c: seq<int>, k: nat)
    requires Links(cells, c) && 0 < k < |c| && Unspliced(cells, u, c, k)
    ensures var c' := Without(c, k); InArena(u, c') && RightLinks(u, c')
  {
    var c' := Without(c, k);
    forall j | 0 <= j < |c'| - 1 ensures u[c'[j]].right == c'[j + 1] {
      if j >= k {
        assert c'[j] == c[j + 1] && c'[j + 1] == c[j + 2];
      } else if j < k - 1 {
        assert c'[j] == c[j] && c'[j + 1] == c[j + 1];
      } else {
        assert c'[j] == c[k - 1] && c'[j + 1] == c[k + 1];
      }
    }
    assert c'[|c'| - 1] == if k == |c| - 1 then c[k - 1] else c[|c| - 1];
  }

  lemma UnspliceLeft(cells: seq<Cell>, u: seq<Cell>, c: seq<int>, k: nat)
    requires Links(cells, c) && 0 < k < |c| && Unspliced(cells, u, c, k)
    ensures var c' := Without(c, k); InArena(u, c') && LeftLinks(u, c')
  {
    var c' := Without(c, k);
    forall j | 0 < j < |c'| ensures u[c'[j]].left == c'[j - 1] {
      if j > k {
        assert c'[j] == c[j + 1] && c'[j - 1] == c[j];
      } else if j < k {
        assert c'[j] == c[j] && c'[j - 1] == c[j - 1];
      } else {
        assert c'[j] == c[k + 1] && c'[j - 1] == c[k - 1];
      }
    }
    assert c'[0] == c[0];
  }

  lemma WithoutDistinct(c: seq<int>, k: nat)
    requires Distinct(c) && k < |c|
    ensures Distinct(Without(c, k)) && c[k] !in Without(c, k)
  {
    var c' := Without(c, k);
    forall i, j | 0 <= i < j < |c'| ensures c'[i] != c'[j] {
      var i0 := if i < k then i else i + 1;
      var j0 := if j < k then j else j + 1;
      assert c'[i] == c[i0] && c'[j] == c[j0];
    }
    forall i | 0 <= i < |c'| ensures c'[i] != c[k] {
      var i0 := if i < k then i else i + 1;
      assert c'[i] == c[i0];
    }
  }

  lemma UnspliceContents(cells: seq<Cell>, u: seq<Cell>, c: seq<int>, k: nat)
    requires InArena(cells, c) && k < |c| && |u| == |cells|
    requires forall i | 0 <= i < |cells| :: u[i].entry == cells[i].entry
    ensures var c' := Without(c, k); var es := Contents(cells, c);
      InArena(u, c') && Contents(u, c') == es[..k] + es[k + 1..]
  {
    var c' := Without(c, k);
    var es := Contents(cells, c);
    assert InArena(u, c') by {
      forall j | 0 <= j < |c'| ensures 0 <= c'[j] < |u| {
        var j0 := if j < k then j else j + 1;
        assert c'[j] == c[j0];
      }
    }
    forall j | 0 <= j < |c'| ensures Contents(u, c')[j] == (es[..k] + es[k + 1..])[j] {
      var j0 := if j < k then j else j + 1;
      assert c'[j] == c[j0];
    }
  }

  /**
   * Unlinking the `k`-th cell (not the head) of a chain leaves the chain
   * without it; the cell itself keeps its left link, and no entry changes.
   */
  lemma UnlinkLinks(cells: seq<Cell>, c: seq<int>, k: nat)
    requires LinkedCells(cells) && Links(cells, c) && 0 < k < |c|
    ensures var u := Unlink(cells, c[k]); var es := Contents(cells, c);
      Links(u, Without(c, k)) && c[k] !in Without(c, k) && u[c[k]].left == c[k - 1]
      && |u| == |cells| && (forall i | 0 <= i < |cells| :: u[i].entry == cells[i].entry)
      && Contents(u, Without(c, k)) == es[..k] + es[k + 1..]
  {
    var u := Unlink(cells, c[k]);
    UnlinkUnsplices(cells, c, k);
    UnspliceRight(cells, u, c, k);
    UnspliceLeft(cells, u, c, k);
    WithoutDistinct(c, k);
    UnspliceContents(cells, u, c, k);
  }

  /** The `k`-th cell of chain `c` is the first one named `name`. */
  predicate FirstWithName(cells: seq<Cell>, c: seq<int>, k: nat, name: string)
    requires InArena(cells, c)
  {
    k < |c| && cells[c[k]].entry.name == name && forall j | 0 <= j < k :: cells[c[j]].entry.name != name
  }

  /** The search from the head finds the first cell with the name. */
  lemma IncreaseFinds(s: ListState, c: seq<int>, name: string, k: nat)
    requires Linked(s) && ChainOf(s, c) && FirstWithName(s.cells, c, k, name)
    ensures ScanRight(s.cells, s.first, name, |s.cells|) == Found(c[k])
  {
    ScanRightChain(s.cells, c, 0, name, |s.cells|);
  }

  /** The cells once the `k`-th cell (not the head) has had its count raised and has been unlinked. */
  lemma IncreaseUnlinked(s: ListState, c: seq<int>, k: nat)
    requires Linked(s) && ChainOf(s, c) && 0 < k < |c|
    ensures var u := Unlink(Bump(s.cells, c[k]), c[k]);
      var c' := Without(c, k);
      var es := Contents(s.cells, c);
      LinkedCells(u) && Links(u, c') && c[k] !in c' && |c'| < |u|
      && u[c[k]].left == c[k - 1] && u[c[k]].entry == Bumped(es[k])
      && Contents(u, c') == es[..k] + es[k + 1..]
  {
    var es := Contents(s.cells, c);
    var b := Bump(s.cells, c[k]);
    BumpLinks(s.cells, c, k);
    UnlinkLinks(b, c, k);
    var esb := es[k := Bumped(es[k])];
    assert esb[..k] + esb[k + 1..] == es[..k] + es[k + 1..];
  }

  /** Where a walk left for a greater cell ends, given the insertion point `p` in chain `c`. */
  function WalkEnd(c: seq<int>, p: nat): Scan
    requires p <= |c| && forall j | 0 <= j < |c| :: c[j] >= 0
  {
    if p == 0 then NotFound else Found(c[p - 1])
  }

  /** The walk left from a chain's cell `c[k - 1]`, once `c[k]` is cut out, ends before the insertion point among the first `k`. */
  lemma {:induction false} WalkAfterCut(u: seq<Cell>, c: seq<int>, k: nat, es: seq<Entry>, e: Entry)
    requires LinkedCells(u) && 0 < k < |c| && |es| == |c|
    requires Links(u, Without(c, k)) && Contents(u, Without(c, k)) == es[..k] + es[k + 1..]
    ensures 0 <= c[k - 1] < |u|
    ensures ScanLeft(u, c[k - 1], e, |u|) == WalkEnd(Without(c, k), InsertAt(es[..k], e))
  {
    var c' := Without(c, k);
    var rest := es[..k] + es[k + 1..];
    assert c'[k - 1] == c[k - 1];
    assert rest[..k] == es[..k];
    ScanLeftChain(u, c', k - 1, e, |u|);
  }

  /** The walk left from the unlinked cell's old left neighbour ends before its insertion point. */
  lemma IncreaseWalk(s: ListState, c: seq<int>, k: nat)
    requires Linked(s) && ChainOf(s, c) && 0 < k < |c|
    ensures var u := Unlink(Bump(s.cells, c[k]), c[k]);
      var es := Contents(s.cells, c);
      var e' := Bumped(es[k]);
      var p := InsertAt(es[..k], e');
      LinkedCells(u) && 0 <= c[k - 1] < |u|
      && ScanLeft(u, c[k - 1], e', |u|) == (if p == 0 then NotFound else Found(Without(c, k)[p - 1]))
  {
    IncreaseUnlinked(s, c, k);
    var es := Contents(s.cells, c);
    WalkAfterCut(Unlink(Bump(s.cells, c[k]), c[k]), c, k, es, Bumped(es[k]));
  }

  /** `Relink` after a cell with a right neighbour splices the cell in after it. */
  lemma RelinkSplices(u: seq<Cell>, c: seq<int>, x: nat, p: nat)
    requires LinkedCells(u) && Links(u, c) && 0 < p < |c| && x < |u| && x !in c
    ensures var r := Relink(u, x, c[p - 1]); r.1 == Done && Spliced(u, r.0, c, p, x)
  {
    var f := c[p - 1];
    var a := SetLeft(u, x, f);
    assert a[f].right == c[p];
    var b := SetLeft(a, c[p], x);
    var d := SetRight(b, x, c[p]);
    var e := SetRight(d, f, x);
    assert Relink(u, x, f) == (e, Done);
    assert e[x].left == f && e[x].right == c[p];
  }

  /** `Relink` after the last cell of a chain fails on its missing right neighbour. */
  lemma RelinkAtEnd(u: seq<Cell>, c: seq<int>, x: nat)
    requires LinkedCells(u) && Links(u, c) && c != [] && x < |u| && x !in c
    ensures Relink(u, x, c[|c| - 1]).1 == Raise(AttributeError)
  {
  }

  /** `ToHead` of a cell outside a non-empty chain splices it in at the front. */
  lemma ToHeadSplices(s: ListState, c: seq<int>, x: nat)
    requires Linked(s) && Links(s.cells, c) && c != [] && s.first == c[0] && x < |s.cells| && x !in c
    ensures var r := ToHead(s, x);
      r.1 == Done && r.0.first == x && Spliced(s.cells, r.0.cells, c, 0, x)
  {
  }

  /**
   * `r` is `s` with the `k`-th cell of chain `c`, its count raised,
   * moved to the insertion point of its new entry among the cells before
   * it, and no error; `last` is as before.
   */
  predicate MovedUp(s: ListState, c: seq<int>, k: nat, r: (ListState, Status))
    requires InArena(s.cells, c) && k < |c|
  {
    var es := Contents(s.cells, c);
    var e' := Bumped(es[k]);
    var p := InsertAt(es[..k], e');
    var c' := Without(c, k);
    var c2 := c'[..p] + [c[k]] + c'[p..];
    var rest := es[..k] + es[k + 1..];
    r.1 == Done && Links(r.0.cells, c2) && r.0.first == Head(c2) && r.0.length == |c2|
    && r.0.last == s.last && Contents(r.0.cells, c2) == rest[..p] + [e'] + rest[p..]
  }

  /** `increase_value` when the left walk finds a greater cell `f`. */
  lemma IncreaseSpecRelink(s: ListState, name: string, x: nat, f: nat)
    requires Linked(s) && ScanRight(s.cells, s.first, name, |s.cells|) == Found(x)
    requires var u := Unlink(Bump(s.cells, x), x);
      f < |u| && ScanLeft(u, u[x].left, u[x].entry, |u|) == Found(f)
    ensures var u := Unlink(Bump(s.cells, x), x);
      IncreaseSpec(s, name) == (s.(cells := Relink(u, x, f).0), Relink(u, x, f).1)
  {
  }

  /** `increase_value` when the left walk finds no greater cell. */
  lemma IncreaseSpecToHead(s: ListState, name: string, x: nat)
    requires Linked(s) && ScanRight(s.cells, s.first, name, |s.cells|) == Found(x)
    requires var u := Unlink(Bump(s.cells, x), x);
      ScanLeft(u, u[x].left, u[x].entry, |u|) == NotFound
    ensures IncreaseSpec(s, name) == ToHead(s.(cells := Unlink(Bump(s.cells, x), x)), x)
  {
  }

  /**
   * A result whose cells splice the raised cell into the unlinked chain
   * at the insertion point, with the right ends and count, is `MovedUp`.
   */
  lemma MovedUpFrom(s: ListState, c: seq<int>, k: nat, u: seq<Cell>, r: (ListState, Status))
    requires InArena(s.cells, c) && 0 < k < |c|
    requires var c' := Without(c, k); var es := Contents(s.cells, c);
      Links(u, c') && c[k] < |u| && c[k] !in c' && |c'| < |u|
      && u[c[k]].entry == Bumped(es[k]) && Contents(u, c') == es[..k] + es[k + 1..]
    requires var p := InsertAt(Contents(s.cells, c)[..k], Bumped(Contents(s.cells, c)[k]));
      Spliced(u, r.0.cells, Without(c, k), p, c[k])
      && r.1 == Done && r.0.length == |c| && r.0.last == s.last
      && r.0.first == (if p == 0 then c[k] else c[0])
    ensures MovedUp(s, c, k, r)
  {
    var es := Contents(s.cells, c);
    var p := InsertAt(es[..k], Bumped(es[k]));
    var c' := Without(c, k);
    InsertLinks(u, r.0.cells, c', p, c[k]);
    assert c'[0] == c[0];
  }

  lemma IncreaseToHead(s: ListState, c: seq<int>, name: string, k: nat)
    requires Linked(s) && ChainOf(s, c) && FirstWithName(s.cells, c, k, name) && k > 0
    requires InsertAt(Contents(s.cells, c)[..k], Bumped(Contents(s.cells, c)[k])) == 0
    ensures MovedUp(s, c, k, IncreaseSpec(s, name))
  {
    IncreaseFinds(s, c, name, k);
    IncreaseUnlinked(s, c, k);
    IncreaseWalk(s, c, k);
    var u := Unlink(Bump(s.cells, c[k]), c[k]);
    var c' := Without(c, k);
    assert c'[0] == c[0];
    IncreaseSpecToHead(s, name, c[k]);
    ToHeadSplices(s.(cells := u), c', c[k]);
    MovedUpFrom(s, c, k, u, IncreaseSpec(s, name));
  }

  lemma IncreaseRelinked(s: ListState, c: seq<int>, name: string, k: nat)
    requires Linked(s) && ChainOf(s, c) && FirstWithName(s.cells, c, k, name) && k > 0
    requires var p := InsertAt(Contents(s.cells, c)[..k], Bumped(Contents(s.cells, c)[k]));
      p > 0 && !(k == |c| - 1 && p == k)
    ensures MovedUp(s, c, k, IncreaseSpec(s, name))
  {
    IncreaseFinds(s, c, name, k);
    IncreaseUnlinked(s, c, k);
    IncreaseWalk(s, c, k);
    var es := Contents(s.cells, c);
    var p := InsertAt(es[..k], Bumped(es[k]));
    var u := Unlink(Bump(s.cells, c[k]), c[k]);
    var c' := Without(c, k);
    IncreaseSpecRelink(s, name, c[k], c'[p - 1]);
    RelinkSplices(u, c', c[k], p);
    MovedUpFrom(s, c, k, u, IncreaseSpec(s, name));
  }

  /** `increase_value` of a name no cell has changes nothing. */
  lemma IncreaseAbsent(s: ListState, c: seq<int>, name: string)
    requires Linked(s) && ChainOf(s, c)
    requires forall j | 0 <= j < |c| :: Contents(s.cells, c)[j].name != name
    ensures IncreaseSpec(s, name) == (s, Done)
  {
    assert forall j | 0 <= j < |c| :: s.cells[c[j]].entry.name != name by {
      forall j | 0 <= j < |c| ensures s.cells[c[j]].entry.name != name {
        assert Contents(s.cells, c)[j] == s.cells[c[j]].entry;
      }
    }
    ScanRightChain(s.cells, c, 0, name, |s.cells|);
  }

  /** `increase_value` of the head's name raises the head's count, and nothing moves. */
  lemma IncreaseAtHead(s: ListState, c: seq<int>, name: string)
    requires Linked(s) && ChainOf(s, c) && FirstWithName(s.cells, c, 0, name)
    ensures var r := IncreaseSpec(s, name); var es := Contents(s.cells, c);
      r.1 == Done && ChainOf(r.0, c) && Contents(r.0.cells, c) == es[0 := Bumped(es[0])]
  {
    IncreaseFinds(s, c, name, 0);
    BumpLinks(s.cells, c, 0);
    var b := Bump(s.cells, c[0]);
    assert Unlink(b, c[0]) == b;
    assert IncreaseSpec(s, name) == (s.(cells := b), Done);
  }

  /**
   * `increase_value` of the tail's name, when the tail is not the head and
   * its left neighbour is still greater after the raise, fails: the left
   * neighbour has just lost its right link, and the re-linking reads it.
   */
  lemma IncreaseTailCrash(s: ListState, c: seq<int>, name: string)
    requires Linked(s) && ChainOf(s, c) && |c| > 1 && FirstWithName(s.cells, c, |c| - 1, name)
    requires var es := Contents(s.cells, c); var k := |c| - 1;
      InsertAt(es[..k], Bumped(es[k])) == k
    ensures IncreaseSpec(s, name).1 == Raise(AttributeError)
  {
    var k := |c| - 1;
    IncreaseFinds(s, c, name, k);
    IncreaseUnlinked(s, c, k);
    IncreaseWalk(s, c, k);
    var u := Unlink(Bump(s.cells, c[k]), c[k]);
    var c' := Without(c, k);
    IncreaseSpecRelink(s, name, c[k], c'[k - 1]);
    RelinkAtEnd(u, c', c[k]);
  }

  /**
   * After a move that did not fail, the list is the new chain exactly when
   * the moved cell was not the tail: `last` still names the moved cell.
   */
  lemma IncreaseLastStale(s: ListState, c: seq<int>, k: nat, r: (ListState, Status))
    requires Linked(s) && ChainOf(s, c) && 0 < k < |c| && MovedUp(s, c, k, r)
    ensures var es := Contents(s.cells, c);
      var p := InsertAt(es[..k], Bumped(es[k]));
      var c' := Without(c, k);
      var c2 := c'[..p] + [c[k]] + c'[p..];
      ChainOf(r.0, c2) <==> k < |c| - 1 || p == k
  {
    var es := Contents(s.cells, c);
    var p := InsertAt(es[..k], Bumped(es[k]));
    var c' := Without(c, k);
    var c2 := c'[..p] + [c[k]] + c'[p..];
    if k < |c| - 1 {
      assert Tail(c2) == c[|c| - 1];
    } else if p < k {
      assert Tail(c2) == c[k - 1];
    }
  }

  /** Raising the head's count keeps the entries sorted. */
  lemma BumpHeadKeepsSorted(es: seq<Entry>)
    requires Sorted(es) && es != []
    ensures Sorted(es[0 := Bumped(es[0])])
  {
  }

  /**
   * Raising the `k`-th entry's count and moving it to its insertion point
   * among the entries before it keeps the entries sorted.
   */
  lemma MoveUpKeepsSorted(es: seq<Entry>, k: nat)
    requires Sorted(es) && 0 < k < |es|
    ensures var e' := Bumped(es[k]);
      var p := InsertAt(es[..k], e');
      var rest := es[..k] + es[k + 1..];
      Sorted(rest[..p] + [e'] + rest[p..])
  {
    var e' := Bumped(es[k]);
    var p := InsertAt(es[..k], e');
    var rest := es[..k] + es[k + 1..];
    var r := rest[..p] + [e'] + rest[p..];
    forall j | 0 <= j < |r| - 1 ensures !Gt(r[j + 1], r[j]) {
      if j + 1 < p {
        assert r[j] == es[j] && r[j + 1] == es[j + 1];
      } else if j + 1 == p {
        assert r[j] == es[j];
      } else if j == p {
        if p < k {
          assert r[j + 1] == es[p];
        } else {
          assert r[j + 1] == es[k + 1];
        }
      } else if j + 1 < k + 1 {
        assert r[j] == es[j - 1] && r[j + 1] == es[j];
      } else if j == k {
        assert r[j] == es[k - 1] && r[j + 1] == es[k + 1];
        SortedGlobal(es, k - 1, k + 1);
      } else {
        assert r[j] == es[j] && r[j + 1] == es[j + 1];
      }
    }
  }

  // ---------------------------------------------------------------------
  // pop

  /**
   * `pop` keeps every cell and link. On an empty list it does nothing; on
   * one cell it clears `last` but keeps `first`; on two it clears both ends
   * while the count says one is left; on more it moves `last` one cell
   * left, and that cell still links right to the removed one.
   */
  lemma PopProper(s: ListState, c: seq<int>)
    requires Linked(s) && ChainOf(s, c)
    ensures var r := PopSpec(s);
      r.1 == Done && r.0.cells == s.cells
      && r.0.length == (if c == [] then 0 else |c| - 1)
      && (|c| == 0 ==> r.0 == s)
      && (|c| == 1 ==> r.0.first == c[0] && r.0.last == NIL)
      && (|c| == 2 ==> r.0.first == NIL && r.0.last == NIL)
      && (|c| >= 3 ==> r.0.first == c[0] && r.0.last == c[|c| - 2] && s.cells[c[|c| - 2]].right == c[|c| - 1])
  {
    if |c| == 1 {
      assert s.cells[c[0]].left == NIL;
    } else if |c| >= 3 {
      assert s.cells[c[|c| - 1]].left == c[|c| - 2];
    }
  }

  // ---------------------------------------------------------------------
  // Reading the list

  /** The names of entries, in order. */
  function NameSeq(es: seq<Entry>): (r: seq<string>)
    ensures |r| == |es| && forall j | 0 <= j < |es| :: r[j] == es[j].name
  {
    seq(|es|, j requires 0 <= j < |es| => es[j].name)
  }

  /** The set of names of entries. */
  function NameSet(es: seq<Entry>): set<string>
  {
    set e | e in es :: e.name
  }

  lemma NameSetStep(es: seq<Entry>, j: nat, m: nat)
    requires 0 < m && j + m <= |es|
    ensures NameSet(es[j..j + m]) == {es[j].name} + NameSet(es[j + 1..j + m])
  {
    var a := es[j..j + m];
    var b := es[j + 1..j + m];
    assert a == [es[j]] + b;
    assert forall x :: x in a <==> x == es[j] || x in b;
  }

  lemma NameSetEmpty()
    ensures NameSet([]) == {}
  {
  }

  /** One step of `Take`: the first cell's name and the rest. */
  lemma TakeStep(cells: seq<Cell>, cur: nat, m: nat, rest: set<string>)
    requires LinkedCells(cells) && cur < |cells| && m > 0
    requires Take(cells, cells[cur].right, m - 1) == Ok(rest)
    ensures Take(cells, cur, m) == Ok({cells[cur].entry.name} + rest)
  {
  }

  /** Taking `m` names from the `j`-th cell of a chain gives the names of those `m` cells. */
  lemma {:induction false} TakeChain(cells: seq<Cell>, c: seq<int>, es: seq<Entry>, j: nat, m: nat)
    requires LinkedCells(cells) && InArena(cells, c) && RightLinks(cells, c) && j + m <= |c|
    requires |es| == |c| && forall i | 0 <= i < |c| :: es[i] == cells[c[i]].entry
    ensures var cur := if j == |c| then NIL else c[j];
      Take(cells, cur, m) == Ok(NameSet(es[j..j + m]))
    decreases m
  {
    if m > 0 {
      TakeChain(cells, c, es, j + 1, m - 1);
      assert cells[c[j]].right == if j + 1 == |c| then NIL else c[j + 1];
      TakeStep(cells, c[j], m, NameSet(es[j + 1..j + m]));
      NameSetStep(es, j, m);
    } else {
      assert es[j..j + m] == [];
      NameSetEmpty();
    }
  }

  /**
   * `first_n(n)` on a well-formed list gives the names of the first
   * `min(length, n)` entries (none when `n` is not positive).
   */
  lemma FirstNProper(s: ListState, c: seq<int>, n: int)
    requires Linked(s) && ChainOf(s, c)
    ensures var es := Contents(s.cells, c);
      Take(s.cells, s.first, if s.length < n then s.length else n)
        == Ok(if n <= 0 then {} else NameSet(es[..if n < |c| then n else |c|]))
  {
    if n > 0 {
      var m := if s.length < n then s.length else n;
      TakeChain(s.cells, c, Contents(s.cells, c), 0, m);
      assert Contents(s.cells, c)[0..0 + m] == Contents(s.cells, c)[..m];
    }
  }

  /** The names from the `j`-th cell of a chain on, in order. */
  lemma {:induction false} NamesChain(cells: seq<Cell>, c: seq<int>, j: nat, fuel: nat)
    requires LinkedCells(cells) && InArena(cells, c) && RightLinks(cells, c) && j <= |c| && fuel >= |c| - j
    ensures var cur := if j == |c| then NIL else c[j];
      NamesFrom(cells, cur, fuel) == Some(NameSeq(Contents(cells, c[j..])))
    decreases |c| - j
  {
    if j < |c| {
      NamesChain(cells, c, j + 1, fuel - 1);
      assert NameSeq(Contents(cells, c[j..])) == [cells[c[j]].entry.name] + NameSeq(Contents(cells, c[j + 1..]));
    }
  }

  /** Iterating a well-formed list gives the names of its entries, head to tail. */
  lemma IterProper(s: ListState, c: seq<int>)
    requires Linked(s) && ChainOf(s, c)
    ensures NamesFrom(s.cells, s.first, |s.cells|) == Some(NameSeq(Contents(s.cells, c)))
  {
    NamesChain(s.cells, c, 0, |s.cells|);
    assert c[0..] == c;
  }

  /** The membership walk on a well-formed list finds a cell exactly when some entry has the name. */
  lemma FindProper(s: ListState, c: seq<int>, name: string)
    requires Linked(s) && ChainOf(s, c)
    ensures var r := ScanRight(s.cells, s.first, name, |s.cells|);
      r != Stuck && (r.Found? <==> name in NameSeq(Contents(s.cells, c)))
  {
    ScanRightChain(s.cells, c, 0, name, |s.cells|);
    var ns := NameSeq(Contents(s.cells, c));
    if name in ns {
      var j :| 0 <= j < |ns| && ns[j] == name;
      assert s.cells[c[j]].entry.name == name;
    }
  }
}
