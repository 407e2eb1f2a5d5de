/**
 * The top-K suffix tracker of compare_segmenters.py: a doubly linked list of
 * (name, count) cells meant to stay sorted from the most to the least
 * frequent. Cells live in an arena (`seq<Cell>`) and link to each other by
 * index, with `NIL` for Python's `None`.
 *
 * Every operation is modelled as the source performs it, link update by
 * link update, including on lists its own defects have left inconsistent:
 * a `None` dereference becomes `Raise(AttributeError)`, and a walk that runs
 * longer than the arena has cells goes round a cycle, on which the source
 * loops forever; the model reports `Hang` there.
 */
module SortedLists {
  import opened Wrappers
  import opened Text
  import opened OrderedMaps

  const NIL: int := -1

  /** What a cell holds: a suffix and how often it was seen. */
  datatype Entry = Entry(name: string, value: int)

  /** A `SortedListCell`: its entry and its neighbours. */
  datatype Cell = Cell(entry: Entry, left: int, right: int)

  /** How an operation ended. */
  datatype Status = Done | Raise(error: Raised) | Hang

  /** The list's fields together with the arena of its cells. */
  datatype ListState = ListState(cells: seq<Cell>, first: int, last: int, length: int)

  // ---------------------------------------------------------------------
  // The order of cells

  /** `a <= b`: by count, and among equal counts the longer name is the smaller. */
  predicate Le(a: Entry, b: Entry)
  {
    if a.value == b.value then |a.name| >= |b.name| else a.value <= b.value
  }

  /**
   * `a > b`, defined as `not a <= b`: a strictly higher count, or an equal
   * count and a strictly shorter name.
   */
  predicate Gt(a: Entry, b: Entry)
    ensures Gt(a, b) <==> a.value > b.value || (a.value == b.value && |a.name| < |b.name|)
  {
    !Le(a, b)
  }

  /** `>` is a strict order: irreflexive and transitive. */
  lemma GtStrict(a: Entry, b: Entry, c: Entry)
    ensures !Gt(a, a)
    ensures Gt(a, b) && Gt(b, c) ==> Gt(a, c)
    ensures Gt(a, b) ==> !Gt(b, a)
  {
  }

  // ---------------------------------------------------------------------
  // Links

  /** `i` is `None` or a cell of the arena. */
  predicate Ref(cells: seq<Cell>, i: int)
  {
    -1 <= i < |cells|
  }

  /** Every link of every cell is `None` or a cell of the arena. */
  predicate LinkedCells(cells: seq<Cell>)
  {
    forall i | 0 <= i < |cells| :: Ref(cells, cells[i].left) && Ref(cells, cells[i].right)
  }

  /** The list's own references, too, stay inside the arena; the length is never negative. */
  predicate Linked(s: ListState)
  {
    LinkedCells(s.cells) && Ref(s.cells, s.first) && Ref(s.cells, s.last) && s.length >= 0
  }

  function SetRight(cells: seq<Cell>, i: nat, v: int): (r: seq<Cell>)
    requires i < |cells|
    ensures LinkedCells(cells) && Ref(cells, v) ==> LinkedCells(r)
  {
    cells[i := cells[i].(right := v)]
  }

  function SetLeft(cells: seq<Cell>, i: nat, v: int): (r: seq<Cell>)
    requires i < |cells|
    ensures LinkedCells(cells) && Ref(cells, v) ==> LinkedCells(r)
  {
    cells[i := cells[i].(left := v)]
  }

  /** Where a walk along the links ended. */
  datatype Scan = Found(at: nat) | NotFound | Stuck

  /**
   * The walk leftwards from `cur` for the first cell greater than `x`;
   * `fuel` bounds the cells it may visit before it counts as going round.
   */
  function ScanLeft(cells: seq<Cell>, cur: int, x: Entry, fuel: nat): (r: Scan)
    requires LinkedCells(cells) && Ref(cells, cur)
    ensures r.Found? ==> r.at < |cells| && Gt(cells[r.at].entry, x)
    decreases fuel
  {
    if cur == NIL then NotFound
    else if fuel == 0 then Stuck
    else if Gt(cells[cur].entry, x) then Found(cur)
    else ScanLeft(cells, cells[cur].left, x, fuel - 1)
  }

  /** The walk rightwards from `cur` for the first cell named `name`. */
  function ScanRight(cells: seq<Cell>, cur: int, name: string, fuel: nat): (r: Scan)
    requires LinkedCells(cells) && Ref(cells, cur)
    ensures r.Found? ==> r.at < |cells| && cells[r.at].entry.name == name
    decreases fuel
  {
    if cur == NIL then NotFound
    else if fuel == 0 then Stuck
    else if cells[cur].entry.name == name then Found(cur)
    else ScanRight(cells, cells[cur].right, name, fuel - 1)
  }

  // ---------------------------------------------------------------------
  // The operations, as the source performs them

  /**
   * `add` of a fresh cell: count it, then make it the only cell, hang it
   * after a greater tail, or insert it after the nearest greater cell found
   * walking left from the tail, or make it the head.
   */
  function AddSpec(s: ListState, name: string, value: int): (r: (ListState, Status))
    requires Linked(s)
    ensures Linked(r.0) && |r.0.cells| == |s.cells| + 1 && r.0.length == s.length + 1
  {
    var x := |s.cells|;
    var cells := s.cells + [Cell(Entry(name, value), NIL, NIL)];
    var n := s.length + 1;
    if s.first == NIL then (ListState(cells, x, x, n), Done)
    else if s.last == NIL then (ListState(cells, s.first, s.last, n), Raise(TypeError))
    else if Gt(cells[s.last].entry, cells[x].entry) then
      (ListState(SetLeft(SetRight(cells, s.last, x), x, s.last), s.first, x, n), Done)
    else
      match ScanLeft(cells, s.last, cells[x].entry, |cells|)
      case Stuck => (ListState(cells, s.first, s.last, n), Hang)
      case Found(cur) =>
        var c1 := SetLeft(SetRight(cells, x, cells[cur].right), x, cur);
        var r := c1[cur].right;
        if r == NIL then (ListState(c1, s.first, s.last, n), Raise(AttributeError))
        else (ListState(SetRight(SetLeft(c1, r, x), cur, x), s.first, s.last, n), Done)
      case NotFound =>
        (ListState(SetLeft(SetRight(cells, x, s.first), s.first, x), x, s.last, n), Done)
  }

  /** The count of cell `c` raised by one. */
  function Bump(cells: seq<Cell>, c: nat): (r: seq<Cell>)
    requires c < |cells|
    ensures LinkedCells(cells) ==> LinkedCells(r)
  {
    cells[c := cells[c].(entry := cells[c].entry.(value := cells[c].entry.value + 1))]
  }

  /** Cell `c` taken out of the right links of its left neighbour and the left link of its right one. */
  function Unlink(cells: seq<Cell>, c: nat): (r: seq<Cell>)
    requires LinkedCells(cells) && c < |cells|
    ensures LinkedCells(r) && |r| == |cells|
  {
    var l := cells[c].left;
    if l == NIL then cells
    else
      var a := SetRight(cells, l, cells[c].right);
      var rr := a[c].right;
      if rr == NIL then a else SetLeft(a, rr, a[c].left)
  }

  /** Cell `c` re-linked right after cell `f`; `None.left` when `f` has no right neighbour. */
  function Relink(cells: seq<Cell>, c: nat, f: nat): (r: (seq<Cell>, Status))
    requires LinkedCells(cells) && c < |cells| && f < |cells|
    ensures LinkedCells(r.0) && |r.0| == |cells|
  {
    var a := SetLeft(cells, c, f);
    var r := a[f].right;
    if r == NIL then (a, Raise(AttributeError))
    else
      var b := SetLeft(a, r, c);
      var d := SetRight(b, c, b[f].right);
      (SetRight(d, f, c), Done)
  }

  /** Cell `c` made the head, unless it is the head already. */
  function ToHead(s: ListState, c: nat): (r: (ListState, Status))
    requires Linked(s) && c < |s.cells|
    ensures Linked(r.0) && |r.0.cells| == |s.cells| && r.0.length == s.length && r.0.last == s.last
  {
    if c == s.first then (s, Done)
    else
      var a := SetLeft(SetRight(s.cells, c, s.first), c, NIL);
      if s.first == NIL then (s.(cells := a), Raise(AttributeError))
      else (s.(cells := SetLeft(a, s.first, c), first := c), Done)
  }

  /**
   * `increase_value`: find the first cell named `name` from the head, add 1
   * to its count, unlink it, and walk left from its old left neighbour for
   * the nearest greater cell to re-link it after, or make it the head.
   * `last` is never touched.
   */
  function IncreaseSpec(s: ListState, name: string): (r: (ListState, Status))
    requires Linked(s)
    ensures Linked(r.0) && |r.0.cells| == |s.cells|
    ensures r.0.length == s.length && r.0.last == s.last
  {
    match ScanRight(s.cells, s.first, name, |s.cells|)
    case Stuck => (s, Hang)
    case NotFound => (s, Done)
    case Found(c) =>
      var cells1 := Unlink(Bump(s.cells, c), c);
      match ScanLeft(cells1, cells1[c].left, cells1[c].entry, |cells1|)
      case Stuck => (s.(cells := cells1), Hang)
      case Found(f) =>
        var (cells2, st) := Relink(cells1, c, f);
        (s.(cells := cells2), st)
      case NotFound => ToHead(s.(cells := cells1), c)
  }

  /**
   * `pop`: nothing on an empty list; otherwise one less in the count, and
   * then both ends cleared when the count has become 1, or else the tail
   * moved one cell left (the old tail keeps its link).
   */
  function PopSpec(s: ListState): (r: (ListState, Status))
    requires Linked(s)
    ensures Linked(r.0) && r.0.cells == s.cells
  {
    if s.length == 0 then (s, Done)
    else if s.length - 1 == 1 then (s.(length := 1, first := NIL, last := NIL), Done)
    else if s.last == NIL then (s.(length := s.length - 1), Raise(AttributeError))
    else (s.(length := s.length - 1, last := s.cells[s.last].left), Done)
  }

  /** The names of `k` cells from `cur` on, following right links. */
  function Take(cells: seq<Cell>, cur: int, k: int): Result<set<string>>
    requires LinkedCells(cells) && Ref(cells, cur)
    decreases if k < 0 then 0 else k
  {
    if k <= 0 then Ok({})
    else if cur == NIL then Err(AttributeError)
    else
      match Take(cells, cells[cur].right, k - 1)
      case Ok(rest) => Ok({cells[cur].entry.name} + rest)
      case Err(e) => Err(e)
  }

  /** The names from `cur` on, following right links; `None` when the walk goes round. */
  function NamesFrom(cells: seq<Cell>, cur: int, fuel: nat): Option<seq<string>>
    requires LinkedCells(cells) && Ref(cells, cur)
    decreases fuel
  {
    if cur == NIL then Some([])
    else if fuel == 0 then None
    else
      match NamesFrom(cells, cells[cur].right, fuel - 1)
      case Some(rest) => Some([cells[cur].entry.name] + rest)
      case None => None
  }

  // ---------------------------------------------------------------------
  // The list object

  class SortedList {
    var cells: seq<Cell>
    var first: int
    var last: int
    var length: int

    function State(): ListState
      reads this
    {
      ListState(cells, first, last, length)
    }

    predicate Valid()
      reads this
    {
      Linked(State())
    }

    /** An empty list. */
    constructor ()
      ensures Valid() && State() == ListState([], NIL, NIL, 0)
    {
      cells, first, last, length := [], NIL, NIL, 0;
    }

    /** The walk from the head for a cell named `name`; `suffix in cache` is its `Found?`. */
    method Find(name: string) returns (scan: Scan)
      requires Valid()
      ensures scan == ScanRight(cells, first, name, |cells|)
    {
      var current: int, fuel: nat := first, |cells|;
      while current != NIL && fuel > 0 && cells[current].entry.name != name
        invariant Ref(cells, current) && fuel <= |cells|
        invariant ScanRight(cells, current, name, fuel) == ScanRight(cells, first, name, |cells|)
        decreases fuel
      {
        current, fuel := cells[current].right, fuel - 1;
      }
      if current == NIL {
        return NotFound;
      }
      if fuel == 0 {
        return Stuck;
      }
      return Found(current);
    }

    /** The walk leftwards from `from` for the nearest cell greater than `x`. */
    method FindGreater(from: int, x: Entry) returns (scan: Scan)
      requires Valid() && Ref(cells, from)
      ensures scan == ScanLeft(cells, from, x, |cells|)
    {
      var current: int, fuel: nat := from, |cells|;
      while current != NIL && fuel > 0 && !Gt(cells[current].entry, x)
        invariant Ref(cells, current) && fuel <= |cells|
        invariant ScanLeft(cells, current, x, fuel) == ScanLeft(cells, from, x, |cells|)
        decreases fuel
      {
        current, fuel := cells[current].left, fuel - 1;
      }
      if current == NIL {
        return NotFound;
      }
      if fuel == 0 {
        return Stuck;
      }
      return Found(current);
    }

    /** `add(SortedListCell(name, value))` */
    method Add(name: string, value: int) returns (st: Status)
      requires Valid()
      modifies this
      ensures Valid()
      ensures (State(), st) == AddSpec(old(State()), name, value)
    {
      var x := |cells|;
      var cs := cells + [Cell(Entry(name, value), NIL, NIL)];
      var head, tail := first, last;
      st := Done;
      if head == NIL {
        head, tail := x, x;
      } else if tail == NIL {
        st := Raise(TypeError);
      } else if Gt(cs[tail].entry, cs[x].entry) {
        cs := SetRight(cs, tail, x);
        cs := SetLeft(cs, x, tail);
        tail := x;
      } else {
        cells := cs;
        var scan := FindGreater(tail, cs[x].entry);
        match scan {
        case Stuck =>
          st := Hang;
        case NotFound =>
          cs := SetRight(cs, x, head);
          cs := SetLeft(cs, head, x);
          head := x;
        case Found(current) =>
          cs := SetRight(cs, x, cs[current].right);
          cs := SetLeft(cs, x, current);
          var r := cs[current].right;
          if r == NIL {
            st := Raise(AttributeError);
          } else {
            cs := SetLeft(cs, r, x);
            cs := SetRight(cs, current, x);
          }
        }
      }
      cells, first, last, length := cs, head, tail, length + 1;
      assert (State(), st) == AddSpec(old(State()), name, value);
    }

    /** `increase_value(name)` */
    method IncreaseValue(name: string) returns (st: Status)
      requires Valid()
      modifies this
      ensures Valid()
      ensures (State(), st) == IncreaseSpec(old(State()), name)
    {
      var found := Find(name);
      if !found.Found? {
        st := if found.Stuck? then Hang else Done;
        return;
      }
      var current := found.at;
      BumpAndUnlink(current);
      var scan := FindGreater(cells[current].left, cells[current].entry);
      match scan {
      case Stuck =>
        st := Hang;
      case Found(newLeft) =>
        st := RelinkAfter(current, newLeft);
      case NotFound =>
        st := MoveToHead(current);
      }
    }

    /** Lines 89-93 of `increase_value`: the count raised, the cell unlinked from its neighbours. */
    method BumpAndUnlink(current: nat)
      requires Valid() && current < |cells|
      modifies this
      ensures Valid()
      ensures cells == Unlink(Bump(old(cells), current), current) && unchanged(this`first, this`last, this`length)
    {
      var cs := cells[current := cells[current].(entry := cells[current].entry.(value := cells[current].entry.value + 1))];
      if cs[current].left != NIL {
        cs := SetRight(cs, cs[current].left, cs[current].right);
        if cs[current].right != NIL {
          cs := SetLeft(cs, cs[current].right, cs[current].left);
        }
      }
      cells := cs;
    }

    /** Lines 97-100 of `increase_value`: the cell linked in after `newLeft`. */
    method RelinkAfter(current: nat, newLeft: nat) returns (st: Status)
      requires Valid() && current < |cells| && newLeft < |cells|
      modifies this
      ensures Valid()
      ensures (cells, st) == Relink(old(cells), current, newLeft) && unchanged(this`first, this`last, this`length)
    {
      var cs := SetLeft(cells, current, newLeft);
      var r := cs[newLeft].right;
      if r == NIL {
        st := Raise(AttributeError);
      } else {
        cs := SetLeft(cs, r, current);
        cs := SetRight(cs, current, cs[newLeft].right);
        cs := SetRight(cs, newLeft, current);
        st := Done;
      }
      cells := cs;
    }

    /** Lines 103-107 of `increase_value`: the cell made the head unless it is already. */
    method MoveToHead(current: nat) returns (st: Status)
      requires Valid() && current < |cells|
      modifies this
      ensures Valid()
      ensures (State(), st) == ToHead(old(State()), current)
    {
      st := Done;
      if current != first {
        var cs := SetRight(cells, current, first);
        cs := SetLeft(cs, current, NIL);
        if first == NIL {
          st := Raise(AttributeError);
        } else {
          cs := SetLeft(cs, first, current);
          first := current;
        }
        cells := cs;
      }
    }

    /** `pop()` */
    method Pop() returns (st: Status)
      requires Valid()
      modifies this
      ensures Valid()
      ensures (State(), st) == PopSpec(old(State()))
    {
      if length == 0 {
        return Done;
      }
      length := length - 1;
      if length == 1 {
        first, last := NIL, NIL;
      } else {
        if last == NIL {
          return Raise(AttributeError);
        }
        last := cells[last].left;
      }
      return Done;
    }

    /** `first_n(n)`: the names of the first `min(length, n)` cells. */
    method FirstN(n: int) returns (r: Result<set<string>>)
      requires Valid()
      ensures r == Take(cells, first, if length < n then length else n)
    {
      var k := if length < n then length else n;
      var score: set<string> := {};
      var current := first;
      var i := 0;
      PrependSteps({}, {}, Take(cells, first, k));
      while i < k
        invariant Ref(cells, current) && 0 <= i
        invariant k > 0 ==> i <= k
        invariant Take(cells, first, k) == Prepend(score, Take(cells, current, k - i))
        decreases k - i
      {
        if current == NIL {
          return Err(AttributeError);
        }
        PrependSteps(score, {cells[current].entry.name}, Take(cells, cells[current].right, k - i - 1));
        score := score + {cells[current].entry.name};
        current := cells[current].right;
        i := i + 1;
      }
      return Ok(score);
    }

    /** `__iter__`: the names from the head on; `None` when the walk goes round. */
    method Names() returns (r: Option<seq<string>>)
      requires Valid()
      ensures r == NamesFrom(cells, first, |cells|)
    {
      var names: seq<string> := [];
      var current: int, fuel: nat := first, |cells|;
      PrependNamesSteps([], [], NamesFrom(cells, first, |cells|));
      while current != NIL
        invariant Ref(cells, current) && fuel <= |cells|
        invariant NamesFrom(cells, first, |cells|) == PrependNames(names, NamesFrom(cells, current, fuel))
        decreases fuel
      {
        if fuel == 0 {
          return None;
        }
        PrependNamesSteps(names, [cells[current].entry.name], NamesFrom(cells, cells[current].right, fuel - 1));
        names := names + [cells[current].entry.name];
        current, fuel := cells[current].right, fuel - 1;
      }
      assert names + [] == names;
      return Some(names);
    }
  }

  function Prepend(s: set<string>, r: Result<set<string>>): Result<set<string>>
  {
    match r
    case Ok(rest) => Ok(s + rest)
    case Err(e) => Err(e)
  }

  lemma PrependSteps(s: set<string>, t: set<string>, r: Result<set<string>>)
    ensures Prepend(s, Prepend(t, r)) == Prepend(s + t, r)
    ensures Prepend({}, r) == r
  {
    if r.Ok? {
      assert s + (t + r.value) == (s + t) + r.value;
      assert {} + r.value == r.value;
    }
  }

  lemma PrependNamesSteps(s: seq<string>, t: seq<string>, r: Option<seq<string>>)
    ensures PrependNames(s, PrependNames(t, r)) == PrependNames(s + t, r)
    ensures PrependNames([], r) == r
  {
    if r.Some? {
      assert s + (t + r.value) == (s + t) + r.value;
      assert [] + r.value == r.value;
    }
  }

  function PrependNames(s: seq<string>, r: Option<seq<string>>): Option<seq<string>>
  {
    match r
    case Some(rest) => Some(s + rest)
    case None => None
  }
}
