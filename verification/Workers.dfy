/**
 The dispatcher's list of workers: after every change the workers are interleaved by TURN path, so
 that the list is the same whatever the order in which workers came and went.
 */
module Workers {
  import opened Bytes

  datatype Worker = Worker(id: nat, incarnation: nat, path: string)

  // ---------------------------------------------------------------- order of paths

  /** Lexicographic order; a path comes before its extensions. */
  predicate PathLess(a: string, b: string) {
    b != [] && (a == [] || a[0] < b[0] || (a[0] == b[0] && PathLess(a[1..], b[1..])))
  }

  lemma {:induction false} PathLessOrder(a: string, b: string)
    ensures !PathLess(a, a)
    ensures PathLess(a, b) ==> !PathLess(b, a)
    ensures a == b || PathLess(a, b) || PathLess(b, a)
    decreases |a| + |b|
  {
    if a != [] && b != [] {
      PathLessOrder(a[1..], b[1..]);
      if a[0] == b[0] {
        assert a == [a[0]] + a[1..] && b == [b[0]] + b[1..];
      }
    }
    if a != [] { NotLessItself(a); }
  }

  lemma {:induction false} NotLessItself(a: string)
    ensures !PathLess(a, a)
  {
    if a != [] { NotLessItself(a[1..]); }
  }

  lemma {:induction false} PathLessTransitive(a: string, b: string, c: string)
    requires PathLess(a, b) && PathLess(b, c)
    ensures PathLess(a, c)
    decreases |a|
  {
    if a != [] && a[0] == b[0] == c[0] { PathLessTransitive(a[1..], b[1..], c[1..]); }
  }

  // ---------------------------------------------------------------- the canonical order

  /** The workers of the same path with a smaller id. */
  function Ahead(all: set<Worker>, w: Worker): set<Worker> {
    set v | v in all && v.path == w.path && v.id < w.id
  }

  function Rank(all: set<Worker>, w: Worker): nat { |Ahead(all, w)| }

  /** First by rank within the path, then by path. */
  predicate Before(all: set<Worker>, v: Worker, w: Worker) {
    Rank(all, v) < Rank(all, w) || (Rank(all, v) == Rank(all, w) && PathLess(v.path, w.path))
  }

  predicate Increasing(all: set<Worker>, list: seq<Worker>) {
    forall i, j :: 0 <= i < j < |list| ==> Before(all, list[i], list[j])
  }

  /** The list holds exactly these workers in canonical order. */
  ghost predicate Canonical(all: set<Worker>, list: seq<Worker>) {
    Increasing(all, list) && forall w :: w in list <==> w in all
  }

  predicate UniqueIds(all: set<Worker>) {
    forall v, w :: v in all && w in all && v.id == w.id ==> v == w
  }

  lemma BeforeOrder(all: set<Worker>, u: Worker, v: Worker, w: Worker)
    ensures !Before(all, u, u)
    ensures Before(all, u, v) && Before(all, v, w) ==> Before(all, u, w)
  {
    NotLessItself(u.path);
    if PathLess(u.path, v.path) && PathLess(v.path, w.path) { PathLessTransitive(u.path, v.path, w.path); }
  }

  lemma SameHead(all: set<Worker>, a: seq<Worker>, b: seq<Worker>)
    requires Increasing(all, a) && Increasing(all, b) && a != [] && b != []
    requires forall w :: w in a <==> w in b
    ensures a[0] == b[0]
  {
    assert a[0] in b && b[0] in a;
    var i :| 0 <= i < |a| && a[i] == b[0];
    var j :| 0 <= j < |b| && b[j] == a[0];
    if i > 0 && j > 0 {
      BeforeOrder(all, a[0], b[0], a[0]);
    }
  }

  lemma TailLacksHead(all: set<Worker>, a: seq<Worker>)
    requires Increasing(all, a) && a != []
    ensures a[0] !in a[1..] && Increasing(all, a[1..])
  {
    forall i | 1 <= i < |a|
      ensures a[i] != a[0]
    {
      BeforeOrder(all, a[0], a[i], a[0]);
    }
  }

  lemma HasMember(list: seq<Worker>)
    requires list != []
    ensures exists w :: w in list
  {
    assert list[0] in list;
  }

  lemma {:induction false} SameSetSameOrder(all: set<Worker>, a: seq<Worker>, b: seq<Worker>)
    requires Increasing(all, a) && Increasing(all, b)
    requires forall w :: w in a <==> w in b
    ensures a == b
    decreases |a|
  {
    if a == [] {
      if b != [] {
        HasMember(b);
        assert false;
      }
    } else {
      assert a[0] in b;
      SameHead(all, a, b);
      TailLacksHead(all, a);
      TailLacksHead(all, b);
      forall w
        ensures w in a[1..] <==> w in b[1..]
      {
        assert w in a <==> w == a[0] || w in a[1..];
        assert w in b <==> w == b[0] || w in b[1..];
      }
      SameSetSameOrder(all, a[1..], b[1..]);
    }
  }

  /** The list depends only on the set of workers. */
  lemma CanonicalIsUnique(all: set<Worker>, a: seq<Worker>, b: seq<Worker>)
    requires Canonical(all, a) && Canonical(all, b)
    ensures a == b
  {
    SameSetSameOrder(all, a, b);
  }

  // ---------------------------------------------------------------- fairness of every prefix

  function OnPath(list: seq<Worker>, path: string): set<Worker> {
    set w | w in list && w.path == path
  }

  lemma SmallestLeft(some: set<Worker>) returns (w: Worker)
    requires some != {}
    ensures w in some && forall v :: v in some ==> w.id <= v.id
    decreases |some|
  {
    w :| w in some;
    var rest := some - {w};
    if rest != {} {
      var v := SmallestLeft(rest);
      if v.id < w.id { w := v; }
    }
  }

  lemma LargestIn(some: set<Worker>) returns (w: Worker)
    requires some != {}
    ensures w in some && forall v :: v in some ==> v.id <= w.id
    decreases |some|
  {
    w :| w in some;
    var rest := some - {w};
    if rest != {} {
      var v := LargestIn(rest);
      if v.id > w.id { w := v; }
    }
  }

  lemma SubsetSize<T>(a: set<T>, b: set<T>)
    requires a <= b
    ensures |a| <= |b|
  {
    assert b == a + (b - a);
  }

  /** A prefix holds at least the workers of a path that are ahead of one not in it. */
  lemma PrefixHasAhead(all: set<Worker>, list: seq<Worker>, k: nat, w: Worker)
    requires Canonical(all, list) && k <= |list| && w in all && w !in list[..k]
    requires forall v :: v in Ahead(all, w) ==> v in list[..k]
    ensures |OnPath(list[..k], w.path)| >= Rank(all, w)
  {
    SubsetSize(Ahead(all, w), OnPath(list[..k], w.path));
  }

  lemma PrefixRank(all: set<Worker>, list: seq<Worker>, k: nat, u: Worker, w: Worker)
    requires Canonical(all, list) && k <= |list| && u in list[..k] && w in all && w !in list[..k]
    ensures Rank(all, u) <= Rank(all, w)
  {
    var i :| 0 <= i < k && list[i] == u;
    assert w in list;
    var j :| 0 <= j < |list| && list[j] == w;
    assert k <= j;
    assert Before(all, list[i], list[j]);
  }

  /**
   In every prefix of the list, a path that still has workers to come is at most one behind any
   other path.
   */
  lemma PrefixIsFair(all: set<Worker>, list: seq<Worker>, k: nat, w: Worker, other: string)
    requires Canonical(all, list) && UniqueIds(all) && k <= |list| && w in all && w !in list[..k]
    ensures |OnPath(list[..k], other)| <= |OnPath(list[..k], w.path)| + 1
  {
    var left := set v | v in all && v.path == w.path && v !in list[..k];
    assert w in left;
    var first := SmallestLeft(left);
    forall v | v in Ahead(all, first)
      ensures v in list[..k]
    {
      assert v !in left;
    }
    PrefixHasAhead(all, list, k, first);
    var theirs := OnPath(list[..k], other);
    if theirs != {} {
      var last := LargestIn(theirs);
      PrefixRank(all, list, k, last, first);
      forall v | v in theirs - {last}
        ensures v in Ahead(all, last)
      {
        assert v in list && last in list;
      }
      SubsetSize(theirs - {last}, Ahead(all, last));
    }
  }

  // ---------------------------------------------------------------- sorting and grouping

  predicate Precedes(v: Worker, w: Worker) {
    PathLess(v.path, w.path) || (v.path == w.path && v.id < w.id)
  }

  predicate Sorted(list: seq<Worker>) {
    forall i, j :: 0 <= i < j < |list| ==> Precedes(list[i], list[j])
  }

  function Insert(w: Worker, list: seq<Worker>): seq<Worker> {
    if list == [] || Precedes(w, list[0]) then [w] + list else [list[0]] + Insert(w, list[1..])
  }

  /** The library's sort by path and then by id. */
  function Sort(list: seq<Worker>): seq<Worker> {
    if list == [] then [] else Insert(list[0], Sort(list[1..]))
  }

  lemma PrecedesOrder(u: Worker, v: Worker, w: Worker)
    ensures Precedes(u, v) && Precedes(v, w) ==> Precedes(u, w)
    ensures u.id != v.id ==> Precedes(u, v) || Precedes(v, u)
  {
    PathLessOrder(u.path, v.path);
    if PathLess(u.path, v.path) && PathLess(v.path, w.path) { PathLessTransitive(u.path, v.path, w.path); }
  }

  lemma {:induction false} InsertSorts(w: Worker, list: seq<Worker>)
    requires Sorted(list) && forall i :: 0 <= i < |list| ==> list[i].id != w.id
    ensures Sorted(Insert(w, list))
    ensures forall v :: v in Insert(w, list) <==> v == w || v in list
    decreases |list|
  {
    if list != [] {
      if Precedes(w, list[0]) {
        forall i | 0 <= i < |list|
          ensures Precedes(w, list[i])
        {
          PrecedesOrder(w, list[0], list[i]);
        }
      } else {
        PrecedesOrder(list[0], w, w);
        InsertSorts(w, list[1..]);
        var rest := Insert(w, list[1..]);
        forall i | 0 <= i < |rest|
          ensures Precedes(list[0], rest[i])
        {
          assert rest[i] in rest;
        }
      }
    }
  }

  predicate DistinctIds(list: seq<Worker>) {
    forall i, j :: 0 <= i < j < |list| ==> list[i].id != list[j].id
  }

  lemma {:induction false} SortSorts(list: seq<Worker>)
    requires DistinctIds(list)
    ensures Sorted(Sort(list))
    ensures forall v :: v in Sort(list) <==> v in list
    decreases |list|
  {
    if list != [] {
      SortSorts(list[1..]);
      var rest := Sort(list[1..]);
      forall i | 0 <= i < |rest|
        ensures rest[i].id != list[0].id
      {
        assert rest[i] in rest;
        assert rest[i] in list[1..];
      }
      InsertSorts(list[0], rest);
      assert forall v :: v in list <==> v == list[0] || v in list[1..];
    }
  }

  function Members(list: seq<Worker>): set<Worker> { set w | w in list }

  type Groups = seq<seq<Worker>>

  predicate InGroups(groups: Groups, w: Worker) {
    exists g :: 0 <= g < |groups| && w in groups[g]
  }

  predicate GroupOk(group: seq<Worker>) {
    && group != []
    && (forall i :: 0 <= i < |group| ==> group[i].path == group[0].path)
    && (forall i, j :: 0 <= i < j < |group| ==> group[i].id < group[j].id)
  }

  /** One group per path, paths in order, ids in order within each group. */
  predicate Grouped(groups: Groups) {
    && (forall g :: 0 <= g < |groups| ==> GroupOk(groups[g]))
    && (forall g, h :: 0 <= g < h < |groups| ==>
          groups[g] != [] && groups[h] != [] && PathLess(groups[g][0].path, groups[h][0].path))
  }

  /** Appending a worker that comes after all the others. */
  function Added(groups: Groups, w: Worker): Groups {
    if groups != [] && groups[|groups| - 1] != [] && groups[|groups| - 1][0].path == w.path then
      groups[|groups| - 1 := groups[|groups| - 1] + [w]]
    else groups + [[w]]
  }

  lemma AddedMembers(groups: Groups, w: Worker, v: Worker)
    ensures InGroups(Added(groups, w), v) <==> v == w || InGroups(groups, v)
  {
    var after := Added(groups, w);
    var last := |after| - 1;
    if v == w { assert v in after[last]; }
    if g :| 0 <= g < |groups| && v in groups[g] { assert v in after[g]; }
    if g :| 0 <= g < |after| && v in after[g] && v != w { assert g < |groups| && v in groups[g]; }
  }

  lemma AddedGrouped(groups: Groups, w: Worker)
    requires Grouped(groups) && forall v :: InGroups(groups, v) ==> Precedes(v, w)
    ensures Grouped(Added(groups, w))
  {
    var after := Added(groups, w);
    forall g | 0 <= g < |groups|
      ensures PathLess(groups[g][0].path, w.path) || (groups[g][0].path == w.path && g == |groups| - 1)
    {
      assert groups[g][0] in groups[g];
      assert InGroups(groups, groups[g][0]);
      if groups[g][0].path == w.path && g < |groups| - 1 {
        var last := groups[|groups| - 1][0];
        assert last in groups[|groups| - 1];
        assert InGroups(groups, last);
        PathLessOrder(groups[g][0].path, last.path);
        NotLessItself(last.path);
      }
    }
    if groups != [] {
      var last := groups[|groups| - 1];
      forall i | 0 <= i < |last|
        ensures Precedes(last[i], w)
      {
        assert InGroups(groups, last[i]);
      }
      NotLessItself(w.path);
    }
  }

  method GroupByPath(sorted: seq<Worker>) returns (groups: Groups)
    requires Sorted(sorted)
    ensures Grouped(groups) && forall v :: InGroups(groups, v) <==> v in sorted
  {
    groups := [];
    for n := 0 to |sorted|
      invariant Grouped(groups) && forall v :: InGroups(groups, v) <==> v in sorted[..n]
    {
      var w := sorted[n];
      forall v | InGroups(groups, v)
        ensures Precedes(v, w)
      {
        assert v in sorted[..n];
      }
      AddedGrouped(groups, w);
      forall v
        ensures InGroups(Added(groups, w), v) <==> v in sorted[..n + 1]
      {
        AddedMembers(groups, w, v);
        assert sorted[..n + 1] == sorted[..n] + [w];
      }
      if groups != [] && groups[|groups| - 1][0].path == w.path {
        groups := groups[|groups| - 1 := groups[|groups| - 1] + [w]];
      } else {
        groups := groups + [[w]];
      }
    }
    assert sorted[..|sorted|] == sorted;
  }

  // ---------------------------------------------------------------- going round the groups

  /** A position: the offset within a group, and the group. */
  datatype Cell = Cell(offset: nat, group: nat)

  predicate CellLess(a: Cell, b: Cell) {
    a.offset < b.offset || (a.offset == b.offset && a.group < b.group)
  }

  predicate InGrid(groups: Groups, c: Cell) {
    c.group < |groups| && c.offset < |groups[c.group]|
  }

  function RoundCells(groups: Groups, offset: nat, n: nat): seq<Cell>
    requires n <= |groups|
    decreases n
  {
    if n == 0 then []
    else RoundCells(groups, offset, n - 1) + if offset < |groups[n - 1]| then [Cell(offset, n - 1)] else []
  }

  function Cells(groups: Groups, k: nat): seq<Cell>
    decreases k
  {
    if k == 0 then [] else Cells(groups, k - 1) + RoundCells(groups, k - 1, |groups|)
  }

  predicate CellsIncrease(cells: seq<Cell>) {
    forall i, j :: 0 <= i < j < |cells| ==> CellLess(cells[i], cells[j])
  }

  lemma Joined(a: seq<Cell>, b: seq<Cell>)
    requires CellsIncrease(a) && CellsIncrease(b)
    requires forall x, y :: x in a && y in b ==> CellLess(x, y)
    ensures CellsIncrease(a + b)
  {
    hide CellLess;
    forall i, j | 0 <= i < j < |a + b|
      ensures CellLess((a + b)[i], (a + b)[j])
    {
      if i < |a| <= j { assert a[i] in a && b[j - |a|] in b; }
    }
  }

  lemma {:induction false} RoundMembers(groups: Groups, offset: nat, n: nat, c: Cell)
    requires n <= |groups|
    ensures c in RoundCells(groups, offset, n) <==> c.offset == offset && c.group < n && InGrid(groups, c)
    decreases n
  {
    if n > 0 { RoundMembers(groups, offset, n - 1, c); }
  }

  lemma {:induction false} RoundIncreases(groups: Groups, offset: nat, n: nat)
    requires n <= |groups|
    ensures CellsIncrease(RoundCells(groups, offset, n))
    decreases n
  {
    if n > 0 {
      var a := RoundCells(groups, offset, n - 1);
      var b := if offset < |groups[n - 1]| then [Cell(offset, n - 1)] else [];
      RoundIncreases(groups, offset, n - 1);
      forall x, y | x in a && y in b
        ensures CellLess(x, y)
      {
        RoundMembers(groups, offset, n - 1, x);
      }
      Joined(a, b);
    }
  }

  lemma InEither(a: seq<Cell>, b: seq<Cell>, c: Cell)
    ensures c in a + b <==> c in a || c in b
  {
  }

  lemma CellsNone(groups: Groups)
    ensures Cells(groups, 0) == [] && CellsIncrease([])
  {
  }

  lemma CellsStep(groups: Groups, k: nat)
    requires k > 0
    ensures Cells(groups, k) == Cells(groups, k - 1) + RoundCells(groups, k - 1, |groups|)
  {
  }

  lemma {:induction false} CellsMembers(groups: Groups, k: nat, c: Cell)
    ensures c in Cells(groups, k) <==> c.offset < k && InGrid(groups, c)
    decreases k
  {
    hide Cells, RoundCells;
    CellsNone(groups);
    if k > 0 {
      CellsStep(groups, k);
      CellsMembers(groups, k - 1, c);
      RoundMembers(groups, k - 1, |groups|, c);
      InEither(Cells(groups, k - 1), RoundCells(groups, k - 1, |groups|), c);
    }
  }

  lemma CellsBefore(groups: Groups, k: nat, x: Cell, y: Cell)
    requires x in Cells(groups, k) && y in RoundCells(groups, k, |groups|)
    ensures CellLess(x, y)
  {
    hide Cells, RoundCells, InGrid;
    CellsMembers(groups, k, x);
    RoundMembers(groups, k, |groups|, y);
  }

  lemma {:induction false} CellsIncreasing(groups: Groups, k: nat)
    ensures CellsIncrease(Cells(groups, k))
    decreases k
  {
    hide Cells, RoundCells, CellsIncrease, CellLess;
    CellsNone(groups);
    if k > 0 {
      CellsStep(groups, k);
      var a, b := Cells(groups, k - 1), RoundCells(groups, k - 1, |groups|);
      CellsIncreasing(groups, k - 1);
      RoundIncreases(groups, k - 1, |groups|);
      forall x, y | x in a && y in b
        ensures CellLess(x, y)
      {
        CellsBefore(groups, k - 1, x, y);
      }
      Joined(a, b);
    }
  }

  function Picked(groups: Groups, cells: seq<Cell>): (r: seq<Worker>)
    requires AllInGrid(groups, cells)
    ensures |r| == |cells|
  {
    seq(|cells|, i requires 0 <= i < |cells| && InGrid(groups, cells[i]) => groups[cells[i].group][cells[i].offset])
  }

  predicate AllInGrid(groups: Groups, cells: seq<Cell>) {
    forall i :: 0 <= i < |cells| ==> InGrid(groups, cells[i])
  }

  /** The length of the longest group. */
  function Longest(groups: Groups): (n: nat)
    ensures forall g :: 0 <= g < |groups| ==> |groups[g]| <= n
    ensures n > 0 ==> exists g :: 0 <= g < |groups| && |groups[g]| == n
  {
    if groups == [] then 0
    else
      var rest := Longest(groups[..|groups| - 1]);
      assert forall g :: 0 <= g < |groups| - 1 ==> groups[g] == groups[..|groups| - 1][g];
      Max(rest, |groups[|groups| - 1]|)
  }

  lemma {:induction false} EmptyRound(groups: Groups, k: nat, n: nat)
    requires n <= |groups| && RoundCells(groups, k, n) == []
    ensures forall g :: 0 <= g < n ==> |groups[g]| <= k
    decreases n
  {
    if n > 0 { EmptyRound(groups, k, n - 1); }
  }

  lemma {:induction false} RoundLonger(groups: Groups, k: nat, n: nat)
    requires n <= |groups| && RoundCells(groups, k, n) != []
    ensures k < Longest(groups)
    decreases n
  {
    hide Longest;
    if n > 0 && k >= |groups[n - 1]| { RoundLonger(groups, k, n - 1); }
  }

  lemma LongestIs(groups: Groups, k: nat)
    requires k <= Longest(groups) && forall g :: 0 <= g < |groups| ==> |groups[g]| <= k
    ensures k == Longest(groups)
  {
  }

  lemma PickedRow(groups: Groups, offset: nat, g: nat)
    requires g < |groups| && AllInGrid(groups, RoundCells(groups, offset, g))
    ensures AllInGrid(groups, RoundCells(groups, offset, g + 1))
    ensures Picked(groups, RoundCells(groups, offset, g + 1))
            == Picked(groups, RoundCells(groups, offset, g))
               + (if offset < |groups[g]| then [groups[g][offset]] else [])
  {
  }

  lemma PickedBoth(groups: Groups, a: seq<Cell>, b: seq<Cell>)
    requires AllInGrid(groups, a) && AllInGrid(groups, b)
    ensures AllInGrid(groups, a + b) && Picked(groups, a + b) == Picked(groups, a) + Picked(groups, b)
  {
  }

  lemma NoCells(groups: Groups, offset: nat)
    ensures Cells(groups, 0) == RoundCells(groups, offset, 0) == [] && AllInGrid(groups, []) && Picked(groups, []) == []
  {
  }

  /** One worker of each group that has one at this offset. */
  method Round(groups: Groups, offset: nat) returns (row: seq<Worker>)
    ensures AllInGrid(groups, RoundCells(groups, offset, |groups|))
    ensures row == Picked(groups, RoundCells(groups, offset, |groups|))
  {
    hide RoundCells, Picked, AllInGrid;
    row := [];
    NoCells(groups, offset);
    for g := 0 to |groups|
      invariant AllInGrid(groups, RoundCells(groups, offset, g)) && row == Picked(groups, RoundCells(groups, offset, g))
    {
      PickedRow(groups, offset, g);
      if offset < |groups[g]| {
        row := row + [groups[g][offset]];
      }
    }
  }

  /** Takes the first of every group, then the second, until a round adds nothing. */
  method RoundRobin(groups: Groups) returns (list: seq<Worker>)
    ensures AllInGrid(groups, Cells(groups, Longest(groups)))
    ensures list == Picked(groups, Cells(groups, Longest(groups)))
  {
    hide Cells, RoundCells, Picked, AllInGrid, Longest;
    list := [];
    NoCells(groups, 0);
    var offset := 0;
    while true
      invariant AllInGrid(groups, Cells(groups, offset)) && list == Picked(groups, Cells(groups, offset))
      invariant offset <= Longest(groups)
      decreases Longest(groups) + 1 - offset
    {
      ghost var cells := RoundCells(groups, offset, |groups|);
      var row := Round(groups, offset);
      if row == [] {
        EmptyRound(groups, offset, |groups|);
        LongestIs(groups, offset);
        return;
      }
      RoundLonger(groups, offset, |groups|);
      PickedBoth(groups, Cells(groups, offset), cells);
      CellsStep(groups, offset + 1);
      list := list + row;
      offset := offset + 1;
    }
  }

  // ---------------------------------------------------------------- the order that comes out

  lemma {:induction false} DistinctSize(list: seq<Worker>)
    requires forall i, j :: 0 <= i < j < |list| ==> list[i].id < list[j].id
    ensures |Members(list)| == |list|
  {
    if list != [] {
      var front := list[..|list| - 1];
      var last := list[|list| - 1];
      DistinctSize(front);
      assert Members(list) == Members(front) + {last} by {
        assert list == front + [last];
      }
      assert last !in front;
    }
  }

  /** A worker's offset in its group is its rank. */
  lemma RankIsOffset(all: set<Worker>, groups: Groups, c: Cell)
    requires Grouped(groups) && (forall v :: v in all <==> InGroups(groups, v)) && InGrid(groups, c)
    ensures Rank(all, groups[c.group][c.offset]) == c.offset
  {
    var group := groups[c.group];
    var w := group[c.offset];
    assert GroupOk(group);
    var front := group[..c.offset];
    DistinctSize(front);
    forall v
      ensures v in Ahead(all, w) <==> v in front
    {
      if v in front {
        assert v in group;
        assert InGroups(groups, v);
      }
      if v in Ahead(all, w) {
        var g :| 0 <= g < |groups| && v in groups[g];
        SamePathSameGroup(groups, g, c.group, v, w);
        var i :| 0 <= i < |group| && group[i] == v;
        assert i < c.offset;
        assert front[i] == v;
      }
    }
    assert Ahead(all, w) == Members(front);
  }

  lemma SamePathSameGroup(groups: Groups, g: nat, h: nat, v: Worker, w: Worker)
    requires Grouped(groups) && g < |groups| && h < |groups| && v in groups[g] && w in groups[h] && v.path == w.path
    ensures g == h
  {
    assert GroupOk(groups[g]) && GroupOk(groups[h]);
    NotLessItself(v.path);
  }

  lemma InterleavedIncreases(all: set<Worker>, groups: Groups, cells: seq<Cell>)
    requires Grouped(groups) && (forall v :: v in all <==> InGroups(groups, v))
    requires AllInGrid(groups, cells) && CellsIncrease(cells)
    ensures Increasing(all, Picked(groups, cells))
  {
    hide Rank, Grouped;
    var list := Picked(groups, cells);
    forall i, j | 0 <= i < j < |list|
      ensures Before(all, list[i], list[j])
    {
      RankIsOffset(all, groups, cells[i]);
      RankIsOffset(all, groups, cells[j]);
      if cells[i].offset == cells[j].offset { PathsIncrease(groups, cells[i], cells[j]); }
    }
  }

  lemma PathsIncrease(groups: Groups, a: Cell, b: Cell)
    requires Grouped(groups) && InGrid(groups, a) && InGrid(groups, b) && a.group < b.group
    ensures PathLess(groups[a.group][a.offset].path, groups[b.group][b.offset].path)
  {
    assert GroupOk(groups[a.group]) && GroupOk(groups[b.group]);
  }

  lemma InterleavedMembers(groups: Groups, w: Worker)
    requires AllInGrid(groups, Cells(groups, Longest(groups)))
    ensures w in Picked(groups, Cells(groups, Longest(groups))) <==> InGroups(groups, w)
  {
    var k := Longest(groups);
    var cells := Cells(groups, k);
    var list := Picked(groups, cells);
    if InGroups(groups, w) {
      var g :| 0 <= g < |groups| && w in groups[g];
      var o :| 0 <= o < |groups[g]| && groups[g][o] == w;
      CellsMembers(groups, k, Cell(o, g));
      var i :| 0 <= i < |cells| && cells[i] == Cell(o, g);
      assert list[i] == w;
    }
    if w in list {
      var i :| 0 <= i < |list| && list[i] == w;
      assert w in groups[cells[i].group];
    }
  }

  /** Puts the workers into canonical order. */
  method InterleaveTurnPaths(workers: seq<Worker>) returns (list: seq<Worker>)
    requires DistinctIds(workers)
    ensures Canonical(Members(workers), list)
  {
    ghost var all := Members(workers);
    SortSorts(workers);
    var sorted := Sort(workers);
    var groups := GroupByPath(sorted);
    list := RoundRobin(groups);
    CellsIncreasing(groups, Longest(groups));
    forall v
      ensures v in all <==> InGroups(groups, v)
    {
    }
    InterleavedIncreases(all, groups, Cells(groups, Longest(groups)));
    forall w
      ensures w in list <==> w in all
    {
      InterleavedMembers(groups, w);
    }
  }

  // ---------------------------------------------------------------- registering and unregistering

  function Registered(all: set<Worker>, w: Worker): set<Worker> {
    (set v | v in all && v.id != w.id) + {w}
  }

  function Unregistered(all: set<Worker>, id: nat, incarnation: nat): set<Worker> {
    set v | v in all && (v.id != id || v.incarnation != incarnation)
  }

  lemma {:induction false} CanonicalIsDistinct(all: set<Worker>, list: seq<Worker>)
    requires Canonical(all, list) && UniqueIds(all)
    ensures DistinctIds(list) && Members(list) == all
  {
    forall i, j | 0 <= i < j < |list|
      ensures list[i].id != list[j].id
    {
      assert list[i] in list && list[j] in list;
      BeforeOrder(all, list[i], list[j], list[i]);
    }
  }

  /** A subsequence picked out by what its elements are. */
  method Retain(list: seq<Worker>, keep: Worker -> bool) returns (r: seq<Worker>)
    requires DistinctIds(list)
    ensures DistinctIds(r) && forall w :: w in r <==> w in list && keep(w)
  {
    r := [];
    for n := 0 to |list|
      invariant DistinctIds(r) && forall w :: w in r <==> w in list[..n] && keep(w)
    {
      assert list[..n + 1] == list[..n] + [list[n]];
      if keep(list[n]) {
        forall i | 0 <= i < |r|
          ensures r[i].id != list[n].id
        {
          assert r[i] in r;
          assert r[i] in list[..n];
        }
        r := r + [list[n]];
      }
    }
    assert list[..|list|] == list;
  }

  class Dispatcher {
    var workers: seq<Worker>

    /** The list is the canonical order of workers with distinct ids. */
    ghost predicate Valid()
      reads this
    {
      UniqueIds(Members(workers)) && Canonical(Members(workers), workers)
    }

    constructor ()
      ensures Valid() && workers == []
    {
      workers := [];
    }

    /** A worker replaces the one of the same id, whatever its incarnation. */
    method Register(channels: Worker)
      requires Valid()
      modifies this
      ensures Valid() && Members(workers) == Registered(old(Members(workers)), channels)
    {
      ghost var before := Members(workers);
      CanonicalIsDistinct(before, workers);
      var updated := Retain(workers, (w: Worker) => w.id != channels.id);
      forall i | 0 <= i < |updated|
        ensures updated[i].id != channels.id
      {
        assert updated[i] in updated;
      }
      updated := updated + [channels];
      assert Members(updated) == Registered(before, channels);
      workers := InterleaveTurnPaths(updated);
      assert Members(workers) == Members(updated);
    }

    /** Only the very incarnation is removed; an unknown or replaced one leaves the list as it is. */
    method Unregister(id: nat, incarnation: nat)
      requires Valid()
      modifies this
      ensures Valid() && Members(workers) == Unregistered(old(Members(workers)), id, incarnation)
      ensures (forall w :: w in old(workers) && w.id == id ==> w.incarnation != incarnation) ==>
                workers == old(workers)
    {
      ghost var before := Members(workers);
      CanonicalIsDistinct(before, workers);
      var updated := Retain(workers, (w: Worker) => w.id != id || w.incarnation != incarnation);
      assert Members(updated) == Unregistered(before, id, incarnation);
      ghost var list := workers;
      workers := InterleaveTurnPaths(updated);
      assert Members(workers) == Members(updated);
      if forall w :: w in list && w.id == id ==> w.incarnation != incarnation {
        assert Members(updated) == before;
        CanonicalIsUnique(before, list, workers);
      }
    }
  }

  // ---------------------------------------------------------------- histories

  datatype Change = Came(worker: Worker) | Left(id: nat, incarnation: nat)

  function Live(all: set<Worker>, history: seq<Change>): set<Worker>
    decreases |history|
  {
    if history == [] then all
    else
      var next := match history[0]
                  case Came(w) => Registered(all, w)
                  case Left(id, incarnation) => Unregistered(all, id, incarnation);
      Live(next, history[1..])
  }

  /** Applies a history to a dispatcher. */
  method Replay(d: Dispatcher, history: seq<Change>)
    requires d.Valid()
    modifies d
    ensures d.Valid() && Members(d.workers) == Live(old(Members(d.workers)), history)
  {
    ghost var start := Members(d.workers);
    assert history[0..] == history;
    for n := 0 to |history|
      invariant d.Valid() && Live(Members(d.workers), history[n..]) == Live(start, history)
    {
      assert history[n..][1..] == history[n + 1..];
      match history[n] {
        case Came(w) => d.Register(w);
        case Left(id, incarnation) => d.Unregister(id, incarnation);
      }
    }
    assert history[|history|..] == [];
  }

  /** After any history ids are unique. */
  lemma {:induction false} LiveIsUnique(all: set<Worker>, history: seq<Change>)
    requires UniqueIds(all)
    ensures UniqueIds(Live(all, history))
    decreases |history|
  {
    if history != [] {
      var next := match history[0]
                  case Came(w) => Registered(all, w)
                  case Left(id, incarnation) => Unregistered(all, id, incarnation);
      LiveIsUnique(next, history[1..]);
    }
  }

  /** Nobody of the same id comes, and that very incarnation does not leave. */
  predicate Undisturbed(history: seq<Change>, w: Worker) {
    forall c | c in history :: (c.Came? ==> c.worker.id != w.id) && c != Left(w.id, w.incarnation)
  }

  /** The worker came, and was not disturbed since. */
  ghost predicate CameLast(history: seq<Change>, w: Worker) {
    exists i | 0 <= i < |history| :: history[i] == Came(w) && Undisturbed(history[i + 1..], w)
  }

  /** A worker is alive exactly if it came and was not disturbed since, or was there and not disturbed at all. */
  lemma {:induction false} LiveExactly(all: set<Worker>, history: seq<Change>, w: Worker)
    ensures w in Live(all, history) <==> CameLast(history, w) || (w in all && Undisturbed(history, w))
    decreases |history|
  {
    if history != [] {
      var rest := history[1..];
      var next := match history[0]
                  case Came(v) => Registered(all, v)
                  case Left(id, incarnation) => Unregistered(all, id, incarnation);
      LiveExactly(next, rest, w);
      CameLastStep(history, w);
      assert history == [history[0]] + rest;
    }
  }

  lemma CameLastStep(history: seq<Change>, w: Worker)
    requires history != []
    ensures CameLast(history, w) <==>
            CameLast(history[1..], w) || (history[0] == Came(w) && Undisturbed(history[1..], w))
  {
    hide Undisturbed;
    var rest := history[1..];
    if CameLast(rest, w) {
      var i :| 0 <= i < |rest| && rest[i] == Came(w) && Undisturbed(rest[i + 1..], w);
      assert history[i + 1] == Came(w) && history[i + 2..] == rest[i + 1..];
    }
    if CameLast(history, w) {
      var i :| 0 <= i < |history| && history[i] == Came(w) && Undisturbed(history[i + 1..], w);
      if i > 0 {
        assert rest[i - 1] == Came(w) && rest[i..] == history[i + 1..];
      }
    }
  }

  /** Two histories that leave the same workers alive leave the same list. */
  lemma SameLiveSameList(a: seq<Change>, b: seq<Change>, listA: seq<Worker>, listB: seq<Worker>)
    requires Live({}, a) == Live({}, b)
    requires Canonical(Live({}, a), listA) && Canonical(Live({}, b), listB)
    ensures listA == listB
  {
    CanonicalIsUnique(Live({}, a), listA, listB);
  }
}
