/**
 The uniform-grid spatial index (packages/simulation/src/broadphase.ts) over entities
 with finite positions.
 */
module Broadphase {
  import opened Wrappers
  import opened Sorting
  import opened Geometry

  datatype Entry = Entry(entity: int, x: real, y: real)

  const DEFAULT_CELL_EDGE := 32.0

  function Ids(entries: seq<Entry>): seq<int>
  {
    if entries == [] then [] else [entries[0].entity] + Ids(entries[1..])
  }

  predicate InBox(entry: Entry, box: Box)
  {
    box.Holds(Vec2(entry.x, entry.y))
  }

  function Within(box: Box): Entry -> bool
  {
    (e: Entry) => InBox(e, box)
  }

  /** What a query means: the ids inside the box in ascending order, or everyone for an inverted box. */
  function Answer(entries: seq<Entry>, box: Box): seq<int>
  {
    if box.Proper() then SortIds(Ids(Filter(entries, Within(box)))) else SortIds(Ids(entries))
  }

  function ExcludeFrom(ids: seq<int>, excluded: int): seq<int>
  {
    Filter(ids, (id: int) => id != excluded)
  }

  type Cell = (int, int)

  function CellOf(x: real, y: real, edge: real): Cell
    requires edge > 0.0
  {
    ((x / edge).Floor, (y / edge).Floor)
  }

  /** Which cell an entry is filed under. */
  function Filing(edge: real): Entry -> Cell
    requires edge > 0.0
  {
    (e: Entry) => CellOf(e.x, e.y, edge)
  }

  function Bucket(grid: map<Cell, seq<Entry>>, cell: Cell): seq<Entry>
  {
    if cell in grid then grid[cell] else []
  }

  /** How many cells a box touches. */
  function CellSpan(low: Cell, high: Cell): int
  {
    (high.0 - low.0 + 1) * (high.1 - low.1 + 1)
  }

  class UniformGrid {
    const cellEdge: real
    const grid: map<Cell, seq<Entry>>
    const positioned: seq<Entry>
    const allIds: seq<int>

    /** Every bucket holds exactly the entries of its cell, in arrival order. */
    ghost predicate Valid()
    {
      && cellEdge > 0.0
      && allIds == SortIds(Ids(positioned))
      && Bucketed(grid, positioned, Filing(cellEdge))
    }

    constructor (entries: seq<Entry>, requested: Option<real>)
      ensures Valid() && positioned == entries
    {
      var edge := if requested.Some? && requested.value > 0.0 then requested.value else DEFAULT_CELL_EDGE;
      var buckets: map<Cell, seq<Entry>> := map[];
      var seen: seq<int> := [];
      var i := 0;
      while i < |entries|
        invariant 0 <= i <= |entries|
        invariant seen == Ids(entries[..i])
        invariant Bucketed(buckets, entries[..i], Filing(edge))
      {
        var entry := entries[i];
        seen := seen + [entry.entity];
        var key := CellOf(entry.x, entry.y, edge);
        BucketAppend(buckets, entries[..i], Filing(edge), entry);
        buckets := buckets[key := Bucket(buckets, key) + [entry]];
        IdsAppend(entries[..i], [entry]);
        assert entries[..i + 1] == entries[..i] + [entry];
        i := i + 1;
      }
      assert entries[..i] == entries;
      cellEdge := edge;
      grid := buckets;
      positioned := entries;
      allIds := SortIds(seen);
    }

    /** Whichever branch runs, a query is the exact, sorted content of the box. */
    method QueryAabb(box: Box) returns (ids: seq<int>)
      requires Valid()
      ensures ids == Answer(positioned, box)
    {
      if box.minX > box.maxX || box.minY > box.maxY {
        return allIds;
      }
      var low, high := CellOf(box.minX, box.minY, cellEdge), CellOf(box.maxX, box.maxY, cellEdge);
      var hits;
      if CellSpan(low, high) > |positioned| {
        hits := CollectFrom(positioned, box);
      } else {
        FilingSpan(box, cellEdge);
        hits := WalkCells(box, low, high, Filing(cellEdge));
      }
      SortForgetsOrder(hits, Ids(Filter(positioned, Within(box))), (a: int, b: int) => a <= b);
      return SortIds(hits);
    }

    /** The nested walk over the cells the box overlaps. */
    method WalkCells(box: Box, low: Cell, high: Cell, ghost filing: Entry -> Cell) returns (hits: seq<int>)
      requires Bucketed(grid, positioned, filing) && Spans(box, filing, low, high)
      ensures multiset(hits) == multiset(Ids(Filter(positioned, Within(box))))
    {
      hits := [];
      WalkedNone(positioned, box, filing, low, high);
      var cx := low.0;
      while cx <= high.0
        invariant low.0 <= cx <= high.0 + 1
        invariant multiset(hits) == Walked(positioned, box, filing, cx, low.1)
      {
        var found := WalkColumn(box, low, high, cx, filing);
        hits := hits + found;
        WalkedRow(positioned, box, filing, cx, low, high);
        cx := cx + 1;
      }
      WalkedAll(positioned, box, filing, low, high);
    }

    method WalkColumn(box: Box, low: Cell, high: Cell, cx: int, ghost filing: Entry -> Cell) returns (hits: seq<int>)
      requires Bucketed(grid, positioned, filing) && low.1 <= high.1
      ensures Walked(positioned, box, filing, cx,
                     low.1) + multiset(hits) == Walked(positioned, box, filing, cx, high.1 + 1)
    {
      hits := [];
      var cy := low.1;
      while cy <= high.1
        invariant low.1 <= cy <= high.1 + 1
        invariant Walked(positioned, box, filing, cx, low.1) + multiset(hits) == Walked(positioned, box, filing, cx, cy)
      {
        var found := CollectFrom(Bucket(grid, (cx, cy)), box);
        hits := hits + found;
        WalkCell(positioned, grid, box, filing, cx, cy);
        cy := cy + 1;
      }
    }
  }

  method CollectFrom(source: seq<Entry>, box: Box) returns (hits: seq<int>)
    ensures hits == Ids(Filter(source, Within(box)))
  {
    hits := [];
    var i := 0;
    while i < |source|
      invariant 0 <= i <= |source|
      invariant hits + Ids(Filter(source[i..], Within(box))) == Ids(Filter(source, Within(box)))
    {
      var entry := source[i];
      assert source[i..][1..] == source[i + 1..];
      if entry.x >= box.minX && entry.x <= box.maxX && entry.y >= box.minY && entry.y <= box.maxY {
        hits := hits + [entry.entity];
      }
      i := i + 1;
    }
  }

  // ----- buckets -----

  ghost function InCell(filing: Entry -> Cell, cell: Cell): Entry -> bool
  {
    (e: Entry) => filing(e) == cell
  }

  ghost predicate Bucketed(grid: map<Cell, seq<Entry>>, entries: seq<Entry>, filing: Entry -> Cell)
  {
    forall cell: Cell :: Filter(entries, InCell(filing, cell)) == Bucket(grid, cell)
  }

  lemma {:induction false} IdsAppend(s: seq<Entry>, t: seq<Entry>)
    ensures Ids(s + t) == Ids(s) + Ids(t)
  {
    if s == [] {
      assert s + t == t;
    } else {
      IdsAppend(s[1..], t);
      assert (s + t)[1..] == s[1..] + t;
    }
  }

  lemma BucketAppend(grid: map<Cell, seq<Entry>>, entries: seq<Entry>, filing: Entry -> Cell, entry: Entry)
    requires Bucketed(grid, entries, filing)
    ensures Bucketed(grid[filing(entry) := Bucket(grid, filing(entry)) + [entry]], entries + [entry], filing)
  {
    forall cell: Cell
      ensures Filter(entries + [entry], InCell(filing, cell)) ==
              Bucket(grid, cell) + if filing(entry) == cell then [entry] else []
    {
      FilterAppend(entries, [entry], InCell(filing, cell));
    }
  }

  // ----- the cell walk -----

  lemma FloorMonotone(a: real, b: real, edge: real)
    requires edge > 0.0 && a <= b
    ensures (a / edge).Floor <= (b / edge).Floor
  {
    var p, q := a / edge, b / edge;
    assert p * edge == a && q * edge == b;
    if p > q {
      MulLt(edge, q, p);
    }
  }

  /** Entries inside the box are filed between the cells of its corners. */
  ghost predicate Spans(box: Box, filing: Entry -> Cell, low: Cell, high: Cell)
  {
    && low.0 <= high.0 && low.1 <= high.1
    && forall e :: InBox(e, box) ==> low.0 <= filing(e).0 <= high.0 && low.1 <= filing(e).1 <= high.1
  }

  lemma FilingSpan(box: Box, edge: real)
    requires edge > 0.0 && box.Proper()
    ensures var low, high := CellOf(box.minX, box.minY, edge), CellOf(box.maxX, box.maxY, edge);
            Spans(box, Filing(edge), low, high)
  {
    FloorMonotone(box.minX, box.maxX, edge);
    FloorMonotone(box.minY, box.maxY, edge);
    var low, high := CellOf(box.minX, box.minY, edge), CellOf(box.maxX, box.maxY, edge);
    forall e | InBox(e, box)
      ensures low.0 <= Filing(edge)(e).0 <= high.0 && low.1 <= Filing(edge)(e).1 <= high.1
    {
      FloorMonotone(box.minX, e.x, edge);
      FloorMonotone(e.x, box.maxX, edge);
      FloorMonotone(box.minY, e.y, edge);
      FloorMonotone(e.y, box.maxY, edge);
    }
  }

  predicate Before(cell: Cell, cx: int, cy: int)
  {
    cell.0 < cx || (cell.0 == cx && cell.1 < cy)
  }

  /** In the box, and filed in a cell walked before reaching (cx, cy). */
  ghost function Visited(box: Box, filing: Entry -> Cell, cx: int, cy: int): Entry -> bool
  {
    (e: Entry) => InBox(e, box) && Before(filing(e), cx, cy)
  }

  /** The ids collected by the walk before reaching (cx, cy). */
  ghost function Walked(s: seq<Entry>, box: Box, filing: Entry -> Cell, cx: int, cy: int): multiset<int>
  {
    multiset(Ids(Filter(s, Visited(box, filing, cx, cy))))
  }

  lemma WalkedNone(s: seq<Entry>, box: Box, filing: Entry -> Cell, low: Cell, high: Cell)
    requires Spans(box, filing, low, high)
    ensures Walked(s, box, filing, low.0, low.1) == multiset{}
  {
    FilterNone(s, Visited(box, filing, low.0, low.1));
  }

  lemma WalkedRow(s: seq<Entry>, box: Box, filing: Entry -> Cell, cx: int, low: Cell, high: Cell)
    requires Spans(box, filing, low, high)
    ensures Walked(s, box, filing, cx, high.1 + 1) == Walked(s, box, filing, cx + 1, low.1)
  {
    FilterExt(s, Visited(box, filing, cx, high.1 + 1), Visited(box, filing, cx + 1, low.1));
  }

  lemma WalkedAll(s: seq<Entry>, box: Box, filing: Entry -> Cell, low: Cell, high: Cell)
    requires Spans(box, filing, low, high)
    ensures Walked(s, box, filing, high.0 + 1, low.1) == multiset(Ids(Filter(s, Within(box))))
  {
    FilterExt(s, Visited(box, filing, high.0 + 1, low.1), Within(box));
  }

  lemma {:induction false} SplitIds(s: seq<Entry>, whole: Entry -> bool, left: Entry -> bool, right: Entry -> bool)
    requires forall e :: e in s ==> (whole(e) <==> left(e) || right(e)) && !(left(e) && right(e))
    ensures multiset(Ids(Filter(s, whole))) == multiset(Ids(Filter(s, left))) + multiset(Ids(Filter(s, right)))
  {
    if s != [] {
      SplitIds(s[1..], whole, left, right);
    }
  }

  ghost function Here(box: Box, filing: Entry -> Cell, cell: Cell): Entry -> bool
  {
    (e: Entry) => InBox(e, box) && filing(e) == cell
  }

  lemma {:induction false} HereIsBucket(s: seq<Entry>, box: Box, filing: Entry -> Cell, cell: Cell)
    ensures Filter(s, Here(box, filing, cell)) == Filter(Filter(s, InCell(filing, cell)), Within(box))
  {
    if s != [] {
      HereIsBucket(s[1..], box, filing, cell);
      var rest := Filter(s[1..], InCell(filing, cell));
      assert ([s[0]] + rest)[1..] == rest;
    }
  }

  /** Walking one cell adds exactly its bucket's content of the box. */
  lemma WalkCell(s: seq<Entry>, grid: map<Cell, seq<Entry>>, box: Box, filing: Entry -> Cell, cx: int, cy: int)
    requires Bucketed(grid, s, filing)
    ensures Walked(s, box, filing, cx, cy + 1) ==
            Walked(s, box, filing, cx, cy) + multiset(Ids(Filter(Bucket(grid, (cx, cy)), Within(box))))
  {
    SplitIds(s, Visited(box, filing, cx, cy + 1), Visited(box, filing, cx, cy), Here(box, filing, (cx, cy)));
    HereIsBucket(s, box, filing, (cx, cy));
    assert Filter(s, InCell(filing, (cx, cy))) == Bucket(grid, (cx, cy));
  }

  // ----- the contract -----

  ghost predicate DistinctIds(entries: seq<Entry>)
  {
    forall i, j :: 0 <= i < j < |entries| ==> entries[i].entity != entries[j].entity
  }

  lemma {:induction false} IdsAt(entries: seq<Entry>)
    ensures |Ids(entries)| == |entries|
    ensures forall i :: 0 <= i < |entries| ==> Ids(entries)[i] == entries[i].entity
  {
    if entries != [] {
      IdsAt(entries[1..]);
    }
  }

  lemma {:induction false} FilterKeepsDistinct(entries: seq<Entry>, p: Entry -> bool)
    requires DistinctIds(entries)
    ensures DistinctIds(Filter(entries, p))
  {
    if entries != [] {
      FilterKeepsDistinct(entries[1..], p);
      var f := Filter(entries[1..], p);
      forall i | 0 <= i < |f| ensures entries[0].entity != f[i].entity {
        assert f[i] in f;
        var j :| 0 < j < |entries| && entries[j] == f[i];
      }
    }
  }

  lemma AnswerOf(entries: seq<Entry>)
    requires DistinctIds(entries)
    ensures Ascending(SortIds(Ids(entries)))
    ensures forall id :: id in SortIds(Ids(entries)) <==> exists e :: e in entries && e.entity == id
  {
    IdsAt(entries);
    SortIdsAscending(Ids(entries));
    forall id ensures id in Ids(entries) <==> exists e :: e in entries && e.entity == id {
      if id in Ids(entries) {
        var i :| 0 <= i < |Ids(entries)| && Ids(entries)[i] == id;
        assert entries[i] in entries;
      }
      if e :| e in entries && e.entity == id {
        var i :| 0 <= i < |entries| && entries[i] == e;
        assert Ids(entries)[i] == id;
      }
    }
  }

  /** Over distinct entities a query is the strictly ascending list of exactly the entities inside the box. */
  lemma AnswerIsExact(entries: seq<Entry>, box: Box)
    requires DistinctIds(entries)
    ensures Ascending(Answer(entries, box))
    ensures forall id :: id in Answer(entries, box) <==>
              exists e :: e in entries && e.entity == id && (box.Proper() ==> InBox(e, box))
  {
    FilterKeepsDistinct(entries, Within(box));
    AnswerOf(entries);
    AnswerOf(Filter(entries, Within(box)));
  }
}
