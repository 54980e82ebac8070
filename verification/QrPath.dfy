/** The data path through a symbol: pairs of columns from the right edge on, alternating
    direction, stepping over one column. */
module QrPath {
  import opened Options
  import opened QrStream

  datatype Cell = Cell(row: nat, column: nat)

  /** Which modules carry function patterns, format or version information. */
  type Reserved = (nat, nat) -> bool

  predicate InSymbol(size: nat, cell: Cell) {
    cell.row < size && cell.column < size
  }

  // ---------- The walk ----------

  /** The right-hand column of the p-th column pair. */
  function PairColumn(size: nat, p: nat): (c: nat)
    requires size % 2 == 1 && 2 * p + 1 < size
    ensures 1 <= c < size
  {
    var right := size - 1 - 2 * p;
    if right <= 6 then right - 1 else right
  }

  function StepRow(size: nat, p: nat, step: nat): nat
    requires step < size
  {
    if p % 2 == 0 then size - 1 - step else step
  }

  /** The two modules of one step. */
  function StepCells(size: nat, p: nat, step: nat): seq<Cell>
    requires size % 2 == 1 && 2 * p + 1 < size && step < size
  {
    [Cell(StepRow(size, p, step), PairColumn(size, p)), Cell(StepRow(size, p, step), PairColumn(size, p) - 1)]
  }

  function PairCells(size: nat, p: nat, steps: nat): seq<Cell>
    requires size % 2 == 1 && 2 * p + 1 < size && steps <= size
  {
    if steps == 0 then [] else PairCells(size, p, steps - 1) + StepCells(size, p, steps - 1)
  }

  /** The modules of the first `pairs` column pairs, in visiting order. */
  function Walk(size: nat, pairs: nat): seq<Cell>
    requires size % 2 == 1 && 2 * pairs < size
  {
    if pairs == 0 then [] else Walk(size, pairs - 1) + PairCells(size, pairs - 1, size)
  }

  function Free(cells: seq<Cell>, reserved: Reserved): seq<Cell> {
    if cells == [] then []
    else
      var last := cells[|cells| - 1];
      Free(cells[..|cells| - 1], reserved) + (if reserved(last.row, last.column) then [] else [last])
  }

  /** The unreserved modules in visiting order: bit k of the stream belongs to module k. */
  function DataPath(size: nat, reserved: Reserved): seq<Cell>
    requires size % 2 == 1
  {
    Free(Walk(size, (size - 1) / 2), reserved)
  }

  // ---------- Every module outside one column is visited, once ----------

  /** The column no pair covers: the vertical timing pattern's, or the last of a tiny grid. */
  function SkippedColumn(size: nat): nat
    requires size % 2 == 1
  {
    if size >= 7 then 6 else size - 1
  }

  /** The pair a column belongs to. */
  function PairOf(size: nat, column: nat): int {
    var right := if column > 6 then column + column % 2 else column + 2 - column % 2;
    (size - 1 - right) / 2
  }

  function StepOf(size: nat, p: nat, row: nat): int {
    if p % 2 == 0 then size - 1 - row else row
  }

  lemma PairColumnInverse(size: nat, p: nat)
    requires size % 2 == 1 && 2 * p + 1 < size
    ensures PairOf(size, PairColumn(size, p)) == p && PairOf(size, PairColumn(size, p) - 1) == p
    ensures PairColumn(size, p) != SkippedColumn(size) && PairColumn(size, p) - 1 != SkippedColumn(size)
  {
  }

  lemma PairOfInverse(size: nat, column: nat)
    requires size % 2 == 1 && column < size && column != SkippedColumn(size)
    ensures 0 <= PairOf(size, column) && 2 * PairOf(size, column) + 1 < size
    ensures column == PairColumn(size, PairOf(size, column)) || column == PairColumn(size, PairOf(size, column)) - 1
  {
  }

  lemma {:induction false} InPairCells(size: nat, p: nat, steps: nat, cell: Cell)
    requires size % 2 == 1 && 2 * p + 1 < size && steps <= size && InSymbol(size, cell)
    ensures cell in PairCells(size, p, steps)
       <==> cell.column != SkippedColumn(size) && PairOf(size, cell.column) == p && StepOf(size, p, cell.row) < steps
  {
    if steps > 0 {
      InPairCells(size, p, steps - 1, cell);
      PairColumnInverse(size, p);
      if cell.column != SkippedColumn(size) { PairOfInverse(size, cell.column); }
      assert cell in StepCells(size, p, steps - 1) <==>
        cell.row == StepRow(size, p, steps - 1)
        && (cell.column == PairColumn(size, p) || cell.column == PairColumn(size, p) - 1);
    }
  }

  lemma {:induction false} InWalk(size: nat, pairs: nat, cell: Cell)
    requires size % 2 == 1 && 2 * pairs < size && InSymbol(size, cell)
    ensures cell in Walk(size, pairs) <==> cell.column != SkippedColumn(size) && PairOf(size, cell.column) < pairs
  {
    if pairs > 0 {
      InWalk(size, pairs - 1, cell);
      InPairCells(size, pairs - 1, size, cell);
    } else if cell.column != SkippedColumn(size) {
      PairOfInverse(size, cell.column);
    }
  }

  lemma {:induction false} PairCellsInSymbol(size: nat, p: nat, steps: nat)
    requires size % 2 == 1 && 2 * p + 1 < size && steps <= size
    ensures forall cell :: cell in PairCells(size, p, steps) ==> InSymbol(size, cell)
  {
    if steps > 0 { PairCellsInSymbol(size, p, steps - 1); }
  }

  lemma {:induction false} WalkInSymbol(size: nat, pairs: nat)
    requires size % 2 == 1 && 2 * pairs < size
    ensures forall cell :: cell in Walk(size, pairs) ==> InSymbol(size, cell)
  {
    if pairs > 0 {
      WalkInSymbol(size, pairs - 1);
      PairCellsInSymbol(size, pairs - 1, size);
    }
  }

  ghost predicate NoRepeat(cells: seq<Cell>) {
    forall i, j :: 0 <= i < j < |cells| ==> cells[i] != cells[j]
  }

  lemma NoRepeatAppend(a: seq<Cell>, b: seq<Cell>)
    requires NoRepeat(a) && NoRepeat(b) && forall j :: 0 <= j < |b| ==> b[j] !in a
    ensures NoRepeat(a + b)
  {
    forall i, j | 0 <= i < j < |a + b| ensures (a + b)[i] != (a + b)[j] {
      if i < |a| <= j { assert a[i] in a && b[j - |a|] !in a; }
    }
  }

  lemma {:induction false} PairCellsNoRepeat(size: nat, p: nat, steps: nat)
    requires size % 2 == 1 && 2 * p + 1 < size && steps <= size
    ensures NoRepeat(PairCells(size, p, steps))
  {
    if steps > 0 {
      PairCellsNoRepeat(size, p, steps - 1);
      var last := StepCells(size, p, steps - 1);
      forall j | 0 <= j < |last| ensures last[j] !in PairCells(size, p, steps - 1) {
        InPairCells(size, p, steps - 1, last[j]);
      }
      NoRepeatAppend(PairCells(size, p, steps - 1), last);
    }
  }

  lemma EmptyNoRepeat()
    ensures NoRepeat([])
  {
  }

  lemma {:induction false} WalkNoRepeat(size: nat, pairs: nat)
    requires size % 2 == 1 && 2 * pairs < size
    ensures NoRepeat(Walk(size, pairs))
  {
    hide NoRepeat, PairCells;
    if pairs == 0 {
      assert NoRepeat([]) by { EmptyNoRepeat(); }
    } else {
      WalkNoRepeat(size, pairs - 1);
      PairCellsNoRepeat(size, pairs - 1, size);
      PairCellsInSymbol(size, pairs - 1, size);
      var last := PairCells(size, pairs - 1, size);
      forall j | 0 <= j < |last| ensures last[j] !in Walk(size, pairs - 1) {
        assert last[j] in last;
        InPairCells(size, pairs - 1, size, last[j]);
        InWalk(size, pairs - 1, last[j]);
      }
      NoRepeatAppend(Walk(size, pairs - 1), last);
    }
  }

  lemma {:induction false} FreeMembers(cells: seq<Cell>, reserved: Reserved)
    ensures forall cell :: cell in Free(cells, reserved) <==> cell in cells && !reserved(cell.row, cell.column)
    ensures NoRepeat(cells) ==> NoRepeat(Free(cells, reserved))
  {
    if cells != [] {
      var front, last := cells[..|cells| - 1], cells[|cells| - 1];
      FreeMembers(front, reserved);
      assert cells == front + [last];
      if NoRepeat(cells) {
        assert NoRepeat(front);
        assert last !in front;
        NoRepeatAppend(Free(front, reserved), if reserved(last.row, last.column) then [] else [last]);
      }
    }
  }

  /** The path visits no module twice and only unreserved ones; what it misses is the skipped column. */
  lemma PathVisits(size: nat, reserved: Reserved)
    requires size % 2 == 1
    ensures NoRepeat(DataPath(size, reserved))
    ensures forall cell :: cell in DataPath(size, reserved) <==>
      InSymbol(size, cell) && cell.column != SkippedColumn(size) && !reserved(cell.row, cell.column)
  {
    hide Walk, Free, NoRepeat, PairOf, SkippedColumn;
    var pairs := (size - 1) / 2;
    WalkNoRepeat(size, pairs);
    WalkInSymbol(size, pairs);
    FreeMembers(Walk(size, pairs), reserved);
    forall cell | InSymbol(size, cell)
      ensures cell in Walk(size, pairs) <==> cell.column != SkippedColumn(size)
    {
      InWalk(size, pairs, cell);
      if cell.column != SkippedColumn(size) { PairOfInverse(size, cell.column); }
    }
  }

  /** The path is a bijection onto the unreserved modules exactly when the skipped column is
      reserved throughout, as the vertical timing pattern's column is in a real symbol. */
  lemma PathComplete(size: nat, reserved: Reserved)
    requires size % 2 == 1
    ensures
      (forall cell :: InSymbol(size, cell) && !reserved(cell.row, cell.column) ==> cell in DataPath(size, reserved))
      <==> (forall row :: 0 <= row < size ==> reserved(row, SkippedColumn(size)))
  {
    PathVisits(size, reserved);
    if forall cell :: InSymbol(size, cell) && !reserved(cell.row, cell.column) ==> cell in DataPath(size, reserved) {
      forall row | 0 <= row < size ensures reserved(row, SkippedColumn(size)) {
        var cell := Cell(row, SkippedColumn(size));
        assert InSymbol(size, cell) && cell !in DataPath(size, reserved);
      }
    }
  }

  // ---------- Placing the bits ----------

  function BitAt(bits: seq<bool>, k: nat): bool {
    if k < |bits| then bits[k] else false
  }

  /** Every cell of a path prefix lies in the grid and is apart from a cell not on it. */
  ghost predicate InGrid(size: nat, path: seq<Cell>) {
    forall k :: 0 <= k < |path| ==> path[k].row < size && path[k].column < size
  }

  /** Module k of the path holds bit k, or false past the end of the bits. */
  ghost predicate Filled(grid: array2<Option<bool>>, size: nat, path: seq<Cell>, bits: seq<bool>)
    reads grid
  {
    && grid.Length0 == grid.Length1 == size && InGrid(size, path)
    && forall k :: 0 <= k < |path| ==> grid[path[k].row, path[k].column] == Some(BitAt(bits, k))
  }

  /** One module of the path takes the next bit, unless it is reserved. */
  method PlaceNext(grid: array2<Option<bool>>, reserved: array2<bool>, bits: seq<bool>, size: nat,
      row: nat, column: nat, bit: nat, ghost path: seq<Cell>)
    returns (next: nat)
    requires grid.Length0 == grid.Length1 == reserved.Length0 == reserved.Length1 == size
    requires row < size && column < size && bit == |path|
    requires Cell(row, column) !in path && Filled(grid, size, path, bits)
    modifies grid
    ensures
      var after := path + (if reserved[row, column] then [] else [Cell(row, column)]);
      next == |after| && Filled(grid, size, after, bits)
    ensures forall r, c | 0 <= r < size && 0 <= c < size && (r != row || c != column || reserved[row, column]) ::
      grid[r, c] == old(grid[r, c])
  {
    next := bit;
    if !reserved[row, column] {
      forall k | 0 <= k < |path| ensures path[k] != Cell(row, column) {}
      grid[row, column] := Some(BitAt(bits, bit));
      next := bit + 1;
    }
  }

  lemma FreeStep(cells: seq<Cell>, a: Cell, b: Cell, reserved: Reserved)
    ensures Free(cells + [a, b], reserved)
         == Free(cells, reserved) + (if reserved(a.row, a.column) then [] else [a])
            + (if reserved(b.row, b.column) then [] else [b])
  {
    assert (cells + [a, b])[..|cells| + 1] == cells + [a];
    assert (cells + [a])[..|cells|] == cells;
  }

  /** What has been walked after `pairs` whole pairs and `steps` steps of the next. */
  function WalkPrefix(size: nat, pairs: nat, steps: nat): seq<Cell>
    requires size % 2 == 1 && 2 * pairs + 1 < size && steps <= size
  {
    Walk(size, pairs) + PairCells(size, pairs, steps)
  }

  lemma NextCellsAreNew(size: nat, p: nat, step: nat, reserved: Reserved)
    requires size % 2 == 1 && 2 * p + 1 < size && step < size
    ensures StepCells(size, p, step)[0] !in Free(WalkPrefix(size, p, step), reserved)
    ensures StepCells(size, p, step)[1] !in Free(WalkPrefix(size, p, step), reserved)
    ensures WalkPrefix(size, p, step + 1) == WalkPrefix(size, p, step) + StepCells(size, p, step)
  {
    var cells := StepCells(size, p, step);
    PairColumnInverse(size, p);
    FreeMembers(WalkPrefix(size, p, step), reserved);
    InPairCells(size, p, step, cells[0]);
    InPairCells(size, p, step, cells[1]);
    InWalk(size, p, cells[0]);
    InWalk(size, p, cells[1]);
  }

  /** The encoder's placement loops. Bit k lands on path module k, and nothing else changes. */
  method PlaceBits(grid: array2<Option<bool>>, reserved: array2<bool>, bits: seq<bool>, size: nat,
      ghost isReserved: Reserved)
    requires size % 2 == 1
    requires grid.Length0 == grid.Length1 == reserved.Length0 == reserved.Length1 == size
    requires forall r, c | 0 <= r < size && 0 <= c < size :: reserved[r, c] == isReserved(r, c)
    modifies grid
    ensures Filled(grid, size, DataPath(size, isReserved), bits)
    ensures forall r, c | 0 <= r < size && 0 <= c < size && isReserved(r, c) :: grid[r, c] == old(grid[r, c])
  {
    hide Walk, Free, Filled;
    var bit := 0;
    var upward := true;
    ghost var p := 0;
    NothingPlaced(grid, bits, size, isReserved);
    var right: int := size - 1;
    while right >= 1
      invariant right == size - 1 - 2 * p && p >= 0 && 2 * p < size
      invariant upward == (p % 2 == 0)
      invariant bit == |Free(Walk(size, p), isReserved)| && Filled(grid, size, Free(Walk(size, p), isReserved), bits)
      invariant forall r, c | 0 <= r < size && 0 <= c < size && isReserved(r, c) :: grid[r, c] == old(grid[r, c])
    {
      var column := if right <= 6 then right - 1 else right;
      bit := PlacePair(grid, reserved, bits, size, isReserved, p, column, upward, bit);
      upward := !upward;
      right := right - 2;
      p := p + 1;
    }
    assert p == (size - 1) / 2;
  }

  lemma NothingPlaced(grid: array2<Option<bool>>, bits: seq<bool>, size: nat, isReserved: Reserved)
    requires size % 2 == 1 && grid.Length0 == grid.Length1 == size
    ensures |Free(Walk(size, 0), isReserved)| == 0
    ensures Filled(grid, size, Free(Walk(size, 0), isReserved), bits)
  {
  }

  /** The two modules of one row of a column pair. */
  method PlaceStep(grid: array2<Option<bool>>, reserved: array2<bool>, bits: seq<bool>, size: nat,
      ghost isReserved: Reserved, ghost p: nat, step: nat, column: nat, upward: bool, bit: nat)
    returns (next: nat)
    requires size % 2 == 1 && 2 * p + 1 < size && step < size && column == PairColumn(size, p) && upward == (p % 2 == 0)
    requires grid.Length0 == grid.Length1 == reserved.Length0 == reserved.Length1 == size
    requires forall r, c | 0 <= r < size && 0 <= c < size :: reserved[r, c] == isReserved(r, c)
    requires bit == |Free(WalkPrefix(size, p, step), isReserved)|
    requires Filled(grid, size, Free(WalkPrefix(size, p, step), isReserved), bits)
    modifies grid
    ensures next == |Free(WalkPrefix(size, p, step + 1), isReserved)|
    ensures Filled(grid, size, Free(WalkPrefix(size, p, step + 1), isReserved), bits)
    ensures forall r, c | 0 <= r < size && 0 <= c < size && isReserved(r, c) :: grid[r, c] == old(grid[r, c])
  {
    hide Walk, PairCells, Free, PairColumn, Filled, WalkPrefix;
    var row := if upward then size - 1 - step else step;
    ghost var path := Free(WalkPrefix(size, p, step), isReserved);
    NextCellsAreNew(size, p, step, isReserved);
    FreeStep(WalkPrefix(size, p, step), Cell(row, column), Cell(row, column - 1), isReserved);
    next := PlaceNext(grid, reserved, bits, size, row, column, bit, path);
    ghost var between := path + (if reserved[row, column] then [] else [Cell(row, column)]);
    next := PlaceNext(grid, reserved, bits, size, row, column - 1, next, between);
  }

  /** The loop over the rows of one column pair. */
  method PlacePair(grid: array2<Option<bool>>, reserved: array2<bool>, bits: seq<bool>, size: nat,
      ghost isReserved: Reserved, ghost p: nat, column: nat, upward: bool, bit: nat)
    returns (next: nat)
    requires size % 2 == 1 && 2 * p + 1 < size && column == PairColumn(size, p) && upward == (p % 2 == 0)
    requires grid.Length0 == grid.Length1 == reserved.Length0 == reserved.Length1 == size
    requires forall r, c | 0 <= r < size && 0 <= c < size :: reserved[r, c] == isReserved(r, c)
    requires bit == |Free(Walk(size, p), isReserved)| && Filled(grid, size, Free(Walk(size, p), isReserved), bits)
    modifies grid
    ensures next == |Free(Walk(size, p + 1), isReserved)|
    ensures Filled(grid, size, Free(Walk(size, p + 1), isReserved), bits)
    ensures forall r, c | 0 <= r < size && 0 <= c < size && isReserved(r, c) :: grid[r, c] == old(grid[r, c])
  {
    hide Walk, PairCells, Free, PairColumn, Filled, WalkPrefix;
    next := bit;
    assert WalkPrefix(size, p, 0) == Walk(size, p) by { NoSteps(size, p); }
    for step := 0 to size
      invariant next == |Free(WalkPrefix(size, p, step), isReserved)|
      invariant Filled(grid, size, Free(WalkPrefix(size, p, step), isReserved), bits)
      invariant forall r, c | 0 <= r < size && 0 <= c < size && isReserved(r, c) :: grid[r, c] == old(grid[r, c])
    {
      next := PlaceStep(grid, reserved, bits, size, isReserved, p, step, column, upward, next);
    }
    assert WalkPrefix(size, p, size) == Walk(size, p + 1) by { WholePair(size, p); }
  }

  lemma NoSteps(size: nat, p: nat)
    requires size % 2 == 1 && 2 * p + 1 < size
    ensures WalkPrefix(size, p, 0) == Walk(size, p)
  {
  }

  lemma WholePair(size: nat, p: nat)
    requires size % 2 == 1 && 2 * p + 1 < size
    ensures WalkPrefix(size, p, size) == Walk(size, p + 1)
  {
  }
}
