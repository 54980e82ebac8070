/** The order of the data path, written out in rows and columns. */
module QrZigZag {
  import opened QrPath

  /** The right-hand column of the pair a column lies in; column 6 lies in none. */
  function RightOf(column: nat): nat {
    if column > 6 then column + column % 2 else column + 1 - column % 2
  }

  /** The rightmost pair is walked upwards, the next one down, and so on to the left. */
  predicate GoesUp(size: nat, column: nat) {
    (size - 1 - RightOf(column) - (if column < 6 then 1 else 0)) % 4 == 0
  }

  /** The zig-zag order: pairs from the right, in a pair the rows in its direction, in a row the right-hand
      module first. */
  predicate Precedes(size: nat, a: Cell, b: Cell) {
    || RightOf(a.column) > RightOf(b.column)
    || (RightOf(a.column) == RightOf(b.column) && if GoesUp(size, a.column) then a.row > b.row else a.row < b.row)
    || (RightOf(a.column) == RightOf(b.column) && a.row == b.row && a.column == b.column + 1)
  }

  ghost predicate InOrder(size: nat, cells: seq<Cell>) {
    forall i, k :: 0 <= i < k < |cells| ==> Precedes(size, cells[i], cells[k])
  }

  lemma InOrderAppend(size: nat, a: seq<Cell>, b: seq<Cell>)
    requires InOrder(size, a) && InOrder(size, b)
    requires forall x, y | x in a && y in b :: Precedes(size, x, y)
    ensures InOrder(size, a + b)
  {
    hide Precedes;
    forall i, k | 0 <= i < k < |a + b| ensures Precedes(size, (a + b)[i], (a + b)[k]) {
      if i < |a| <= k { assert a[i] in a && b[k - |a|] in b; }
    }
  }

  lemma RightOfPair(size: nat, p: nat, column: nat)
    requires size % 2 == 1 && 2 * p + 1 < size && (column == PairColumn(size, p) || column == PairColumn(size, p) - 1)
    ensures RightOf(column) == PairColumn(size, p) && (GoesUp(size, column) <==> p % 2 == 0)
  {
    hide GoesUp;
    var right := size - 1 - 2 * p;
    if right > 6 {
      assert right % 2 == 0 && RightOf(column) == right;
      assert GoesUp(size, column) <==> p % 2 == 0 by { Direction(size, column, right, p); }
    } else {
      assert right % 2 == 0 && RightOf(column) == right - 1;
      assert GoesUp(size, column) <==> p % 2 == 0 by { Direction(size, column, right, p); }
    }
  }

  lemma Direction(size: nat, column: nat, right: nat, p: nat)
    requires right == size - 1 - 2 * p && right == RightOf(column) + if column < 6 then 1 else 0
    ensures GoesUp(size, column) <==> p % 2 == 0
  {
    hide RightOf;
    assert size - 1 - right == 2 * p;
  }

  /** The pair's number, told from its columns. */
  lemma PairIsRight(size: nat, column: nat, p: nat)
    requires size % 2 == 1 && 2 * p + 1 < size && column < size && column != SkippedColumn(size) && PairOf(size, column) == p
    ensures RightOf(column) == PairColumn(size, p) && (GoesUp(size, column) <==> p % 2 == 0)
    ensures column == PairColumn(size, p) || column == PairColumn(size, p) - 1
  {
    hide RightOf, GoesUp, PairOf, PairColumn;
    PairOfInverse(size, column);
    RightOfPair(size, p, column);
  }

  lemma PairsDescend(size: nat, p: nat, q: nat)
    requires size % 2 == 1 && p < q && 2 * q + 1 < size
    ensures PairColumn(size, p) > PairColumn(size, q)
  {
  }

  lemma {:induction false} PairCellsInOrder(size: nat, p: nat, steps: nat)
    requires size % 2 == 1 && 2 * p + 1 < size && steps <= size
    ensures InOrder(size, PairCells(size, p, steps))
  {
    hide InOrder, Precedes, GoesUp, RightOf;
    if steps == 0 {
      NothingInOrder(size);
    } else {
      PairCellsInOrder(size, p, steps - 1);
      PairCellsInSymbol(size, p, steps - 1);
      var last := StepCells(size, p, steps - 1);
      StepInOrder(size, p, steps - 1);
      forall x, y | x in PairCells(size, p, steps - 1) && y in last ensures Precedes(size, x, y) {
        InPairCells(size, p, steps - 1, x);
        EarlierStep(size, p, steps - 1, x, y);
      }
      InOrderAppend(size, PairCells(size, p, steps - 1), last);
    }
  }

  lemma NothingInOrder(size: nat)
    ensures InOrder(size, [])
  {
  }

  lemma StepInOrder(size: nat, p: nat, step: nat)
    requires size % 2 == 1 && 2 * p + 1 < size && step < size
    ensures InOrder(size, StepCells(size, p, step))
  {
    PairColumnInverse(size, p);
    PairIsRight(size, PairColumn(size, p), p);
    PairIsRight(size, PairColumn(size, p) - 1, p);
  }

  lemma EarlierStep(size: nat, p: nat, step: nat, x: Cell, y: Cell)
    requires size % 2 == 1 && 2 * p + 1 < size && step < size && InSymbol(size, x)
    requires x.column != SkippedColumn(size) && PairOf(size, x.column) == p && StepOf(size, p, x.row) < step
    requires y in StepCells(size, p, step)
    ensures Precedes(size, x, y)
  {
    hide GoesUp, RightOf, PairColumn, PairOf;
    PairColumnInverse(size, p);
    PairIsRight(size, x.column, p);
    PairIsRight(size, y.column, p);
  }

  lemma {:induction false} WalkInOrder(size: nat, pairs: nat)
    requires size % 2 == 1 && 2 * pairs < size
    ensures InOrder(size, Walk(size, pairs))
  {
    hide InOrder, Precedes, PairCells, PairColumn, PairOf;
    if pairs == 0 {
      NothingInOrder(size);
    } else {
      var before, last := Walk(size, pairs - 1), PairCells(size, pairs - 1, size);
      WalkInOrder(size, pairs - 1);
      PairCellsInOrder(size, pairs - 1, size);
      WalkInSymbol(size, pairs - 1);
      PairCellsInSymbol(size, pairs - 1, size);
      forall x, y | x in before && y in last ensures Precedes(size, x, y) {
        InWalk(size, pairs - 1, x);
        InPairCells(size, pairs - 1, size, y);
        EarlierPair(size, x, y);
      }
      InOrderAppend(size, before, last);
    }
  }

  lemma EarlierPair(size: nat, x: Cell, y: Cell)
    requires size % 2 == 1 && InSymbol(size, x) && InSymbol(size, y)
    requires x.column != SkippedColumn(size) && y.column != SkippedColumn(size)
    requires PairOf(size, x.column) < PairOf(size, y.column)
    ensures Precedes(size, x, y)
  {
    hide PairOf, RightOf, GoesUp;
    PairOfInverse(size, x.column);
    PairOfInverse(size, y.column);
    PairIsRight(size, x.column, PairOf(size, x.column));
    PairIsRight(size, y.column, PairOf(size, y.column));
    PairsDescend(size, PairOf(size, x.column), PairOf(size, y.column));
  }

  lemma {:induction false} FreeInOrder(size: nat, cells: seq<Cell>, reserved: Reserved)
    requires InOrder(size, cells)
    ensures InOrder(size, Free(cells, reserved))
  {
    hide Precedes;
    if cells != [] {
      var front, last := cells[..|cells| - 1], cells[|cells| - 1];
      assert InOrder(size, front);
      FreeInOrder(size, front, reserved);
      FreeMembers(front, reserved);
      forall x | x in front ensures Precedes(size, x, last) {
        var i :| 0 <= i < |front| && front[i] == x;
        assert cells[i] == x;
      }
      InOrderAppend(size, Free(front, reserved), if reserved(last.row, last.column) then [] else [last]);
    }
  }

  /** Bit i is placed before bit k wherever i < k: the path follows the zig-zag. */
  lemma PathInOrder(size: nat, reserved: Reserved)
    requires size % 2 == 1
    ensures forall i, k :: 0 <= i < k < |DataPath(size, reserved)| ==>
      Precedes(size, DataPath(size, reserved)[i], DataPath(size, reserved)[k])
  {
    hide Precedes, Walk, Free;
    WalkInOrder(size, (size - 1) / 2);
    FreeInOrder(size, Walk(size, (size - 1) / 2), reserved);
  }

  lemma NotBoth(size: nat, a: Cell, b: Cell)
    requires Precedes(size, a, b)
    ensures !Precedes(size, b, a) && a != b
  {
  }

  /** Two sequences of the same modules, both in zig-zag order, are the same. */
  lemma {:induction false} OrderDetermines(size: nat, a: seq<Cell>, b: seq<Cell>)
    requires InOrder(size, a) && InOrder(size, b) && forall cell :: cell in a <==> cell in b
    ensures a == b
  {
    hide Precedes;
    if a != [] && b != [] {
      FirstIsFirst(size, a, b);
      forall cell | cell in a[1..] ensures cell in b[1..] { Later(size, a, b, cell); }
      forall cell | cell in b[1..] ensures cell in a[1..] { Later(size, b, a, cell); }
      OrderDetermines(size, a[1..], b[1..]);
      assert a == [a[0]] + a[1..] && b == [b[0]] + b[1..];
    } else {
      BothEmpty(a, b);
    }
  }

  lemma BothEmpty(a: seq<Cell>, b: seq<Cell>)
    requires (a == [] || b == []) && forall cell :: cell in a <==> cell in b
    ensures a == b
  {
    HasFirst(a);
    HasFirst(b);
  }

  lemma HasFirst(cells: seq<Cell>)
    ensures cells != [] ==> cells[0] in cells
  {
  }

  lemma FirstIsFirst(size: nat, a: seq<Cell>, b: seq<Cell>)
    requires InOrder(size, a) && InOrder(size, b) && a != [] && b != [] && forall cell :: cell in a <==> cell in b
    ensures a[0] == b[0]
  {
    hide Precedes;
    assert a[0] in b && b[0] in a;
    if a[0] != b[0] {
      assert Precedes(size, a[0], b[0]) && Precedes(size, b[0], a[0]);
      NotBoth(size, a[0], b[0]);
    }
  }

  lemma Later(size: nat, a: seq<Cell>, b: seq<Cell>, cell: Cell)
    requires InOrder(size, a) && a != [] && b != [] && a[0] == b[0] && cell in a[1..] && cell in b
    ensures cell in b[1..]
  {
    hide Precedes;
    var i :| 0 <= i < |a[1..]| && a[1..][i] == cell;
    assert a[i + 1] == cell;
    NotBoth(size, a[0], cell);
    var k :| 0 <= k < |b| && b[k] == cell;
    assert b[1..][k - 1] == cell;
  }

  /** The free modules outside the skipped column, in zig-zag order: that is the path, and nothing else is. */
  lemma PathIsTheZigZag(size: nat, reserved: Reserved, path: seq<Cell>)
    requires size % 2 == 1
    ensures path == DataPath(size, reserved) <==>
      && InOrder(size, path)
      && forall cell :: cell in path <==>
           InSymbol(size, cell) && cell.column != SkippedColumn(size) && !reserved(cell.row, cell.column)
  {
    hide Precedes, Walk, Free;
    PathVisits(size, reserved);
    PathInOrder(size, reserved);
    if InOrder(size, path) && forall cell :: cell in path <==> cell in DataPath(size, reserved) {
      OrderDetermines(size, path, DataPath(size, reserved));
    }
  }
}
