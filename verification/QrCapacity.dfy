/** How many modules a symbol has left for data: exactly its codewords and remainder bits. */
module QrCapacity {
  import opened QrStream
  import opened QrPath
  import opened QrSymbol

  datatype Rect = Rect(top: nat, left: nat, height: nat, width: nat)

  predicate Inside(rect: Rect, r: nat, c: nat) {
    rect.top <= r < rect.top + rect.height && rect.left <= c < rect.left + rect.width
  }

  ghost function Cells(rect: Rect): set<Cell> {
    set r, c | rect.top <= r < rect.top + rect.height && rect.left <= c < rect.left + rect.width :: Cell(r, c)
  }

  ghost function AllCells(rects: seq<Rect>): set<Cell> {
    if rects == [] then {} else AllCells(rects[..|rects| - 1]) + Cells(rects[|rects| - 1])
  }

  function Area(rects: seq<Rect>): nat {
    if rects == [] then 0
    else Area(rects[..|rects| - 1]) + rects[|rects| - 1].height * rects[|rects| - 1].width
  }

  predicate Apart(a: Rect, b: Rect) {
    || a.top + a.height <= b.top || b.top + b.height <= a.top
    || a.left + a.width <= b.left || b.left + b.width <= a.left
  }

  ghost predicate AllApart(rects: seq<Rect>) {
    forall i, j :: 0 <= i < j < |rects| ==> Apart(rects[i], rects[j])
  }

  lemma {:induction false} RowSize(r: nat, left: nat, width: nat)
    ensures |Cells(Rect(r, left, 1, width))| == width
  {
    if width == 0 {
      assert Cells(Rect(r, left, 1, 0)) == {};
    } else {
      RowSize(r, left, width - 1);
      assert Cells(Rect(r, left, 1, width)) == Cells(Rect(r, left, 1, width - 1)) + {Cell(r, left + width - 1)};
    }
  }

  lemma OneRowMore(height: nat, width: nat)
    requires height > 0
    ensures height * width == (height - 1) * width + width
  {
  }

  lemma LastRow(rect: Rect)
    requires rect.height > 0
    ensures
      var upper := rect.(height := rect.height - 1);
      var row := Rect(rect.top + rect.height - 1, rect.left, 1, rect.width);
      Cells(rect) == Cells(upper) + Cells(row) && Cells(upper) !! Cells(row)
  {
  }

  lemma {:induction false} RectSize(rect: Rect)
    ensures |Cells(rect)| == rect.height * rect.width
    decreases rect.height
  {
    if rect.height == 0 {
      assert Cells(rect) == {};
    } else {
      hide Cells;
      LastRow(rect);
      RectSize(rect.(height := rect.height - 1));
      RowSize(rect.top + rect.height - 1, rect.left, rect.width);
      OneRowMore(rect.height, rect.width);
    }
  }

  lemma {:induction false} InAllCells(rects: seq<Rect>, cell: Cell)
    ensures cell in AllCells(rects) <==> exists i :: 0 <= i < |rects| && Inside(rects[i], cell.row, cell.column)
  {
    if rects != [] {
      InAllCells(rects[..|rects| - 1], cell);
      assert cell in Cells(rects[|rects| - 1]) <==> Inside(rects[|rects| - 1], cell.row, cell.column);
    }
  }

  /** Rectangles that do not overlap cover as many modules as their areas add up to. */
  lemma {:induction false} AreaIsSize(rects: seq<Rect>)
    requires AllApart(rects)
    ensures |AllCells(rects)| == Area(rects)
  {
    if rects != [] {
      var front, last := rects[..|rects| - 1], rects[|rects| - 1];
      AreaIsSize(front);
      RectSize(last);
      forall cell | cell in AllCells(front) ensures cell !in Cells(last) {
        InAllCells(front, cell);
        var i :| 0 <= i < |front| && Inside(front[i], cell.row, cell.column);
        assert Apart(rects[i], last);
      }
      assert AllCells(front) !! Cells(last);
    }
  }

  lemma {:induction false} AreaAppend(a: seq<Rect>, b: seq<Rect>)
    ensures Area(a + b) == Area(a) + Area(b)
  {
    if b == [] {
      assert a + b == a;
    } else {
      assert (a + b)[..|a + b| - 1] == a + b[..|b| - 1];
      AreaAppend(a, b[..|b| - 1]);
    }
  }

  // ---------- The reserved modules as rectangles ----------

  function CornerRects(size: nat): seq<Rect>
    requires size >= 21
  {
    [Rect(0, 0, 9, 9), Rect(0, size - 8, 9, 8), Rect(size - 8, 0, 8, 9)]
  }

  function TimingRects(size: nat): seq<Rect>
    requires size >= 21
  {
    [Rect(6, 9, 1, size - 17), Rect(9, 6, size - 17, 1)]
  }

  /** The alignment patterns centred on a timing pattern, without the part that lies on it. */
  function SplitRects(v: nat): seq<Rect>
    requires IsVersion(v)
  {
    var m := 2 * v + 8;
    if v < 7 then []
    else [Rect(4, m - 2, 2, 5), Rect(7, m - 2, 2, 5), Rect(m - 2, 4, 5, 2), Rect(m - 2, 7, 5, 2)]
  }

  function AlignmentRects(v: nat): seq<Rect>
    requires IsVersion(v)
  {
    var k, m := Size(v) - 7, 2 * v + 8;
    if v == 1 then []
    else if v < 7 then [Rect(k - 2, k - 2, 5, 5)]
    else [Rect(m - 2, m - 2, 5, 5), Rect(m - 2, k - 2, 5, 5), Rect(k - 2, m - 2, 5, 5), Rect(k - 2, k - 2, 5, 5)]
  }

  function VersionRects(v: nat): seq<Rect>
    requires IsVersion(v)
  {
    if v < 7 then [] else [Rect(0, Size(v) - 11, 6, 3), Rect(Size(v) - 11, 0, 3, 6)]
  }

  function ReservedRects(v: nat): seq<Rect>
    requires IsVersion(v)
  {
    CornerRects(Size(v)) + (TimingRects(Size(v)) + (SplitRects(v) + (AlignmentRects(v) + VersionRects(v))))
  }

  ghost predicate CrossApart(a: seq<Rect>, b: seq<Rect>) {
    forall i, j :: 0 <= i < |a| && 0 <= j < |b| ==> Apart(a[i], b[j])
  }

  lemma JoinApart(a: seq<Rect>, b: seq<Rect>)
    requires AllApart(a) && AllApart(b) && CrossApart(a, b)
    ensures AllApart(a + b)
  {
  }

  lemma JoinCross(a: seq<Rect>, b: seq<Rect>, c: seq<Rect>)
    requires CrossApart(a, b) && CrossApart(a, c)
    ensures CrossApart(a, b + c)
  {
  }

  lemma GroupsApart(v: nat)
    requires IsVersion(v)
    ensures AllApart(CornerRects(Size(v))) && AllApart(TimingRects(Size(v)))
    ensures AllApart(SplitRects(v)) && AllApart(AlignmentRects(v)) && AllApart(VersionRects(v))
  {
  }

  lemma CornersApart(v: nat)
    requires IsVersion(v)
    ensures CrossApart(CornerRects(Size(v)), TimingRects(Size(v)))
    ensures CrossApart(CornerRects(Size(v)), SplitRects(v))
    ensures CrossApart(CornerRects(Size(v)), AlignmentRects(v))
    ensures CrossApart(CornerRects(Size(v)), VersionRects(v))
  {
  }

  lemma TimingApart(v: nat)
    requires IsVersion(v)
    ensures CrossApart(TimingRects(Size(v)), SplitRects(v))
    ensures CrossApart(TimingRects(Size(v)), AlignmentRects(v))
    ensures CrossApart(TimingRects(Size(v)), VersionRects(v))
  {
  }

  lemma SplitApart(v: nat)
    requires IsVersion(v)
    ensures CrossApart(SplitRects(v), AlignmentRects(v))
  {
  }

  lemma SplitOffVersion(v: nat)
    requires IsVersion(v)
    ensures CrossApart(SplitRects(v), VersionRects(v))
  {
  }

  lemma AlignmentApart(v: nat)
    requires IsVersion(v)
    ensures CrossApart(AlignmentRects(v), VersionRects(v))
  {
  }

  lemma ReservedApart(v: nat)
    requires IsVersion(v)
    ensures AllApart(ReservedRects(v))
  {
    hide AllApart, CrossApart, CornerRects, TimingRects, SplitRects, AlignmentRects, VersionRects;
    var c, t, s, a, w := CornerRects(Size(v)), TimingRects(Size(v)), SplitRects(v), AlignmentRects(v), VersionRects(v);
    GroupsApart(v);
    CornersApart(v);
    TimingApart(v);
    SplitApart(v);
    SplitOffVersion(v);
    AlignmentApart(v);
    JoinApart(a, w);
    JoinCross(s, a, w);
    JoinApart(s, a + w);
    JoinCross(t, a, w);
    JoinCross(t, s, a + w);
    JoinApart(t, s + (a + w));
    JoinCross(c, a, w);
    JoinCross(c, s, a + w);
    JoinCross(c, t, s + (a + w));
    JoinApart(c, t + (s + (a + w)));
  }

  // ---------- They are the reserved modules ----------

  predicate InRects(rects: seq<Rect>, r: nat, c: nat) {
    exists i :: 0 <= i < |rects| && Inside(rects[i], r, c)
  }

  lemma InJoined(a: seq<Rect>, b: seq<Rect>, r: nat, c: nat)
    ensures InRects(a + b, r, c) <==> InRects(a, r, c) || InRects(b, r, c)
  {
    if i :| 0 <= i < |a| && Inside(a[i], r, c) { assert (a + b)[i] == a[i]; }
    if i :| 0 <= i < |b| && Inside(b[i], r, c) { assert (a + b)[|a| + i] == b[i]; }
  }

  lemma CornersAndTiming(v: nat, r: nat, c: nat)
    requires IsVersion(v) && r < Size(v) && c < Size(v)
    ensures InRects(CornerRects(Size(v)), r, c) || InRects(TimingRects(Size(v)), r, c)
       <==> InCorner(Size(v), r, c) || OnTiming(r, c)
  {
    var corners, timing := CornerRects(Size(v)), TimingRects(Size(v));
    if InCorner(Size(v), r, c) {
      assert Inside(corners[0], r, c) || Inside(corners[1], r, c) || Inside(corners[2], r, c);
    } else if OnTiming(r, c) {
      assert Inside(timing[0], r, c) || Inside(timing[1], r, c);
    }
  }

  lemma VersionArea(v: nat, r: nat, c: nat)
    requires IsVersion(v) && r < Size(v) && c < Size(v)
    ensures InRects(VersionRects(v), r, c) <==> InVersionArea(v, r, c)
  {
    var area := VersionRects(v);
    if InVersionArea(v, r, c) {
      assert Inside(area[0], r, c) || Inside(area[1], r, c);
    }
  }

  lemma CentreList(v: nat)
    requires IsVersion(v)
    ensures v == 1 ==> AlignmentCentres(v) == []
    ensures 2 <= v < 7 ==> AlignmentCentres(v) == [6, Size(v) - 7]
    ensures v >= 7 ==> AlignmentCentres(v) == [6, 2 * v + 8, Size(v) - 7]
  {
  }

  /** The alignment patterns of the larger symbols, by centre. */
  lemma LargeAlignment(v: nat, r: nat, c: nat)
    requires 7 <= v <= MAX_VERSION && r < Size(v) && c < Size(v)
    ensures
      var m, k := 2 * v + 8, Size(v) - 7;
      InAlignment(v, r, c) <==>
        || Ring(r, c, 6, m) <= 2 || Ring(r, c, m, 6) <= 2 || Ring(r, c, m, m) <= 2
        || Ring(r, c, m, k) <= 2 || Ring(r, c, k, m) <= 2 || Ring(r, c, k, k) <= 2
  {
    hide Ring, AlignmentCentres;
    CentreList(v);
    var a := AlignmentCentres(v);
    var m, k := 2 * v + 8, Size(v) - 7;
    assert IsCentre(v, a[0], a[1]) && IsCentre(v, a[1], a[0]) && IsCentre(v, a[1], a[1]);
    assert IsCentre(v, a[1], a[2]) && IsCentre(v, a[2], a[1]) && IsCentre(v, a[2], a[2]);
    assert !IsCentre(v, a[0], a[0]) && !IsCentre(v, a[0], a[2]) && !IsCentre(v, a[2], a[0]);
  }

  lemma SmallAlignment(v: nat, r: nat, c: nat)
    requires 2 <= v < 7 && r < Size(v) && c < Size(v)
    ensures InAlignment(v, r, c) <==> Ring(r, c, Size(v) - 7, Size(v) - 7) <= 2
  {
    hide Ring, AlignmentCentres;
    CentreList(v);
    var a := AlignmentCentres(v);
    assert IsCentre(v, a[1], a[1]);
    assert !IsCentre(v, a[0], a[0]) && !IsCentre(v, a[0], a[1]) && !IsCentre(v, a[1], a[0]);
  }

  lemma RingIsSquare(r: nat, c: nat, row: nat, column: nat)
    requires row >= 2 && column >= 2
    ensures Ring(r, c, row, column) <= 2 <==> Inside(Rect(row - 2, column - 2, 5, 5), r, c)
  {
  }

  lemma SplitSquares(v: nat, r: nat, c: nat)
    requires 7 <= v <= MAX_VERSION && !OnTiming(r, c)
    ensures InRects(SplitRects(v), r, c)
       <==> Ring(r, c, 6, 2 * v + 8) <= 2 || Ring(r, c, 2 * v + 8, 6) <= 2
  {
    var m := 2 * v + 8;
    var split := SplitRects(v);
    RingIsSquare(r, c, 6, m);
    RingIsSquare(r, c, m, 6);
    if Ring(r, c, 6, m) <= 2 { assert Inside(split[0], r, c) || Inside(split[1], r, c); }
    if Ring(r, c, m, 6) <= 2 { assert Inside(split[2], r, c) || Inside(split[3], r, c); }
  }

  lemma WholeSquares(v: nat, r: nat, c: nat)
    requires 7 <= v <= MAX_VERSION
    ensures
      var m, k := 2 * v + 8, Size(v) - 7;
      InRects(AlignmentRects(v), r, c) <==>
        Ring(r, c, m, m) <= 2 || Ring(r, c, m, k) <= 2 || Ring(r, c, k, m) <= 2 || Ring(r, c, k, k) <= 2
  {
    hide Ring;
    var m, k := 2 * v + 8, Size(v) - 7;
    var whole := AlignmentRects(v);
    RingIsSquare(r, c, m, m);
    RingIsSquare(r, c, m, k);
    RingIsSquare(r, c, k, m);
    RingIsSquare(r, c, k, k);
    assert InRects(whole, r, c) <==>
      Inside(whole[0], r, c) || Inside(whole[1], r, c) || Inside(whole[2], r, c) || Inside(whole[3], r, c);
  }

  lemma AlignmentArea(v: nat, r: nat, c: nat)
    requires IsVersion(v) && r < Size(v) && c < Size(v) && !OnTiming(r, c)
    ensures InRects(SplitRects(v), r, c) || InRects(AlignmentRects(v), r, c) <==> InAlignment(v, r, c)
  {
    hide Ring, InAlignment;
    if v >= 7 {
      LargeAlignment(v, r, c);
      SplitSquares(v, r, c);
      WholeSquares(v, r, c);
    } else if v >= 2 {
      var k := Size(v) - 7;
      SmallAlignment(v, r, c);
      RingIsSquare(r, c, k, k);
      var whole := AlignmentRects(v);
      assert InRects(whole, r, c) <==> Inside(whole[0], r, c);
    } else {
      NoAlignment(v, r, c);
    }
  }

  lemma NoAlignment(v: nat, r: nat, c: nat)
    requires v == 1
    ensures !InAlignment(v, r, c)
  {
    CentreList(v);
  }

  /** The rectangles cover exactly the reserved modules. */
  lemma ReservedAsRects(v: nat, r: nat, c: nat)
    requires IsVersion(v) && r < Size(v) && c < Size(v)
    ensures InRects(ReservedRects(v), r, c) <==> IsReserved(v, r, c)
  {
    hide CornerRects, TimingRects, SplitRects, AlignmentRects, VersionRects, InRects, InAlignment, InCorner, InVersionArea;
    var cs, t, s, a, w := CornerRects(Size(v)), TimingRects(Size(v)), SplitRects(v), AlignmentRects(v), VersionRects(v);
    InJoined(a, w, r, c);
    InJoined(s, a + w, r, c);
    InJoined(t, s + (a + w), r, c);
    InJoined(cs, t + (s + (a + w)), r, c);
    CornersAndTiming(v, r, c);
    VersionArea(v, r, c);
    if !OnTiming(r, c) { AlignmentArea(v, r, c); }
  }

  // ---------- Counting ----------

  lemma AreaOfOne(a: Rect)
    ensures Area([a]) == a.height * a.width
  {
    assert [a][..0] == [];
  }

  lemma AreaOfTwo(a: Rect, b: Rect)
    ensures Area([a, b]) == a.height * a.width + b.height * b.width
  {
    assert [a, b][..1] == [a];
    AreaOfOne(a);
  }

  lemma AreaOfFour(a: Rect, b: Rect, c: Rect, d: Rect)
    ensures Area([a, b, c, d]) == a.height * a.width + b.height * b.width + c.height * c.width + d.height * d.width
  {
    assert [a, b, c, d] == [a, b] + [c, d];
    AreaAppend([a, b], [c, d]);
    AreaOfTwo(a, b);
    AreaOfTwo(c, d);
  }

  lemma ReservedArea(v: nat)
    requires IsVersion(v)
    ensures Area(ReservedRects(v))
         == 191 + 2 * Size(v) + (if v == 1 then 0 else if v < 7 then 25 else 176)
  {
    hide Area;
    var cs, t, s, a, w := CornerRects(Size(v)), TimingRects(Size(v)), SplitRects(v), AlignmentRects(v), VersionRects(v);
    AreaAppend(a, w);
    AreaAppend(s, a + w);
    AreaAppend(t, s + (a + w));
    AreaAppend(cs, t + (s + (a + w)));
    assert cs == [cs[0]] + [cs[1], cs[2]];
    AreaAppend([cs[0]], [cs[1], cs[2]]);
    AreaOfOne(cs[0]);
    AreaOfTwo(cs[1], cs[2]);
    AreaOfTwo(t[0], t[1]);
    NoArea();
    if v >= 7 {
      AreaOfFour(s[0], s[1], s[2], s[3]);
      AreaOfFour(a[0], a[1], a[2], a[3]);
      AreaOfTwo(w[0], w[1]);
    } else if v >= 2 {
      AreaOfOne(a[0]);
    }
  }

  lemma NoArea()
    ensures Area([]) == 0
  {
  }

  ghost function SetOf(path: seq<Cell>): set<Cell> {
    set cell | cell in path
  }

  lemma {:induction false} NoRepeatSize(path: seq<Cell>)
    requires NoRepeat(path)
    ensures |SetOf(path)| == |path|
  {
    if path == [] {
      assert SetOf(path) == {};
    } else {
      var front, last := path[..|path| - 1], path[|path| - 1];
      assert NoRepeat(front);
      NoRepeatSize(front);
      assert path == front + [last];
      assert SetOf(path) == SetOf(front) + {last};
    }
  }

  lemma PathAndReserved(v: nat)
    requires IsVersion(v)
    ensures SetOf(DataPath(Size(v), ReservedMap(v))) + AllCells(ReservedRects(v)) == Cells(Rect(0, 0, Size(v), Size(v)))
    ensures SetOf(DataPath(Size(v), ReservedMap(v))) !! AllCells(ReservedRects(v))
  {
    hide DataPath, ReservedRects, AllCells, IsReserved;
    var path, rects, square := DataPath(Size(v), ReservedMap(v)), ReservedRects(v), Rect(0, 0, Size(v), Size(v));
    PathVisits(Size(v), ReservedMap(v));
    ReservedInside(v);
    forall cell
      ensures cell in Cells(square) <==> cell in path || cell in AllCells(rects)
      ensures !(cell in path && cell in AllCells(rects))
    {
      InAllCells(rects, cell);
      assert cell in AllCells(rects) <==> InRects(rects, cell.row, cell.column);
      assert cell in Cells(square) <==> InSymbol(Size(v), cell) by { InSquare(Size(v), cell); }
      if InSymbol(Size(v), cell) {
        ReservedAsRects(v, cell.row, cell.column);
        if cell.column == 6 { SkippedIsReserved(v, cell.row); }
      }
    }
  }

  lemma InSquare(size: nat, cell: Cell)
    ensures cell in Cells(Rect(0, 0, size, size)) <==> InSymbol(size, cell)
  {
  }

  lemma SkippedIsReserved(v: nat, r: nat)
    requires IsVersion(v)
    ensures SkippedColumn(Size(v)) == 6 && IsReserved(v, r, 6)
  {
  }

  lemma ReservedInside(v: nat)
    requires IsVersion(v)
    ensures forall r: nat, c: nat :: InRects(ReservedRects(v), r, c) ==> r < Size(v) && c < Size(v)
  {
  }

  /** A symbol holds exactly its codewords and its remainder bits. */
  lemma PathLength(v: nat)
    requires IsVersion(v)
    ensures |DataPath(Size(v), ReservedMap(v))| == 8 * TotalCodewords(v) + RemainderBits(v)
  {
    hide DataPath, ReservedRects;
    var path, rects := DataPath(Size(v), ReservedMap(v)), ReservedRects(v);
    PathAndReserved(v);
    PathVisits(Size(v), ReservedMap(v));
    NoRepeatSize(path);
    ReservedApart(v);
    AreaIsSize(rects);
    ReservedArea(v);
    RectSize(Rect(0, 0, Size(v), Size(v)));
    assert |SetOf(path) + AllCells(rects)| == |SetOf(path)| + |AllCells(rects)|;
    Arithmetic(v);
  }

  lemma Arithmetic(v: nat)
    requires IsVersion(v)
    ensures Size(v) * Size(v)
         == 8 * TotalCodewords(v) + RemainderBits(v) + 191 + 2 * Size(v)
            + (if v == 1 then 0 else if v < 7 then 25 else 176)
  {
  }
}
