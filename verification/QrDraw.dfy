/** Drawing the function patterns: what `functionPatterns` leaves in the grid and in the reserved
    map, module by module. */
module QrDraw {
  import opened Options
  import opened QrStream
  import opened QrPath
  import opened QrSymbol
  import opened QrFormat

  /** A module no pattern touches, one held for format information, or one of a pattern. */
  datatype Module = Blank | Held | Inked(dark: bool)

  predicate Canvas(grid: array2<Option<bool>>, reserved: array2<bool>, size: nat) {
    grid.Length0 == grid.Length1 == reserved.Length0 == reserved.Length1 == size >= 21
  }

  function Ink(m: Module): Option<bool> {
    if m.Inked? then Some(m.dark) else None
  }

  // ---------- What is shown where ----------

  predicate FinderDark(ring: nat) {
    ring != 2 && ring != 4
  }

  /** The finder patterns with their light separators: rings around three centres. */
  function Finders(size: nat, r: nat, c: nat): Module {
    if Ring(r, c, 3, 3) <= 4 then Inked(FinderDark(Ring(r, c, 3, 3)))
    else if Ring(r, c, 3, size - 4) <= 4 then Inked(FinderDark(Ring(r, c, 3, size - 4)))
    else if Ring(r, c, size - 4, 3) <= 4 then Inked(FinderDark(Ring(r, c, size - 4, 3)))
    else Blank
  }

  /** The alternating lines between the finders. */
  function WithTiming(size: nat, r: nat, c: nat): Module {
    if (r == 6 && 8 <= c < size - 8) || (c == 6 && 8 <= r < size - 8) then Inked((r + c) % 2 == 0)
    else Finders(size, r, c)
  }

  predicate Earlier(i: nat, j: nat, rows: nat, columns: nat) {
    i < rows || (i == rows && j < columns)
  }

  /** One of the alignment patterns drawn so far is centred `ring` rings away. */
  predicate Aligned(v: nat, rows: nat, columns: nat, r: nat, c: nat, ring: nat)
    requires IsVersion(v)
  {
    exists i, j :: 0 <= i < |AlignmentCentres(v)| && 0 <= j < |AlignmentCentres(v)| && Earlier(i, j, rows, columns)
      && IsCentre(v, AlignmentCentres(v)[i], AlignmentCentres(v)[j])
      && Ring(r, c, AlignmentCentres(v)[i], AlignmentCentres(v)[j]) == ring
  }

  /** Alignment patterns: a dark centre, a light ring, a dark ring. */
  function WithAlignment(v: nat, rows: nat, columns: nat, r: nat, c: nat): Module
    requires IsVersion(v)
  {
    if Aligned(v, rows, columns, r, c, 1) then Inked(false)
    else if Aligned(v, rows, columns, r, c, 0) || Aligned(v, rows, columns, r, c, 2) then Inked(true)
    else WithTiming(Size(v), r, c)
  }

  predicate HoldsFormat(size: nat, r: nat, c: nat) {
    (r == 8 && c != 6 && (c < 9 || c + 8 >= size)) || (c == 8 && r != 6 && (r < 9 || r + 8 >= size))
  }

  /** Everything but the version blocks; the dark module stands above the lower format cells. */
  function WithFormat(v: nat, r: nat, c: nat): Module
    requires IsVersion(v)
  {
    if r == Size(v) - 8 && c == 8 then Inked(true)
    else if HoldsFormat(Size(v), r, c) then Held
    else WithAlignment(v, |AlignmentCentres(v)|, 0, r, c)
  }

  /** Bit 0 of a version block is the least significant. */
  function VersionBit(v: nat, i: nat): bool
    requires i < 18
  {
    VersionBits(v)[17 - i]
  }

  function VersionModule(v: nat, r: nat, c: nat): bool
    requires r < 6 && Size(v) - 11 <= c < Size(v) - 8
  {
    VersionBit(v, 3 * r + (c - (Size(v) - 11)))
  }

  /** The finished function patterns. */
  function Pattern(v: nat, r: nat, c: nat): Module
    requires IsVersion(v)
  {
    if v >= 7 && r < 6 && Size(v) - 11 <= c < Size(v) - 8 then Inked(VersionModule(v, r, c))
    else if v >= 7 && c < 6 && Size(v) - 11 <= r < Size(v) - 8 then Inked(VersionModule(v, c, r))
    else WithFormat(v, r, c)
  }

  // ---------- Drawing ----------

  /** The encoder's `set`; a module off the symbol is passed over. */
  method SetModule(grid: array2<Option<bool>>, reserved: array2<bool>, size: nat, row: int, column: int, dark: bool)
    requires Canvas(grid, reserved, size)
    modifies grid, reserved
    ensures forall r, c | 0 <= r < size && 0 <= c < size ::
      grid[r, c] == if r == row && c == column then Some(dark) else old(grid[r, c])
    ensures forall r, c | 0 <= r < size && 0 <= c < size ::
      reserved[r, c] == ((r == row && c == column) || old(reserved[r, c]))
  {
    if 0 <= row < size && 0 <= column < size {
      grid[row, column] := Some(dark);
      reserved[row, column] := true;
    }
  }

  predicate FinderModule(top: int, left: int, r: int, c: int) {
    FinderDark(Ring(r, c, top + 3, left + 3))
  }

  method DrawFinderRow(grid: array2<Option<bool>>, reserved: array2<bool>, size: nat, top: int, left: int, r: int)
    requires Canvas(grid, reserved, size) && -1 <= r <= 7
    modifies grid, reserved
    ensures forall y, x | 0 <= y < size && 0 <= x < size ::
      grid[y, x] == if y == top + r && Abs(x - (left + 3)) <= 4 then Some(FinderModule(top, left, y, x)) else old(grid[y, x])
    ensures forall y, x | 0 <= y < size && 0 <= x < size ::
      reserved[y, x] == ((y == top + r && Abs(x - (left + 3)) <= 4) || old(reserved[y, x]))
  {
    for c: int := -1 to 8
      invariant forall y, x | 0 <= y < size && 0 <= x < size ::
        grid[y, x] == if y == top + r && left - 1 <= x < left + c then Some(FinderModule(top, left, y, x)) else old(grid[y, x])
      invariant forall y, x | 0 <= y < size && 0 <= x < size ::
        reserved[y, x] == ((y == top + r && left - 1 <= x < left + c) || old(reserved[y, x]))
    {
      var row, column := top + r, left + c;
      if 0 <= row < size && 0 <= column < size {
        var onRing := (r == 0 || r == 6) && c >= 0 && c <= 6;
        var onSide := (c == 0 || c == 6) && r >= 0 && r <= 6;
        var inCore := r >= 2 && r <= 4 && c >= 2 && c <= 4;
        SetModule(grid, reserved, size, row, column, onRing || onSide || inCore);
      }
    }
  }

  method DrawFinder(grid: array2<Option<bool>>, reserved: array2<bool>, size: nat, top: int, left: int)
    requires Canvas(grid, reserved, size)
    modifies grid, reserved
    ensures forall y, x | 0 <= y < size && 0 <= x < size ::
      grid[y, x] == if Ring(y, x, top + 3, left + 3) <= 4 then Some(FinderModule(top, left, y, x)) else old(grid[y, x])
    ensures forall y, x | 0 <= y < size && 0 <= x < size ::
      reserved[y, x] == (Ring(y, x, top + 3, left + 3) <= 4 || old(reserved[y, x]))
  {
    for r: int := -1 to 8
      invariant forall y, x | 0 <= y < size && 0 <= x < size ::
        grid[y, x] == if top - 1 <= y < top + r && Abs(x - (left + 3)) <= 4 then Some(FinderModule(top, left, y, x))
          else old(grid[y, x])
      invariant forall y, x | 0 <= y < size && 0 <= x < size ::
        reserved[y, x] == ((top - 1 <= y < top + r && Abs(x - (left + 3)) <= 4) || old(reserved[y, x]))
    {
      DrawFinderRow(grid, reserved, size, top, left, r);
    }
  }

  method DrawFinders(grid: array2<Option<bool>>, reserved: array2<bool>, size: nat)
    requires Canvas(grid, reserved, size)
    requires forall r, c | 0 <= r < size && 0 <= c < size :: grid[r, c] == None && !reserved[r, c]
    modifies grid, reserved
    ensures forall r, c | 0 <= r < size && 0 <= c < size :: grid[r, c] == Ink(Finders(size, r, c))
    ensures forall r, c | 0 <= r < size && 0 <= c < size :: reserved[r, c] == !Finders(size, r, c).Blank?
  {
    DrawFinder(grid, reserved, size, 0, 0);
    DrawFinder(grid, reserved, size, 0, size - 7);
    DrawFinder(grid, reserved, size, size - 7, 0);
  }

  method DrawTiming(grid: array2<Option<bool>>, reserved: array2<bool>, size: nat)
    requires Canvas(grid, reserved, size)
    requires forall r, c | 0 <= r < size && 0 <= c < size :: grid[r, c] == Ink(Finders(size, r, c))
    requires forall r, c | 0 <= r < size && 0 <= c < size :: reserved[r, c] == !Finders(size, r, c).Blank?
    modifies grid, reserved
    ensures forall r, c | 0 <= r < size && 0 <= c < size :: grid[r, c] == Ink(WithTiming(size, r, c))
    ensures forall r, c | 0 <= r < size && 0 <= c < size :: reserved[r, c] == !WithTiming(size, r, c).Blank?
  {
    hide Finders;
    for i := 8 to size - 8
      invariant forall r, c | 0 <= r < size && 0 <= c < size ::
        grid[r, c] == if (r == 6 && 8 <= c < i) || (c == 6 && 8 <= r < i) then Some((r + c) % 2 == 0)
          else Ink(Finders(size, r, c))
      invariant forall r, c | 0 <= r < size && 0 <= c < size ::
        reserved[r, c] == ((r == 6 && 8 <= c < i) || (c == 6 && 8 <= r < i) || !Finders(size, r, c).Blank?)
    {
      SetModule(grid, reserved, size, 6, i, i % 2 == 0);
      SetModule(grid, reserved, size, i, 6, i % 2 == 0);
    }
  }

  // ---------- Alignment ----------

  lemma CentresApart(v: nat, i: nat, j: nat)
    requires IsVersion(v) && i < j < |AlignmentCentres(v)|
    ensures AlignmentCentres(v)[i] + 12 <= AlignmentCentres(v)[j]
  {
  }

  lemma AlignedStep(v: nat, i: nat, j: nat, r: nat, c: nat, ring: nat)
    requires IsVersion(v) && i < |AlignmentCentres(v)| && j < |AlignmentCentres(v)|
    ensures Aligned(v, i, j + 1, r, c, ring) <==>
      Aligned(v, i, j, r, c, ring)
      || (IsCentre(v, AlignmentCentres(v)[i], AlignmentCentres(v)[j])
          && Ring(r, c, AlignmentCentres(v)[i], AlignmentCentres(v)[j]) == ring)
  {
    hide AlignmentCentres, IsCentre, Ring;
  }

  /** Two alignment patterns never share a module. */
  lemma AlignedOnce(v: nat, i: nat, j: nat, r: nat, c: nat, ring: nat)
    requires IsVersion(v) && i < |AlignmentCentres(v)| && j < |AlignmentCentres(v)| && ring <= 2
    requires Ring(r, c, AlignmentCentres(v)[i], AlignmentCentres(v)[j]) <= 2
    ensures !Aligned(v, i, j, r, c, ring)
  {
    hide AlignmentCentres, IsCentre, Ring;
    if Aligned(v, i, j, r, c, ring) {
      var a, b :| 0 <= a < |AlignmentCentres(v)| && 0 <= b < |AlignmentCentres(v)| && Earlier(a, b, i, j)
        && Ring(r, c, AlignmentCentres(v)[a], AlignmentCentres(v)[b]) == ring;
      RingBounds(r, c, AlignmentCentres(v)[i], AlignmentCentres(v)[j]);
      RingBounds(r, c, AlignmentCentres(v)[a], AlignmentCentres(v)[b]);
      if a < i {
        CentresApart(v, a, i);
      } else {
        CentresApart(v, b, j);
      }
    }
  }

  lemma RingBounds(r: int, c: int, row: int, column: int)
    ensures row - Ring(r, c, row, column) <= r <= row + Ring(r, c, row, column)
    ensures column - Ring(r, c, row, column) <= c <= column + Ring(r, c, row, column)
  {
  }

  lemma AlignmentStep(v: nat, i: nat, j: nat, r: nat, c: nat)
    requires IsVersion(v) && i < |AlignmentCentres(v)| && j < |AlignmentCentres(v)|
    ensures
      var row, column := AlignmentCentres(v)[i], AlignmentCentres(v)[j];
      WithAlignment(v, i, j + 1, r, c)
        == if IsCentre(v, row, column) && Ring(r, c, row, column) <= 2 then Inked(Ring(r, c, row, column) != 1)
           else WithAlignment(v, i, j, r, c)
  {
    hide AlignmentCentres, IsCentre, Ring, Aligned, WithTiming;
    AlignedStep(v, i, j, r, c, 0);
    AlignedStep(v, i, j, r, c, 1);
    AlignedStep(v, i, j, r, c, 2);
    if Ring(r, c, AlignmentCentres(v)[i], AlignmentCentres(v)[j]) <= 2 {
      AlignedOnce(v, i, j, r, c, 0);
      AlignedOnce(v, i, j, r, c, 1);
      AlignedOnce(v, i, j, r, c, 2);
    }
  }

  lemma AlignmentNextRow(v: nat, i: nat, r: nat, c: nat)
    requires IsVersion(v) && i < |AlignmentCentres(v)|
    ensures WithAlignment(v, i, |AlignmentCentres(v)|, r, c) == WithAlignment(v, i + 1, 0, r, c)
  {
    hide AlignmentCentres, IsCentre, Ring, WithTiming;
  }

  method DrawAlignmentRow(grid: array2<Option<bool>>, reserved: array2<bool>, size: nat, row: int, column: int, r: int)
    requires Canvas(grid, reserved, size) && -2 <= r <= 2
    modifies grid, reserved
    ensures forall y, x | 0 <= y < size && 0 <= x < size ::
      grid[y, x] == if y == row + r && Abs(x - column) <= 2 then Some(Ring(y, x, row, column) != 1) else old(grid[y, x])
    ensures forall y, x | 0 <= y < size && 0 <= x < size ::
      reserved[y, x] == ((y == row + r && Abs(x - column) <= 2) || old(reserved[y, x]))
  {
    for c: int := -2 to 3
      invariant forall y, x | 0 <= y < size && 0 <= x < size ::
        grid[y, x] == if y == row + r && column - 2 <= x < column + c then Some(Ring(y, x, row, column) != 1)
          else old(grid[y, x])
      invariant forall y, x | 0 <= y < size && 0 <= x < size ::
        reserved[y, x] == ((y == row + r && column - 2 <= x < column + c) || old(reserved[y, x]))
    {
      SetModule(grid, reserved, size, row + r, column + c, (if Abs(r) > Abs(c) then Abs(r) else Abs(c)) != 1);
    }
  }

  method DrawAlignmentPattern(grid: array2<Option<bool>>, reserved: array2<bool>, size: nat, row: int, column: int)
    requires Canvas(grid, reserved, size)
    modifies grid, reserved
    ensures forall y, x | 0 <= y < size && 0 <= x < size ::
      grid[y, x] == if Ring(y, x, row, column) <= 2 then Some(Ring(y, x, row, column) != 1) else old(grid[y, x])
    ensures forall y, x | 0 <= y < size && 0 <= x < size ::
      reserved[y, x] == (Ring(y, x, row, column) <= 2 || old(reserved[y, x]))
  {
    for r: int := -2 to 3
      invariant forall y, x | 0 <= y < size && 0 <= x < size ::
        grid[y, x] == if row - 2 <= y < row + r && Abs(x - column) <= 2 then Some(Ring(y, x, row, column) != 1)
          else old(grid[y, x])
      invariant forall y, x | 0 <= y < size && 0 <= x < size ::
        reserved[y, x] == ((row - 2 <= y < row + r && Abs(x - column) <= 2) || old(reserved[y, x]))
    {
      DrawAlignmentRow(grid, reserved, size, row, column, r);
    }
  }

  /** One turn of the inner loop over the centres. */
  method DrawOneAlignment(grid: array2<Option<bool>>, reserved: array2<bool>, v: nat, i: nat, j: nat)
    requires IsVersion(v) && Canvas(grid, reserved, Size(v))
    requires i < |AlignmentCentres(v)| && j < |AlignmentCentres(v)|
    requires forall r, c | 0 <= r < Size(v) && 0 <= c < Size(v) :: grid[r, c] == Ink(WithAlignment(v, i, j, r, c))
    requires forall r, c | 0 <= r < Size(v) && 0 <= c < Size(v) :: reserved[r, c] == !WithAlignment(v, i, j, r, c).Blank?
    modifies grid, reserved
    ensures forall r, c | 0 <= r < Size(v) && 0 <= c < Size(v) :: grid[r, c] == Ink(WithAlignment(v, i, j + 1, r, c))
    ensures forall r, c | 0 <= r < Size(v) && 0 <= c < Size(v) :: reserved[r, c] == !WithAlignment(v, i, j + 1, r, c).Blank?
  {
    var row, column := AlignmentCentres(v)[i], AlignmentCentres(v)[j];
    forall r, c | 0 <= r < Size(v) && 0 <= c < Size(v)
      ensures WithAlignment(v, i, j + 1, r, c)
        == if IsCentre(v, row, column) && Ring(r, c, row, column) <= 2 then Inked(Ring(r, c, row, column) != 1)
           else WithAlignment(v, i, j, r, c)
    {
      AlignmentStep(v, i, j, r, c);
    }
    hide AlignmentCentres, WithAlignment, Ring, NearFinder;
    if NearFinder(Size(v), row, column) {
      return;
    }
    DrawAlignmentPattern(grid, reserved, Size(v), row, column);
  }

  method DrawAlignment(grid: array2<Option<bool>>, reserved: array2<bool>, v: nat)
    requires IsVersion(v) && Canvas(grid, reserved, Size(v))
    requires forall r, c | 0 <= r < Size(v) && 0 <= c < Size(v) :: grid[r, c] == Ink(WithTiming(Size(v), r, c))
    requires forall r, c | 0 <= r < Size(v) && 0 <= c < Size(v) :: reserved[r, c] == !WithTiming(Size(v), r, c).Blank?
    modifies grid, reserved
    ensures forall r, c | 0 <= r < Size(v) && 0 <= c < Size(v) ::
      grid[r, c] == Ink(WithAlignment(v, |AlignmentCentres(v)|, 0, r, c))
    ensures forall r, c | 0 <= r < Size(v) && 0 <= c < Size(v) ::
      reserved[r, c] == !WithAlignment(v, |AlignmentCentres(v)|, 0, r, c).Blank?
  {
    var centres := AlignmentCentres(v);
    forall r, c | 0 <= r < Size(v) && 0 <= c < Size(v)
      ensures WithAlignment(v, 0, 0, r, c) == WithTiming(Size(v), r, c)
    {}
    hide AlignmentCentres, WithAlignment, WithTiming;
    for i := 0 to |centres|
      invariant forall r, c | 0 <= r < Size(v) && 0 <= c < Size(v) :: grid[r, c] == Ink(WithAlignment(v, i, 0, r, c))
      invariant forall r, c | 0 <= r < Size(v) && 0 <= c < Size(v) ::
        reserved[r, c] == !WithAlignment(v, i, 0, r, c).Blank?
    {
      for j := 0 to |centres|
        invariant forall r, c | 0 <= r < Size(v) && 0 <= c < Size(v) :: grid[r, c] == Ink(WithAlignment(v, i, j, r, c))
        invariant forall r, c | 0 <= r < Size(v) && 0 <= c < Size(v) ::
          reserved[r, c] == !WithAlignment(v, i, j, r, c).Blank?
      {
        DrawOneAlignment(grid, reserved, v, i, j);
      }
      forall r, c | 0 <= r < Size(v) && 0 <= c < Size(v)
        ensures WithAlignment(v, i, |centres|, r, c) == WithAlignment(v, i + 1, 0, r, c)
      {
        AlignmentNextRow(v, i, r, c);
      }
    }
  }

  // ---------- Format information and version blocks ----------

  /** The two loops that hold the format modules, and the dark module. */
  method HoldFormat(grid: array2<Option<bool>>, reserved: array2<bool>, size: nat)
    requires Canvas(grid, reserved, size)
    modifies grid, reserved
    ensures forall r, c | 0 <= r < size && 0 <= c < size ::
      grid[r, c] == if r == size - 8 && c == 8 then Some(true) else old(grid[r, c])
    ensures forall r, c | 0 <= r < size && 0 <= c < size ::
      reserved[r, c] == (HoldsFormat(size, r, c) || old(reserved[r, c]))
  {
    for i := 0 to 9
      invariant forall r, c | 0 <= r < size && 0 <= c < size ::
        reserved[r, c] == ((r == 8 && c < i && c != 6) || (c == 8 && r < i && r != 6) || old(reserved[r, c]))
      invariant forall r, c | 0 <= r < size && 0 <= c < size :: grid[r, c] == old(grid[r, c])
    {
      if i != 6 {
        reserved[8, i] := true;
        reserved[i, 8] := true;
      }
    }
    label corner:
    for i := 0 to 8
      invariant forall r, c | 0 <= r < size && 0 <= c < size ::
        reserved[r, c] == ((r == 8 && c >= size - i) || (c == 8 && r >= size - i) || old@corner(reserved[r, c]))
      invariant forall r, c | 0 <= r < size && 0 <= c < size :: grid[r, c] == old(grid[r, c])
    {
      reserved[8, size - 1 - i] := true;
      reserved[size - 1 - i, 8] := true;
    }
    SetModule(grid, reserved, size, size - 8, 8, true);
  }

  lemma VersionBitAt(v: nat, i: nat)
    requires i < 18
    ensures VersionModule(v, i / 3, Size(v) - 11 + i % 3) == VersionBits(v)[17 - i]
  {
  }

  /** Bit `i` of the version block goes to row `i / 3` of the upper block and is mirrored below. */
  method DrawVersion(grid: array2<Option<bool>>, reserved: array2<bool>, v: nat)
    requires 7 <= v <= MAX_VERSION && Canvas(grid, reserved, Size(v))
    requires forall r, c | 0 <= r < Size(v) && 0 <= c < Size(v) :: grid[r, c] == Ink(WithFormat(v, r, c))
    requires forall r, c | 0 <= r < Size(v) && 0 <= c < Size(v) :: reserved[r, c] == !WithFormat(v, r, c).Blank?
    modifies grid, reserved
    ensures forall r, c | 0 <= r < Size(v) && 0 <= c < Size(v) :: grid[r, c] == Ink(Pattern(v, r, c))
    ensures forall r, c | 0 <= r < Size(v) && 0 <= c < Size(v) :: reserved[r, c] == !Pattern(v, r, c).Blank?
  {
    var info := VersionInfo(v);
    var left := Size(v) - 11;
    hide WithFormat, VersionBits, VersionModule;
    for i := 0 to 18
      invariant forall r, c | 0 <= r < Size(v) && 0 <= c < Size(v) ::
        grid[r, c] ==
          if r < 6 && left <= c < left + 3 && 3 * r + (c - left) < i then Some(VersionModule(v, r, c))
          else if c < 6 && left <= r < left + 3 && 3 * c + (r - left) < i then Some(VersionModule(v, c, r))
          else Ink(WithFormat(v, r, c))
      invariant forall r, c | 0 <= r < Size(v) && 0 <= c < Size(v) ::
        reserved[r, c] ==
          ((r < 6 && left <= c < left + 3 && 3 * r + (c - left) < i)
           || (c < 6 && left <= r < left + 3 && 3 * c + (r - left) < i)
           || !WithFormat(v, r, c).Blank?)
    {
      var bit := info[17 - i];
      var row, column := i / 3, left + i % 3;
      VersionBitAt(v, i);
      SetModule(grid, reserved, Size(v), row, column, bit);
      SetModule(grid, reserved, Size(v), column, row, bit);
    }
  }

  /** The encoder's `functionPatterns`. */
  method FunctionPatterns(v: nat) returns (grid: array2<Option<bool>>, reserved: array2<bool>)
    requires IsVersion(v)
    ensures fresh(grid) && fresh(reserved) && Canvas(grid, reserved, Size(v))
    ensures forall r, c | 0 <= r < Size(v) && 0 <= c < Size(v) :: grid[r, c] == Ink(Pattern(v, r, c))
    ensures forall r, c | 0 <= r < Size(v) && 0 <= c < Size(v) :: reserved[r, c] == IsReserved(v, r, c)
  {
    var size := Size(v);
    grid := new Option<bool>[size, size]((r, c) => None);
    reserved := new bool[size, size]((r, c) => false);
    DrawFinders(grid, reserved, size);
    DrawTiming(grid, reserved, size);
    DrawAlignment(grid, reserved, v);
    FormatOverAlignment(v);
    HoldFormat(grid, reserved, size);
    if v >= 7 {
      DrawVersion(grid, reserved, v);
    }
    forall r, c | 0 <= r < size && 0 <= c < size ensures !Pattern(v, r, c).Blank? <==> IsReserved(v, r, c) {
      PatternIsReserved(v, r, c);
    }
  }

  lemma CentreRange(v: nat, i: nat)
    requires IsVersion(v) && i < |AlignmentCentres(v)|
    ensures
      var centre := AlignmentCentres(v)[i];
      centre == 6 || centre + 7 == Size(v) || (11 <= centre && centre + 10 < Size(v))
  {
  }

  /** Alignment patterns stay clear of the corners. */
  lemma AlignmentOffCorners(v: nat, r: nat, c: nat, ring: nat)
    requires IsVersion(v) && ring <= 2 && Aligned(v, |AlignmentCentres(v)|, 0, r, c, ring)
    ensures !InCorner(Size(v), r, c) && InAlignment(v, r, c)
  {
    hide AlignmentCentres;
    var i, j :| 0 <= i < |AlignmentCentres(v)| && 0 <= j < |AlignmentCentres(v)|
      && IsCentre(v, AlignmentCentres(v)[i], AlignmentCentres(v)[j])
      && Ring(r, c, AlignmentCentres(v)[i], AlignmentCentres(v)[j]) == ring;
    CentreRange(v, i);
    CentreRange(v, j);
  }

  lemma AlignedSomewhere(v: nat, r: nat, c: nat)
    requires IsVersion(v) && InAlignment(v, r, c)
    ensures exists ring | 0 <= ring <= 2 :: Aligned(v, |AlignmentCentres(v)|, 0, r, c, ring)
  {
    hide AlignmentCentres, IsCentre, Ring;
    var i, j :| 0 <= i < |AlignmentCentres(v)| && 0 <= j < |AlignmentCentres(v)|
      && IsCentre(v, AlignmentCentres(v)[i], AlignmentCentres(v)[j])
      && Ring(r, c, AlignmentCentres(v)[i], AlignmentCentres(v)[j]) <= 2;
    assert Earlier(i, j, |AlignmentCentres(v)|, 0);
    assert Aligned(v, |AlignmentCentres(v)|, 0, r, c, Ring(r, c, AlignmentCentres(v)[i], AlignmentCentres(v)[j]));
  }

  /** A module is touched by an alignment pattern, or shows what was there before them. */
  lemma AlignmentCases(v: nat, r: nat, c: nat)
    requires IsVersion(v)
    ensures InAlignment(v, r, c) ==> !InCorner(Size(v), r, c) && WithAlignment(v, |AlignmentCentres(v)|, 0, r, c).Inked?
    ensures !InAlignment(v, r, c) ==>
      WithAlignment(v, |AlignmentCentres(v)|, 0, r, c) == WithTiming(Size(v), r, c)
  {
    hide AlignmentCentres, InAlignment, Aligned, WithTiming, InCorner;
    forall ring: nat | ring <= 2 && Aligned(v, |AlignmentCentres(v)|, 0, r, c, ring)
      ensures !InCorner(Size(v), r, c) && InAlignment(v, r, c)
    {
      AlignmentOffCorners(v, r, c, ring);
    }
    if InAlignment(v, r, c) { AlignedSomewhere(v, r, c); }
  }

  /** Finder and timing modules, seen as regions. */
  lemma TimingRegion(size: nat, r: nat, c: nat)
    requires size >= 21 && r < size && c < size
    ensures WithTiming(size, r, c) != Held
    ensures !WithTiming(size, r, c).Blank? <==> OnTiming(r, c) || (InCorner(size, r, c) && !HoldsFormat(size, r, c))
    ensures HoldsFormat(size, r, c) ==> InCorner(size, r, c) && !OnTiming(r, c)
  {
  }

  /** Format cells lie off everything drawn before them. */
  lemma FormatOverAlignment(v: nat)
    requires IsVersion(v)
    ensures forall r, c | 0 <= r < Size(v) && 0 <= c < Size(v) ::
      HoldsFormat(Size(v), r, c) ==> WithAlignment(v, |AlignmentCentres(v)|, 0, r, c) == Blank
  {
    hide WithAlignment, AlignmentCentres, HoldsFormat, WithTiming, InCorner, OnTiming, InAlignment;
    forall r, c | 0 <= r < Size(v) && 0 <= c < Size(v)
      ensures HoldsFormat(Size(v), r, c) ==> WithAlignment(v, |AlignmentCentres(v)|, 0, r, c) == Blank
    {
      AlignmentCases(v, r, c);
      TimingRegion(Size(v), r, c);
    }
  }

  lemma DarkModuleHeld(size: nat)
    requires size >= 21
    ensures HoldsFormat(size, size - 8, 8)
  {
  }

  /** The patterns, format and version modules are exactly the reserved ones. */
  lemma PatternIsReserved(v: nat, r: nat, c: nat)
    requires IsVersion(v) && r < Size(v) && c < Size(v)
    ensures !Pattern(v, r, c).Blank? <==> IsReserved(v, r, c)
  {
    hide WithAlignment, AlignmentCentres, HoldsFormat, WithTiming, InCorner, OnTiming, InAlignment, VersionModule;
    AlignmentCases(v, r, c);
    TimingRegion(Size(v), r, c);
    DarkModuleHeld(Size(v));
  }

  /** What a scanner looks for: dark, light, three dark, light, dark, across the middle of each finder in
      both directions, with a light module on either side. */
  lemma FinderRatio(size: nat, k: nat)
    requires size >= 21 && k < 7
    ensures
      var dark := k != 1 && k != 5;
      && Finders(size, 3, k) == Finders(size, k, 3) == Inked(dark)
      && Finders(size, 3, size - 7 + k) == Finders(size, k, size - 4) == Inked(dark)
      && Finders(size, size - 4, k) == Finders(size, size - 7 + k, 3) == Inked(dark)
    ensures Finders(size, 3, 7) == Finders(size, 3, size - 8) == Finders(size, size - 8, 3) == Inked(false)
  {
  }
}
