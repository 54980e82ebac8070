/** The patterns and the masks as pictures, and where the format bits of a finished symbol stand. */
module QrPictures {
  import opened Options
  import opened QrField
  import opened QrPolynomials
  import opened QrStream
  import opened QrPath
  import opened QrSymbol
  import opened QrFormat
  import opened QrFormatDistance
  import opened QrDraw
  import opened QrCode

  predicate IsDark(picture: seq<string>, r: nat, c: nat)
    requires r < |picture| && c < |picture[r]|
  {
    picture[r][c] == '#'
  }

  const FINDER: seq<string> := [
    "#######",
    "#.....#",
    "#.###.#",
    "#.###.#",
    "#.###.#",
    "#.....#",
    "#######"
  ]

  const ALIGNMENT: seq<string> := [
    "#####",
    "#...#",
    "#.#.#",
    "#...#",
    "#####"
  ]

  // ---------- Function patterns ----------

  lemma NoPatternInCorner(v: nat, r: nat, c: nat)
    requires IsVersion(v) && InCorner(Size(v), r, c) && r < Size(v) && c < Size(v) && !HoldsFormat(Size(v), r, c)
    ensures Pattern(v, r, c) == WithTiming(Size(v), r, c)
  {
    hide InAlignment, WithAlignment, WithTiming, VersionModule;
    AlignmentCases(v, r, c);
    DarkModuleHeld(Size(v));
  }

  /** The three finders, each with a light line on its inner sides. */
  lemma FinderPicture(v: nat, r: nat, c: nat)
    requires IsVersion(v) && r < 8 && c < 8
    ensures
      var dark, last := r < 7 && c < 7 && IsDark(FINDER, r, c), Size(v) - 1;
      && Pattern(v, r, c) == Inked(dark)
      && Pattern(v, r, last - c) == Inked(dark)
      && Pattern(v, last - r, c) == Inked(dark)
  {
    hide Pattern;
    var last := Size(v) - 1;
    NoPatternInCorner(v, r, c);
    NoPatternInCorner(v, r, last - c);
    NoPatternInCorner(v, last - r, c);
    RingOfFinder(r, c);
  }

  lemma RingOfFinder(r: nat, c: nat)
    requires r < 8 && c < 8
    ensures FinderDark(Ring(r, c, 3, 3)) <==> r < 7 && c < 7 && IsDark(FINDER, r, c)
  {
    var row := if r < 7 then FINDER[r] else ".......";
    assert row == match r case 0 => "#######" case 1 => "#.....#" case 2 => "#.###.#" case 3 => "#.###.#" case 4 => "#.###.#"
      case 5 => "#.....#" case 6 => "#######" case _ => ".......";
  }

  lemma MiddleCentre(v: nat, i: nat)
    requires 7 <= v <= MAX_VERSION && i < |AlignmentCentres(v)|
    ensures
      var centre := AlignmentCentres(v)[i];
      centre == 6 || centre + 7 == Size(v) || (20 <= centre && centre + 20 < Size(v))
  {
  }

  /** No alignment pattern reaches into the version blocks. */
  lemma AlignmentOffVersion(v: nat, i: nat, j: nat, y: nat, x: nat)
    requires 7 <= v <= MAX_VERSION && i < |AlignmentCentres(v)| && j < |AlignmentCentres(v)|
    requires !NearFinder(Size(v), AlignmentCentres(v)[i], AlignmentCentres(v)[j])
    requires Ring(y, x, AlignmentCentres(v)[i], AlignmentCentres(v)[j]) <= 2
    ensures !(y < 6 && Size(v) - 11 <= x < Size(v) - 8) && !(x < 6 && Size(v) - 11 <= y < Size(v) - 8)
  {
    hide AlignmentCentres;
    MiddleCentre(v, i);
    MiddleCentre(v, j);
  }

  lemma OneCentre(v: nat, i: nat, j: nat, a: nat, b: nat, y: nat, x: nat)
    requires IsVersion(v) && i < |AlignmentCentres(v)| && j < |AlignmentCentres(v)| && a < |AlignmentCentres(v)| && b < |AlignmentCentres(v)|
    requires Ring(y, x, AlignmentCentres(v)[i], AlignmentCentres(v)[j]) <= 2
    requires Ring(y, x, AlignmentCentres(v)[a], AlignmentCentres(v)[b]) <= 2
    ensures i == a && j == b
  {
    hide AlignmentCentres, Ring;
    RingBounds(y, x, AlignmentCentres(v)[i], AlignmentCentres(v)[j]);
    RingBounds(y, x, AlignmentCentres(v)[a], AlignmentCentres(v)[b]);
    if i < a { CentresApart(v, i, a); } else if a < i { CentresApart(v, a, i); }
    if j < b { CentresApart(v, j, b); } else if b < j { CentresApart(v, b, j); }
  }

  lemma AlignedRing(v: nat, i: nat, j: nat, y: nat, x: nat, ring: nat)
    requires IsVersion(v) && i < |AlignmentCentres(v)| && j < |AlignmentCentres(v)|
    requires IsCentre(v, AlignmentCentres(v)[i], AlignmentCentres(v)[j]) && ring <= 2
    requires Ring(y, x, AlignmentCentres(v)[i], AlignmentCentres(v)[j]) <= 2
    ensures Aligned(v, |AlignmentCentres(v)|, 0, y, x, ring) <==> ring == Ring(y, x, AlignmentCentres(v)[i], AlignmentCentres(v)[j])
  {
    hide AlignmentCentres, Ring, IsCentre;
    assert Earlier(i, j, |AlignmentCentres(v)|, 0);
    if Aligned(v, |AlignmentCentres(v)|, 0, y, x, ring) {
      var a, b :| 0 <= a < |AlignmentCentres(v)| && 0 <= b < |AlignmentCentres(v)|
        && IsCentre(v, AlignmentCentres(v)[a], AlignmentCentres(v)[b])
        && Ring(y, x, AlignmentCentres(v)[a], AlignmentCentres(v)[b]) == ring;
      OneCentre(v, i, j, a, b, y, x);
    }
  }

  lemma RingOfAlignment(row: nat, column: nat, r: nat, c: nat)
    requires 2 <= row && 2 <= column && r < 5 && c < 5
    ensures Ring(row - 2 + r, column - 2 + c, row, column) <= 2
    ensures Ring(row - 2 + r, column - 2 + c, row, column) != 1 <==> IsDark(ALIGNMENT, r, c)
  {
    var line := ALIGNMENT[r];
    assert line == match r case 0 => "#####" case 1 => "#...#" case 2 => "#.#.#" case 3 => "#...#" case _ => "#####";
  }

  /** Every alignment pattern, around each pair of centres that is not at a finder. */
  lemma AlignmentPicture(v: nat, i: nat, j: nat, r: nat, c: nat)
    requires IsVersion(v) && i < |AlignmentCentres(v)| && j < |AlignmentCentres(v)| && r < 5 && c < 5
    requires !NearFinder(Size(v), AlignmentCentres(v)[i], AlignmentCentres(v)[j])
    ensures
      var row, column := AlignmentCentres(v)[i], AlignmentCentres(v)[j];
      2 <= row && 2 <= column && Pattern(v, row - 2 + r, column - 2 + c) == Inked(IsDark(ALIGNMENT, r, c))
  {
    hide AlignmentCentres, Ring, Aligned, IsDark, WithTiming, VersionModule, InCorner, HoldsFormat;
    CentreRange(v, i);
    CentreRange(v, j);
    var row, column := AlignmentCentres(v)[i], AlignmentCentres(v)[j];
    var y, x := row - 2 + r, column - 2 + c;
    RingOfAlignment(row, column, r, c);
    AlignedRing(v, i, j, y, x, 0);
    AlignedRing(v, i, j, y, x, 1);
    AlignedRing(v, i, j, y, x, 2);
    AlignmentOffCorners(v, y, x, Ring(y, x, row, column));
    InsideSymbol(v, i, j, y, x);
    TimingRegion(Size(v), y, x);
    DarkModuleHeld(Size(v));
    if v >= 7 { AlignmentOffVersion(v, i, j, y, x); }
  }

  lemma InsideSymbol(v: nat, i: nat, j: nat, y: nat, x: nat)
    requires IsVersion(v) && i < |AlignmentCentres(v)| && j < |AlignmentCentres(v)|
    requires Ring(y, x, AlignmentCentres(v)[i], AlignmentCentres(v)[j]) <= 2
    ensures y < Size(v) && x < Size(v)
  {
    hide AlignmentCentres, Ring;
    CentreRange(v, i);
    CentreRange(v, j);
    RingBounds(y, x, AlignmentCentres(v)[i], AlignmentCentres(v)[j]);
  }

  lemma CentresAreEven(v: nat, i: nat)
    requires IsVersion(v) && i < |AlignmentCentres(v)|
    ensures AlignmentCentres(v)[i] % 2 == 0
  {
  }

  lemma RingOnLine(k: nat, row: nat, column: nat)
    requires column % 2 == 0 && row % 2 == 0 && Ring(6, k, row, column) <= 2 && (row == 6 || row >= 11)
    ensures Ring(6, k, row, column) != 1 <==> k % 2 == 0
    ensures Ring(k, 6, column, row) == Ring(6, k, row, column)
  {
  }

  lemma AlignmentOnTiming(v: nat, r: nat, c: nat, k: nat)
    requires IsVersion(v) && 8 <= k < Size(v) - 8 && ((r == 6 && c == k) || (r == k && c == 6))
    ensures WithAlignment(v, |AlignmentCentres(v)|, 0, r, c) == Inked(k % 2 == 0)
  {
    hide AlignmentCentres, Ring, Aligned, IsCentre;
    if InAlignment(v, r, c) {
      var i, j :| 0 <= i < |AlignmentCentres(v)| && 0 <= j < |AlignmentCentres(v)|
        && IsCentre(v, AlignmentCentres(v)[i], AlignmentCentres(v)[j])
        && Ring(r, c, AlignmentCentres(v)[i], AlignmentCentres(v)[j]) <= 2;
      var row, column := AlignmentCentres(v)[i], AlignmentCentres(v)[j];
      CentresAreEven(v, i);
      CentresAreEven(v, j);
      CentreRange(v, i);
      CentreRange(v, j);
      AlignedRing(v, i, j, r, c, 0);
      AlignedRing(v, i, j, r, c, 1);
      AlignedRing(v, i, j, r, c, 2);
      RingTurned(r, c, row, column);
      if r == 6 { RingOnLine(k, row, column); } else { RingOnLine(k, column, row); }
    } else {
      AlignmentCases(v, r, c);
    }
  }

  lemma RingTurned(r: nat, c: nat, row: nat, column: nat)
    ensures Ring(r, c, row, column) == Ring(c, r, column, row)
  {
  }

  /** Both timing lines alternate from dark to dark, also where an alignment pattern stands on them. */
  lemma TimingAlternates(v: nat, k: nat)
    requires IsVersion(v) && 8 <= k < Size(v) - 8
    ensures Pattern(v, 6, k) == Pattern(v, k, 6) == Inked(k % 2 == 0)
  {
    hide WithAlignment, VersionModule;
    AlignmentOnTiming(v, 6, k, k);
    AlignmentOnTiming(v, k, 6, k);
  }

  // ---------- The masks ----------

  /** The eight mask patterns, each repeated over the symbol from its top left corner. */
  const MASKS: seq<seq<string>> := [
    ["#.#.#.", ".#.#.#", "#.#.#.", ".#.#.#", "#.#.#.", ".#.#.#"],
    ["######", "......", "######", "......", "######", "......"],
    ["#..#..", "#..#..", "#..#..", "#..#..", "#..#..", "#..#.."],
    ["#..#..", "..#..#", ".#..#.", "#..#..", "..#..#", ".#..#."],
    ["###...", "###...", "...###", "...###"],
    ["######", "#.....", "#..#..", "#.#.#.", "#..#..", "#....."],
    ["######", "###...", "##.##.", "#.#.#.", "#.##.#", "#...##"],
    ["#.#.#.", "...###", "#...##", ".#.#.#", "###...", ".###.."]
  ]

  lemma AddTwos(b: nat, k: nat)
    ensures (b + 2 * k) % 2 == b % 2
  {
  }

  lemma AddThrees(b: nat, k: nat)
    ensures (b + 3 * k) % 3 == b % 3
  {
  }

  lemma SameMods(a: nat, b: nat, k: nat)
    requires a == b + 6 * k
    ensures a % 2 == b % 2 && a % 3 == b % 3
  {
    AddTwos(b, 3 * k);
    AddThrees(b, 2 * k);
  }

  lemma MaskByMods(mask: nat, r: nat, c: nat, y: nat, x: nat)
    requires mask < 8 && mask != 4
    requires (r * c) % 2 == (y * x) % 2 && (r * c) % 3 == (y * x) % 3
    requires (r + c) % 2 == (y + x) % 2 && (r + c) % 3 == (y + x) % 3 && r % 2 == y % 2 && c % 3 == x % 3
    ensures Mask(mask, r, c) <==> Mask(mask, y, x)
  {
  }

  lemma Periods(mask: nat, r: nat, c: nat)
    requires mask < 8
    ensures Mask(mask, r, c) <==> Mask(mask, r % (if mask == 4 then 4 else 6), c % 6)
  {
    hide Mask;
    var y, x := r % 6, c % 6;
    if mask == 4 {
      MaskFour(r, c);
    } else {
      ProductModSix(r, c);
      var k: nat :| r * c == y * x + 6 * k;
      SameMods(r * c, y * x, k);
      SameMods(r + c, y + x, r / 6 + c / 6);
      SameMods(r, y, r / 6);
      SameMods(c, x, c / 6);
      MaskByMods(mask, r, c, y, x);
    }
  }

  lemma MaskFour(r: nat, c: nat)
    ensures Mask(4, r, c) <==> Mask(4, r % 4, c % 6)
  {
    var p, y, q, x := r / 4, r % 4, c / 6, c % 6;
    assert r / 2 == 2 * p + y / 2 && c / 3 == 2 * q + x / 3;
  }

  lemma Distributes(a: nat, b: nat, c: nat)
    ensures (6 * a + b) * c == 6 * (a * c) + b * c
    ensures c * (6 * a + b) == 6 * (c * a) + c * b
  {
  }

  lemma ProductModSix(r: nat, c: nat)
    ensures exists k: nat :: r * c == (r % 6) * (c % 6) + 6 * k
  {
    var p, y, q, x := r / 6, r % 6, c / 6, c % 6;
    Distributes(p, y, c);
    Distributes(q, x, y);
    var k := p * c + y * q;
    assert r == 6 * p + y && c == 6 * q + x;
    assert r * c == y * x + 6 * k;
  }

  // Each table is read off row by row.

  lemma Table0(r: nat, c: nat)
    requires r < 6 && c < 6
    ensures |MASKS[0][r]| == 6 && (Mask(0, r, c) <==> IsDark(MASKS[0], r, c))
  {
    if r == 0 {
    } else if r == 1 {
    } else if r == 2 {
    } else if r == 3 {
    } else if r == 4 {
    } else {
    }
  }

  lemma Table1(r: nat, c: nat)
    requires r < 6 && c < 6
    ensures |MASKS[1][r]| == 6 && (Mask(1, r, c) <==> IsDark(MASKS[1], r, c))
  {
    if r == 0 {
    } else if r == 1 {
    } else if r == 2 {
    } else if r == 3 {
    } else if r == 4 {
    } else {
    }
  }

  lemma Table2(r: nat, c: nat)
    requires r < 6 && c < 6
    ensures |MASKS[2][r]| == 6 && (Mask(2, r, c) <==> IsDark(MASKS[2], r, c))
  {
    if r == 0 {
    } else if r == 1 {
    } else if r == 2 {
    } else if r == 3 {
    } else if r == 4 {
    } else {
    }
  }

  lemma Table3(r: nat, c: nat)
    requires r < 6 && c < 6
    ensures |MASKS[3][r]| == 6 && (Mask(3, r, c) <==> IsDark(MASKS[3], r, c))
  {
    if r == 0 {
    } else if r == 1 {
    } else if r == 2 {
    } else if r == 3 {
    } else if r == 4 {
    } else {
    }
  }

  lemma Table4(r: nat, c: nat)
    requires r < 4 && c < 6
    ensures |MASKS[4][r]| == 6 && (Mask(4, r, c) <==> IsDark(MASKS[4], r, c))
  {
    if r == 0 {
    } else if r == 1 {
    } else if r == 2 {
    } else {
    }
  }

  lemma Table5(r: nat, c: nat)
    requires r < 6 && c < 6
    ensures |MASKS[5][r]| == 6 && (Mask(5, r, c) <==> IsDark(MASKS[5], r, c))
  {
    MaskFive(r, c);
    hide Mask;
    if r == 0 {
    } else if r == 1 {
    } else if r == 2 {
    } else if r == 3 {
    } else if r == 4 {
    } else {
    }
  }

  lemma MaskFive(r: nat, c: nat)
    ensures Mask(5, r, c) <==> (r * c) % 6 == 0
  {
    var p := r * c;
    SixthOfNone(p, p % 6);
  }

  lemma SixthOfNone(p: nat, t: nat)
    requires t == p % 6
    ensures p % 2 + p % 3 == 0 <==> t == 0
  {
    SameMods(p, t, p / 6);
    if t == 0 {
    } else if t == 1 {
    } else if t == 2 {
    } else if t == 3 {
    } else if t == 4 {
    } else {
    }
  }

  lemma Table6(r: nat, c: nat)
    requires r < 6 && c < 6
    ensures |MASKS[6][r]| == 6 && (Mask(6, r, c) <==> IsDark(MASKS[6], r, c))
  {
    MaskSix(r, c);
    hide Mask;
    if r == 0 {
    } else if r == 1 {
    } else if r == 2 {
    } else if r == 3 {
    } else if r == 4 {
    } else {
    }
  }

  lemma MaskSix(r: nat, c: nat)
    ensures Mask(6, r, c) <==> (r * c) % 6 < 3
  {
    var p := r * c;
    SixthOf(p, p % 6);
  }

  lemma SixthOf(p: nat, t: nat)
    requires t == p % 6
    ensures (p % 2 + p % 3) % 2 == 0 <==> t < 3
  {
    SameMods(p, t, p / 6);
    if t == 0 {
    } else if t == 1 {
    } else if t == 2 {
    } else if t == 3 {
    } else if t == 4 {
    } else {
    }
  }

  lemma Table7(r: nat, c: nat)
    requires r < 6 && c < 6
    ensures |MASKS[7][r]| == 6 && (Mask(7, r, c) <==> IsDark(MASKS[7], r, c))
  {
    MaskSeven(r, c);
    hide Mask;
    if r == 0 {
    } else if r == 1 {
    } else if r == 2 {
    } else if r == 3 {
    } else if r == 4 {
    } else {
    }
  }

  lemma MaskSeven(r: nat, c: nat)
    ensures Mask(7, r, c) <==> (((r * c) % 3 == 1) <==> (r + c) % 2 == 1)
  {
    ParityOfSum((r + c) % 2, (r * c) % 3);
  }

  lemma ParityOfSum(a: nat, b: nat)
    requires a < 2 && b < 3
    ensures (a + b) % 2 == 0 <==> (b == 1 <==> a == 1)
  {
  }

  lemma MaskTable(mask: nat, r: nat, c: nat)
    requires mask < 8 && r < |MASKS[mask]| && c < 6
    ensures |MASKS[mask][r]| == 6 && (Mask(mask, r, c) <==> IsDark(MASKS[mask], r, c))
  {
    hide Mask, IsDark;
    MaskHeight(mask);
    match mask
    case 0 => Table0(r, c);
    case 1 => Table1(r, c);
    case 2 => Table2(r, c);
    case 3 => Table3(r, c);
    case 4 => Table4(r, c);
    case 5 => Table5(r, c);
    case 6 => Table6(r, c);
    case _ => Table7(r, c);
  }

  /** Each mask number stands for its own picture. */
  lemma MaskPicture(mask: nat, r: nat, c: nat)
    requires mask < 8
    ensures
      var picture := MASKS[mask];
      |picture| > 0 && |picture[r % |picture|]| == 6 && (Mask(mask, r, c) <==> IsDark(picture, r % |picture|, c % 6))
  {
    hide Mask, IsDark;
    Periods(mask, r, c);
    MaskHeight(mask);
    MaskTable(mask, r % |MASKS[mask]|, c % 6);
  }

  lemma MaskHeight(mask: nat)
    requires mask < 8
    ensures |MASKS[mask]| == if mask == 4 then 4 else 6
  {
  }

  // ---------- The format bits ----------

  /** Where a finished symbol shows the fifteen format bits, most significant first: down column 8 from the lower edge
      upwards, and along row 8 from the left edge, each stepping over its timing line. */
  lemma FormatPlaces(modules: seq<seq<bool>>, v: nat, bits: seq<bool>, mask: nat)
    requires IsVersion(v) && IsSymbol(modules, v, bits, mask)
    ensures
      var size, format := Size(v), FormatBits(mask);
      && (forall k :: 0 <= k < 7 ==> modules[size - 1 - k][8] == format[k])
      && modules[8][8] == format[7] && modules[7][8] == format[8]
      && (forall k :: 9 <= k < 15 ==> modules[14 - k][8] == format[k])
      && (forall k :: 0 <= k < 6 ==> modules[8][k] == format[k])
      && modules[8][7] == format[6]
      && (forall k :: 7 <= k < 15 ==> modules[8][size - 15 + k] == format[k])
  {
    hide FormatBits, ShowsPatterns, ShowsData;
    var size, format := Size(v), FormatBits(mask);
    forall k | 0 <= k < 15
      ensures
        var first, second := FirstCopy(size, 14 - k), SecondCopy(size, 14 - k);
        modules[first.row][first.column] == format[k] && modules[second.row][second.column] == format[k]
    {
      assert FormatBit(format, 14 - k) == format[k];
    }
  }

  // ---------- The words themselves ----------

  /** The format words of level M for the masks 0 to 7, as Annex C of ISO/IEC 18004:2015 lists them. */
  const FORMAT_WORDS: seq<string> := [
    "101010000010010", "101000100100101", "101111001111100", "101101101001011",
    "100010111111001", "100000011001110", "100111110010111", "100101010100000"
  ]

  /** The version words of versions 7 to 10, as its Annex D lists them. */
  const VERSION_WORDS: seq<string> := [
    "000111110010010100", "001000010110111100", "001001101010011001", "001010010011010011"
  ]

  lemma ThreeBits(x: bool, y: bool, z: bool)
    ensures Binary(Push(Push(Push(0, x), y), z), 5) == [false, false, x, y, z]
  {
    assert Binary(0, 2) == [false, false] by { assert Binary(0, 1) == [false]; }
    hide Binary, Push;
    BinaryOfPush(0, x, 2);
    BinaryOfPush(Push(0, x), y, 3);
    BinaryOfPush(Push(Push(0, x), y), z, 4);
  }

  lemma FiveBits(n: nat)
    requires n < 8
    ensures Binary(n, 5) == [false, false, n >= 4, n in {2, 3, 6, 7}, n in {1, 3, 5, 7}]
  {
    hide Binary;
    ThreeBits(n >= 4, n in {2, 3, 6, 7}, n in {1, 3, 5, 7});
  }

  lemma SixBits(n: nat)
    requires 7 <= n <= 10
    ensures Binary(n, 6) == [false, false, n >= 8, n == 7, n == 7 || n == 10, n == 7 || n == 9]
  {
    assert Binary(n, 6) == Binary(n / 2, 5) + [n % 2 == 1];
    FiveBits(n / 2);
  }

  /** The format bits, each from the three bits of the mask number. */
  function FormatOf(x: bool, y: bool, z: bool): seq<bool> {
    [true, false, !x, y, !z, y, x != z, x, x != y, (x != y) != z, !z, x != y, y != z, !((x != y) != z), x != z]
  }

  lemma FormatFromMask(mask: nat)
    requires mask < 8
    ensures FormatBits(mask) == FormatOf(mask >= 4, mask in {2, 3, 6, 7}, mask in {1, 3, 5, 7})
  {
    hide Loaded, Binary;
    FiveBits(mask);
    FormatRemainder(Binary(mask, 5));
  }

  /** The format bits of each mask, written out. */
  lemma FormatTable(mask: nat, k: nat)
    requires mask < 8 && k < 15
    ensures |FORMAT_WORDS[mask]| == 15 && (FormatBits(mask)[k] <==> FORMAT_WORDS[mask][k] == '1')
  {
    hide FormatBits;
    FormatFromMask(mask);
    if mask == 0 {
    } else if mask == 1 {
    } else if mask == 2 {
    } else if mask == 3 {
    } else if mask == 4 {
    } else if mask == 5 {
    } else if mask == 6 {
    } else {
    }
  }

  /** And the version bits of each version that shows them. */
  lemma VersionTable(v: nat, k: nat)
    requires 7 <= v <= 10 && k < 18
    ensures |VERSION_WORDS[v - 7]| == 18 && (VersionBits(v)[k] <==> VERSION_WORDS[v - 7][k] == '1')
  {
    hide Loaded, Binary;
    SixBits(v);
    VersionRemainder(Binary(v, 6));
  }
}
