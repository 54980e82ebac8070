/** The whole encoder, the reader that undoes it, and the round trip between them. */
module QrCode {
  import opened Options
  import opened QrField
  import opened QrTables
  import opened QrStream
  import opened QrBlocks
  import opened QrPath
  import opened QrSymbol
  import opened QrCapacity
  import opened QrFormat
  import opened QrDraw
  import opened QrPenalty

  /** The eight mask conditions. */
  predicate Mask(mask: nat, r: nat, c: nat) {
    match mask
    case 0 => (r + c) % 2 == 0
    case 1 => r % 2 == 0
    case 2 => c % 3 == 0
    case 3 => (r + c) % 3 == 0
    case 4 => (r / 2 + c / 3) % 2 == 0
    case 5 => (r * c) % 2 + (r * c) % 3 == 0
    case 6 => ((r * c) % 2 + (r * c) % 3) % 2 == 0
    case _ => ((r + c) % 2 + (r * c) % 3) % 2 == 0
  }

  // ---------- What a symbol is ----------

  /** The data codewords of a payload: its message, then the two pad bytes in turn. */
  function DataCodewords(payload: seq<Byte>, v: nat): (data: seq<Byte>)
    requires IsVersion(v) && Fits(|payload|, v)
    ensures |data| == DataCodewordCount(v)
  {
    MessageLength(payload, v);
    var message := Pack(Message(payload, v));
    message + seq(DataCodewordCount(v) - |message|, k requires 0 <= k => PAD[k % 2])
  }

  /** Behind the message the data codewords are 236 and 17 in turn. */
  lemma PadsAlternate(payload: seq<Byte>, v: nat, k: nat)
    requires IsVersion(v) && Fits(|payload|, v) && |Message(payload, v)| / 8 <= k < DataCodewordCount(v)
    ensures Value(DataCodewords(payload, v)[k]) == if (k - |Message(payload, v)| / 8) % 2 == 0 then 236 else 17
  {
    hide Message, DataCodewordCount, Pack;
    PadValues();
    assert DataCodewords(payload, v)[k] == PAD[(k - |Message(payload, v)| / 8) % 2];
  }

  lemma PadValues()
    ensures Value(PAD[0]) == 236 && Value(PAD[1]) == 17
  {
  }

  lemma CodewordsDetermined(payload: seq<Byte>, v: nat, data: seq<Byte>)
    requires IsVersion(v) && Fits(|payload|, v) && |data| == DataCodewordCount(v)
    requires Message(payload, v) <= BitsOf(data)
    requires forall k :: |Message(payload, v)| <= 8 * k < 8 * |data| ==> data[k] == PAD[(k - |Message(payload, v)| / 8) % 2]
    ensures data == DataCodewords(payload, v)
  {
    hide Message, BitsOf, Pack, TotalCodewords, CorrectionCodewords;
    MessageLength(payload, v);
    FrontOfMessage(Message(payload, v), data);
  }

  lemma FrontOfMessage(message: seq<bool>, data: seq<Byte>)
    requires |message| % 8 == 0 && message <= BitsOf(data)
    ensures Pack(message) == data[..|message| / 8]
  {
    hide BitsOf, Pack;
    var front := data[..|message| / 8];
    BitsOfAppend(front, data[|message| / 8..]);
    assert data == front + data[|message| / 8..];
    assert BitsOf(front) == message;
    PackBits(front, []);
    assert message + [] == message;
  }

  function Off(n: nat): (bits: seq<bool>)
    ensures |bits| == n
  {
    seq(n, k => false)
  }

  /** The bits that go along the data path. */
  ghost function DataBits(payload: seq<Byte>, v: nat): seq<bool>
    requires IsVersion(v) && Fits(|payload|, v)
  {
    BitsOf(Codestream(DataCodewords(payload, v), v)) + Off(RemainderBits(v))
  }

  predicate Square(modules: seq<seq<bool>>, size: nat) {
    |modules| == size && forall r :: 0 <= r < size ==> |modules[r]| == size
  }

  ghost predicate ShowsFormat(modules: seq<seq<bool>>, size: nat, format: seq<bool>)
    requires Square(modules, size) && size >= 21 && |format| == 15
  {
    forall i :: 0 <= i < 15 ==>
      && modules[FirstCopy(size, i).row][FirstCopy(size, i).column] == FormatBit(format, i)
      && modules[SecondCopy(size, i).row][SecondCopy(size, i).column] == FormatBit(format, i)
  }

  ghost predicate ShowsPatterns(modules: seq<seq<bool>>, v: nat)
    requires IsVersion(v) && Square(modules, Size(v))
  {
    forall r, c | 0 <= r < Size(v) && 0 <= c < Size(v) && IsReserved(v, r, c) && !InFormat(Size(v), r, c) ::
      Inked(modules[r][c]) == Pattern(v, r, c)
  }

  ghost predicate ShowsData(modules: seq<seq<bool>>, v: nat, bits: seq<bool>, mask: nat)
    requires IsVersion(v) && Square(modules, Size(v))
  {
    var path := DataPath(Size(v), ReservedMap(v));
    forall k :: 0 <= k < |path| ==>
      && path[k].row < Size(v) && path[k].column < Size(v)
      && modules[path[k].row][path[k].column] == (BitAt(bits, k) != Mask(mask, path[k].row, path[k].column))
  }

  /** A finished symbol: patterns, both format copies, the dark module, and the masked data. */
  ghost predicate IsSymbol(modules: seq<seq<bool>>, v: nat, bits: seq<bool>, mask: nat)
    requires IsVersion(v)
  {
    && Square(modules, Size(v)) && modules[Size(v) - 8][8]
    && ShowsFormat(modules, Size(v), FormatBits(mask))
    && ShowsPatterns(modules, v)
    && ShowsData(modules, v, bits, mask)
  }

  /** Nothing about a symbol is left open: each module is a pattern's, a format bit or on the path. */
  lemma SymbolIsUnique(a: seq<seq<bool>>, b: seq<seq<bool>>, v: nat, bits: seq<bool>, mask: nat)
    requires IsVersion(v) && IsSymbol(a, v, bits, mask) && IsSymbol(b, v, bits, mask)
    ensures a == b
  {
    hide FormatBits, Pattern, DataPath, FirstCopy, SecondCopy, IsReserved, Mask;
    forall r, c | 0 <= r < Size(v) && 0 <= c < Size(v) ensures a[r][c] == b[r][c] {
      if InFormat(Size(v), r, c) {
      } else if IsReserved(v, r, c) {
        assert Inked(a[r][c]) == Pattern(v, r, c) == Inked(b[r][c]);
      } else {
        OnPath(v, r, c);
      }
    }
    assert forall r :: 0 <= r < Size(v) ==> a[r] == b[r];
  }

  lemma OnPath(v: nat, r: nat, c: nat)
    requires IsVersion(v) && r < Size(v) && c < Size(v) && !IsReserved(v, r, c)
    ensures Cell(r, c) in DataPath(Size(v), ReservedMap(v))
  {
    hide DataPath, IsReserved;
    PathVisits(Size(v), ReservedMap(v));
    if c == 6 { SkippedIsReserved(v, r); }
    SkippedIsReserved(v, 0);
    assert InSymbol(Size(v), Cell(r, c));
  }

  // ---------- The reader ----------

  /** The bits along the data path, unmasked. */
  function ReadPath(modules: seq<seq<bool>>, v: nat, mask: nat): (bits: seq<bool>)
    requires IsVersion(v) && Square(modules, Size(v))
    ensures |bits| == |DataPath(Size(v), ReservedMap(v))|
  {
    var path := DataPath(Size(v), ReservedMap(v));
    PathVisits(Size(v), ReservedMap(v));
    seq(|path|, k requires 0 <= k < |path| =>
      assert path[k] in path;
      modules[path[k].row][path[k].column] != Mask(mask, path[k].row, path[k].column))
  }

  /** What a reader makes of a grid of modules: the version from its size, the mask from the format
      bits, the codewords along the path, the blocks checked and joined, the byte segment parsed. */
  ghost function Decode(modules: seq<seq<bool>>): Option<seq<Byte>> {
    if |modules| % 4 != 1 || |modules| < 21 || |modules| > 57 || !Square(modules, |modules|) then None
    else
      var v := (|modules| - 17) / 4;
      var mask := MaskOf(ReadFormat(modules));
      if mask >= 8 then None
      else
        match ReadBlocks(Pack(ReadPath(modules, v, mask)), v)
        case None => None
        case Some(data) => Parse(data, v)
  }

  lemma FormatReads(modules: seq<seq<bool>>, size: nat, mask: nat)
    requires size >= 21 && Square(modules, size) && mask < 8 && ShowsFormat(modules, size, FormatBits(mask))
    ensures MaskOf(ReadFormat(modules)) == mask
  {
    hide FormatBits, MaskOf, FirstCopy;
    var bits := ReadFormat(modules);
    forall j | 0 <= j < 15 ensures bits[j] == FormatBits(mask)[j] {
      assert FormatBit(FormatBits(mask), 14 - j) == FormatBits(mask)[j];
    }
    assert bits == FormatBits(mask);
    MaskOfFormatBits(mask);
  }

  /** The second copy says the same, so either may be lost. */
  lemma SecondCopyReads(modules: seq<seq<bool>>, size: nat, mask: nat)
    requires size >= 21 && Square(modules, size) && ShowsFormat(modules, size, FormatBits(mask))
    ensures ReadFormat(modules) == seq(15, j requires 0 <= j < 15 =>
      modules[SecondCopy(size, 14 - j).row][SecondCopy(size, 14 - j).column])
  {
    hide FormatBits;
  }

  /** The version block beside the upper right finder, or mirrored beside the lower left one. */
  function ReadVersion(modules: seq<seq<bool>>, size: nat, mirrored: bool): (bits: seq<bool>)
    requires size >= 21 && Square(modules, size)
    ensures |bits| == 18
  {
    seq(18, j requires 0 <= j < 18 =>
      var row, column := (17 - j) / 3, size - 11 + (17 - j) % 3;
      if mirrored then modules[column][row] else modules[row][column])
  }

  /** From version 7 up both version blocks name the version. */
  lemma VersionReads(modules: seq<seq<bool>>, v: nat, mirrored: bool)
    requires 7 <= v <= MAX_VERSION && Square(modules, Size(v)) && ShowsPatterns(modules, v)
    ensures Number(ReadVersion(modules, Size(v), mirrored)[..6]) == v
  {
    hide VersionBits, IsReserved, WithFormat;
    var bits := ReadVersion(modules, Size(v), mirrored);
    forall j | 0 <= j < 18 ensures bits[j] == VersionBits(v)[j] {
      VersionModuleReads(modules, v, 17 - j, mirrored);
    }
    assert bits == VersionBits(v);
    VersionBitsName(v);
  }

  lemma VersionModuleReads(modules: seq<seq<bool>>, v: nat, i: nat, mirrored: bool)
    requires 7 <= v <= MAX_VERSION && Square(modules, Size(v)) && ShowsPatterns(modules, v) && i < 18
    ensures
      var row, column := i / 3, Size(v) - 11 + i % 3;
      (if mirrored then modules[column][row] else modules[row][column]) == VersionBits(v)[17 - i]
  {
    hide VersionBits, InFormat, InCorner, InAlignment, WithFormat, VersionModule;
    var row, column := i / 3, Size(v) - 11 + i % 3;
    VersionBitAt(v, i);
    VersionOffFormat(v, row, column);
    if mirrored {
      assert IsReserved(v, column, row) && Inked(modules[column][row]) == Pattern(v, column, row);
    } else {
      assert IsReserved(v, row, column) && Inked(modules[row][column]) == Pattern(v, row, column);
    }
  }

  lemma VersionOffFormat(v: nat, row: nat, column: nat)
    requires 7 <= v <= MAX_VERSION && row < 6 && Size(v) - 11 <= column < Size(v) - 8
    ensures !InFormat(Size(v), row, column) && !InFormat(Size(v), column, row)
  {
  }

  lemma VersionBitsName(v: nat)
    requires v < 64
    ensures Number(VersionBits(v)[..6]) == v
  {
    hide Binary, Number;
    assert Pow2(3) == 8;
    assert Pow2(6) == 8 * Pow2(3) by { assert Pow2(5) == 4 * Pow2(3); }
    assert VersionBits(v)[..6] == Binary(v, 6);
    NumberOfBinary(v, 6);
  }

  lemma PathReads(modules: seq<seq<bool>>, v: nat, bits: seq<bool>, mask: nat)
    requires IsVersion(v) && Square(modules, Size(v)) && ShowsData(modules, v, bits, mask)
    requires |bits| == |DataPath(Size(v), ReservedMap(v))|
    ensures ReadPath(modules, v, mask) == bits
  {
    hide DataPath, Mask, IsReserved;
  }

  lemma DataBitsLength(payload: seq<Byte>, v: nat)
    requires IsVersion(v) && Fits(|payload|, v)
    ensures |DataBits(payload, v)| == |DataPath(Size(v), ReservedMap(v))|
    ensures Pack(DataBits(payload, v)) == Codestream(DataCodewords(payload, v), v)
    ensures ReadBlocks(Codestream(DataCodewords(payload, v), v), v) == Some(DataCodewords(payload, v))
  {
    hide DataPath, Codestream, DataCodewords, TotalCodewords, CorrectionCodewords, Pack, BitsOf, ReadBlocks;
    var data := DataCodewords(payload, v);
    ReadBlocksOfCodestream(data, v);
    PathLength(v);
    PackBits(Codestream(data, v), Off(RemainderBits(v)));
  }

  lemma DataCodewordsParse(payload: seq<Byte>, v: nat)
    requires IsVersion(v) && Fits(|payload|, v)
    ensures Parse(DataCodewords(payload, v), v) == Some(payload)
  {
    hide Message, BitsOf, Pack, Parse, TotalCodewords, CorrectionCodewords;
    MessageLength(payload, v);
    var message := Message(payload, v);
    var data := DataCodewords(payload, v);
    var rest := data[|message| / 8..];
    BitsOfAppend(Pack(message), rest);
    assert data == Pack(message) + rest;
    BitsOfPack(message);
    MessageParses(payload, v, data);
  }

  lemma {:induction false} BitsOfPack(bits: seq<bool>)
    requires |bits| % 8 == 0
    ensures BitsOf(Pack(bits)) == bits
  {
    if bits != [] {
      assert ByteBits(ByteOf(bits[..8])) == bits[..8];
      BitsOfPack(bits[8..]);
      assert Pack(bits)[1..] == Pack(bits[8..]);
      assert bits == bits[..8] + bits[8..];
    }
  }

  /** The round trip: whatever the payload and whichever mask won, a reader gets the payload back. */
  lemma SymbolDecodes(payload: seq<Byte>, v: nat, mask: nat, modules: seq<seq<bool>>)
    requires IsVersion(v) && Fits(|payload|, v) && mask < 8
    requires IsSymbol(modules, v, DataBits(payload, v), mask)
    ensures Decode(modules) == Some(payload)
  {
    hide DataPath, DataBits, ReadPath, ReadFormat, MaskOf, ReadBlocks, Parse, Pack, ShowsPatterns, ShowsData,
      ShowsFormat, FormatBits, DataCodewords, Codestream, TotalCodewords, CorrectionCodewords;
    FormatReads(modules, Size(v), mask);
    DataBitsLength(payload, v);
    PathReads(modules, v, DataBits(payload, v), mask);
    DataCodewordsParse(payload, v);
  }

  /** So a symbol determines its payload. */
  lemma SymbolsDiffer(p: seq<Byte>, v: nat, m: nat, q: seq<Byte>, w: nat, n: nat, modules: seq<seq<bool>>)
    requires IsVersion(v) && Fits(|p|, v) && m < 8 && IsSymbol(modules, v, DataBits(p, v), m)
    requires IsVersion(w) && Fits(|q|, w) && n < 8 && IsSymbol(modules, w, DataBits(q, w), n)
    ensures p == q
  {
    hide IsSymbol, Decode;
    SymbolDecodes(p, v, m, modules);
    SymbolDecodes(q, w, n, modules);
  }

  // ---------- The encoder ----------

  datatype QrCode = QrCode(version: nat, size: nat, mask: nat, modules: seq<seq<bool>>)

  /** The stream as bits, most significant first, then the remainder bits. */
  method DataStream(stream: seq<Byte>, v: nat) returns (bits: seq<bool>)
    requires IsVersion(v)
    ensures bits == BitsOf(stream) + Off(RemainderBits(v))
  {
    hide ByteBits;
    bits := [];
    for n := 0 to |stream|
      invariant bits == BitsOf(stream[..n])
    {
      BitsOfNext(stream, n);
      bits := bits + ByteBits(stream[n]);
    }
    assert stream[..|stream|] == stream;
    for i := 0 to RemainderBits(v)
      invariant bits == BitsOf(stream) + Off(i)
    {
      assert Off(i + 1) == Off(i) + [false];
      bits := bits + [false];
    }
  }

  /** The modules of an array, row by row. */
  function Rows(modules: array2<bool>): (rows: seq<seq<bool>>)
    reads modules
  {
    seq(modules.Length0, r requires 0 <= r < modules.Length0 reads modules =>
      seq(modules.Length1, c requires 0 <= c < modules.Length1 reads modules => modules[r, c]))
  }

  /** The grid with the patterns drawn and the stream placed. */
  ghost predicate Prepared(grid: array2<Option<bool>>, reserved: array2<bool>, v: nat, bits: seq<bool>)
    requires IsVersion(v) && Canvas(grid, reserved, Size(v))
    reads grid, reserved
  {
    && Filled(grid, Size(v), DataPath(Size(v), ReservedMap(v)), bits)
    && (forall r, c | 0 <= r < Size(v) && 0 <= c < Size(v) :: reserved[r, c] == IsReserved(v, r, c))
    && (forall r, c | 0 <= r < Size(v) && 0 <= c < Size(v) && IsReserved(v, r, c) :: grid[r, c] == Ink(Pattern(v, r, c)))
  }

  /** One candidate: the unreserved modules masked, the reserved ones kept. */
  method ApplyMask(grid: array2<Option<bool>>, reserved: array2<bool>, size: nat, mask: nat)
    returns (modules: array2<bool>)
    requires Canvas(grid, reserved, size)
    ensures fresh(modules) && modules.Length0 == modules.Length1 == size
    ensures forall r, c | 0 <= r < size && 0 <= c < size ::
      modules[r, c] == if reserved[r, c] then grid[r, c] == Some(true) else (grid[r, c] == Some(true)) != Mask(mask, r, c)
  {
    hide Mask;
    modules := new bool[size, size]((r, c) => false);
    for r := 0 to size
      invariant forall y, x | 0 <= y < r && 0 <= x < size ::
        modules[y, x] == if reserved[y, x] then grid[y, x] == Some(true) else (grid[y, x] == Some(true)) != Mask(mask, y, x)
    {
      for c := 0 to size
        invariant forall y, x | 0 <= y < size && 0 <= x < size && (y < r || (y == r && x < c)) ::
          modules[y, x] == if reserved[y, x] then grid[y, x] == Some(true) else (grid[y, x] == Some(true)) != Mask(mask, y, x)
      {
        var dark := grid[r, c] == Some(true);
        modules[r, c] := if reserved[r, c] then dark else dark != Mask(mask, r, c);
      }
    }
  }

  /** A reserved module that carries no format bit belongs to a drawn pattern. */
  lemma ReservedIsInked(v: nat, r: nat, c: nat)
    requires IsVersion(v) && r < Size(v) && c < Size(v) && IsReserved(v, r, c) && !InFormat(Size(v), r, c)
    ensures Pattern(v, r, c).Inked?
  {
    hide IsReserved, WithAlignment, InFormat;
    PatternIsReserved(v, r, c);
    if HoldsFormat(Size(v), r, c) { HeldIsFormat(Size(v), r, c); }
    AlignmentCases(v, r, c);
    TimingRegion(Size(v), r, c);
  }

  lemma HeldIsFormat(size: nat, r: nat, c: nat)
    requires size >= 21 && r < size && c < size && HoldsFormat(size, r, c)
    ensures InFormat(size, r, c)
  {
    if c == 8 && r != 8 {
      var i := if r < 6 then r else if r < 9 then r - 1 else r + 15 - size;
      if r != size - 8 { assert FirstCopy(size, i) == Cell(r, c); }
    } else {
      var i := if c + 8 >= size then size - 1 - c else if c == 7 then 8 else 14 - c;
      if c != 8 { assert SecondCopy(size, i) == Cell(r, c); } else { assert FirstCopy(size, 7) == Cell(r, c); }
    }
  }

  lemma MaskedShowsPatterns(grid: array2<Option<bool>>, reserved: array2<bool>, modules: array2<bool>, v: nat,
      bits: seq<bool>)
    requires IsVersion(v) && Canvas(grid, reserved, Size(v)) && Prepared(grid, reserved, v, bits)
    requires modules.Length0 == modules.Length1 == Size(v)
    requires forall r, c | 0 <= r < Size(v) && 0 <= c < Size(v) && reserved[r, c] ::
      modules[r, c] == (grid[r, c] == Some(true))
    ensures ShowsPatterns(Rows(modules), v)
  {
    hide Filled, DataPath, IsReserved, Pattern, InFormat;
    forall r, c | 0 <= r < Size(v) && 0 <= c < Size(v) && IsReserved(v, r, c) && !InFormat(Size(v), r, c)
      ensures Inked(Rows(modules)[r][c]) == Pattern(v, r, c)
    {
      ReservedIsInked(v, r, c);
      assert reserved[r, c] && grid[r, c] == Ink(Pattern(v, r, c));
    }
  }

  lemma MaskedShowsData(grid: array2<Option<bool>>, reserved: array2<bool>, modules: array2<bool>, v: nat,
      bits: seq<bool>, mask: nat)
    requires IsVersion(v) && Canvas(grid, reserved, Size(v)) && Prepared(grid, reserved, v, bits)
    requires modules.Length0 == modules.Length1 == Size(v)
    requires forall r, c | 0 <= r < Size(v) && 0 <= c < Size(v) && !reserved[r, c] ::
      modules[r, c] == ((grid[r, c] == Some(true)) != Mask(mask, r, c))
    ensures ShowsData(Rows(modules), v, bits, mask)
  {
    hide DataPath, IsReserved, Pattern, Mask;
    PathVisits(Size(v), ReservedMap(v));
    var path := DataPath(Size(v), ReservedMap(v));
    forall k | 0 <= k < |path|
      ensures path[k].row < Size(v) && path[k].column < Size(v)
      ensures modules[path[k].row, path[k].column] == (BitAt(bits, k) != Mask(mask, path[k].row, path[k].column))
    {
      assert path[k] in path;
      assert grid[path[k].row, path[k].column] == Some(BitAt(bits, k));
    }
  }

  /** Format bits disturb neither the other patterns nor the data. */
  lemma FormatKeeps(before: seq<seq<bool>>, after: seq<seq<bool>>, v: nat, bits: seq<bool>, mask: nat)
    requires IsVersion(v) && Square(before, Size(v)) && Square(after, Size(v))
    requires ShowsPatterns(before, v) && ShowsData(before, v, bits, mask)
    requires forall r, c | 0 <= r < Size(v) && 0 <= c < Size(v) && !InFormat(Size(v), r, c) :: after[r][c] == before[r][c]
    ensures ShowsPatterns(after, v) && ShowsData(after, v, bits, mask)
  {
    hide DataPath, InCorner, OnTiming, InAlignment, InVersionArea, Pattern, Mask, InFormat;
    PathVisits(Size(v), ReservedMap(v));
    var path := DataPath(Size(v), ReservedMap(v));
    forall k | 0 <= k < |path|
      ensures after[path[k].row][path[k].column] == (BitAt(bits, k) != Mask(mask, path[k].row, path[k].column))
    {
      assert path[k] in path;
      if InFormat(Size(v), path[k].row, path[k].column) {
        FormatIsReserved(Size(v), path[k].row, path[k].column);
      }
    }
  }

  /** One turn of the mask loop. */
  method DrawCandidate(grid: array2<Option<bool>>, reserved: array2<bool>, v: nat, mask: nat, ghost bits: seq<bool>)
    returns (modules: array2<bool>)
    requires IsVersion(v) && Canvas(grid, reserved, Size(v)) && Prepared(grid, reserved, v, bits)
    ensures fresh(modules) && IsSymbol(Rows(modules), v, bits, mask)
  {
    hide Mask, DataPath, IsReserved, Pattern, FirstCopy, SecondCopy, FormatBits, InFormat, ShowsData, ShowsPatterns, Prepared;
    modules := ApplyMask(grid, reserved, Size(v), mask);
    MaskedShowsPatterns(grid, reserved, modules, v, bits);
    MaskedShowsData(grid, reserved, modules, v, bits, mask);
    ghost var masked := Rows(modules);
    var format := FormatInfo(mask);
    FormatCells(Size(v));
    WriteFormat(modules, Size(v), format);
    FormatKeeps(masked, Rows(modules), v, bits, mask);
  }

  predicate Allowed(forced: Option<int>, mask: nat) {
    mask < 8 && (forced.None? || forced.value == mask)
  }

  /** The allowed masks below `n` lose to this symbol: by score, and on a tie by number. */
  ghost predicate Wins(code: QrCode, bits: seq<bool>, forced: Option<int>, n: nat)
    requires IsVersion(code.version)
  {
    forall m: nat, other | m < n && Allowed(forced, m) && IsSymbol(other, code.version, bits, m) ::
      && Score(code.modules, Size(code.version)) <= Score(other, Size(code.version))
      && (m < code.mask ==> Score(code.modules, Size(code.version)) < Score(other, Size(code.version)))
  }

  /** The encoder. The penalty chooses among symbols that all decode to the payload. */
  method EncodeQr(tables: Tables, payload: seq<Byte>, forced: Option<int>)
    returns (code: Option<QrCode>)
    requires tables.Valid()
    ensures code.None? <==> |payload| > 213 || (forced.Some? && !(0 <= forced.value < 8))
    ensures code.Some? ==>
      var symbol := code.value;
      && IsVersion(symbol.version) && Fits(|payload|, symbol.version)
      && (forall v :: 1 <= v < symbol.version ==> !Fits(|payload|, v))
      && symbol.size == Size(symbol.version) && Allowed(forced, symbol.mask)
      && IsSymbol(symbol.modules, symbol.version, DataBits(payload, symbol.version), symbol.mask)
      && Wins(symbol, DataBits(payload, symbol.version), forced, 8)
      && Decode(symbol.modules) == Some(payload)
  {
    hide DataPath, IsReserved, Pattern, IsSymbol, Decode, DataBits, Prepared, Wins, TotalCodewords, CorrectionCodewords, Score;
    code := None;
    var found := VersionFor(|payload|);
    if found.None? {
      return;
    }
    var v := found.value;
    var grid, reserved := PrepareGrid(tables, payload, v);
    var bestScore := 0;
    for index := 0 to 8
      invariant Prepared(grid, reserved, v, DataBits(payload, v))
      invariant code.None? <==> index == 0 || (forced.Some? && !(0 <= forced.value < index))
      invariant code.Some? ==>
        && code.value.version == v && code.value.size == Size(v) && Allowed(forced, code.value.mask)
        && code.value.mask < index && bestScore == Score(code.value.modules, Size(v))
        && IsSymbol(code.value.modules, v, DataBits(payload, v), code.value.mask)
        && Wins(code.value, DataBits(payload, v), forced, index)
    {
      if forced.None? || forced.value == index {
        var modules := DrawCandidate(grid, reserved, v, index, DataBits(payload, v));
        var candidate := QrCode(v, Size(v), index, Rows(modules));
        var score := Penalty(candidate.modules, Size(v));
        BetterWins(code, candidate, DataBits(payload, v), forced, index);
        if code.None? || score < bestScore {
          code, bestScore := Some(candidate), score;
        }
      } else {
        SkippedWins(code, DataBits(payload, v), forced, index);
      }
    }
    if code.Some? {
      SymbolDecodes(payload, v, code.value.mask, code.value.modules);
    }
  }

  lemma SkippedWins(code: Option<QrCode>, bits: seq<bool>, forced: Option<int>, n: nat)
    requires code.Some? ==> IsVersion(code.value.version) && Wins(code.value, bits, forced, n)
    requires !Allowed(forced, n)
    ensures code.Some? ==> Wins(code.value, bits, forced, n + 1)
  {
    hide IsSymbol;
  }

  lemma BetterWins(code: Option<QrCode>, candidate: QrCode, bits: seq<bool>, forced: Option<int>, n: nat)
    requires IsVersion(candidate.version) && candidate.mask == n
    requires IsSymbol(candidate.modules, candidate.version, bits, n)
    requires code.Some? ==> code.value.version == candidate.version && Wins(code.value, bits, forced, n)
    requires code.Some? ==> code.value.mask < n
    requires code.None? ==> n == 0 || (forced.Some? && !(0 <= forced.value < n))
    ensures code.None? || Better(candidate, code.value) ==> Wins(candidate, bits, forced, n + 1)
    ensures code.Some? && !Better(candidate, code.value) ==> Wins(code.value, bits, forced, n + 1)
  {
    hide IsSymbol, Score;
    forall other | IsSymbol(other, candidate.version, bits, n) ensures other == candidate.modules {
      SymbolIsUnique(other, candidate.modules, candidate.version, bits, n);
    }
  }

  ghost predicate Better(a: QrCode, b: QrCode) {
    Score(a.modules, Size(a.version)) < Score(b.modules, Size(b.version))
  }

  /** The encoder up to the mask loop. */
  method PrepareGrid(tables: Tables, payload: seq<Byte>, v: nat)
    returns (grid: array2<Option<bool>>, reserved: array2<bool>)
    requires tables.Valid() && IsVersion(v) && Fits(|payload|, v)
    ensures fresh(grid) && fresh(reserved) && Canvas(grid, reserved, Size(v))
    ensures Prepared(grid, reserved, v, DataBits(payload, v))
  {
    hide DataPath, IsReserved, Pattern, Codestream, DataCodewords, Message, BitsOf, Filled, TotalCodewords,
      CorrectionCodewords;
    var data := Codewords(payload, v);
    CodewordsDetermined(payload, v, data);
    var stream := Interleave(tables, data, v);
    grid, reserved := FunctionPatterns(v);
    var bits := DataStream(stream, v);
    PlaceBits(grid, reserved, bits, Size(v), ReservedMap(v));
  }
}
