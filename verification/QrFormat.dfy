/** The format and version blocks: short data followed by a BCH remainder, as bits with the most
    significant first, and the places the format block is written to. */
module QrFormat {
  import opened QrField
  import opened QrPolynomials
  import opened QrStream
  import opened QrPath
  import opened QrSymbol

  /** The two-element field: bits under XOR and AND. */
  const F2: Field<bool> := Field(false, true, (a, b) => a != b, (a, b) => a && b)

  lemma F2IsField()
    ensures IsField(F2)
  {
    forall a, b, c ensures Law(F2, a, b, c) {}
  }

  /** 0x537 = 101 0011 0111, the generator of the (15, 5) code. */
  const FORMAT_GENERATOR: seq<bool> :=
    [true, false, true, false, false, true, true, false, true, true, true]

  /** 0x5412 = 101 0100 0001 0010, which keeps the block from being all light. */
  const FORMAT_MASK: seq<bool> :=
    [true, false, true, false, true, false, false, false, false, false, true, false, false, true, false]

  /** 0x1F25 = 1 1111 0010 0101, the generator of the (18, 6) code. */
  const VERSION_GENERATOR: seq<bool> :=
    [true, true, true, true, true, false, false, true, false, false, true, false, true]

  /** The shift register both blocks use, as wide as the generator is long less one. */
  method BchRemainder(generator: seq<bool>, start: seq<bool>, steps: nat) returns (remainder: seq<bool>)
    requires |generator| == |start| + 1 && start != []
    ensures remainder == Loaded(F2, generator, start, steps)
  {
    remainder := start;
    for i := 0 to steps
      invariant remainder == Loaded(F2, generator, start, i)
    {
      var top := remainder[0];
      ghost var before := remainder;
      remainder := remainder[1..] + [false];
      if top {
        remainder := seq(|remainder|, j requires 0 <= j < |remainder| => remainder[j] != generator[j + 1]);
      }
      assert remainder == ShiftStep(F2, generator, before, false);
    }
  }

  /** The fifteen format bits before masking: level M and the mask number, then the remainder. */
  function FormatWord(mask: nat): (bits: seq<bool>)
    ensures |bits| == 15
  {
    Binary(mask, 5) + Loaded(F2, FORMAT_GENERATOR, Zeros(F2, 5) + Binary(mask, 5), 10)
  }

  function FormatBits(mask: nat): (bits: seq<bool>)
    ensures |bits| == 15
  {
    Sum(F2, FormatWord(mask), FORMAT_MASK)
  }

  /** The encoder's `formatInfo`. */
  method FormatInfo(mask: nat) returns (bits: seq<bool>)
    ensures bits == FormatBits(mask)
  {
    var data := Binary(mask, 5);
    var remainder := BchRemainder(FORMAT_GENERATOR, Zeros(F2, 5) + data, 10);
    bits := Sum(F2, data + remainder, FORMAT_MASK);
  }

  function VersionBits(version: nat): (bits: seq<bool>)
    ensures |bits| == 18
  {
    Binary(version, 6) + Loaded(F2, VERSION_GENERATOR, Zeros(F2, 6) + Binary(version, 6), 12)
  }

  /** The encoder's `versionInfo`. */
  method VersionInfo(version: nat) returns (bits: seq<bool>)
    ensures bits == VersionBits(version)
  {
    var remainder := BchRemainder(VERSION_GENERATOR, Zeros(F2, 6) + Binary(version, 6), 12);
    bits := Binary(version, 6) + remainder;
  }

  lemma ZerosAddNothing(a: seq<bool>, b: seq<bool>)
    ensures Sum(F2, a + Zeros(F2, |b|), Zeros(F2, |a|) + b) == a + b
  {
  }

  /** The format block is a multiple of its generator, read as polynomials over two elements. */
  lemma FormatIsCodeWord(mask: nat)
    ensures exists q :: |q| == 10 && Times(F2, q, FORMAT_GENERATOR) == Zeros(F2, 5) + FormatWord(mask)
  {
    hide Loaded, Binary, Times, Sum, IsField;
    F2IsField();
    var start := Zeros(F2, 5) + Binary(mask, 5);
    var remainder := Loaded(F2, FORMAT_GENERATOR, start, 10);
    LoadedDivides(F2, FORMAT_GENERATOR, start, 10);
    ZerosAddNothing(start, remainder);
    assert start + remainder == Zeros(F2, 5) + FormatWord(mask);
  }

  /** So is the version block. */
  lemma VersionIsCodeWord(version: nat)
    ensures exists q :: |q| == 12 && Times(F2, q, VERSION_GENERATOR) == Zeros(F2, 6) + VersionBits(version)
  {
    hide Loaded, Binary, Times, Sum, IsField;
    F2IsField();
    var start := Zeros(F2, 6) + Binary(version, 6);
    var remainder := Loaded(F2, VERSION_GENERATOR, start, 12);
    LoadedDivides(F2, VERSION_GENERATOR, start, 12);
    ZerosAddNothing(start, remainder);
    assert start + remainder == Zeros(F2, 6) + VersionBits(version);
  }

  /** What a reader takes the mask number to be. */
  function MaskOf(bits: seq<bool>): nat
    requires |bits| == 15
  {
    Number(Sum(F2, bits, FORMAT_MASK)[..5])
  }

  lemma MaskOfFormatBits(mask: nat)
    requires mask < 8
    ensures MaskOf(FormatBits(mask)) == mask
  {
    hide Loaded;
    var word := FormatWord(mask);
    assert Sum(F2, Sum(F2, word, FORMAT_MASK), FORMAT_MASK) == word;
    assert word[..5] == Binary(mask, 5);
    assert Pow2(3) == 8;
    assert Pow2(5) == 4 * Pow2(3);
    NumberOfBinary(mask, 5);
  }

  // ---------- Where the format block stands ----------

  /** Where bit `i` of the first copy stands, counting from the least significant: in column 8, never in
      row 6, from the top to the bottom edge. */
  function FirstCopy(size: nat, i: nat): Cell
    requires size >= 21 && i < 15
  {
    if i < 6 then Cell(i, 8) else if i < 8 then Cell(i + 1, 8) else Cell(size - 15 + i, 8)
  }

  /** And of the second copy: all in row 8, never in column 6, ending at the left edge. */
  function SecondCopy(size: nat, i: nat): Cell
    requires size >= 21 && i < 15
  {
    if i < 8 then Cell(8, size - 1 - i) else if i == 8 then Cell(8, 7) else Cell(8, 14 - i)
  }

  predicate InFormat(size: nat, r: nat, c: nat)
    requires size >= 21
  {
    || (exists i :: 0 <= i < 15 && (FirstCopy(size, i) == Cell(r, c) || SecondCopy(size, i) == Cell(r, c)))
    || (r == size - 8 && c == 8)
  }

  lemma FormatCells(size: nat)
    requires size >= 21
    ensures forall i, j :: 0 <= i < j < 15 ==> FirstCopy(size, i) != FirstCopy(size, j)
    ensures forall i, j :: 0 <= i < j < 15 ==> SecondCopy(size, i) != SecondCopy(size, j)
    ensures forall i, j :: 0 <= i < 15 && 0 <= j < 15 ==> FirstCopy(size, i) != SecondCopy(size, j)
    ensures forall i :: 0 <= i < 15 ==> FirstCopy(size, i) != Cell(size - 8, 8) && SecondCopy(size, i) != Cell(size - 8, 8)
    ensures forall i :: 0 <= i < 15 ==> InSymbol(size, FirstCopy(size, i)) && InSymbol(size, SecondCopy(size, i))
  {
  }

  /** Format modules are reserved, away from the timing patterns. */
  lemma FormatIsReserved(size: nat, r: nat, c: nat)
    requires size >= 21 && InFormat(size, r, c)
    ensures InCorner(size, r, c) && !OnTiming(r, c)
  {
  }

  function FormatBit(bits: seq<bool>, i: nat): bool
    requires |bits| == 15 && i < 15
  {
    bits[14 - i]
  }

  /** The first `n` format bits stand in both copies. */
  ghost predicate Shows(modules: array2<bool>, size: nat, format: seq<bool>, n: nat)
    requires modules.Length0 == modules.Length1 == size >= 21 && |format| == 15 && n <= 15
    reads modules
  {
    forall i :: 0 <= i < n ==>
      && modules[FirstCopy(size, i).row, FirstCopy(size, i).column] == FormatBit(format, i)
      && modules[SecondCopy(size, i).row, SecondCopy(size, i).column] == FormatBit(format, i)
  }

  /** One turn of the loop in `writeFormat`. */
  method WriteFormatBit(modules: array2<bool>, size: nat, format: seq<bool>, i: nat)
    requires modules.Length0 == modules.Length1 == size >= 21 && |format| == 15 && i < 15
    requires Shows(modules, size, format, i)
    modifies modules
    ensures Shows(modules, size, format, i + 1)
    ensures forall r, c | 0 <= r < size && 0 <= c < size && !InFormat(size, r, c) :: modules[r, c] == old(modules[r, c])
  {
    FormatCells(size);
    var first, second := FirstCopy(size, i), SecondCopy(size, i);
    hide FirstCopy, SecondCopy;
    modules[first.row, first.column] := FormatBit(format, i);
    modules[second.row, second.column] := FormatBit(format, i);
  }

  /** The encoder's `writeFormat`. Both copies and the dark module are written, nothing else. */
  method WriteFormat(modules: array2<bool>, size: nat, format: seq<bool>)
    requires modules.Length0 == modules.Length1 == size >= 21 && |format| == 15
    modifies modules
    ensures Shows(modules, size, format, 15) && modules[size - 8, 8]
    ensures forall r, c | 0 <= r < size && 0 <= c < size && !InFormat(size, r, c) :: modules[r, c] == old(modules[r, c])
  {
    hide FirstCopy, SecondCopy;
    for i := 0 to 15
      invariant Shows(modules, size, format, i)
      invariant forall r, c | 0 <= r < size && 0 <= c < size && !InFormat(size, r, c) :: modules[r, c] == old(modules[r, c])
    {
      WriteFormatBit(modules, size, format, i);
    }
    FormatCells(size);
    modules[size - 8, 8] := true;
  }

  /** The format bits as a reader finds them in the first copy. */
  function ReadFormat(modules: seq<seq<bool>>): (bits: seq<bool>)
    requires |modules| >= 21 && forall row :: row in modules ==> |row| == |modules|
    ensures |bits| == 15
  {
    seq(15, j requires 0 <= j < 15 =>
      var cell := FirstCopy(|modules|, 14 - j); modules[cell.row][cell.column])
  }
}
