/** Splitting the data codewords into blocks, correcting each, and interleaving them; and how a
    reader puts the blocks back together and checks them. */
module QrBlocks {
  import opened Options
  import opened QrField
  import opened QrTables
  import opened QrReedSolomon
  import opened QrStream

  // ---------- Interleaving lists of any lengths ----------

  /** The `i`-th symbols of the blocks that have one. */
  function Column<T>(blocks: seq<seq<T>>, i: nat): seq<T> {
    if blocks == [] then []
    else (if i < |blocks[0]| then [blocks[0][i]] else []) + Column(blocks[1..], i)
  }

  /** The first `n` columns, one after another. */
  function Interleaved<T>(blocks: seq<seq<T>>, n: nat): seq<T> {
    if n == 0 then [] else Interleaved(blocks, n - 1) + Column(blocks, n - 1)
  }

  /** How many of the first `b` blocks have an `i`-th symbol. */
  function Rank(lengths: seq<nat>, i: nat, b: nat): nat
    requires b <= |lengths|
  {
    if b == 0 then 0 else Rank(lengths, i, b - 1) + (if i < lengths[b - 1] then 1 else 0)
  }

  /** Where column `i` starts. */
  function ColumnStart(lengths: seq<nat>, i: nat): nat {
    if i == 0 then 0 else ColumnStart(lengths, i - 1) + Rank(lengths, i - 1, |lengths|)
  }

  function Lengths<T>(blocks: seq<seq<T>>): (lengths: seq<nat>)
    ensures |lengths| == |blocks|
  {
    seq(|blocks|, b requires 0 <= b < |blocks| => |blocks[b]|)
  }

  predicate GatherReads<T>(stream: seq<T>, lengths: seq<nat>, b: nat)
    requires b < |lengths|
  {
    forall i :: 0 <= i < lengths[b] ==> ColumnStart(lengths, i) + Rank(lengths, i, b) < |stream|
  }

  /** The reader's inverse: block `b` collects its symbol from every column. */
  function Gather<T>(stream: seq<T>, lengths: seq<nat>, b: nat): (block: seq<T>)
    requires b < |lengths| && GatherReads(stream, lengths, b)
    ensures |block| == lengths[b]
  {
    seq(lengths[b], i requires 0 <= i < lengths[b] => stream[ColumnStart(lengths, i) + Rank(lengths, i, b)])
  }

  lemma {:induction false} RankOfTail(lengths: seq<nat>, i: nat, b: nat)
    requires 1 <= b <= |lengths|
    ensures Rank(lengths, i, b) == (if i < lengths[0] then 1 else 0) + Rank(lengths[1..], i, b - 1)
  {
    if b > 1 { RankOfTail(lengths, i, b - 1); }
  }

  lemma LengthsTail<T>(blocks: seq<seq<T>>)
    requires blocks != []
    ensures Lengths(blocks)[0] == |blocks[0]| && Lengths(blocks)[1..] == Lengths(blocks[1..])
  {
  }

  lemma {:induction false} ColumnLength<T>(blocks: seq<seq<T>>, i: nat)
    ensures |Column(blocks, i)| == Rank(Lengths(blocks), i, |blocks|)
  {
    hide Lengths;
    if blocks != [] {
      ColumnLength(blocks[1..], i);
      LengthsTail(blocks);
      RankOfTail(Lengths(blocks), i, |blocks|);
    }
  }

  /** A column lists its symbols by rank. */
  lemma {:induction false} ColumnByRank<T>(blocks: seq<seq<T>>, i: nat, b: nat)
    requires b < |blocks| && i < |blocks[b]|
    ensures Rank(Lengths(blocks), i, b) < |Column(blocks, i)|
    ensures Column(blocks, i)[Rank(Lengths(blocks), i, b)] == blocks[b][i]
  {
    hide Lengths;
    if b > 0 {
      ColumnByRank(blocks[1..], i, b - 1);
      LengthsTail(blocks);
      RankOfTail(Lengths(blocks), i, b);
    }
  }

  lemma {:induction false} InterleavedLength<T>(blocks: seq<seq<T>>, n: nat)
    ensures |Interleaved(blocks, n)| == ColumnStart(Lengths(blocks), n)
  {
    hide Column, Rank, Lengths;
    if n > 0 {
      InterleavedLength(blocks, n - 1);
      ColumnLength(blocks, n - 1);
    }
  }

  lemma {:induction false} InterleavedAt<T>(blocks: seq<seq<T>>, n: nat, i: nat, b: nat)
    requires b < |blocks| && i < n && i < |blocks[b]|
    ensures ColumnStart(Lengths(blocks), i) + Rank(Lengths(blocks), i, b) < |Interleaved(blocks, n)|
    ensures Interleaved(blocks, n)[ColumnStart(Lengths(blocks), i) + Rank(Lengths(blocks), i, b)] == blocks[b][i]
  {
    hide Column, Rank, Lengths;
    if i < n - 1 {
      InterleavedAt(blocks, n - 1, i, b);
    } else {
      InterleavedLength(blocks, n - 1);
      ColumnByRank(blocks, i, b);
    }
  }

  /** Gathering undoes interleaving, whatever follows the interleaved part. */
  lemma GatherInterleaved<T>(blocks: seq<seq<T>>, n: nat, rest: seq<T>, b: nat)
    requires b < |blocks| && |blocks[b]| <= n
    ensures GatherReads(Interleaved(blocks, n) + rest, Lengths(blocks), b)
    ensures Gather(Interleaved(blocks, n) + rest, Lengths(blocks), b) == blocks[b]
  {
    hide Interleaved, Rank, ColumnStart;
    forall i | 0 <= i < |blocks[b]|
      ensures ColumnStart(Lengths(blocks), i) + Rank(Lengths(blocks), i, b) < |Interleaved(blocks, n)|
      ensures Interleaved(blocks, n)[ColumnStart(Lengths(blocks), i) + Rank(Lengths(blocks), i, b)] == blocks[b][i]
    {
      InterleavedAt(blocks, n, i, b);
    }
  }

  // ---------- The blocks of a version ----------

  function CorrectionPerBlock(v: nat): (n: nat)
    requires IsVersion(v)
    ensures 1 <= n <= 30 && n * BlockCount(v) == CorrectionCodewords(v)
  {
    CorrectionCodewords(v) / BlockCount(v)
  }

  function ShortLength(v: nat): (n: nat)
    requires IsVersion(v)
    ensures n < 120
  {
    DataCodewordCount(v) / BlockCount(v)
  }

  /** Data codewords of the b-th block: what division leaves over goes to as many blocks at the end. */
  function BlockLength(v: nat, b: nat): (n: nat)
    requires IsVersion(v)
    ensures n < 121
  {
    ShortLength(v) + (if b >= BlockCount(v) - DataCodewordCount(v) % BlockCount(v) then 1 else 0)
  }

  function BlockStart(v: nat, b: nat): nat
    requires IsVersion(v)
  {
    if b == 0 then 0 else BlockStart(v, b - 1) + BlockLength(v, b - 1)
  }

  /** The blocks of a version use up its data codewords exactly. */
  lemma BlocksCoverData(v: nat)
    requires IsVersion(v)
    ensures BlockStart(v, BlockCount(v)) == DataCodewordCount(v)
  {
    assert BlockStart(v, 1) == BlockLength(v, 0);
    assert BlockStart(v, 2) == BlockStart(v, 1) + BlockLength(v, 1);
    assert BlockStart(v, 3) == BlockStart(v, 2) + BlockLength(v, 2);
    assert BlockStart(v, 4) == BlockStart(v, 3) + BlockLength(v, 3);
    assert BlockStart(v, 5) == BlockStart(v, 4) + BlockLength(v, 4);
  }

  function DataLengths(v: nat): (lengths: seq<nat>)
    requires IsVersion(v)
    ensures |lengths| == BlockCount(v)
  {
    seq(BlockCount(v), b requires 0 <= b => BlockLength(v, b))
  }

  function CorrectionLengths(v: nat): (lengths: seq<nat>)
    requires IsVersion(v)
    ensures |lengths| == BlockCount(v)
  {
    seq(BlockCount(v), b => CorrectionPerBlock(v))
  }

  function Flatten<T>(blocks: seq<seq<T>>): seq<T> {
    if blocks == [] then [] else Flatten(blocks[..|blocks| - 1]) + blocks[|blocks| - 1]
  }

  lemma {:induction false} BlockStartMonotone(v: nat, a: nat, b: nat)
    requires IsVersion(v) && a <= b
    ensures BlockStart(v, a) <= BlockStart(v, b)
  {
    if a < b { BlockStartMonotone(v, a, b - 1); }
  }

  lemma BlockInData(v: nat, b: nat)
    requires IsVersion(v) && b < BlockCount(v)
    ensures BlockStart(v, b) <= BlockStart(v, b + 1) <= DataCodewordCount(v)
  {
    BlocksCoverData(v);
    BlockStartMonotone(v, b + 1, BlockCount(v));
  }

  function DataBlock(data: seq<Byte>, v: nat, b: nat): (block: seq<Byte>)
    requires IsVersion(v) && |data| == DataCodewordCount(v) && b < BlockCount(v)
    ensures |block| == BlockLength(v, b)
  {
    BlockInData(v, b);
    data[BlockStart(v, b)..BlockStart(v, b + 1)]
  }

  function DataBlocks(data: seq<Byte>, v: nat): (blocks: seq<seq<Byte>>)
    requires IsVersion(v) && |data| == DataCodewordCount(v)
    ensures |blocks| == BlockCount(v)
  {
    seq(BlockCount(v), b requires 0 <= b < BlockCount(v) => DataBlock(data, v, b))
  }

  ghost function CorrectionBlocks(data: seq<Byte>, v: nat): (blocks: seq<seq<Byte>>)
    requires IsVersion(v) && |data| == DataCodewordCount(v)
    ensures |blocks| == BlockCount(v)
  {
    seq(BlockCount(v), b requires 0 <= b < BlockCount(v) =>
      Correction(DataBlock(data, v, b), CorrectionPerBlock(v)))
  }

  function MaxLength<T>(blocks: seq<seq<T>>): (n: nat)
    ensures forall b :: 0 <= b < |blocks| ==> |blocks[b]| <= n
  {
    if blocks == [] then 0
    else
      var rest := MaxLength(blocks[..|blocks| - 1]);
      if |blocks[|blocks| - 1]| > rest then |blocks[|blocks| - 1]| else rest
  }

  /** All codewords of a symbol: the data blocks interleaved, then their corrections. */
  ghost function Codestream(data: seq<Byte>, v: nat): seq<Byte>
    requires IsVersion(v) && |data| == DataCodewordCount(v)
  {
    Interleaved(DataBlocks(data, v), MaxLength(DataBlocks(data, v)))
    + Interleaved(CorrectionBlocks(data, v), CorrectionPerBlock(v))
  }

  // ---------- The encoder ----------

  /** The correction of one block; its length is well within the tables. */
  method CorrectBlock(tables: Tables, block: seq<Byte>, v: nat) returns (correction: seq<Byte>)
    requires tables.Valid() && IsVersion(v)
    ensures correction == Correction(block, CorrectionPerBlock(v))
  {
    hide Correction, TableRoots, CorrectionPerBlock;
    correction := ErrorCorrection(tables, block, CorrectionPerBlock(v));
  }

  /** The block loop of `interleave`. */
  method SplitAndCorrect(tables: Tables, data: seq<Byte>, v: nat)
    returns (dataBlocks: seq<seq<Byte>>, correctionBlocks: seq<seq<Byte>>)
    requires tables.Valid() && IsVersion(v) && |data| == DataCodewordCount(v)
    ensures dataBlocks == DataBlocks(data, v)
    ensures correctionBlocks == CorrectionBlocks(data, v)
  {
    hide TotalCodewords, CorrectionCodewords, Correction;
    var longCount := DataCodewordCount(v) % BlockCount(v);
    dataBlocks, correctionBlocks := [], [];
    var at := 0;
    for b := 0 to BlockCount(v)
      invariant at == BlockStart(v, b)
      invariant dataBlocks == DataBlocks(data, v)[..b]
      invariant correctionBlocks == CorrectionBlocks(data, v)[..b]
    {
      var length := ShortLength(v) + (if b >= BlockCount(v) - longCount then 1 else 0);
      BlockInData(v, b);
      var block := data[at..at + length];
      at := at + length;
      var correction := CorrectBlock(tables, block, v);
      assert block == DataBlock(data, v, b);
      dataBlocks := dataBlocks + [block];
      correctionBlocks := correctionBlocks + [correction];
    }
  }

  lemma {:induction false} ColumnOfFirst(blocks: seq<seq<Byte>>, i: nat, b: nat)
    requires b < |blocks|
    ensures Column(blocks[..b + 1], i)
         == Column(blocks[..b], i) + (if i < |blocks[b]| then [blocks[b][i]] else [])
  {
    if b > 0 {
      ColumnOfFirst(blocks[1..], i, b - 1);
      assert blocks[1..][..b] == blocks[..b + 1][1..] && blocks[1..][..b - 1] == blocks[..b][1..];
    }
  }

  /** The inner loop of both output loops: one symbol from each block that has one. */
  method WriteColumn(blocks: seq<seq<Byte>>, i: nat) returns (column: seq<Byte>)
    ensures column == Column(blocks, i)
  {
    column := [];
    for b := 0 to |blocks|
      invariant column == Column(blocks[..b], i)
    {
      ColumnOfFirst(blocks, i, b);
      if i < |blocks[b]| {
        column := column + [blocks[b][i]];
      }
    }
    assert blocks[..|blocks|] == blocks;
  }

  /** The encoder's `interleave`. */
  method Interleave(tables: Tables, data: seq<Byte>, v: nat) returns (out: seq<Byte>)
    requires tables.Valid() && IsVersion(v) && |data| == DataCodewordCount(v)
    ensures out == Codestream(data, v)
  {
    hide DataBlocks, CorrectionBlocks, TotalCodewords, CorrectionCodewords, Column;
    var dataBlocks, correctionBlocks := SplitAndCorrect(tables, data, v);
    out := [];
    var longest := MaxLength(dataBlocks);
    for i := 0 to longest
      invariant out == Interleaved(dataBlocks, i)
    {
      var column := WriteColumn(dataBlocks, i);
      out := out + column;
    }
    ghost var first := out;
    for i := 0 to CorrectionPerBlock(v)
      invariant out == first + Interleaved(correctionBlocks, i)
    {
      var column := WriteColumn(correctionBlocks, i);
      out := out + column;
    }
  }

  // ---------- Lengths ----------

  /** The first `b` lengths, each cut off at `n`, added up. */
  function Capped(lengths: seq<nat>, n: nat, b: nat): nat
    requires b <= |lengths|
  {
    if b == 0 then 0 else Capped(lengths, n, b - 1) + Min(n, lengths[b - 1])
  }

  lemma {:induction false} CappedStep(lengths: seq<nat>, n: nat, b: nat)
    requires b <= |lengths|
    ensures Capped(lengths, n + 1, b) == Capped(lengths, n, b) + Rank(lengths, n, b)
  {
    if b > 0 { CappedStep(lengths, n, b - 1); }
  }

  lemma {:induction false} CappedZero(lengths: seq<nat>, b: nat)
    requires b <= |lengths|
    ensures Capped(lengths, 0, b) == 0
  {
    if b > 0 { CappedZero(lengths, b - 1); }
  }

  lemma {:induction false} ColumnStartIsCapped(lengths: seq<nat>, n: nat)
    ensures ColumnStart(lengths, n) == Capped(lengths, n, |lengths|)
  {
    if n == 0 {
      CappedZero(lengths, |lengths|);
    } else {
      ColumnStartIsCapped(lengths, n - 1);
      CappedStep(lengths, n - 1, |lengths|);
    }
  }

  lemma {:induction false} DataLengthsSum(v: nat, n: nat, b: nat)
    requires IsVersion(v) && b <= BlockCount(v)
    requires forall k :: 0 <= k < BlockCount(v) ==> BlockLength(v, k) <= n
    ensures Capped(DataLengths(v), n, b) == BlockStart(v, b)
  {
    if b > 0 { DataLengthsSum(v, n, b - 1); }
  }

  lemma {:induction false} CorrectionLengthsSum(v: nat, b: nat)
    requires IsVersion(v) && b <= BlockCount(v)
    ensures Capped(CorrectionLengths(v), CorrectionPerBlock(v), b) == CorrectionPerBlock(v) * b
  {
    if b > 0 { CorrectionLengthsSum(v, b - 1); }
  }

  lemma CodestreamParts(data: seq<Byte>, v: nat)
    requires IsVersion(v) && |data| == DataCodewordCount(v)
    ensures Lengths(DataBlocks(data, v)) == DataLengths(v)
    ensures Lengths(CorrectionBlocks(data, v)) == CorrectionLengths(v)
    ensures |Interleaved(DataBlocks(data, v), MaxLength(DataBlocks(data, v)))| == DataCodewordCount(v)
    ensures |Interleaved(CorrectionBlocks(data, v), CorrectionPerBlock(v))| == CorrectionCodewords(v)
  {
    hide TotalCodewords, CorrectionCodewords, Correction;
    var blocks := DataBlocks(data, v);
    var n := MaxLength(blocks);
    assert Lengths(blocks) == DataLengths(v);
    assert Lengths(CorrectionBlocks(data, v)) == CorrectionLengths(v);
    InterleavedLength(blocks, n);
    ColumnStartIsCapped(DataLengths(v), n);
    forall k | 0 <= k < BlockCount(v) ensures BlockLength(v, k) <= n {
      assert |blocks[k]| == BlockLength(v, k);
    }
    DataLengthsSum(v, n, BlockCount(v));
    BlocksCoverData(v);
    InterleavedLength(CorrectionBlocks(data, v), CorrectionPerBlock(v));
    ColumnStartIsCapped(CorrectionLengths(v), CorrectionPerBlock(v));
    CorrectionLengthsSum(v, BlockCount(v));
  }

  // ---------- The reader ----------

  /** The blocks a reader gathers from one half of the stream. */
  function GatherAll<T>(stream: seq<T>, lengths: seq<nat>): (blocks: seq<seq<T>>)
    requires forall b :: 0 <= b < |lengths| ==> GatherReads(stream, lengths, b)
    ensures |blocks| == |lengths|
  {
    seq(|lengths|, b requires 0 <= b < |lengths| => Gather(stream, lengths, b))
  }

  /** A reader gathers the blocks, refuses the symbol unless every block with its correction
      codewords has zero syndromes, and joins the data. */
  ghost function ReadBlocks(stream: seq<Byte>, v: nat): Option<seq<Byte>>
    requires IsVersion(v)
  {
    if |stream| != TotalCodewords(v) then None
    else
      var front, back := stream[..DataCodewordCount(v)], stream[DataCodewordCount(v)..];
      if !(forall b :: 0 <= b < BlockCount(v) ==> GatherReads(front, DataLengths(v), b))
      || !(forall b :: 0 <= b < BlockCount(v) ==> GatherReads(back, CorrectionLengths(v), b)) then None
      else
        var blocks, corrections := GatherAll(front, DataLengths(v)), GatherAll(back, CorrectionLengths(v));
        if forall b :: 0 <= b < BlockCount(v) ==> CodeWord(blocks[b] + corrections[b], CorrectionPerBlock(v))
        then Some(Flatten(blocks)) else None
  }

  lemma GatherAllInterleaved<T>(blocks: seq<seq<T>>, n: nat)
    requires forall b :: 0 <= b < |blocks| ==> |blocks[b]| <= n
    ensures forall b :: 0 <= b < |blocks| ==> GatherReads(Interleaved(blocks, n), Lengths(blocks), b)
    ensures GatherAll(Interleaved(blocks, n), Lengths(blocks)) == blocks
  {
    forall b | 0 <= b < |blocks|
      ensures GatherReads(Interleaved(blocks, n), Lengths(blocks), b)
      ensures Gather(Interleaved(blocks, n), Lengths(blocks), b) == blocks[b]
    {
      GatherInterleaved(blocks, n, [], b);
      assert Interleaved(blocks, n) + [] == Interleaved(blocks, n);
    }
  }

  lemma {:induction false} FlattenBlocks(data: seq<Byte>, v: nat, b: nat)
    requires IsVersion(v) && |data| == DataCodewordCount(v) && b <= BlockCount(v)
    ensures BlockStart(v, b) <= |data|
    ensures Flatten(DataBlocks(data, v)[..b]) == data[..BlockStart(v, b)]
  {
    if b > 0 {
      FlattenBlocks(data, v, b - 1);
      BlockInData(v, b - 1);
      var blocks := DataBlocks(data, v)[..b];
      assert blocks[..b - 1] == DataBlocks(data, v)[..b - 1];
      assert blocks[b - 1] == DataBlock(data, v, b - 1);
    }
  }

  /** Every block passes the reader's check, and joining them gives the data back. */
  lemma ReadBlocksOfCodestream(data: seq<Byte>, v: nat)
    requires IsVersion(v) && |data| == DataCodewordCount(v)
    ensures |Codestream(data, v)| == TotalCodewords(v)
    ensures ReadBlocks(Codestream(data, v), v) == Some(data)
  {
    hide TotalCodewords, CorrectionCodewords, Correction, CodeWord, Interleaved, Gather;
    var blocks, corrections := DataBlocks(data, v), CorrectionBlocks(data, v);
    var front, back := Interleaved(blocks, MaxLength(blocks)), Interleaved(corrections, CorrectionPerBlock(v));
    CodestreamParts(data, v);
    assert Codestream(data, v)[..DataCodewordCount(v)] == front;
    assert Codestream(data, v)[DataCodewordCount(v)..] == back;
    GatherAllInterleaved(blocks, MaxLength(blocks));
    GatherAllInterleaved(corrections, CorrectionPerBlock(v));
    forall b | 0 <= b < BlockCount(v) ensures CodeWord(blocks[b] + corrections[b], CorrectionPerBlock(v)) {
      BlockIsCodeWord(DataBlock(data, v, b), CorrectionPerBlock(v));
    }
    FlattenBlocks(data, v, BlockCount(v));
    BlocksCoverData(v);
    assert blocks[..BlockCount(v)] == blocks && data[..|data|] == data;
  }
}
