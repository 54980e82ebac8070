/** Where each codeword stands in the codestream, as a formula. */
module QrOrder {
  import opened QrField
  import opened QrReedSolomon
  import opened QrStream
  import opened QrBlocks

  /** How many of the first b blocks are long; the long ones come last. */
  function LongBefore(v: nat, b: nat): nat
    requires IsVersion(v)
  {
    var short := BlockCount(v) - DataCodewordCount(v) % BlockCount(v);
    if b <= short then 0 else b - short
  }

  lemma {:induction false} StartOfBlock(v: nat, b: nat)
    requires IsVersion(v) && b <= BlockCount(v)
    ensures BlockStart(v, b) == b * (DataCodewordCount(v) / BlockCount(v)) + LongBefore(v, b)
  {
    hide DataCodewordCount;
    var short := DataCodewordCount(v) / BlockCount(v);
    if b > 0 {
      StartOfBlock(v, b - 1);
      assert b * short == (b - 1) * short + short;
    }
  }

  lemma {:induction false} RankOfData(v: nat, i: nat, b: nat)
    requires IsVersion(v) && b <= BlockCount(v) && i <= ShortLength(v)
    ensures Rank(DataLengths(v), i, b) == if i < ShortLength(v) then b else LongBefore(v, b)
  {
    hide DataCodewordCount;
    if b > 0 { RankOfData(v, i, b - 1); }
  }

  lemma {:induction false} ColumnOfData(v: nat, i: nat)
    requires IsVersion(v) && i <= ShortLength(v)
    ensures ColumnStart(DataLengths(v), i) == i * BlockCount(v)
  {
    hide Rank, DataCodewordCount;
    if i > 0 {
      ColumnOfData(v, i - 1);
      RankOfData(v, i - 1, BlockCount(v));
    }
  }

  lemma {:induction false} RankOfCorrection(v: nat, i: nat, b: nat)
    requires IsVersion(v) && b <= BlockCount(v) && i < CorrectionPerBlock(v)
    ensures Rank(CorrectionLengths(v), i, b) == b
  {
    if b > 0 { RankOfCorrection(v, i, b - 1); }
  }

  lemma {:induction false} ColumnOfCorrection(v: nat, i: nat)
    requires IsVersion(v) && i <= CorrectionPerBlock(v)
    ensures ColumnStart(CorrectionLengths(v), i) == i * BlockCount(v)
  {
    hide Rank;
    if i > 0 {
      ColumnOfCorrection(v, i - 1);
      RankOfCorrection(v, i - 1, BlockCount(v));
    }
  }

  lemma LongestBlock(data: seq<Byte>, v: nat, b: nat)
    requires IsVersion(v) && |data| == DataCodewordCount(v) && b < BlockCount(v)
    ensures BlockLength(v, b) <= MaxLength(DataBlocks(data, v))
  {
    hide DataCodewordCount, BlockStart, MaxLength;
    assert |DataBlocks(data, v)[b]| == BlockLength(v, b);
  }

  /** Block b has an i-th data codeword: every block has the first so many, the last blocks one more. */
  predicate HasData(v: nat, b: nat, i: nat)
    requires IsVersion(v)
  {
    var short := DataCodewordCount(v) / BlockCount(v);
    b < BlockCount(v) && (i < short || (i == short && b >= BlockCount(v) - DataCodewordCount(v) % BlockCount(v)))
  }

  /** Where it comes from: the blocks are cut from the front, those that are one longer last. */
  function TakenFrom(v: nat, b: nat, i: nat): int
    requires IsVersion(v)
  {
    var short, firstLong := DataCodewordCount(v) / BlockCount(v), BlockCount(v) - DataCodewordCount(v) % BlockCount(v);
    b * short + (if b <= firstLong then 0 else b - firstLong) + i
  }

  /** Where it goes: into column i, behind the blocks before b that have one. */
  function PlaceOf(v: nat, b: nat, i: nat): int
    requires IsVersion(v)
  {
    var short, firstLong := DataCodewordCount(v) / BlockCount(v), BlockCount(v) - DataCodewordCount(v) % BlockCount(v);
    i * BlockCount(v) + if i < short then b else b - firstLong
  }

  ghost predicate Stands(stream: seq<Byte>, place: int, codeword: Byte) {
    0 <= place < |stream| && stream[place] == codeword
  }

  /** The encoder puts each data codeword where the formula says. */
  lemma DataPlace(data: seq<Byte>, v: nat, b: nat, i: nat)
    requires IsVersion(v) && |data| == DataCodewordCount(v) && HasData(v, b, i)
    ensures 0 <= TakenFrom(v, b, i) < |data| && Stands(Codestream(data, v), PlaceOf(v, b, i), data[TakenFrom(v, b, i)])
  {
    hide DataCodewordCount, CorrectionBlocks, MaxLength, Rank, ColumnStart, Interleaved, BlockStart, DataBlocks;
    var all := DataBlocks(data, v);
    CodestreamParts(data, v);
    LongestBlock(data, v, b);
    BlockAt(data, v, b, i);
    InterleavedAt(all, MaxLength(all), i, b);
    RankOfData(v, i, b);
    ColumnOfData(v, i);
    StartOfBlock(v, b);
  }

  lemma BlockAt(data: seq<Byte>, v: nat, b: nat, i: nat)
    requires IsVersion(v) && |data| == DataCodewordCount(v) && b < BlockCount(v) && i < BlockLength(v, b)
    ensures BlockStart(v, b) + i < |data| && |DataBlocks(data, v)[b]| == BlockLength(v, b)
    ensures DataBlocks(data, v)[b][i] == data[BlockStart(v, b) + i]
  {
    hide DataCodewordCount;
    BlockInData(v, b);
  }

  /** And each correction codeword behind all data, column by column. */
  lemma CorrectionPlace(data: seq<Byte>, v: nat, b: nat, i: nat)
    requires IsVersion(v) && |data| == DataCodewordCount(v) && b < BlockCount(v) && i < CorrectionPerBlock(v)
    ensures Stands(Codestream(data, v), DataCodewordCount(v) + i * BlockCount(v) + b,
      Correction(DataBlock(data, v, b), CorrectionPerBlock(v))[i])
  {
    hide DataCodewordCount, CorrectionBlocks, DataBlocks, MaxLength, Rank, ColumnStart, Interleaved, BlockStart, Correction,
      CorrectionPerBlock;
    var blocks := CorrectionBlocks(data, v);
    CodestreamParts(data, v);
    CorrectionAt(data, v, b);
    InterleavedAt(blocks, CorrectionPerBlock(v), i, b);
    RankOfCorrection(v, i, b);
    ColumnOfCorrection(v, i);
  }

  lemma CorrectionAt(data: seq<Byte>, v: nat, b: nat)
    requires IsVersion(v) && |data| == DataCodewordCount(v) && b < BlockCount(v)
    ensures CorrectionBlocks(data, v)[b] == Correction(DataBlock(data, v, b), CorrectionPerBlock(v))
    ensures |CorrectionBlocks(data, v)[b]| == CorrectionPerBlock(v)
  {
    hide Correction, DataCodewordCount, CorrectionPerBlock;
  }
}
