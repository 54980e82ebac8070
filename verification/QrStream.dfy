/** From bytes to data codewords: the version table, the bit stream, its padding, and the parse
    a reader performs on it. */
module QrStream {
  import opened Options
  import opened QrField

  // ---------- The version table (error correction level M) ----------

  const MAX_VERSION: nat := 10

  predicate IsVersion(v: nat) {
    1 <= v <= MAX_VERSION
  }

  function TotalCodewords(v: nat): nat
    requires IsVersion(v)
  {
    match v
    case 1 => 26
    case 2 => 44
    case 3 => 70
    case 4 => 100
    case 5 => 134
    case 6 => 172
    case 7 => 196
    case 8 => 242
    case 9 => 292
    case _ => 346
  }

  function CorrectionCodewords(v: nat): nat
    requires IsVersion(v)
  {
    match v
    case 1 => 10
    case 2 => 16
    case 3 => 26
    case 4 => 36
    case 5 => 48
    case 6 => 64
    case 7 => 72
    case 8 => 88
    case 9 => 110
    case _ => 130
  }

  function BlockCount(v: nat): nat
    requires IsVersion(v)
  {
    if v <= 3 then 1 else if v <= 5 then 2 else if v <= 8 then 4 else 5
  }

  function RemainderBits(v: nat): nat
    requires IsVersion(v)
  {
    if 2 <= v <= 6 then 7 else 0
  }

  function DataCodewordCount(v: nat): (n: nat)
    requires IsVersion(v)
  {
    TotalCodewords(v) - CorrectionCodewords(v)
  }

  function CountBits(v: nat): nat {
    if v < 10 then 8 else 16
  }

  /** The payload of this many bytes fits the data codewords of a version. */
  predicate Fits(bytes: nat, v: nat)
    requires IsVersion(v)
  {
    4 + CountBits(v) + 8 * bytes <= 8 * DataCodewordCount(v)
  }

  /** The encoder's `versionFor`: the smallest version that holds the payload. */
  method VersionFor(bytes: nat) returns (version: Option<nat>)
    ensures version.Some? ==> IsVersion(version.value) && Fits(bytes, version.value)
    ensures version.Some? ==> forall v :: 1 <= v < version.value ==> !Fits(bytes, v)
    ensures version.None? <==> bytes > 213
  {
    for v := 1 to MAX_VERSION + 1
      invariant forall w :: 1 <= w < v ==> !Fits(bytes, w)
    {
      if Fits(bytes, v) {
        return Some(v);
      }
    }
    assert !Fits(bytes, 10);
    return None;
  }

  // ---------- Numbers as bits ----------

  /** The low `length` bits of a number, most significant first. */
  function Binary(value: nat, length: nat): (bits: seq<bool>)
    ensures |bits| == length
  {
    if length == 0 then [] else Binary(value / 2, length - 1) + [value % 2 == 1]
  }

  /** The most significant bit comes first: bit k is worth two to the power of what follows it. */
  lemma {:induction false} BinaryAt(value: nat, length: nat, k: nat)
    requires k < length
    ensures |Binary(value, length)| == length
    ensures Binary(value, length)[k] <==> (value / Pow2(length - 1 - k)) % 2 == 1
  {
    if k < length - 1 {
      BinaryAt(value / 2, length - 1, k);
      HalfAndRest(value, Pow2(length - 2 - k));
    } else {
      assert Pow2(0) == 1;
    }
  }

  lemma HalfAndRest(value: nat, power: nat)
    requires power > 0
    ensures (value / 2) / power == value / (2 * power)
  {
    var q, r := value / (2 * power), value % (2 * power);
    assert value == (2 * power) * q + r;
    assert (2 * power) * q == 2 * (q * power);
    assert value / 2 == q * power + r / 2 && r / 2 < power;
    QuotientIs(value / 2, power, q, r / 2);
  }

  lemma QuotientIs(n: nat, d: nat, q: nat, r: nat)
    requires n == q * d + r && r < d
    ensures n / d == q
  {
    var a, b := n / d, n % d;
    assert n == d * a + b && d * a == a * d;
    if a < q { GapOf(a, q, d); } else if q < a { GapOf(q, a, d); }
  }

  lemma GapOf(a: nat, b: nat, d: nat)
    requires a < b
    ensures a * d + d <= b * d
  {
    assert (b - a - 1) * d >= 0;
    assert b * d == a * d + (b - a - 1) * d + d;
  }

  /** The number a string of bits stands for. */
  function Number(bits: seq<bool>): nat {
    if bits == [] then 0 else Push(Number(bits[..|bits| - 1]), bits[|bits| - 1])
  }

  function Pow2(n: nat): (p: nat)
    ensures p > 0
  {
    if n == 0 then 1 else 2 * Pow2(n - 1)
  }

  lemma {:induction false} NumberOfBinary(value: nat, length: nat)
    requires value < Pow2(length)
    ensures Number(Binary(value, length)) == value
  {
    if length > 0 {
      hide Pow2;
      var front := Binary(value / 2, length - 1);
      HalfFits(value, length);
      NumberOfBinary(value / 2, length - 1);
      assert Binary(value, length)[..length - 1] == front;
    }
  }

  lemma HalfFits(value: nat, length: nat)
    requires length > 0 && value < Pow2(length)
    ensures value / 2 < Pow2(length - 1)
  {
  }

  /** `value >>> i`. */
  function ShiftRight(value: nat, i: nat): nat {
    if i == 0 then value else ShiftRight(value, i - 1) / 2
  }

  /** The encoder's `Bits`: a list that numbers are appended to. */
  class Bits {
    var bits: seq<bool>

    constructor ()
      ensures bits == []
    {
      bits := [];
    }

    method Push(value: nat, length: nat)
      modifies this
      ensures bits == old(bits) + Binary(value, length)
    {
      var i := length;
      while i > 0
        invariant 0 <= i <= length
        invariant bits == old(bits) + Binary(ShiftRight(value, i), length - i)
      {
        i := i - 1;
        bits := bits + [ShiftRight(value, i) % 2 == 1];
      }
    }
  }

  // ---------- Bytes as bits ----------

  function ByteBits(b: Byte): (bits: seq<bool>)
    ensures |bits| == 8
  {
    [b.b7, b.b6, b.b5, b.b4, b.b3, b.b2, b.b1, b.b0]
  }

  function ByteOf(bits: seq<bool>): Byte
    requires |bits| == 8
  {
    Byte(bits[0], bits[1], bits[2], bits[3], bits[4], bits[5], bits[6], bits[7])
  }

  function BitsOf(bytes: seq<Byte>): (bits: seq<bool>)
    ensures |bits| == 8 * |bytes|
  {
    if bytes == [] then [] else ByteBits(bytes[0]) + BitsOf(bytes[1..])
  }

  /** The whole bytes at the front of a bit string. */
  function Pack(bits: seq<bool>): (bytes: seq<Byte>)
    ensures |bytes| == |bits| / 8
  {
    if |bits| < 8 then [] else [ByteOf(bits[..8])] + Pack(bits[8..])
  }

  lemma BinaryOfPush(value: nat, bit: bool, length: nat)
    ensures Binary(Push(value, bit), length + 1) == Binary(value, length) + [bit]
  {
  }

  lemma BinaryOfByte(b: Byte)
    ensures Binary(Value(b), 8) == ByteBits(b)
  {
    hide Binary, Push;
    var high := High(b);
    BinaryOfHigh(b);
    BinaryOfPush(high, b.b3, 4);
    BinaryOfPush(Push(high, b.b3), b.b2, 5);
    BinaryOfPush(Push(Push(high, b.b3), b.b2), b.b1, 6);
    BinaryOfPush(Push(Push(Push(high, b.b3), b.b2), b.b1), b.b0, 7);
  }

  lemma BinaryOfHigh(b: Byte)
    ensures Binary(High(b), 4) == [b.b7, b.b6, b.b5, b.b4]
  {
    hide Binary, Push;
    assert Binary(0, 0) == [];
    BinaryOfPush(0, b.b7, 0);
    BinaryOfPush(Push(0, b.b7), b.b6, 1);
    BinaryOfPush(Push(Push(0, b.b7), b.b6), b.b5, 2);
    BinaryOfPush(Push(Push(Push(0, b.b7), b.b6), b.b5), b.b4, 3);
  }

  lemma {:induction false} BitsOfAppend(a: seq<Byte>, b: seq<Byte>)
    ensures BitsOf(a + b) == BitsOf(a) + BitsOf(b)
  {
    if a == [] {
      assert a + b == b;
    } else {
      assert (a + b)[1..] == a[1..] + b;
      BitsOfAppend(a[1..], b);
    }
  }

  lemma {:induction false} PackBits(bytes: seq<Byte>, rest: seq<bool>)
    requires |rest| < 8
    ensures Pack(BitsOf(bytes) + rest) == bytes
  {
    if bytes != [] {
      var all := BitsOf(bytes) + rest;
      assert all[..8] == ByteBits(bytes[0]);
      assert all[8..] == BitsOf(bytes[1..]) + rest;
      PackBits(bytes[1..], rest);
    }
  }

  // ---------- The data codewords ----------

  const PAD: seq<Byte> := [
    Byte(true, true, true, false, true, true, false, false),
    Byte(false, false, false, true, false, false, false, true)
  ]

  /** Mode indicator, character count, the bytes, and the four-bit terminator. */
  function Message(data: seq<Byte>, v: nat): seq<bool> {
    Binary(4, 4) + Binary(|data|, CountBits(v)) + BitsOf(data) + Binary(0, 4)
  }

  /** What a reader recovers from the data codewords of a version. */
  function Parse(codewords: seq<Byte>, v: nat): Option<seq<Byte>> {
    var bits := BitsOf(codewords);
    var start := 4 + CountBits(v);
    if |bits| < start || Number(bits[..4]) != 4 then None
    else
      var count := Number(bits[4..start]);
      if |bits| < start + 8 * count then None
      else Some(Pack(bits[start..start + 8 * count]))
  }

  lemma MessageLength(data: seq<Byte>, v: nat)
    requires IsVersion(v) && Fits(|data|, v)
    ensures |Message(data, v)| == 8 + CountBits(v) + 8 * |data| <= 8 * DataCodewordCount(v)
    ensures |Message(data, v)| % 8 == 0
  {
    hide Binary, BitsOf;
  }

  lemma MessageParses(data: seq<Byte>, v: nat, codewords: seq<Byte>)
    requires IsVersion(v) && Fits(|data|, v)
    requires Message(data, v) <= BitsOf(codewords)
    ensures Parse(codewords, v) == Some(data)
  {
    hide Binary, BitsOf, Pack, Number, TotalCodewords, CorrectionCodewords, Pow2;
    FourFits();
    MessageLength(data, v);
    var bits := BitsOf(codewords);
    var start := 4 + CountBits(v);
    var head := Binary(4, 4) + Binary(|data|, CountBits(v));
    assert Message(data, v) == head + BitsOf(data) + Binary(0, 4);
    assert bits[..|Message(data, v)|] == Message(data, v);
    assert bits[..4] == Binary(4, 4);
    assert bits[4..start] == Binary(|data|, CountBits(v));
    assert bits[start..start + 8 * |data|] == BitsOf(data);
    NumberOfBinary(4, 4);
    CountFits(|data|, v);
    NumberOfBinary(|data|, CountBits(v));
    PackBits(data, []);
    assert BitsOf(data) + [] == BitsOf(data);
  }

  lemma FourFits()
    ensures 4 < Pow2(4)
  {
    assert Pow2(3) == 8;
  }

  lemma CountFits(count: nat, v: nat)
    requires IsVersion(v) && Fits(count, v)
    ensures count < Pow2(CountBits(v))
  {
    assert Pow2(4) == 16;
    assert Pow2(8) == 16 * Pow2(4) by { assert Pow2(6) == 4 * Pow2(4); }
    assert Pow2(16) >= Pow2(8) by { Pow2Grows(8, 16); }
  }

  lemma {:induction false} Pow2Grows(m: nat, n: nat)
    requires m <= n
    ensures Pow2(m) <= Pow2(n)
  {
    if m < n { Pow2Grows(m, n - 1); }
  }

  lemma BitsOfNext(data: seq<Byte>, n: nat)
    requires n < |data|
    ensures BitsOf(data[..n + 1]) == BitsOf(data[..n]) + ByteBits(data[n])
  {
    BitsOfAppend(data[..n], [data[n]]);
    assert BitsOf([data[n]]) == ByteBits(data[n]) + BitsOf([]);
    assert data[..n + 1] == data[..n] + [data[n]];
  }

  /** The data loop of `codewords`: eight bits per byte. */
  method PushBytes(stream: Bits, data: seq<Byte>)
    modifies stream
    ensures stream.bits == old(stream.bits) + BitsOf(data)
  {
    hide Binary, ByteBits, Value;
    for n := 0 to |data|
      invariant stream.bits == old(stream.bits) + BitsOf(data[..n])
    {
      BinaryOfByte(data[n]);
      BitsOfNext(data, n);
      stream.Push(Value(data[n]), 8);
    }
    assert data[..|data|] == data;
  }

  /** Zero bits up to the next byte boundary. */
  method PadToByte(stream: Bits)
    modifies stream
    ensures stream.bits == old(stream.bits) + seq((8 - |old(stream.bits)| % 8) % 8, _ => false)
  {
    var n := 0;
    while |stream.bits| % 8 != 0
      invariant n == |stream.bits| - |old(stream.bits)| <= (8 - |old(stream.bits)| % 8) % 8
      invariant stream.bits == old(stream.bits) + seq(n, _ => false)
      decreases (8 - |old(stream.bits)| % 8) % 8 - n
    {
      stream.Push(0, 1);
      n := n + 1;
    }
  }

  function Min(a: nat, b: nat): nat {
    if a < b then a else b
  }

  /** The first half of `codewords`: the stream up to its byte boundary. The terminator always
      has room for its four zeros and ends on the boundary. */
  method WriteMessage(data: seq<Byte>, version: nat) returns (stream: Bits)
    requires IsVersion(version) && Fits(|data|, version)
    ensures fresh(stream) && stream.bits == Message(data, version)
  {
    hide Binary, BitsOf, TotalCodewords, CorrectionCodewords;
    var capacity := 8 * DataCodewordCount(version);
    stream := new Bits();
    stream.Push(4, 4);
    stream.Push(|data|, CountBits(version));
    PushBytes(stream, data);
    assert |stream.bits| == 4 + CountBits(version) + 8 * |data|;
    stream.Push(0, Min(4, capacity - |stream.bits|));
    PadToByte(stream);
  }

  /** The encoder's `codewords`. The message is followed by alternating pad codewords. */
  method Codewords(data: seq<Byte>, version: nat) returns (bytes: seq<Byte>)
    requires IsVersion(version) && Fits(|data|, version)
    ensures |bytes| == DataCodewordCount(version)
    ensures Message(data, version) <= BitsOf(bytes)
    ensures forall k :: |Message(data, version)| <= 8 * k < 8 * |bytes|
                    ==> bytes[k] == PAD[(k - |Message(data, version)| / 8) % 2]
  {
    hide Message, BitsOf, TotalCodewords, CorrectionCodewords;
    var stream := WriteMessage(data, version);
    MessageLength(data, version);
    bytes := PackStream(stream.bits);
    ghost var packed := bytes;
    var i := 0;
    while |bytes| < DataCodewordCount(version)
      invariant |bytes| == |packed| + i <= DataCodewordCount(version)
      invariant packed <= bytes
      invariant forall k :: |packed| <= k < |bytes| ==> bytes[k] == PAD[(k - |packed|) % 2]
    {
      bytes := bytes + [PAD[i % 2]];
      i := i + 1;
    }
    BitsOfAppend(packed, bytes[|packed|..]);
    assert bytes == packed + bytes[|packed|..];
  }

  /** The packing loop of `codewords`. */
  method PackStream(bits: seq<bool>) returns (bytes: seq<Byte>)
    requires |bits| % 8 == 0
    ensures BitsOf(bytes) == bits
  {
    hide ByteBits;
    bytes := [];
    var i := 0;
    while i < |bits|
      invariant i == 8 * |bytes| <= |bits|
      invariant BitsOf(bytes) == bits[..i]
    {
      var byte := PackByte(bits[i..i + 8]);
      var longer := bytes + [byte];
      BitsOfNext(longer, |bytes|);
      assert longer[..|bytes|] == bytes && longer[..|bytes| + 1] == longer;
      bytes := longer;
      i := i + 8;
    }
  }

  /** Its inner loop: eight bits shifted into one byte. */
  method PackByte(bits: seq<bool>) returns (byte: Byte)
    requires |bits| == 8
    ensures ByteBits(byte) == bits
  {
    hide ByteBits, ShiftIn;
    byte := ZERO;
    for j := 0 to 8
      invariant ByteBits(byte)[8 - j..] == bits[..j]
    {
      ShiftInBits(byte, bits[j]);
      assert (ByteBits(byte)[1..] + [bits[j]])[7 - j..] == ByteBits(byte)[8 - j..] + [bits[j]];
      byte := ShiftIn(byte, bits[j]);
    }
  }

  lemma ShiftInBits(b: Byte, bit: bool)
    ensures ByteBits(ShiftIn(b, bit)) == ByteBits(b)[1..] + [bit]
  {
  }

  /** `(byte << 1) | bit`, on eight bits. */
  function ShiftIn(b: Byte, bit: bool): Byte {
    Byte(b.b6, b.b5, b.b4, b.b3, b.b2, b.b1, b.b0, bit)
  }
}
