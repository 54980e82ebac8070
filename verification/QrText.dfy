/** From text to symbol and back: the UTF-8 bytes of RFC 3629, section 3, are the payload. A text is a
    sequence of Unicode scalar values. */
module QrText {
  import opened Options
  import opened QrField
  import opened QrTables
  import opened QrStream
  import opened QrSymbol
  import opened QrCode

  // ---------- Numbers as bytes ----------

  function ByteFor(n: nat): Byte
    requires n < 256
  {
    ByteOf(Binary(n, 8))
  }

  lemma ValueOfByteFor(n: nat)
    requires n < 256
    ensures Value(ByteFor(n)) == n
  {
    hide Binary;
    assert Pow2(4) == 16;
    assert Pow2(8) == 16 * Pow2(4);
    NumberOfBinary(n, 8);
    NumberOfEight(Binary(n, 8));
  }

  lemma NumberOfEight(bits: seq<bool>)
    requires |bits| == 8
    ensures Number(bits) == Value(ByteOf(bits))
  {
    NumberOfFour(bits[..4]);
    assert bits[..8] == bits;
    NumberNext(bits, 7);
    NumberNext(bits, 6);
    NumberNext(bits, 5);
    NumberNext(bits, 4);
  }

  lemma NumberNext(bits: seq<bool>, n: nat)
    requires n < |bits|
    ensures Number(bits[..n + 1]) == Push(Number(bits[..n]), bits[n])
  {
    assert bits[..n + 1][..n] == bits[..n];
  }

  lemma NumberOfFour(bits: seq<bool>)
    requires |bits| == 4
    ensures Number(bits) == Push(Push(Push(Push(0, bits[0]), bits[1]), bits[2]), bits[3])
  {
    assert bits[..4] == bits && bits[..0] == [];
    NumberNext(bits, 3);
    NumberNext(bits, 2);
    NumberNext(bits, 1);
    NumberNext(bits, 0);
  }

  function Bytes(values: seq<nat>): (bytes: seq<Byte>)
    requires forall i :: 0 <= i < |values| ==> values[i] < 256
    ensures |bytes| == |values|
  {
    seq(|values|, i requires 0 <= i < |values| => ByteFor(values[i]))
  }

  // ---------- One character ----------

  predicate IsScalar(code: int) {
    0 <= code < 0xD800 || 0xE000 <= code < 0x110000
  }

  /** One to four bytes: the lead says how many, the others carry six bits each. */
  function Units(code: nat): (values: seq<nat>)
    requires code < 0x110000
    ensures 1 <= |values| <= 4 && forall i :: 0 <= i < |values| ==> values[i] < 256
  {
    if code < 0x80 then [code]
    else if code < 0x800 then [0xC0 + code / 64, 0x80 + code % 64]
    else if code < 0x10000 then [0xE0 + code / 4096, 0x80 + code / 64 % 64, 0x80 + code % 64]
    else [0xF0 + code / 262144, 0x80 + code / 4096 % 64, 0x80 + code / 64 % 64, 0x80 + code % 64]
  }

  /** How many bytes a character has that starts with this one. */
  function LengthOf(lead: nat): nat {
    if lead < 0x80 then 1 else if lead < 0xE0 then 2 else if lead < 0xF0 then 3 else 4
  }

  /** The code of a character from the values of its bytes. */
  function CodeOf(values: seq<int>): int
    requires 1 <= |values| <= 4
  {
    if |values| == 1 then values[0]
    else if |values| == 2 then (values[0] - 0xC0) * 64 + (values[1] - 0x80)
    else if |values| == 3 then (values[0] - 0xE0) * 4096 + (values[1] - 0x80) * 64 + (values[2] - 0x80)
    else (values[0] - 0xF0) * 262144 + (values[1] - 0x80) * 4096 + (values[2] - 0x80) * 64 + (values[3] - 0x80)
  }

  lemma CodeOfUnits(code: nat)
    requires code < 0x110000
    ensures LengthOf(Units(code)[0]) == |Units(code)| && CodeOf(Units(code)) == code
  {
    assert code / 4096 == code / 64 / 64;
    assert code / 262144 == code / 4096 / 64;
  }

  // ---------- Texts ----------

  function Utf8(text: string): (bytes: seq<Byte>) {
    if text == "" then [] else Bytes(Units(text[0] as int)) + Utf8(text[1..])
  }

  function Values(bytes: seq<Byte>): (values: seq<nat>)
    ensures |values| == |bytes|
  {
    seq(|bytes|, i requires 0 <= i < |bytes| => Value(bytes[i]))
  }

  /** What a reader of the bytes sees. */
  function Text(bytes: seq<Byte>): Option<string>
    decreases |bytes|
  {
    if bytes == [] then Some("")
    else
      var length := LengthOf(Value(bytes[0]));
      if |bytes| < length then None
      else
        var code := CodeOf(Values(bytes[..length]));
        var rest := Text(bytes[length..]);
        if !IsScalar(code) || rest.None? then None else Some([code as char] + rest.value)
  }

  lemma ValuesOfBytes(values: seq<nat>)
    requires forall i :: 0 <= i < |values| ==> values[i] < 256
    ensures Values(Bytes(values)) == values
  {
    hide ByteFor, Value;
    forall i | 0 <= i < |values| ensures Values(Bytes(values))[i] == values[i] {
      ValueOfByteFor(values[i]);
    }
  }

  /** Reading what was written. */
  lemma {:induction false} TextOfUtf8(text: string)
    ensures Text(Utf8(text)) == Some(text)
  {
    hide Units, CodeOf, LengthOf, Bytes, Values, Value;
    if text != "" {
      var code := text[0] as int;
      var units, bytes := Units(code), Utf8(text);
      TextOfUtf8(text[1..]);
      CodeOfUnits(code);
      ValuesOfBytes(units);
      FirstValue(units, bytes);
      assert bytes[..|units|] == Bytes(units) && bytes[|units|..] == Utf8(text[1..]);
      assert [text[0]] + text[1..] == text;
    }
  }

  lemma FirstValue(units: seq<nat>, bytes: seq<Byte>)
    requires units != [] && forall i :: 0 <= i < |units| ==> units[i] < 256
    requires Bytes(units) <= bytes
    ensures Value(bytes[0]) == units[0]
  {
    hide ByteFor, Value;
    ValueOfByteFor(units[0]);
  }

  /** The encoder as it is called: nothing for a text of more than 213 bytes or an unknown forced mask, and
      otherwise a symbol that reads back as the text. */
  method EncodeText(tables: Tables, text: string, forced: Option<int>) returns (code: Option<QrCode>)
    requires tables.Valid()
    ensures code.None? <==> |Utf8(text)| > 213 || (forced.Some? && !(0 <= forced.value < 8))
    ensures code.Some? ==> Decode(code.value.modules) == Some(Utf8(text))
    ensures code.Some? ==> Text(Decode(code.value.modules).value) == Some(text)
  {
    hide Utf8, Text, Decode;
    code := EncodeQr(tables, Utf8(text), forced);
    TextOfUtf8(text);
  }
}
