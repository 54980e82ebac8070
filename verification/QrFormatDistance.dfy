/** How far apart the format words are, and the version words: what the two BCH codes are for. */
module QrFormatDistance {
  import opened QrPolynomials
  import opened QrDistance
  import opened QrStream
  import opened QrFormat

  // ---------- The register, bit by bit ----------

  function FormatStep(r: seq<bool>): (after: seq<bool>)
    requires |r| == 10
    ensures |after| == 10
  {
    [r[1], r[2] != r[0], r[3], r[4], r[5] != r[0], r[6] != r[0], r[7], r[8] != r[0], r[9] != r[0], r[0]]
  }

  function VersionStep(r: seq<bool>): (after: seq<bool>)
    requires |r| == 12
    ensures |after| == 12
  {
    [r[1] != r[0], r[2] != r[0], r[3] != r[0], r[4] != r[0], r[5], r[6], r[7] != r[0], r[8], r[9],
     r[10] != r[0], r[11], r[0]]
  }

  lemma StepAt(generator: seq<bool>, r: seq<bool>, j: nat)
    requires |generator| == |r| + 1 && j < |r|
    ensures ShiftStep(F2, generator, r, false)[j]
      == ((if j + 1 < |r| then r[j + 1] else false) != (r[0] && generator[j + 1]))
  {
  }

  lemma FormatStepIs(r: seq<bool>)
    requires |r| == 10
    ensures ShiftStep(F2, FORMAT_GENERATOR, r, false) == FormatStep(r)
  {
    hide ShiftStep;
    forall j | 0 <= j < 10 { StepAt(FORMAT_GENERATOR, r, j); }
  }

  lemma VersionStepIs(r: seq<bool>)
    requires |r| == 12
    ensures ShiftStep(F2, VERSION_GENERATOR, r, false) == VersionStep(r)
  {
    hide ShiftStep;
    forall j | 0 <= j < 12 { StepAt(VERSION_GENERATOR, r, j); }
  }

  lemma FormatSteps(start: seq<bool>, k: nat)
    requires |start| == 10
    ensures Loaded(F2, FORMAT_GENERATOR, start, k + 1) == FormatStep(Loaded(F2, FORMAT_GENERATOR, start, k))
  {
    FormatStepIs(Loaded(F2, FORMAT_GENERATOR, start, k));
  }

  lemma VersionSteps(start: seq<bool>, k: nat)
    requires |start| == 12
    ensures Loaded(F2, VERSION_GENERATOR, start, k + 1) == VersionStep(Loaded(F2, VERSION_GENERATOR, start, k))
  {
    VersionStepIs(Loaded(F2, VERSION_GENERATOR, start, k));
  }

  // ---------- The remainder as parities of the data ----------

  function FormatParities(d: seq<bool>): (r: seq<bool>)
    requires |d| == 5
    ensures |r| == 10
  {
    [(d[0] != d[1]) != d[3], (d[1] != d[2]) != d[4], (d[0] != d[1]) != d[2], (d[1] != d[2]) != d[3],
     (d[2] != d[3]) != d[4], (d[0] != d[1]) != d[4], (d[0] != d[2]) != d[3], (d[1] != d[3]) != d[4],
     (((d[0] != d[1]) != d[2]) != d[3]) != d[4], (d[0] != d[2]) != d[4]]
  }

  function VersionParities(d: seq<bool>): (r: seq<bool>)
    requires |d| == 6
    ensures |r| == 12
  {
    [(d[0] != d[1]) != d[5], d[2] != d[5], (d[1] != d[3]) != d[5],
     (((d[0] != d[1]) != d[2]) != d[4]) != d[5], (d[0] != d[2]) != d[3],
     ((d[0] != d[1]) != d[3]) != d[4], ((d[1] != d[2]) != d[4]) != d[5],
     ((d[0] != d[1]) != d[2]) != d[3], ((d[1] != d[2]) != d[3]) != d[4],
     (((d[0] != d[2]) != d[3]) != d[4]) != d[5], d[3] != d[4], (d[0] != d[4]) != d[5]]
  }

  lemma FormatOut(d: seq<bool>)
    requires |d| == 5
    ensures FormatStep(FormatStep(FormatStep(FormatStep(FormatStep(d + Zeros(F2, 5)))))) == FormatParities(d)
  {
    var r5 := [d[0], d[1], d[2], d[3], d[4], false, false, false, false, false];
    assert d + Zeros(F2, 5) == r5;
    var r6 := [d[1], d[0] != d[2], d[3], d[4], d[0], d[0], false, d[0], d[0], d[0]];
    assert FormatStep(r5) == r6;
    var r7 := [d[0] != d[2], d[1] != d[3], d[4], d[0], d[0] != d[1], d[1], d[0], d[0] != d[1], d[0] != d[1], d[1]];
    assert FormatStep(r6) == r7;
    var r8 := [d[1] != d[3], (d[0] != d[2]) != d[4], d[0], d[0] != d[1], (d[0] != d[1]) != d[2], d[2],
      d[0] != d[1], d[1] != d[2], (d[0] != d[1]) != d[2], d[0] != d[2]];
    assert FormatStep(r7) == r8;
    var r9 := [(d[0] != d[2]) != d[4], (d[0] != d[1]) != d[3], d[0] != d[1], (d[0] != d[1]) != d[2],
      (d[1] != d[2]) != d[3], d[0] != d[3], d[1] != d[2], (d[0] != d[2]) != d[3],
      ((d[0] != d[1]) != d[2]) != d[3], d[1] != d[3]];
    assert FormatStep(r8) == r9;
    assert FormatStep(r9) == FormatParities(d);
  }

  /** The register half way out. */
  function VersionHalf(d: seq<bool>): (r: seq<bool>)
    requires |d| == 6
    ensures |r| == 12
  {
    [d[2] != d[3], d[2] != d[4], (d[0] != d[2]) != d[5], d[1] != d[2], d[0], d[0] != d[1], d[1] != d[2],
      d[0], d[0] != d[1], (d[0] != d[1]) != d[2], d[0] != d[1], d[1] != d[2]]
  }

  lemma VersionHalfOut(d: seq<bool>)
    requires |d| == 6
    ensures VersionStep(VersionStep(VersionStep(d + Zeros(F2, 6)))) == VersionHalf(d)
  {
    var r6 := [d[0], d[1], d[2], d[3], d[4], d[5], false, false, false, false, false, false];
    assert d + Zeros(F2, 6) == r6;
    var r7 := [d[0] != d[1], d[0] != d[2], d[0] != d[3], d[0] != d[4], d[5], false, d[0], false, false, d[0],
      false, d[0]];
    assert VersionStep(r6) == r7;
    var r8 := [d[1] != d[2], d[1] != d[3], d[1] != d[4], (d[0] != d[1]) != d[5], false, d[0], d[0] != d[1], false,
      d[0], d[0] != d[1], d[0], d[0] != d[1]];
    assert VersionStep(r7) == r8;
    assert VersionStep(r8) == VersionHalf(d);
  }

  lemma VersionOut(d: seq<bool>)
    requires |d| == 6
    ensures VersionStep(VersionStep(VersionStep(VersionStep(VersionStep(VersionStep(d + Zeros(F2, 6))))))) == VersionParities(d)
  {
    VersionHalfOut(d);
    var r9 := [d[2] != d[3], d[2] != d[4], (d[0] != d[2]) != d[5], d[1] != d[2], d[0], d[0] != d[1], d[1] != d[2],
      d[0], d[0] != d[1], (d[0] != d[1]) != d[2], d[0] != d[1], d[1] != d[2]];
    assert VersionHalf(d) == r9;
    var r10 := [d[3] != d[4], (d[0] != d[3]) != d[5], d[1] != d[3], (d[0] != d[2]) != d[3], d[0] != d[1],
      d[1] != d[2], (d[0] != d[2]) != d[3], d[0] != d[1], (d[0] != d[1]) != d[2],
      ((d[0] != d[1]) != d[2]) != d[3], d[1] != d[2], d[2] != d[3]];
    assert VersionStep(r9) == r10;
    var r11 := [(d[0] != d[4]) != d[5], d[1] != d[4], (d[0] != d[2]) != d[4], ((d[0] != d[1]) != d[3]) != d[4],
      d[1] != d[2], (d[0] != d[2]) != d[3], ((d[0] != d[1]) != d[3]) != d[4], (d[0] != d[1]) != d[2],
      ((d[0] != d[1]) != d[2]) != d[3], ((d[1] != d[2]) != d[3]) != d[4], d[2] != d[3], d[3] != d[4]];
    assert VersionStep(r10) == r11;
    assert VersionStep(r11) == VersionParities(d);
  }

  lemma LoadedNothing(generator: seq<bool>, start: seq<bool>)
    requires |generator| == |start| + 1 && start != []
    ensures Loaded(F2, generator, start, 0) == start
  {
  }

  /** Five steps bring the data to the top, and five more take it out again. */
  lemma FormatRemainder(d: seq<bool>)
    requires |d| == 5
    ensures Loaded(F2, FORMAT_GENERATOR, Zeros(F2, 5) + d, 10) == FormatParities(d)
  {
    hide Loaded, FormatStep, FormatParities;
    var start := Zeros(F2, 5) + d;
    assert Loaded(F2, FORMAT_GENERATOR, start, 0) == start by { LoadedNothing(FORMAT_GENERATOR, start); }
    for k := 0 to 5
      invariant Loaded(F2, FORMAT_GENERATOR, start, k) == start[k..] + Zeros(F2, k)
    {
      FormatSteps(start, k);
      FormatShifts(start[k..] + Zeros(F2, k));
      assert (start[k..] + Zeros(F2, k))[1..] + [false] == start[k + 1..] + Zeros(F2, k + 1);
    }
    assert start[5..] == d;
    FormatSteps(start, 5);
    FormatSteps(start, 6);
    FormatSteps(start, 7);
    FormatSteps(start, 8);
    FormatSteps(start, 9);
    FormatOut(d);
  }

  lemma FormatShifts(r: seq<bool>)
    requires |r| == 10 && !r[0]
    ensures FormatStep(r) == r[1..] + [false]
  {
  }

  /** Six and six for a version. */
  lemma VersionRemainder(d: seq<bool>)
    requires |d| == 6
    ensures Loaded(F2, VERSION_GENERATOR, Zeros(F2, 6) + d, 12) == VersionParities(d)
  {
    hide Loaded, VersionStep, VersionParities;
    var start := Zeros(F2, 6) + d;
    assert Loaded(F2, VERSION_GENERATOR, start, 0) == start by { LoadedNothing(VERSION_GENERATOR, start); }
    for k := 0 to 6
      invariant Loaded(F2, VERSION_GENERATOR, start, k) == start[k..] + Zeros(F2, k)
    {
      VersionSteps(start, k);
      VersionShifts(start[k..] + Zeros(F2, k));
      assert (start[k..] + Zeros(F2, k))[1..] + [false] == start[k + 1..] + Zeros(F2, k + 1);
    }
    assert start[6..] == d;
    VersionSteps(start, 6);
    VersionSteps(start, 7);
    VersionSteps(start, 8);
    VersionSteps(start, 9);
    VersionSteps(start, 10);
    VersionSteps(start, 11);
    VersionOut(d);
  }

  lemma VersionShifts(r: seq<bool>)
    requires |r| == 12 && !r[0]
    ensures VersionStep(r) == r[1..] + [false]
  {
  }

  // ---------- The register is linear ----------

  lemma StepAdds(generator: seq<bool>, r: seq<bool>, t: seq<bool>)
    requires |generator| == |r| + 1 && r != [] && |t| == |r|
    ensures ShiftStep(F2, generator, Sum(F2, r, t), false)
      == Sum(F2, ShiftStep(F2, generator, r, false), ShiftStep(F2, generator, t, false))
  {
    var sum, apart := ShiftStep(F2, generator, Sum(F2, r, t), false),
      Sum(F2, ShiftStep(F2, generator, r, false), ShiftStep(F2, generator, t, false));
    forall j | 0 <= j < |r| ensures sum[j] == apart[j] {}
  }

  lemma {:induction false} LoadedAdds(generator: seq<bool>, r: seq<bool>, t: seq<bool>, k: nat)
    requires |generator| == |r| + 1 && r != [] && |t| == |r|
    ensures Loaded(F2, generator, Sum(F2, r, t), k) == Sum(F2, Loaded(F2, generator, r, k), Loaded(F2, generator, t, k))
  {
    if k > 0 {
      LoadedAdds(generator, r, t, k - 1);
      StepAdds(generator, Loaded(F2, generator, r, k - 1), Loaded(F2, generator, t, k - 1));
    }
  }

  /** Data with its remainder. */
  function Word(generator: seq<bool>, d: seq<bool>, n: nat): (w: seq<bool>)
    requires |generator| == n + 1 && 0 < |d| <= n
    ensures |w| == |d| + n
  {
    d + Loaded(F2, generator, Zeros(F2, n - |d|) + d, n)
  }

  /** The sum of two words is the word of the sum. */
  lemma WordsAdd(generator: seq<bool>, a: seq<bool>, b: seq<bool>, n: nat)
    requires |generator| == n + 1 && 0 < |a| == |b| <= n
    ensures Sum(F2, Word(generator, a, n), Word(generator, b, n)) == Word(generator, Sum(F2, a, b), n)
  {
    hide Loaded;
    var none := Zeros(F2, n - |a|);
    assert Sum(F2, none + a, none + b) == none + Sum(F2, a, b);
    LoadedAdds(generator, none + a, none + b, n);
  }

  // ---------- Weights ----------

  function Bit(b: bool): nat {
    if b then 1 else 0
  }

  lemma {:induction false} WeightParts(a: seq<bool>, b: seq<bool>)
    ensures Weight(F2, a + b) == Weight(F2, a) + Weight(F2, b)
  {
    if a == [] {
      assert a + b == b;
    } else {
      WeightParts(a[1..], b);
      assert (a + b)[1..] == a[1..] + b;
    }
  }

  lemma WeightOfThree(a: seq<bool>)
    requires |a| >= 3
    ensures Weight(F2, a) == Bit(a[0]) + Bit(a[1]) + Bit(a[2]) + Weight(F2, a[3..])
  {
    assert a == [a[0], a[1], a[2]] + a[3..];
    WeightParts([a[0], a[1], a[2]], a[3..]);
    assert [a[0], a[1], a[2]][1..] == [a[1], a[2]] && [a[1], a[2]][1..] == [a[2]] && [a[2]][1..] == [];
  }

  predicate SomeTrue(d: seq<bool>) {
    exists k :: 0 <= k < |d| && d[k]
  }

  lemma WeightOfFifteen(w: seq<bool>)
    requires |w| == 15
    ensures Weight(F2, w)
      == Bit(w[0]) + Bit(w[1]) + Bit(w[2]) + Bit(w[3]) + Bit(w[4]) + Bit(w[5]) + Bit(w[6]) + Bit(w[7]) + Bit(w[8])
       + Bit(w[9]) + Bit(w[10]) + Bit(w[11]) + Bit(w[12]) + Bit(w[13]) + Bit(w[14])
  {
    WeightOfThree(w);
    WeightOfThree(w[3..]);
    assert w[3..][3..] == w[6..];
    WeightOfThree(w[6..]);
    assert w[6..][3..] == w[9..];
    WeightOfThree(w[9..]);
    assert w[9..][3..] == w[12..];
    WeightOfThree(w[12..]);
    assert w[12..][3..] == [];
  }

  lemma FormatWeight(d: seq<bool>)
    requires |d| == 5 && SomeTrue(d)
    ensures Weight(F2, d + FormatParities(d)) >= 7
  {
    WeightOfFifteen(d + FormatParities(d));
  }

  lemma VersionWeight(d: seq<bool>)
    requires |d| == 6 && SomeTrue(d)
    ensures Weight(F2, d + VersionParities(d)) >= 8
  {
    var w := d + VersionParities(d);
    WeightOfThree(w);
    WeightOfFifteen(w[3..]);
  }

  // ---------- Distances ----------

  /** Different data leave a difference of data bits that is not zero. */
  lemma DataDiffer(x: nat, y: nat, n: nat)
    requires x < Pow2(n) && y < Pow2(n) && x != y
    ensures SomeTrue(Sum(F2, Binary(x, n), Binary(y, n)))
  {
    hide Binary, Number;
    NumberOfBinary(x, n);
    NumberOfBinary(y, n);
    var a, b := Binary(x, n), Binary(y, n);
    assert a != b;
    var k :| 0 <= k < n && a[k] != b[k];
    assert Sum(F2, a, b)[k];
  }

  /** Any two words of the format code differ in at least seven bits. The encoder uses eight of the
      thirty-two. */
  lemma FormatWordsFarApart(x: nat, y: nat)
    requires x < 32 && y < 32 && x != y
    ensures Distance(FormatWord(x), FormatWord(y)) >= 7
  {
    hide Loaded, Binary, IsField, Weight, Distance, FormatParities, Sum, Zeros;
    F2IsField();
    PowersOfTwo();
    DataDiffer(x, y, 5);
    var a, b := Binary(x, 5), Binary(y, 5);
    WordsAdd(FORMAT_GENERATOR, a, b, 10);
    FormatRemainder(Sum(F2, a, b));
    DistanceIsWeight(F2, FormatWord(x), FormatWord(y));
    FormatWeight(Sum(F2, a, b));
  }

  lemma PowersOfTwo()
    ensures Pow2(5) == 32 && Pow2(6) == 64
  {
    assert Pow2(3) == 8;
    assert Pow2(5) == 4 * Pow2(3);
  }

  /** Any two version words differ in at least eight. */
  lemma VersionWordsFarApart(x: nat, y: nat)
    requires x < 64 && y < 64 && x != y
    ensures Distance(VersionBits(x), VersionBits(y)) >= 8
  {
    hide Loaded, Binary, IsField, Weight, Distance, VersionParities, Sum, Zeros;
    F2IsField();
    PowersOfTwo();
    DataDiffer(x, y, 6);
    var a, b := Binary(x, 6), Binary(y, 6);
    WordsAdd(VERSION_GENERATOR, a, b, 12);
    VersionRemainder(Sum(F2, a, b));
    DistanceIsWeight(F2, VersionBits(x), VersionBits(y));
    VersionWeight(Sum(F2, a, b));
  }

  lemma {:induction false} MaskedDistance(a: seq<bool>, b: seq<bool>, m: seq<bool>)
    requires |a| == |b| == |m|
    ensures Distance(Sum(F2, a, m), Sum(F2, b, m)) == Distance(a, b)
  {
    if a != [] {
      MaskedDistance(a[1..], b[1..], m[1..]);
      assert Sum(F2, a, m)[1..] == Sum(F2, a[1..], m[1..]) && Sum(F2, b, m)[1..] == Sum(F2, b[1..], m[1..]);
    }
  }

  /** Fifteen format bits with at most three wrong belong to one mask. */
  lemma MaskSurvives(received: seq<bool>, x: nat, y: nat)
    requires x < 8 && y < 8 && |received| == 15
    requires Distance(received, FormatBits(x)) <= 3 && Distance(received, FormatBits(y)) <= 3
    ensures x == y
  {
    hide FormatWord, Distance;
    if x != y {
      FormatWordsFarApart(x, y);
      MaskedDistance(FormatWord(x), FormatWord(y), FORMAT_MASK);
      DistanceTriangle(FormatBits(x), received, FormatBits(y));
    }
  }

  /** Eighteen version bits with at most three wrong belong to one version. */
  lemma VersionSurvives(received: seq<bool>, x: nat, y: nat)
    requires x < 64 && y < 64 && |received| == 18
    requires Distance(received, VersionBits(x)) <= 3 && Distance(received, VersionBits(y)) <= 3
    ensures x == y
  {
    hide VersionBits, Distance;
    if x != y {
      VersionWordsFarApart(x, y);
      DistanceTriangle(VersionBits(x), received, VersionBits(y));
    }
  }
}
