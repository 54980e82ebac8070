/** The Reed-Solomon part of the encoder: the generator polynomial and the shift register that
    divides a block by it, with what a block followed by its correction codewords satisfies. */
module QrReedSolomon {
  import opened QrField
  import opened QrTables
  import opened QrPolynomials
  import opened QrDistance

  ghost const GF: Field<Byte> := Field(ZERO, ONE, (a, b) => Xor(a, b), (a, b) => Product(a, b))

  lemma AdditiveLaw(a: Byte, b: Byte, c: Byte)
    ensures Xor(Xor(a, b), c) == Xor(a, Xor(b, c)) && Xor(a, b) == Xor(b, a)
    ensures Xor(a, ZERO) == a && Xor(a, a) == ZERO
  {
    XorAssociative(a, b, c);
    XorCommutative(a, b);
    XorZero(a);
    XorCancel(a, a);
  }

  lemma MultiplicativeLaw(a: Byte, b: Byte, c: Byte)
    ensures Product(Product(a, b), c) == Product(a, Product(b, c)) && Product(a, b) == Product(b, a)
    ensures Product(a, ONE) == a && Product(a, ZERO) == ZERO
    ensures Product(a, Xor(b, c)) == Xor(Product(a, b), Product(a, c))
    ensures Product(a, b) == ZERO ==> a == ZERO || b == ZERO
  {
    hide Product, Xor;
    ProductAssociative(a, b, c);
    ProductCommutative(a, b);
    ProductOne(a);
    ProductZero(a);
    ProductDistributes(a, b, c);
    if a != ZERO && b != ZERO { ProductNonzero(a, b); }
  }

  /** Bytes under XOR and the table product form the field the polynomial theory asks for. */
  lemma GFIsField()
    ensures IsField(GF)
  {
    hide Product, Xor;
    forall a, b, c ensures Law(GF, a, b, c) {
      AdditiveLaw(a, b, c);
      MultiplicativeLaw(a, b, c);
    }
  }

  lemma {:induction false} PowersOfAlpha(n: nat)
    ensures Pow(GF, Alpha(1), n) == Alpha(n)
  {
    hide Product, Xor, Xtime;
    if n > 0 {
      PowersOfAlpha(n - 1);
      ProductCommutative(Alpha(n - 1), Alpha(1));
      ProductByAlpha(1, Alpha(n - 1));
      ShiftedAdd(1, n - 1, ONE);
    }
  }

  lemma AlphaPowersDistinct(n: nat)
    requires n <= 255
    ensures DistinctPowers(GF, Alpha(1), n)
  {
    hide Product, Xor, Shifted;
    forall i, j | 0 <= i < j < n ensures Pow(GF, Alpha(1), i) != Pow(GF, Alpha(1), j) {
      PowersOfAlpha(i);
      PowersOfAlpha(j);
      AlphaDistinct(i, j);
    }
  }

  // ---------- The generator polynomial ----------

  /** alpha^0, ..., alpha^(degree-1). */
  ghost function AlphaRoots(degree: nat): seq<Byte> {
    seq(degree, i requires 0 <= i => Alpha(i))
  }

  ghost function GeneratorPoly(degree: nat): (g: seq<Byte>)
    ensures |g| == degree + 1
  {
    FromRoots(GF, AlphaRoots(degree))
  }

  /** The generator is monic of its degree, and vanishes at alpha^i exactly for i below it. */
  lemma GeneratorRoots(degree: nat, x: Byte)
    ensures GeneratorPoly(degree)[0] == ONE
    ensures Eval(GF, GeneratorPoly(degree), x) == RootProduct(GF, AlphaRoots(degree), x)
    ensures Eval(GF, GeneratorPoly(degree), x) == ZERO <==> exists i :: 0 <= i < degree && Alpha(i) == x
  {
    hide Product, Xor, Shifted;
    GFIsField();
    FromRootsValue(GF, AlphaRoots(degree), x);
    RootProductZero(GF, AlphaRoots(degree), x);
    if x in AlphaRoots(degree) {
      var i :| 0 <= i < degree && AlphaRoots(degree)[i] == x;
      assert Alpha(i) == x;
    }
    if i :| 0 <= i < degree && Alpha(i) == x {
      assert AlphaRoots(degree)[i] == x;
    }
  }

  lemma TimesLinearAt(p: seq<Byte>, r: Byte, k: nat)
    requires k <= |p|
    ensures TimesLinear(GF, p, r)[k]
         == Xor(if k < |p| then p[k] else ZERO, if k > 0 then Product(r, p[k - 1]) else ZERO)
  {
    hide Product, Xor;
  }

  /** What the program reads for the roots: past the table's 512 entries it takes zero. */
  ghost function TableRoots(degree: nat): seq<Byte> {
    seq(degree, i requires 0 <= i => if i < 512 then Alpha(i) else ZERO)
  }

  /** The encoder's `generator`. Within the table it is the generator polynomial. */
  method Generator(tables: Tables, degree: nat) returns (poly: seq<Byte>)
    requires tables.Valid()
    ensures poly == FromRoots(GF, TableRoots(degree))
    ensures degree <= 512 ==> poly == GeneratorPoly(degree)
  {
    hide Product, Xor, Shifted;
    poly := [ONE];
    for i := 0 to degree
      invariant poly == FromRoots(GF, TableRoots(i))
    {
      poly := TimesRoot(tables, poly, if i < 512 then tables.exp[i] else ZERO);
      assert TableRoots(i + 1)[..i] == TableRoots(i);
    }
    assert degree <= 512 ==> TableRoots(degree) == AlphaRoots(degree);
  }

  /** The inner loop of `generator`: one factor (x + root) more. */
  method TimesRoot(tables: Tables, poly: seq<Byte>, root: Byte) returns (product: seq<Byte>)
    requires tables.Valid()
    ensures product == TimesLinear(GF, poly, root)
  {
    hide Product, Xor, Shifted;
    var next := new Byte[|poly| + 1](_ => ZERO);
    for j := 0 to |poly|
      invariant forall k :: 0 <= k < j ==> next[k] == TimesLinear(GF, poly, root)[k]
      invariant next[j] == if j > 0 then Product(root, poly[j - 1]) else ZERO
      invariant forall k :: j < k <= |poly| ==> next[k] == ZERO
    {
      TimesLinearAt(poly, root, j);
      ProductCommutative(poly[j], root);
      XorCommutative(next[j], poly[j]);
      XorZero(Product(root, poly[j]));
      next[j] := Xor(next[j], poly[j]);
      next[j + 1] := Xor(next[j + 1], tables.Mul(poly[j], root));
    }
    TimesLinearAt(poly, root, |poly|);
    XorZero(next[|poly|]);
    product := next[..];
  }

  // ---------- The correction codewords ----------

  /** What `errorCorrection` computes for one block. */
  ghost function Correction(data: seq<Byte>, degree: nat): (r: seq<Byte>)
    requires degree >= 1
    ensures |r| == degree
  {
    Remainder(GF, GeneratorPoly(degree), data)
  }

  /** One turn of the loop in `errorCorrection`: a byte enters the register. It shifts an empty
      register without complaint. */
  method Feed(tables: Tables, gen: seq<Byte>, register: seq<Byte>, byte: Byte) returns (after: seq<Byte>)
    requires tables.Valid() && (if |gen| == 1 then |register| <= 1 else |gen| == |register| + 1 >= 2)
    ensures if |gen| == 1 then after == [ZERO] else after == ShiftStep(GF, gen, register, byte)
  {
    hide Product, Xor, Shifted;
    var degree := |gen| - 1;
    var factor := Xor(byte, if register == [] then ZERO else register[0]);
    after := (if register == [] then [] else register[1..]) + [ZERO];
    for i := 0 to degree
      invariant |after| == if degree == 0 then 1 else degree
      invariant degree == 0 ==> after == [ZERO]
      invariant forall k :: 0 <= k < i ==> after[k] == ShiftStep(GF, gen, register, byte)[k]
      invariant forall k :: i <= k < degree ==> after[k] == (register[1..] + [ZERO])[k]
    {
      ProductCommutative(gen[i + 1], factor);
      after := after[i := Xor(after[i], tables.Mul(gen[i + 1], factor))];
    }
  }

  /** The encoder's `errorCorrection`, for every degree; with degree 0 one zero is left over. */
  method ErrorCorrection(tables: Tables, data: seq<Byte>, degree: nat) returns (remainder: seq<Byte>)
    requires tables.Valid()
    ensures degree == 0 ==> remainder == if data == [] then [] else [ZERO]
    ensures degree >= 1 ==> remainder == Remainder(GF, FromRoots(GF, TableRoots(degree)), data)
    ensures 1 <= degree <= 512 ==> remainder == Correction(data, degree)
  {
    hide Product, Xor, Shifted, ShiftStep;
    var gen := Generator(tables, degree);
    remainder := seq(degree, _ => ZERO);
    for n := 0 to |data|
      invariant degree == 0 ==> remainder == if n == 0 then [] else [ZERO]
      invariant degree >= 1 ==> remainder == Remainder(GF, gen, data[..n])
    {
      remainder := Feed(tables, gen, remainder, data[n]);
      assert data[..n + 1][..n] == data[..n];
    }
    assert data[..|data|] == data;
  }

  // ---------- What a block with its correction codewords satisfies ----------

  ghost predicate CodeWord(word: seq<Byte>, degree: nat) {
    Syndromes(GF, word, Alpha(1), degree)
  }

  /** A block and its correction codewords are a multiple of the generator, with value zero at
      alpha^0, ..., alpha^(degree-1). */
  lemma BlockIsCodeWord(data: seq<Byte>, degree: nat)
    requires degree >= 1
    ensures data + Correction(data, degree)
         == Times(GF, Quotient(GF, GeneratorPoly(degree), data), GeneratorPoly(degree))
    ensures forall i :: 0 <= i < degree ==> Eval(GF, data + Correction(data, degree), Alpha(i)) == ZERO
    ensures CodeWord(data + Correction(data, degree), degree)
  {
    hide Product, Xor, Shifted;
    var gen := GeneratorPoly(degree);
    var quotient := Quotient(GF, gen, data);
    GFIsField();
    GeneratorRoots(degree, ZERO);
    ShiftRegisterDivides(GF, gen, data);
    forall i | 0 <= i < degree
      ensures Eval(GF, data + Correction(data, degree), Alpha(i)) == ZERO
      ensures Eval(GF, data + Correction(data, degree), Pow(GF, Alpha(1), i)) == ZERO
    {
      GeneratorRoots(degree, Alpha(i));
      EvalTimes(GF, quotient, gen, Alpha(i));
      ProductZero(Eval(GF, quotient, Alpha(i)));
      PowersOfAlpha(i);
    }
  }

  /** The correction codewords are the only ones the syndromes accept behind this data. */
  lemma SyndromesDecide(data: seq<Byte>, degree: nat, trailer: seq<Byte>)
    requires degree >= 1 && |trailer| == degree && |data| + degree <= 255
    ensures CodeWord(data + trailer, degree) <==> trailer == Correction(data, degree)
  {
    hide Product, Xor, Shifted;
    GFIsField();
    BlockIsCodeWord(data, degree);
    var mine, theirs := data + Correction(data, degree), data + trailer;
    if CodeWord(theirs, degree) {
      AlphaPowersDistinct(|mine|);
      DistanceSuffix(data, Correction(data, degree), trailer);
      NearCodeWordsAgree(GF, mine, theirs, Alpha(1), degree);
      assert mine[|data|..] == Correction(data, degree) && theirs[|data|..] == trailer;
    }
  }

  /** Blocks that carry different data differ in more than `degree` codewords. */
  lemma BlocksFarApart(a: seq<Byte>, b: seq<Byte>, degree: nat)
    requires degree >= 1 && |a| == |b| && |a| + degree <= 255 && a != b
    ensures Distance(a + Correction(a, degree), b + Correction(b, degree)) > degree
  {
    hide Product, Xor, Shifted;
    GFIsField();
    BlockIsCodeWord(a, degree);
    BlockIsCodeWord(b, degree);
    AlphaPowersDistinct(|a| + degree);
    assert (a + Correction(a, degree))[..|a|] == a && (b + Correction(b, degree))[..|a|] == b;
    MinimumDistance(GF, a + Correction(a, degree), b + Correction(b, degree), Alpha(1), degree);
  }

  /** A damaged block with at most half `degree` wrong codewords has one possible original. */
  lemma CorrectionIsUnique(received: seq<Byte>, a: seq<Byte>, b: seq<Byte>, degree: nat, wrong: nat)
    requires degree >= 1 && |a| == |b| && |a| + degree <= 255
    requires |received| == |a| + degree && 2 * wrong <= degree
    requires Distance(received, a + Correction(a, degree)) <= wrong
    requires Distance(received, b + Correction(b, degree)) <= wrong
    ensures a == b
  {
    if a != b {
      BlocksFarApart(a, b, degree);
      DistanceTriangle(a + Correction(a, degree), received, b + Correction(b, degree));
    }
  }
}
