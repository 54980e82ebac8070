/** The exponent and logarithm tables, the product they compute, and the field laws it obeys. */
module QrTables {
  import opened QrField

  // ---------- Every nonzero byte is a power of alpha ----------

  ghost function Range(n: nat): set<nat> {
    if n == 0 then {} else Range(n - 1) + {n}
  }

  lemma {:induction false} RangeSize(n: nat)
    ensures |Range(n)| == n
    ensures forall v :: v in Range(n) <==> 1 <= v <= n
  {
    if n > 0 { RangeSize(n - 1); }
  }

  ghost function PowerValues(n: nat): set<nat> {
    set i | 0 <= i < n :: Value(Alpha(i))
  }

  lemma {:induction false} PowerValuesSize(n: nat)
    requires n <= 255
    ensures |PowerValues(n)| == n
  {
    hide Alpha, Value;
    if n > 0 {
      PowerValuesSize(n - 1);
      assert PowerValues(n) == PowerValues(n - 1) + {Value(Alpha(n - 1))};
      if Value(Alpha(n - 1)) in PowerValues(n - 1) {
        var i :| 0 <= i < n - 1 && Value(Alpha(i)) == Value(Alpha(n - 1));
        ValueInjective(Alpha(i), Alpha(n - 1));
        AlphaDistinct(i, n - 1);
      }
    }
  }

  lemma NonzeroValue(a: Byte)
    ensures a != ZERO <==> 1 <= Value(a) <= 255
  {
    if a != ZERO && Value(a) == 0 {
      ValueInjective(a, ZERO);
    }
  }

  lemma SubsetOfEqualSize<T>(a: set<T>, b: set<T>)
    requires a <= b && |a| == |b|
    ensures a == b
  {
    assert |b| == |a| + |b - a|;
    assert b == a + (b - a);
  }

  /** alpha generates the multiplicative group, so a logarithm exists. */
  lemma LogExists(a: Byte)
    requires a != ZERO
    ensures exists i :: 0 <= i < 255 && Alpha(i) == a
  {
    RangeSize(255);
    PowerValuesSize(255);
    forall i | 0 <= i < 255 ensures Value(Alpha(i)) in Range(255) {
      AlphaNonzero(i);
      NonzeroValue(Alpha(i));
    }
    SubsetOfEqualSize(PowerValues(255), Range(255));
    NonzeroValue(a);
    assert Value(a) in PowerValues(255);
    var i :| 0 <= i < 255 && Value(Alpha(i)) == Value(a);
    ValueInjective(Alpha(i), a);
  }

  ghost function Log(a: Byte): (i: nat)
    requires a != ZERO
    ensures i < 255 && Alpha(i) == a
  {
    LogExists(a);
    var i :| 0 <= i < 255 && Alpha(i) == a;
    i
  }

  lemma LogUnique(a: Byte, i: nat)
    requires a != ZERO && i < 255 && Alpha(i) == a
    ensures Log(a) == i
  {
    if Log(a) < i { AlphaDistinct(Log(a), i); }
    if i < Log(a) { AlphaDistinct(i, Log(a)); }
  }

  // ---------- The product ----------

  /** The field product. */
  ghost function Product(a: Byte, b: Byte): Byte {
    if a == ZERO then ZERO else Shifted(Log(a), b)
  }

  function TestBit(a: Byte, i: nat): bool
    requires i < 8
  {
    match i
    case 0 => a.b0
    case 1 => a.b1
    case 2 => a.b2
    case 3 => a.b3
    case 4 => a.b4
    case 5 => a.b5
    case 6 => a.b6
    case _ => a.b7
  }

  /** Long multiplication of the two bit polynomials by the low `n` bits of `a`,
      reduced modulo x^8 + x^4 + x^3 + x^2 + 1. */
  function LongProduct(a: Byte, b: Byte, n: nat): Byte
    requires n <= 8
  {
    if n == 0 then ZERO
    else if TestBit(a, n - 1) then Xor(LongProduct(a, b, n - 1), Shifted(n - 1, b))
    else LongProduct(a, b, n - 1)
  }

  lemma ProductZero(a: Byte)
    ensures Product(a, ZERO) == ZERO && Product(ZERO, a) == ZERO
  {
    if a != ZERO { ShiftedZero(Log(a)); }
  }

  lemma ProductOne(a: Byte)
    ensures Product(ONE, a) == a && Product(a, ONE) == a
  {
    LogUnique(ONE, 0);
  }

  lemma ProductByAlpha(i: nat, b: Byte)
    requires i < 255
    ensures Product(Alpha(i), b) == Shifted(i, b)
  {
    AlphaNonzero(i);
    LogUnique(Alpha(i), i);
  }

  lemma AlphaAdd(m: nat, n: nat)
    ensures Shifted(m, Alpha(n)) == Alpha(m + n)
  {
    ShiftedAdd(m, n, ONE);
  }

  lemma ProductOfPowers(a: Byte, b: Byte)
    requires a != ZERO && b != ZERO
    ensures Product(a, b) == Alpha(Log(a) + Log(b))
  {
    hide Shifted;
    AlphaAdd(Log(a), Log(b));
  }

  lemma ProductCommutative(a: Byte, b: Byte)
    ensures Product(a, b) == Product(b, a)
  {
    ProductZero(a);
    ProductZero(b);
    if a != ZERO && b != ZERO {
      ProductOfPowers(a, b);
      ProductOfPowers(b, a);
    }
  }

  lemma ProductDistributes(a: Byte, b: Byte, c: Byte)
    ensures Product(a, Xor(b, c)) == Xor(Product(a, b), Product(a, c))
    ensures Product(Xor(b, c), a) == Xor(Product(b, a), Product(c, a))
  {
    if a != ZERO { ShiftedLinear(Log(a), b, c); }
    ProductCommutative(a, b);
    ProductCommutative(a, c);
    ProductCommutative(a, Xor(b, c));
  }

  lemma ProductNonzero(a: Byte, b: Byte)
    requires a != ZERO && b != ZERO
    ensures Product(a, b) != ZERO
    ensures Log(Product(a, b)) == (Log(a) + Log(b)) % 255
  {
    hide Shifted;
    var n := Log(a) + Log(b);
    ProductOfPowers(a, b);
    AlphaNonzero(n);
    Alpha255();
    AlphaModPeriod(255, n);
    LogUnique(Alpha(n), n % 255);
  }

  lemma ShiftedModPeriod(n: nat, c: Byte)
    requires n < 510
    ensures Shifted(n % 255, c) == Shifted(n, c)
  {
    hide Shifted;
    if n >= 255 {
      if c == ZERO {
        ShiftedZero(n);
        ShiftedZero(n - 255);
      } else {
        ShiftedPeriod(Log(c), n - 255);
      }
    }
  }

  lemma ProductAssociative(a: Byte, b: Byte, c: Byte)
    ensures Product(Product(a, b), c) == Product(a, Product(b, c))
  {
    hide Shifted;
    ProductZero(a);
    ProductZero(c);
    if a != ZERO && b != ZERO {
      ProductNonzero(a, b);
      ShiftedModPeriod(Log(a) + Log(b), c);
      ShiftedAdd(Log(a), Log(b), c);
    }
  }

  /** Products through logarithms are long multiplication modulo the field polynomial. */
  lemma ProductIsLongProduct(a: Byte, b: Byte)
    ensures Product(a, b) == LongProduct(a, b, 8)
  {
    LowBitsProduct(a, b, 8);
    LowBitsAll(a);
  }

  function LowBits(a: Byte, n: nat): Byte
    requires n <= 8
  {
    LongProduct(a, ONE, n)
  }

  lemma {:induction false} LowBitsProduct(a: Byte, b: Byte, n: nat)
    requires n <= 8
    ensures Product(LowBits(a, n), b) == LongProduct(a, b, n)
  {
    if n == 0 {
      ProductZero(b);
    } else {
      LowBitsProduct(a, b, n - 1);
      ProductDistributes(b, LowBits(a, n - 1), Alpha(n - 1));
      ProductByAlpha(n - 1, b);
    }
  }

  lemma LowBitsStep(a: Byte, n: nat)
    requires n < 8
    ensures LowBits(a, 0) == ZERO
    ensures LowBits(a, n + 1) == if TestBit(a, n) then Xor(LowBits(a, n), Alpha(n)) else LowBits(a, n)
  {
  }

  lemma LowBitsHalf(a: Byte)
    ensures LowBits(a, 4) == ZERO.(b0 := a.b0, b1 := a.b1, b2 := a.b2, b3 := a.b3)
  {
    hide LowBits, Alpha;
    LowPowers();
    LowBitsStep(a, 0);
    LowBitsStep(a, 1);
    assert LowBits(a, 2) == ZERO.(b0 := a.b0, b1 := a.b1);
    LowBitsStep(a, 2);
    LowBitsStep(a, 3);
  }

  lemma LowBitsAll(a: Byte)
    ensures LowBits(a, 8) == a
  {
    hide LowBits, Alpha;
    LowBitsHalf(a);
    LowPowers();
    LowBitsStep(a, 4);
    LowBitsStep(a, 5);
    assert LowBits(a, 6) == a.(b6 := false, b7 := false);
    LowBitsStep(a, 6);
    LowBitsStep(a, 7);
  }

  lemma LowPowers()
    ensures Alpha(0) == ONE
    ensures Alpha(1) == ONE.(b0 := false, b1 := true)
    ensures Alpha(2) == ONE.(b0 := false, b2 := true)
    ensures Alpha(3) == ONE.(b0 := false, b3 := true)
    ensures Alpha(4) == ONE.(b0 := false, b4 := true)
    ensures Alpha(5) == ONE.(b0 := false, b5 := true)
    ensures Alpha(6) == ONE.(b0 := false, b6 := true)
    ensures Alpha(7) == ONE.(b0 := false, b7 := true)
  {
    assert Alpha(1) == Xtime(Alpha(0));
    assert Alpha(2) == Xtime(Alpha(1));
    assert Alpha(3) == Xtime(Alpha(2));
    assert Alpha(4) == Xtime(Alpha(3));
    assert Alpha(5) == Xtime(Alpha(4));
    assert Alpha(6) == Xtime(Alpha(5));
    assert Alpha(7) == Xtime(Alpha(6));
  }

  // ---------- The tables ----------

  /** What the module-level arrays EXP and LOG hold once their loop has run. */
  datatype Tables = Tables(exp: seq<Byte>, log: seq<nat>) {
    ghost predicate Valid() {
      && |exp| == 512 && |log| == 256
      && (forall i :: 0 <= i < 512 ==> exp[i] == Alpha(i))
      && (forall a :: a != ZERO ==> log[Value(a)] == Log(a))
    }

    /** The encoder's `mul`: two logarithms, one addition, one table read. */
    function Mul(a: Byte, b: Byte): (r: Byte)
      requires Valid()
      ensures r == Product(a, b)
    {
      ProductZero(a);
      ProductZero(b);
      if a == ZERO || b == ZERO then ZERO
      else
        ProductOfPowers(a, b);
        exp[log[Value(a)] + log[Value(b)]]
    }
  }

  lemma FreshValue(i: nat)
    requires i < 255
    ensures forall j :: 0 <= j < i ==> Value(Alpha(j)) != Value(Alpha(i))
  {
    forall j | 0 <= j < i ensures Value(Alpha(j)) != Value(Alpha(i)) {
      if Value(Alpha(j)) == Value(Alpha(i)) {
        ValueInjective(Alpha(j), Alpha(i));
        AlphaDistinct(j, i);
      }
    }
  }

  lemma LogTableTotal(log: seq<nat>)
    requires |log| == 256
    requires forall j :: 0 <= j < 255 ==> log[Value(Alpha(j))] == j
    ensures forall a :: a != ZERO ==> log[Value(a)] == Log(a)
  {
    forall a | a != ZERO ensures log[Value(a)] == Log(a) {
      assert log[Value(Alpha(Log(a)))] == Log(a);
    }
  }

  /** The first half of the module-level block: one full cycle of powers and their logarithms. */
  method FillCycle(exp: array<Byte>, log: array<nat>)
    requires exp.Length == 512 && log.Length == 256
    modifies exp, log
    ensures forall j :: 0 <= j < 255 ==> exp[j] == Alpha(j)
    ensures forall j :: 0 <= j < 255 ==> log[Value(Alpha(j))] == j
  {
    var x := ONE;
    for i := 0 to 255
      invariant x == Alpha(i)
      invariant forall j :: 0 <= j < i ==> exp[j] == Alpha(j)
      invariant forall j :: 0 <= j < i ==> log[Value(Alpha(j))] == j
    {
      FreshValue(i);
      exp[i] := x;
      log[Value(x)] := i;
      x := Xtime(x);
    }
  }

  /** The second half: EXP is read past 254, so the cycle is written out again. */
  method ExtendCycle(exp: array<Byte>)
    requires exp.Length == 512
    requires forall j :: 0 <= j < 255 ==> exp[j] == Alpha(j)
    modifies exp
    ensures forall j :: 0 <= j < 512 ==> exp[j] == Alpha(j)
  {
    for i := 255 to 512
      invariant forall j :: 0 <= j < i ==> exp[j] == Alpha(j)
    {
      ShiftedPeriod(i - 255, 0);
      exp[i] := exp[i - 255];
    }
  }

  method BuildTables() returns (tables: Tables)
    ensures tables.Valid()
  {
    var exp := new Byte[512];
    var log := new nat[256];
    FillCycle(exp, log);
    LogTableTotal(log[..]);
    ExtendCycle(exp);
    tables := Tables(exp[..], log[..]);
  }
}
