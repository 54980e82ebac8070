/** GF(256) with the polynomial x^8 + x^4 + x^3 + x^2 + 1, as the QR encoder computes in it:
    a field element is a byte, addition is XOR, and products go through an
    exponent table and a logarithm table that one loop fills. */
module QrField {

  // ---------- Bytes ----------

  /** A byte is its eight bits, most significant first. */
  datatype Byte = Byte(b7: bool, b6: bool, b5: bool, b4: bool, b3: bool, b2: bool, b1: bool, b0: bool)

  const ZERO: Byte := Byte(false, false, false, false, false, false, false, false)
  const ONE: Byte := Byte(false, false, false, false, false, false, false, true)

  function Xor(a: Byte, b: Byte): Byte {
    Byte(a.b7 != b.b7, a.b6 != b.b6, a.b5 != b.b5, a.b4 != b.b4,
         a.b3 != b.b3, a.b2 != b.b2, a.b1 != b.b1, a.b0 != b.b0)
  }

  /** `(v << 1) | b`. */
  function Push(v: nat, b: bool): nat {
    2 * v + (if b then 1 else 0)
  }

  lemma PushInjective(u: nat, b: bool, v: nat, c: bool)
    requires Push(u, b) == Push(v, c)
    ensures u == v && b == c
  {
  }

  function High(x: Byte): (v: nat)
    ensures v < 16
  {
    Push(Push(Push(Push(0, x.b7), x.b6), x.b5), x.b4)
  }

  /** The number a byte stands for, which is how the logarithm table is indexed. */
  function Value(x: Byte): (v: nat)
    ensures v < 256
  {
    Push(Push(Push(Push(High(x), x.b3), x.b2), x.b1), x.b0)
  }

  lemma HighInjective(a: Byte, b: Byte)
    requires High(a) == High(b)
    ensures a.b7 == b.b7 && a.b6 == b.b6 && a.b5 == b.b5 && a.b4 == b.b4
  {
  }

  lemma ValueInjective(a: Byte, b: Byte)
    requires Value(a) == Value(b)
    ensures a == b
  {
    var a3, b3 := Push(High(a), a.b3), Push(High(b), b.b3);
    var a2, b2 := Push(a3, a.b2), Push(b3, b.b2);
    PushInjective(Push(a2, a.b1), a.b0, Push(b2, b.b1), b.b0);
    PushInjective(a2, a.b1, b2, b.b1);
    PushInjective(a3, a.b2, b3, b.b2);
    PushInjective(High(a), a.b3, High(b), b.b3);
    HighInjective(a, b);
  }

  // XOR is an abelian group in which every element is its own inverse.

  lemma XorAssociative(a: Byte, b: Byte, c: Byte)
    ensures Xor(Xor(a, b), c) == Xor(a, Xor(b, c))
  {
  }

  lemma XorCommutative(a: Byte, b: Byte)
    ensures Xor(a, b) == Xor(b, a)
  {
  }

  lemma XorZero(a: Byte)
    ensures Xor(a, ZERO) == a && Xor(ZERO, a) == a
  {
  }

  lemma XorCancel(a: Byte, b: Byte)
    ensures Xor(a, a) == ZERO
    ensures Xor(a, b) == ZERO ==> a == b
  {
  }

  // ---------- Multiplication by x ----------

  /** One doubling step of the table loop: shift left, and on overflow reduce by 0x11D. */
  function Xtime(x: Byte): Byte {
    Byte(x.b6, x.b5, x.b4, x.b3 != x.b7, x.b2 != x.b7, x.b1 != x.b7, x.b0, x.b7)
  }

  /** `x` multiplied by alpha^n, alpha being the element 2. */
  function Shifted(n: nat, x: Byte): Byte {
    if n == 0 then x else Xtime(Shifted(n - 1, x))
  }

  /** alpha^n. */
  function Alpha(n: nat): Byte {
    Shifted(n, ONE)
  }

  lemma XtimeLinear(a: Byte, b: Byte)
    ensures Xtime(Xor(a, b)) == Xor(Xtime(a), Xtime(b))
  {
  }

  lemma XtimeInjective(a: Byte, b: Byte)
    requires Xtime(a) == Xtime(b)
    ensures a == b
  {
  }

  lemma {:induction false} ShiftedLinear(n: nat, a: Byte, b: Byte)
    ensures Shifted(n, Xor(a, b)) == Xor(Shifted(n, a), Shifted(n, b))
  {
    if n > 0 {
      ShiftedLinear(n - 1, a, b);
      XtimeLinear(Shifted(n - 1, a), Shifted(n - 1, b));
    }
  }

  lemma {:induction false} ShiftedInjective(n: nat, a: Byte, b: Byte)
    requires Shifted(n, a) == Shifted(n, b)
    ensures a == b
  {
    if n > 0 {
      XtimeInjective(Shifted(n - 1, a), Shifted(n - 1, b));
      ShiftedInjective(n - 1, a, b);
    }
  }

  lemma {:induction false} ShiftedZero(n: nat)
    ensures Shifted(n, ZERO) == ZERO
  {
    if n > 0 {
      ShiftedZero(n - 1);
    }
  }

  lemma {:induction false} ShiftedAdd(m: nat, n: nat, x: Byte)
    ensures Shifted(m + n, x) == Shifted(m, Shifted(n, x))
  {
    if m > 0 {
      ShiftedAdd(m - 1, n, x);
    }
  }

  lemma AlphaNonzero(n: nat)
    ensures Alpha(n) != ZERO
  {
    if Alpha(n) == ZERO {
      ShiftedZero(n);
      ShiftedInjective(n, ONE, ZERO);
    }
  }

  // ---------- alpha has order exactly 255 ----------

  // Since alpha^8 = alpha^4 + alpha^3 + alpha^2 + 1, eight doublings are four and some XORs.

  function Times8(x: Byte): Byte {
    var x2 := Xtime(Xtime(x));
    var x3 := Xtime(x2);
    Xor(Xor(Xtime(x3), x3), Xor(x2, x))
  }

  lemma Times8IsEightDoublings(x: Byte)
    ensures Xtime(Xtime(Xtime(Xtime(Xtime(Xtime(Xtime(Xtime(x)))))))) == Times8(x)
  {
  }

  lemma FourDoublings(x: Byte)
    ensures Shifted(4, x) == Xtime(Xtime(Xtime(Xtime(x))))
  {
    assert Shifted(1, x) == Xtime(Shifted(0, x));
    assert Shifted(2, x) == Xtime(Shifted(1, x));
    assert Shifted(3, x) == Xtime(Shifted(2, x));
  }

  lemma EightDoublings(x: Byte)
    ensures Shifted(8, x) == Times8(x)
  {
    var y := Xtime(Xtime(Xtime(Xtime(x))));
    FourDoublings(x);
    FourDoublings(y);
    ShiftedAdd(4, 4, x);
    Times8IsEightDoublings(x);
  }

  /** From alpha^n to alpha^(n + 8) when the two values are known. */
  lemma Alpha8(n: nat, from: Byte, to: Byte)
    requires Alpha(n) == from && Times8(from) == to
    ensures Alpha(n + 8) == to
  {
    ShiftedAdd(8, n, ONE);
    EightDoublings(from);
  }

  // The powers that decide the order of alpha: 255 = 3 * 5 * 17.

  lemma AlphaNext(n: nat)
    ensures Alpha(n + 1) == Xtime(Alpha(n))
  {
  }

  lemma Alpha3()
    ensures Alpha(3) == Byte(false, false, false, false, true, false, false, false)
  {
    assert Alpha(1) == Xtime(Alpha(0));
    assert Alpha(2) == Xtime(Alpha(1));
    assert Alpha(3) == Xtime(Alpha(2));
  }

  lemma Alpha15()
    ensures Alpha(15) == Byte(false, false, true, false, false, true, true, false)
  {
    Alpha3();
    Alpha8(3, Byte(false, false, false, false, true, false, false, false), Byte(true, true, true, false, true, false, false, false));
    assert Alpha(12) == Xtime(Alpha(11));
    assert Alpha(13) == Xtime(Alpha(12));
    assert Alpha(14) == Xtime(Alpha(13));
    assert Alpha(15) == Xtime(Alpha(14));
  }

  lemma Alpha51()
    ensures Alpha(51) == Byte(false, false, false, false, true, false, true, false)
  {
    hide Shifted;
    Alpha3();
    Alpha8(3, Byte(false, false, false, false, true, false, false, false), Byte(true, true, true, false, true, false, false, false));
    Alpha8(11, Byte(true, true, true, false, true, false, false, false), Byte(false, true, false, true, true, false, true, false));
    Alpha8(19, Byte(false, true, false, true, true, false, true, false), Byte(false, false, false, false, true, true, false, false));
    Alpha8(27, Byte(false, false, false, false, true, true, false, false), Byte(true, false, false, true, true, true, false, false));
    Alpha8(35, Byte(true, false, false, true, true, true, false, false), Byte(false, true, true, true, false, true, true, true));
    Alpha8(43, Byte(false, true, true, true, false, true, true, true), Byte(false, false, false, false, true, false, true, false));
  }

  lemma Alpha85()
    ensures Alpha(85) == Byte(true, true, false, true, false, true, true, false)
  {
    hide Shifted;
    Alpha51();
    Alpha8(51, Byte(false, false, false, false, true, false, true, false), Byte(true, true, false, true, false, false, true, false));
    Alpha8(59, Byte(true, true, false, true, false, false, true, false), Byte(true, true, false, false, false, false, true, false));
    Alpha8(67, Byte(true, true, false, false, false, false, true, false), Byte(false, false, false, false, true, true, true, true));
    Alpha8(75, Byte(false, false, false, false, true, true, true, true), Byte(true, false, true, true, true, false, true, true));
    AlphaNext(83);
    AlphaNext(84);
  }

  /** alpha^51 = alpha^3 + alpha, so fifty-one doublings are three and one XOR. */
  lemma Alpha51More(n: nat, from: Byte, to: Byte)
    requires Alpha(n) == from && Xor(Xtime(Xtime(Xtime(from))), Xtime(from)) == to
    ensures Alpha(n + 51) == to
  {
    Alpha3();
    Alpha51();
    assert Alpha(1) == Xtime(Alpha(0));
    ShiftedAdd(n, 51, ONE);
    ShiftedLinear(n, Alpha(3), Alpha(1));
    ShiftedAdd(n, 3, ONE);
    ShiftedAdd(n, 1, ONE);
    assert Alpha(n + 1) == Xtime(Alpha(n));
    assert Alpha(n + 2) == Xtime(Alpha(n + 1));
    assert Alpha(n + 3) == Xtime(Alpha(n + 2));
  }

  lemma Alpha255()
    ensures Alpha(255) == ONE
  {
    hide Shifted;
    Alpha51();
    Alpha51More(51, Byte(false, false, false, false, true, false, true, false), Byte(false, true, false, false, false, true, false, false));
    Alpha51More(102, Byte(false, true, false, false, false, true, false, false), Byte(true, false, false, true, false, false, true, false));
    Alpha51More(153, Byte(true, false, false, true, false, false, true, false), Byte(true, true, false, true, true, true, false, true));
    Alpha51More(204, Byte(true, true, false, true, true, true, false, true), Byte(false, false, false, false, false, false, false, true));
  }

  /** Multiplying by alpha^255 changes nothing. */
  lemma ShiftedPeriod(k: nat, n: nat)
    ensures Alpha(k + 255) == Alpha(k)
    ensures Shifted(n + 255, Alpha(k)) == Shifted(n, Alpha(k))
  {
    Alpha255();
    ShiftedAdd(k, 255, ONE);
    ShiftedAdd(n + 255, k, ONE);
    ShiftedAdd(n, k + 255, ONE);
    ShiftedAdd(n, k, ONE);
  }

  lemma {:induction false} AlphaMultiple(d: nat, q: nat, r: nat)
    requires Alpha(d) == ONE
    ensures Alpha(q * d + r) == Alpha(r)
  {
    if q > 0 {
      assert q * d + r == ((q - 1) * d + r) + d;
      ShiftedAdd((q - 1) * d + r, d, ONE);
      AlphaMultiple(d, q - 1, r);
    }
  }

  lemma AlphaModPeriod(d: nat, n: nat)
    requires d > 0 && Alpha(d) == ONE
    ensures Alpha(n) == Alpha(n % d)
  {
    AlphaMultiple(d, n / d, n % d);
  }

  /** A proper divisor of 255 divides 15, 51 or 85. */
  lemma DivisorsOf255(d: nat)
    requires 0 < d < 255 && 255 % d == 0
    ensures 15 % d == 0 || 51 % d == 0 || 85 % d == 0
  {
    var q := 255 / d;
    assert q * d == 255;
    if d <= 15 {
      SmallDivisor(d);
    } else {
      QuotientBound(q, d);
      SmallQuotient(q, d);
    }
  }

  lemma QuotientBound(q: nat, d: nat)
    requires q * d == 255 && d >= 16
    ensures q <= 15
  {
    assert q * d == 16 * q + q * (d - 16);
  }

  lemma SmallDivisor(d: nat)
    requires 0 < d <= 15 && 255 % d == 0
    ensures d == 1 || d == 3 || d == 5 || d == 15
  {
  }

  lemma SmallQuotient(q: nat, d: nat)
    requires 0 < q <= 15 && q * d == 255 && d < 255
    ensures d == 85 || d == 51 || d == 17
  {
    if q <= 7 {
      assert q == 1 || q == 2 || q == 3 || q == 4 || q == 5 || q == 6 || q == 7;
    } else {
      assert q == 8 || q == 9 || q == 10 || q == 11 || q == 12 || q == 13 || q == 14 || q == 15;
    }
  }

  /** The least positive exponent that gives 1, at or below `k`. */
  lemma {:induction false} LeastPeriod(k: nat) returns (d: nat)
    requires k > 0 && Alpha(k) == ONE
    ensures 0 < d <= k && Alpha(d) == ONE
    ensures forall j :: 0 < j < d ==> Alpha(j) != ONE
  {
    d := k;
    if j :| 0 < j < k && Alpha(j) == ONE {
      d := LeastPeriod(j);
    }
  }

  lemma AlphaOrder(k: nat)
    requires 0 < k < 255
    ensures Alpha(k) != ONE
  {
    if Alpha(k) == ONE {
      Alpha15();
      Alpha51();
      Alpha85();
      Alpha255();
      var d := LeastPeriod(k);
      AlphaModPeriod(d, 255);
      assert 255 % d == 0;
      DivisorsOf255(d);
      AlphaModPeriod(d, 15);
      AlphaModPeriod(d, 51);
      AlphaModPeriod(d, 85);
    }
  }

  lemma AlphaDistinct(i: nat, j: nat)
    requires i < j < 255
    ensures Alpha(i) != Alpha(j)
  {
    if Alpha(i) == Alpha(j) {
      ShiftedAdd(i, j - i, ONE);
      ShiftedInjective(i, ONE, Alpha(j - i));
      AlphaOrder(j - i);
    }
  }
}
