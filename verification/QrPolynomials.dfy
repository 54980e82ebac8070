/** Polynomials over a commutative domain in which every element is its own negative, as
    sequences of coefficients with the highest degree first. The error correction of a QR
    symbol is arithmetic on such polynomials over GF(256). */
module QrPolynomials {

  datatype Field<!T> = Field(zero: T, one: T, add: (T, T) -> T, mul: (T, T) -> T)

  ghost predicate Law<T(!new)>(f: Field<T>, a: T, b: T, c: T) {
    && f.add(f.add(a, b), c) == f.add(a, f.add(b, c))
    && f.add(a, b) == f.add(b, a)
    && f.add(a, f.zero) == a
    && f.add(a, a) == f.zero
    && f.mul(f.mul(a, b), c) == f.mul(a, f.mul(b, c))
    && f.mul(a, b) == f.mul(b, a)
    && f.mul(a, f.one) == a
    && f.mul(a, f.zero) == f.zero
    && f.mul(a, f.add(b, c)) == f.add(f.mul(a, b), f.mul(a, c))
    && (f.mul(a, b) == f.zero ==> a == f.zero || b == f.zero)
    && f.one != f.zero
  }

  ghost predicate IsField<T(!new)>(f: Field<T>) {
    forall a, b, c :: Law(f, a, b, c)
  }

  // ---------- Polynomial arithmetic ----------

  function Zeros<T>(f: Field<T>, n: nat): (p: seq<T>)
    ensures |p| == n
  {
    seq(n, i => f.zero)
  }

  function Sum<T>(f: Field<T>, a: seq<T>, b: seq<T>): (c: seq<T>)
    requires |a| == |b|
    ensures |c| == |a|
  {
    seq(|a|, i requires 0 <= i < |a| => f.add(a[i], b[i]))
  }

  function Scale<T>(f: Field<T>, c: T, p: seq<T>): (q: seq<T>)
    ensures |q| == |p|
  {
    seq(|p|, i requires 0 <= i < |p| => f.mul(c, p[i]))
  }

  /** The value of a polynomial at a point. */
  function Eval<T>(f: Field<T>, p: seq<T>, x: T): T {
    if p == [] then f.zero
    else f.add(f.mul(Eval(f, p[..|p| - 1], x), x), p[|p| - 1])
  }

  /** The product of two polynomials, by schoolbook multiplication. */
  function Times<T>(f: Field<T>, q: seq<T>, g: seq<T>): (r: seq<T>)
    requires g != []
    ensures |r| == |q| + |g| - 1
  {
    if q == [] then Zeros(f, |g| - 1)
    else Sum(f, Times(f, q[..|q| - 1], g) + [f.zero], Zeros(f, |q| - 1) + Scale(f, q[|q| - 1], g))
  }

  lemma EvalAppend<T(!new)>(f: Field<T>, p: seq<T>, c: T, x: T)
    ensures Eval(f, p + [c], x) == f.add(f.mul(Eval(f, p, x), x), c)
  {
    assert (p + [c])[..|p|] == p;
  }

  lemma AddSwap<T(!new)>(f: Field<T>, a: T, b: T, c: T, d: T)
    requires IsField(f)
    ensures f.add(f.add(a, b), f.add(c, d)) == f.add(f.add(a, c), f.add(b, d))
  {
    assert Law(f, a, b, f.add(c, d));
    assert Law(f, b, c, d);
    assert Law(f, c, b, d);
    assert Law(f, a, c, f.add(b, d));
  }

  lemma DistributesRight<T(!new)>(f: Field<T>, a: T, b: T, c: T)
    requires IsField(f)
    ensures f.mul(f.add(a, b), c) == f.add(f.mul(a, c), f.mul(b, c))
  {
    assert Law(f, c, a, b);
    assert Law(f, f.add(a, b), c, c);
    assert Law(f, a, c, c);
    assert Law(f, b, c, c);
  }

  lemma {:induction false} EvalSum<T(!new)>(f: Field<T>, a: seq<T>, b: seq<T>, x: T)
    requires IsField(f) && |a| == |b|
    ensures Eval(f, Sum(f, a, b), x) == f.add(Eval(f, a, x), Eval(f, b, x))
  {
    if a == [] {
      assert Law(f, f.zero, f.zero, f.zero);
    } else {
      var n := |a| - 1;
      EvalSum(f, a[..n], b[..n], x);
      assert Sum(f, a, b)[..n] == Sum(f, a[..n], b[..n]);
      DistributesRight(f, Eval(f, a[..n], x), Eval(f, b[..n], x), x);
      AddSwap(f, f.mul(Eval(f, a[..n], x), x), f.mul(Eval(f, b[..n], x), x), a[n], b[n]);
    }
  }

  lemma {:induction false} EvalScale<T(!new)>(f: Field<T>, c: T, p: seq<T>, x: T)
    requires IsField(f)
    ensures Eval(f, Scale(f, c, p), x) == f.mul(c, Eval(f, p, x))
  {
    if p == [] {
      assert Law(f, c, c, c);
    } else {
      var n := |p| - 1;
      EvalScale(f, c, p[..n], x);
      assert Scale(f, c, p)[..n] == Scale(f, c, p[..n]);
      assert Law(f, c, Eval(f, p[..n], x), x);
      assert Law(f, c, f.mul(Eval(f, p[..n], x), x), p[n]);
    }
  }

  lemma {:induction false} EvalLeadingZeros<T(!new)>(f: Field<T>, n: nat, p: seq<T>, x: T)
    requires IsField(f)
    ensures Eval(f, Zeros(f, n) + p, x) == Eval(f, p, x)
  {
    var s := Zeros(f, n) + p;
    if p != [] {
      EvalLeadingZeros(f, n, p[..|p| - 1], x);
      assert s[..|s| - 1] == Zeros(f, n) + p[..|p| - 1];
    } else if n > 0 {
      EvalLeadingZeros(f, n - 1, [], x);
      assert s[..|s| - 1] == Zeros(f, n - 1) + [];
      assert Law(f, x, f.zero, f.zero);
      assert Law(f, f.zero, f.zero, f.zero);
    }
  }

  /** Evaluation turns products of polynomials into products of values. */
  lemma {:induction false} EvalTimes<T(!new)>(f: Field<T>, q: seq<T>, g: seq<T>, x: T)
    requires IsField(f) && g != []
    ensures Eval(f, Times(f, q, g), x) == f.mul(Eval(f, q, x), Eval(f, g, x))
  {
    if q == [] {
      EvalLeadingZeros(f, |g| - 1, [], x);
      assert Zeros(f, |g| - 1) + [] == Zeros(f, |g| - 1);
      assert Law(f, Eval(f, g, x), f.zero, f.zero);
    } else {
      var n := |q| - 1;
      var front, last := Times(f, q[..n], g), q[n];
      EvalTimes(f, q[..n], g, x);
      EvalSum(f, front + [f.zero], Zeros(f, n) + Scale(f, last, g), x);
      EvalAppend(f, front, f.zero, x);
      assert Law(f, f.mul(Eval(f, front, x), x), f.zero, f.zero);
      EvalLeadingZeros(f, n, Scale(f, last, g), x);
      EvalScale(f, last, g, x);
      TimesStep(f, Eval(f, q[..n], x), Eval(f, g, x), x, last);
    }
  }

  lemma TimesStep<T(!new)>(f: Field<T>, a: T, g: T, x: T, c: T)
    requires IsField(f)
    ensures f.add(f.mul(f.mul(a, g), x), f.mul(c, g)) == f.mul(f.add(f.mul(a, x), c), g)
  {
    assert Law(f, a, g, x);
    assert Law(f, g, x, x);
    assert Law(f, a, x, g);
    DistributesRight(f, f.mul(a, x), c, g);
  }

  // ---------- Polynomials given by their roots ----------

  /** `p` multiplied by (x + r). */
  function TimesLinear<T>(f: Field<T>, p: seq<T>, r: T): (q: seq<T>)
    ensures |q| == |p| + 1
  {
    Sum(f, p + [f.zero], [f.zero] + Scale(f, r, p))
  }

  /** The monic product of (x + r) over the given roots. */
  function FromRoots<T>(f: Field<T>, roots: seq<T>): (p: seq<T>)
    ensures |p| == |roots| + 1
  {
    if roots == [] then [f.one]
    else TimesLinear(f, FromRoots(f, roots[..|roots| - 1]), roots[|roots| - 1])
  }

  /** The number that product is at a point. */
  function RootProduct<T>(f: Field<T>, roots: seq<T>, x: T): T {
    if roots == [] then f.one
    else f.mul(RootProduct(f, roots[..|roots| - 1], x), f.add(x, roots[|roots| - 1]))
  }

  lemma {:induction false} EvalTimesLinear<T(!new)>(f: Field<T>, p: seq<T>, r: T, x: T)
    requires IsField(f)
    ensures Eval(f, TimesLinear(f, p, r), x) == f.mul(Eval(f, p, x), f.add(x, r))
  {
    EvalSum(f, p + [f.zero], [f.zero] + Scale(f, r, p), x);
    EvalAppend(f, p, f.zero, x);
    assert Zeros(f, 1) + Scale(f, r, p) == [f.zero] + Scale(f, r, p);
    EvalLeadingZeros(f, 1, Scale(f, r, p), x);
    EvalScale(f, r, p, x);
    assert Law(f, f.mul(Eval(f, p, x), x), f.zero, f.zero);
    assert Law(f, Eval(f, p, x), x, r);
    assert Law(f, Eval(f, p, x), r, r);
  }

  /** A polynomial built from roots is monic and takes the product's value everywhere. */
  lemma {:induction false} FromRootsValue<T(!new)>(f: Field<T>, roots: seq<T>, x: T)
    requires IsField(f)
    ensures FromRoots(f, roots)[0] == f.one
    ensures Eval(f, FromRoots(f, roots), x) == RootProduct(f, roots, x)
  {
    if roots == [] {
      EvalAppend(f, [], f.one, x);
      assert [] + [f.one] == [f.one];
      assert Law(f, x, f.zero, f.zero);
      assert Law(f, f.one, f.zero, f.zero);
      assert Law(f, f.zero, f.one, f.zero);
      assert Law(f, f.zero, x, f.zero);
    } else {
      var front := roots[..|roots| - 1];
      FromRootsValue(f, front, x);
      EvalTimesLinear(f, FromRoots(f, front), roots[|roots| - 1], x);
      assert Law(f, f.one, f.zero, f.zero);
    }
  }

  /** The roots are exactly the points where the product vanishes. */
  lemma {:induction false} RootProductZero<T(!new)>(f: Field<T>, roots: seq<T>, x: T)
    requires IsField(f)
    ensures RootProduct(f, roots, x) == f.zero <==> x in roots
  {
    if roots == [] {
      assert Law(f, x, x, x);
    } else {
      var front, last := roots[..|roots| - 1], roots[|roots| - 1];
      RootProductZero(f, front, x);
      assert roots == front + [last];
      var rest := RootProduct(f, front, x);
      assert Law(f, rest, f.add(x, last), f.zero);
      assert Law(f, f.add(x, last), rest, f.zero);
      AddIsZero(f, x, last);
      assert Law(f, f.zero, f.add(x, last), f.zero);
    }
  }

  lemma AddIsZero<T(!new)>(f: Field<T>, a: T, b: T)
    requires IsField(f)
    ensures f.add(a, b) == f.zero <==> a == b
  {
    assert Law(f, a, b, b);
    assert Law(f, b, b, b);
    assert Law(f, f.zero, b, b);
  }

  // ---------- Division by a monic polynomial in a shift register ----------

  /** One symbol enters the register: the top coefficient leaves and the divisor is subtracted. */
  function ShiftStep<T>(f: Field<T>, gen: seq<T>, register: seq<T>, symbol: T): (r: seq<T>)
    requires |gen| == |register| + 1 && register != []
    ensures |r| == |register|
  {
    Sum(f, register[1..] + [f.zero], Scale(f, f.add(symbol, register[0]), gen[1..]))
  }

  /** What the register holds after all of `data`, having started empty. */
  function Remainder<T>(f: Field<T>, gen: seq<T>, data: seq<T>): (r: seq<T>)
    requires |gen| >= 2
    ensures |r| == |gen| - 1
  {
    if data == [] then Zeros(f, |gen| - 1)
    else ShiftStep(f, gen, Remainder(f, gen, data[..|data| - 1]), data[|data| - 1])
  }

  function Quotient<T>(f: Field<T>, gen: seq<T>, data: seq<T>): (q: seq<T>)
    requires |gen| >= 2
    ensures |q| == |data|
  {
    if data == [] then []
    else
      var front := data[..|data| - 1];
      Quotient(f, gen, front) + [f.add(data[|data| - 1], Remainder(f, gen, front)[0])]
  }

  /** The register holds the true remainder: data * x^d and it add up to a multiple of the divisor. */
  lemma {:induction false} ShiftRegisterDivides<T(!new)>(f: Field<T>, gen: seq<T>, data: seq<T>)
    requires IsField(f) && |gen| >= 2 && gen[0] == f.one
    ensures data + Remainder(f, gen, data) == Times(f, Quotient(f, gen, data), gen)
  {
    var quotient := Quotient(f, gen, data);
    if data == [] {
      assert data + Remainder(f, gen, data) == Zeros(f, |gen| - 1);
    } else {
      var k := |data| - 1;
      var front, b := data[..k], data[k];
      ShiftRegisterDivides(f, gen, front);
      var register := Remainder(f, gen, front);
      var factor := f.add(b, register[0]);
      assert quotient[..k] == Quotient(f, gen, front) && quotient[k] == factor;
      var left := front + register + [f.zero];
      var right := Zeros(f, k) + Scale(f, factor, gen);
      forall i | 0 <= i < |left| ensures f.add(left[i], right[i]) == (data + Remainder(f, gen, data))[i] {
        if i < k {
          assert Law(f, left[i], f.zero, f.zero);
        } else if i == k {
          assert right[k] == f.mul(factor, f.one);
          assert Law(f, factor, f.one, f.zero);
          assert Law(f, register[0], b, register[0]);
          assert Law(f, b, register[0], register[0]);
          assert Law(f, b, f.zero, f.zero);
        } else {
          assert right[i] == Scale(f, factor, gen[1..])[i - k - 1];
          assert left[i] == (register[1..] + [f.zero])[i - k - 1];
        }
      }
      assert Sum(f, left, right) == data + Remainder(f, gen, data);
    }
  }

  /** A multiple of a monic polynomial determines the cofactor from its leading symbols. */
  lemma {:induction false} MultiplesDetermineQuotient<T(!new)>(f: Field<T>, gen: seq<T>, p: seq<T>, q: seq<T>)
    requires IsField(f) && gen != [] && gen[0] == f.one && |p| == |q|
    requires Times(f, p, gen)[..|p|] == Times(f, q, gen)[..|p|]
    ensures p == q
  {
    if p != [] {
      var k := |p| - 1;
      var pt, qt := Times(f, p[..k], gen), Times(f, q[..k], gen);
      forall i | 0 <= i < k ensures pt[i] == qt[i] {
        assert Times(f, p, gen)[..|p|][i] == Times(f, q, gen)[..|p|][i];
        assert Law(f, pt[i], f.zero, f.zero);
        assert Law(f, qt[i], f.zero, f.zero);
      }
      MultiplesDetermineQuotient(f, gen, p[..k], q[..k]);
      assert Times(f, p, gen)[..|p|][k] == Times(f, q, gen)[..|p|][k];
      var t := (pt + [f.zero])[k];
      assert Law(f, p[k], f.one, f.zero);
      assert Law(f, q[k], f.one, f.zero);
      AddCancel(f, t, p[k], q[k]);
    }
  }

  lemma AddCancel<T(!new)>(f: Field<T>, t: T, a: T, b: T)
    requires IsField(f) && f.add(t, a) == f.add(t, b)
    ensures a == b
  {
    assert Law(f, t, t, a);
    assert Law(f, t, t, b);
    assert Law(f, a, f.zero, f.zero);
    assert Law(f, b, f.zero, f.zero);
  }

  /** No other choice of trailing symbols makes the whole a multiple of the divisor. */
  lemma RemainderUnique<T(!new)>(f: Field<T>, gen: seq<T>, data: seq<T>, r: seq<T>, q: seq<T>)
    requires IsField(f) && |gen| >= 2 && gen[0] == f.one
    requires |r| == |gen| - 1 && |q| == |data| && data + r == Times(f, q, gen)
    ensures r == Remainder(f, gen, data)
  {
    ShiftRegisterDivides(f, gen, data);
    var quotient := Quotient(f, gen, data);
    assert Times(f, q, gen)[..|q|] == data;
    assert Times(f, quotient, gen)[..|q|] == data;
    MultiplesDetermineQuotient(f, gen, q, quotient);
    assert (data + r)[|data|..] == r;
    assert (data + Remainder(f, gen, data))[|data|..] == Remainder(f, gen, data);
  }

  // ---------- A register loaded with the dividend ----------

  /** A register that starts from `start` and is fed `k` zeros. */
  function Loaded<T>(f: Field<T>, gen: seq<T>, start: seq<T>, k: nat): (r: seq<T>)
    requires |gen| == |start| + 1 && start != []
    ensures |r| == |start|
  {
    if k == 0 then start else ShiftStep(f, gen, Loaded(f, gen, start, k - 1), f.zero)
  }

  function LoadedQuotient<T>(f: Field<T>, gen: seq<T>, start: seq<T>, k: nat): (q: seq<T>)
    requires |gen| == |start| + 1 && start != []
    ensures |q| == k
  {
    if k == 0 then []
    else LoadedQuotient(f, gen, start, k - 1) + [f.add(f.zero, Loaded(f, gen, start, k - 1)[0])]
  }

  /** Feeding k zeros multiplies by x^k and reduces: start * x^k and the register's content add
      up to a multiple of the divisor. */
  lemma {:induction false} LoadedDivides<T(!new)>(f: Field<T>, gen: seq<T>, start: seq<T>, k: nat)
    requires IsField(f) && |gen| == |start| + 1 && start != [] && gen[0] == f.one
    ensures Times(f, LoadedQuotient(f, gen, start, k), gen)
         == Sum(f, start + Zeros(f, k), Zeros(f, k) + Loaded(f, gen, start, k))
  {
    var q := LoadedQuotient(f, gen, start, k);
    if k == 0 {
      forall i | 0 <= i < |start| ensures f.add(start[i], start[i]) == f.zero {
        assert Law(f, start[i], f.zero, f.zero);
      }
      assert start + Zeros(f, 0) == start && Zeros(f, 0) + start == start;
      assert Sum(f, start, start) == Zeros(f, |start|);
    } else {
      LoadedDivides(f, gen, start, k - 1);
      var register := Loaded(f, gen, start, k - 1);
      var factor := f.add(f.zero, register[0]);
      var before := Times(f, q[..k - 1], gen);
      assert q[..k - 1] == LoadedQuotient(f, gen, start, k - 1) && q[k - 1] == factor;
      var left := start + Zeros(f, k);
      var right := Zeros(f, k) + Loaded(f, gen, start, k);
      forall i | 0 <= i < |left| ensures Times(f, q, gen)[i] == f.add(left[i], right[i]) {
        LoadedStepAt(f, gen, start, k, i);
      }
    }
  }

  lemma LoadedStepAt<T(!new)>(f: Field<T>, gen: seq<T>, start: seq<T>, k: nat, i: nat)
    requires IsField(f) && |gen| == |start| + 1 && start != [] && gen[0] == f.one
    requires k > 0 && i < |start| + k
    requires Times(f, LoadedQuotient(f, gen, start, k - 1), gen)
          == Sum(f, start + Zeros(f, k - 1), Zeros(f, k - 1) + Loaded(f, gen, start, k - 1))
    ensures Times(f, LoadedQuotient(f, gen, start, k), gen)[i]
         == f.add((start + Zeros(f, k))[i], (Zeros(f, k) + Loaded(f, gen, start, k))[i])
  {
    var q := LoadedQuotient(f, gen, start, k);
    var register := Loaded(f, gen, start, k - 1);
    var factor := f.add(f.zero, register[0]);
    var before := Times(f, q[..k - 1], gen);
    assert q[..k - 1] == LoadedQuotient(f, gen, start, k - 1) && q[k - 1] == factor;
    var a := (start + Zeros(f, k))[i];
    var product := (Zeros(f, k - 1) + Scale(f, factor, gen))[i];
    assert Times(f, q, gen)[i] == f.add((before + [f.zero])[i], product);
    assert Law(f, a, f.zero, f.zero);
    assert Law(f, f.add(a, f.zero), f.zero, f.zero);
    if i + 1 == k {
      assert product == f.mul(factor, f.one);
      assert Law(f, factor, f.one, f.zero);
      assert Law(f, register[0], f.zero, f.zero);
      assert Law(f, f.zero, register[0], f.zero);
      assert Law(f, a, register[0], register[0]);
      assert before[i] == f.add(a, register[0]);
      assert Law(f, register[0], register[0], f.zero);
    } else if i >= k {
      var shifted := (register[1..] + [f.zero])[i - k];
      assert product == Scale(f, factor, gen[1..])[i - k];
      assert Loaded(f, gen, start, k)[i - k] == f.add(shifted, product);
      assert (before + [f.zero])[i] == f.add(a, shifted) by {
        if i < |before| {
          assert before[i] == f.add(a, register[i - k + 1]);
        } else {
          assert a == f.zero;
        }
      }
      assert Law(f, a, shifted, product);
    }
  }
}
