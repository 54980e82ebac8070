/** How far apart two code words are. A sequence whose value is zero at d consecutive powers of a
    point either is all zero or has more than d nonzero symbols, so a reader notices every
    pattern of at most d wrong symbols. */
module QrDistance {
  import opened QrPolynomials

  function Pow<T>(f: Field<T>, x: T, n: nat): T {
    if n == 0 then f.one else f.mul(Pow(f, x, n - 1), x)
  }

  lemma {:induction false} PowOne<T(!new)>(f: Field<T>, n: nat)
    requires IsField(f)
    ensures Pow(f, f.one, n) == f.one
  {
    if n > 0 {
      PowOne(f, n - 1);
      assert Law(f, f.one, f.one, f.one);
    }
  }

  lemma {:induction false} PowOfProduct<T(!new)>(f: Field<T>, x: T, y: T, n: nat)
    requires IsField(f)
    ensures Pow(f, f.mul(x, y), n) == f.mul(Pow(f, x, n), Pow(f, y, n))
  {
    if n == 0 {
      assert Law(f, f.one, f.one, f.one);
    } else {
      PowOfProduct(f, x, y, n - 1);
      MulSwap(f, Pow(f, x, n - 1), Pow(f, y, n - 1), x, y);
    }
  }

  lemma MulSwap<T(!new)>(f: Field<T>, a: T, b: T, c: T, d: T)
    requires IsField(f)
    ensures f.mul(f.mul(a, b), f.mul(c, d)) == f.mul(f.mul(a, c), f.mul(b, d))
  {
    assert Law(f, a, b, f.mul(c, d));
    assert Law(f, b, c, d);
    assert Law(f, c, b, d);
    assert Law(f, a, c, f.mul(b, d));
  }

  /** Exponents may be exchanged: (x^m)^n == (x^n)^m. */
  lemma {:induction false} PowSwap<T(!new)>(f: Field<T>, x: T, m: nat, n: nat)
    requires IsField(f)
    ensures Pow(f, Pow(f, x, m), n) == Pow(f, Pow(f, x, n), m)
  {
    if m == 0 {
      PowOne(f, n);
    } else {
      PowSwap(f, x, m - 1, n);
      PowOfProduct(f, Pow(f, x, m - 1), x, n);
    }
  }

  lemma {:induction false} EvalCons<T(!new)>(f: Field<T>, a: T, p: seq<T>, x: T)
    requires IsField(f)
    ensures Eval(f, [a] + p, x) == f.add(f.mul(a, Pow(f, x, |p|)), Eval(f, p, x))
  {
    if p == [] {
      EvalAppend(f, [], a, x);
      assert [] + [a] == [a] + p;
      assert Law(f, x, f.zero, f.zero);
      assert Law(f, f.zero, x, f.zero);
      assert Law(f, a, f.zero, f.zero);
      assert Law(f, f.zero, a, f.zero);
      assert Law(f, a, f.one, f.zero);
    } else {
      var n := |p| - 1;
      EvalCons(f, a, p[..n], x);
      assert [a] + p == ([a] + p[..n]) + [p[n]];
      EvalAppend(f, [a] + p[..n], p[n], x);
      DistributesRight(f, f.mul(a, Pow(f, x, n)), Eval(f, p[..n], x), x);
      assert Law(f, a, Pow(f, x, n), x);
      assert Law(f, f.mul(a, Pow(f, x, n + 1)), f.mul(Eval(f, p[..n], x), x), p[n]);
    }
  }

  // ---------- Weighted sums of a word's symbols ----------

  /** The locator of each position: base^(n-1), ..., base, 1. */
  function Locators<T>(f: Field<T>, base: T, n: nat): (xs: seq<T>)
    ensures |xs| == n
  {
    seq(n, k requires 0 <= k < n => Pow(f, base, n - 1 - k))
  }

  /** Every symbol multiplied by the value of `p` at its locator, added up. */
  function Weighted<T>(f: Field<T>, word: seq<T>, xs: seq<T>, p: seq<T>): T
    requires |word| == |xs|
  {
    if word == [] then f.zero
    else f.add(f.mul(word[0], Eval(f, p, xs[0])), Weighted(f, word[1..], xs[1..], p))
  }

  function Monomial<T>(f: Field<T>, degree: nat): seq<T> {
    [f.one] + Zeros(f, degree)
  }

  lemma EvalMonomial<T(!new)>(f: Field<T>, degree: nat, x: T)
    requires IsField(f)
    ensures Eval(f, Monomial(f, degree), x) == Pow(f, x, degree)
  {
    EvalCons(f, f.one, Zeros(f, degree), x);
    EvalLeadingZeros(f, degree, [], x);
    assert Zeros(f, degree) + [] == Zeros(f, degree);
    assert Law(f, Pow(f, x, degree), f.one, f.zero);
    assert Law(f, f.one, Pow(f, x, degree), f.zero);
  }

  /** Weighting by x^i evaluates the word at base^i. */
  lemma {:induction false} WeightedMonomial<T(!new)>(f: Field<T>, word: seq<T>, base: T, i: nat)
    requires IsField(f)
    ensures Weighted(f, word, Locators(f, base, |word|), Monomial(f, i)) == Eval(f, word, Pow(f, base, i))
  {
    if word != [] {
      var n := |word| - 1;
      var xs := Locators(f, base, |word|);
      assert xs[1..] == Locators(f, base, n);
      WeightedMonomial(f, word[1..], base, i);
      EvalMonomial(f, i, xs[0]);
      PowSwap(f, base, n, i);
      EvalCons(f, word[0], word[1..], Pow(f, base, i));
      assert [word[0]] + word[1..] == word;
    }
  }

  lemma {:induction false} WeightedCons<T(!new)>(f: Field<T>, word: seq<T>, xs: seq<T>, a: T, p: seq<T>)
    requires IsField(f) && |word| == |xs|
    ensures Weighted(f, word, xs, [a] + p)
         == f.add(f.mul(a, Weighted(f, word, xs, Monomial(f, |p|))), Weighted(f, word, xs, p))
  {
    if word == [] {
      assert Law(f, a, f.zero, f.zero);
      assert Law(f, f.zero, f.zero, f.zero);
    } else {
      var x, w := xs[0], word[0];
      var rest1, rest2 := Weighted(f, word[1..], xs[1..], Monomial(f, |p|)), Weighted(f, word[1..], xs[1..], p);
      WeightedCons(f, word[1..], xs[1..], a, p);
      EvalCons(f, a, p, x);
      EvalMonomial(f, |p|, x);
      var power := Pow(f, x, |p|);
      assert Law(f, w, f.mul(a, power), Eval(f, p, x));
      assert Law(f, w, a, power);
      assert Law(f, a, w, power);
      AddSwap(f, f.mul(a, f.mul(w, power)), f.mul(w, Eval(f, p, x)), f.mul(a, rest1), rest2);
      assert Law(f, a, f.mul(w, power), rest1);
    }
  }

  /** All the values a reader checks are zero. */
  ghost predicate Syndromes<T(!new)>(f: Field<T>, word: seq<T>, base: T, d: nat) {
    forall i :: 0 <= i < d ==> Eval(f, word, Pow(f, base, i)) == f.zero
  }

  lemma {:induction false} WeightedVanishes<T(!new)>(f: Field<T>, word: seq<T>, base: T, d: nat, p: seq<T>)
    requires IsField(f) && Syndromes(f, word, base, d) && |p| <= d
    ensures Weighted(f, word, Locators(f, base, |word|), p) == f.zero
  {
    var xs := Locators(f, base, |word|);
    if p == [] {
      WeightedByZero(f, word, xs);
    } else {
      WeightedVanishes(f, word, base, d, p[1..]);
      WeightedMonomial(f, word, base, |p| - 1);
      WeightedCons(f, word, xs, p[0], p[1..]);
      assert [p[0]] + p[1..] == p;
      assert Law(f, p[0], f.zero, f.zero);
      assert Law(f, f.zero, f.zero, f.zero);
    }
  }

  lemma {:induction false} WeightedByZero<T(!new)>(f: Field<T>, word: seq<T>, xs: seq<T>)
    requires IsField(f) && |word| == |xs|
    ensures Weighted(f, word, xs, []) == f.zero
  {
    if word != [] {
      WeightedByZero(f, word[1..], xs[1..]);
      assert Law(f, word[0], f.zero, f.zero);
      assert Law(f, f.zero, f.zero, f.zero);
    }
  }

  lemma {:induction false} WeightedAllZero<T(!new)>(f: Field<T>, word: seq<T>, xs: seq<T>, p: seq<T>)
    requires IsField(f) && |word| == |xs|
    requires forall k :: 0 <= k < |word| ==> word[k] == f.zero || Eval(f, p, xs[k]) == f.zero
    ensures Weighted(f, word, xs, p) == f.zero
  {
    if word != [] {
      WeightedAllZero(f, word[1..], xs[1..], p);
      assert Law(f, word[0], f.zero, f.zero);
      assert Law(f, Eval(f, p, xs[0]), f.zero, f.zero);
      assert Law(f, word[0], Eval(f, p, xs[0]), f.zero);
      assert Law(f, f.zero, f.zero, f.zero);
    }
  }

  /** Only position `m` contributes when every other term is zero. */
  lemma {:induction false} WeightedSingle<T(!new)>(f: Field<T>, word: seq<T>, xs: seq<T>, p: seq<T>, m: nat)
    requires IsField(f) && |word| == |xs| && m < |word|
    requires forall k :: 0 <= k < |word| && k != m ==> word[k] == f.zero || Eval(f, p, xs[k]) == f.zero
    ensures Weighted(f, word, xs, p) == f.mul(word[m], Eval(f, p, xs[m]))
  {
    var first := f.mul(word[0], Eval(f, p, xs[0]));
    if m == 0 {
      forall k | 0 <= k < |word[1..]| ensures word[1..][k] == f.zero || Eval(f, p, xs[1..][k]) == f.zero {
        assert word[1..][k] == word[k + 1] && xs[1..][k] == xs[k + 1];
      }
      WeightedAllZero(f, word[1..], xs[1..], p);
      assert Law(f, first, f.zero, f.zero);
    } else {
      forall k | 0 <= k < |word[1..]| && k != m - 1 ensures word[1..][k] == f.zero || Eval(f, p, xs[1..][k]) == f.zero {
        assert word[1..][k] == word[k + 1] && xs[1..][k] == xs[k + 1];
      }
      WeightedSingle(f, word[1..], xs[1..], p, m - 1);
      assert word[0] == f.zero || Eval(f, p, xs[0]) == f.zero;
      assert Law(f, word[0], Eval(f, p, xs[0]), f.zero);
      assert Law(f, Eval(f, p, xs[0]), f.zero, f.zero);
      assert Law(f, word[0], f.zero, f.zero);
      var rest := f.mul(word[m], Eval(f, p, xs[m]));
      assert Law(f, rest, f.zero, f.zero);
    }
  }

  // ---------- Weight and distance ----------

  /** How many symbols are nonzero. */
  function Weight<T(==)>(f: Field<T>, word: seq<T>): nat {
    if word == [] then 0 else (if word[0] == f.zero then 0 else 1) + Weight(f, word[1..])
  }

  /** In how many positions two words of one length differ. */
  function Distance<T(==)>(a: seq<T>, b: seq<T>): nat
    requires |a| == |b|
  {
    if a == [] then 0 else (if a[0] == b[0] then 0 else 1) + Distance(a[1..], b[1..])
  }

  /** The locators of the nonzero symbols at and after position `from`, position `m` left out. */
  function OtherLocators<T(==)>(f: Field<T>, word: seq<T>, xs: seq<T>, m: int): (r: seq<T>)
    requires |word| == |xs|
  {
    if word == [] then []
    else (if m == 0 || word[0] == f.zero then [] else [xs[0]]) + OtherLocators(f, word[1..], xs[1..], m - 1)
  }

  lemma {:induction false} OtherLocatorsCount<T(!new)>(f: Field<T>, word: seq<T>, xs: seq<T>, m: int)
    requires |word| == |xs|
    ensures |OtherLocators(f, word, xs, m)|
         == Weight(f, word) - (if 0 <= m < |word| && word[m] != f.zero then 1 else 0)
  {
    if word != [] { OtherLocatorsCount(f, word[1..], xs[1..], m - 1); }
  }

  lemma {:induction false} OtherLocatorsMembers<T(!new)>(f: Field<T>, word: seq<T>, xs: seq<T>, m: int)
    requires |word| == |xs|
    ensures forall k :: 0 <= k < |word| && k != m && word[k] != f.zero ==> xs[k] in OtherLocators(f, word, xs, m)
    ensures forall x :: x in OtherLocators(f, word, xs, m) ==> exists k :: 0 <= k < |xs| && k != m && xs[k] == x
  {
    if word != [] {
      OtherLocatorsMembers(f, word[1..], xs[1..], m - 1);
      var rest := OtherLocators(f, word[1..], xs[1..], m - 1);
      forall k | 0 <= k < |word| && k != m && word[k] != f.zero ensures xs[k] in OtherLocators(f, word, xs, m) {
        if k > 0 { assert word[1..][k - 1] == word[k] && xs[1..][k - 1] == xs[k]; }
      }
      forall x | x in OtherLocators(f, word, xs, m) ensures exists k :: 0 <= k < |xs| && k != m && xs[k] == x {
        if x in rest {
          var k :| 0 <= k < |xs[1..]| && k != m - 1 && xs[1..][k] == x;
          assert xs[k + 1] == x;
        } else {
          assert xs[0] == x && m != 0;
        }
      }
    }
  }

  ghost predicate DistinctPowers<T(!new)>(f: Field<T>, base: T, n: nat) {
    forall i, j :: 0 <= i < j < n ==> Pow(f, base, i) != Pow(f, base, j)
  }

  /** With distinct powers, the locator of one position is not a root taken from the others. */
  lemma LocatorApart<T(!new)>(f: Field<T>, word: seq<T>, base: T, m: nat)
    requires IsField(f) && DistinctPowers(f, base, |word|) && m < |word|
    ensures
      var xs := Locators(f, base, |word|);
      Eval(f, FromRoots(f, OtherLocators(f, word, xs, m)), xs[m]) != f.zero
  {
    var xs := Locators(f, base, |word|);
    var others := OtherLocators(f, word, xs, m);
    FromRootsValue(f, others, xs[m]);
    RootProductZero(f, others, xs[m]);
    OtherLocatorsMembers(f, word, xs, m);
    forall k | 0 <= k < |xs| && k != m ensures xs[k] != xs[m] {
      assert Pow(f, base, |word| - 1 - k) != Pow(f, base, |word| - 1 - m);
    }
  }

  /** A word with d zero syndromes and at most d nonzero symbols has none. */
  lemma MinimumWeight<T(!new)>(f: Field<T>, word: seq<T>, base: T, d: nat)
    requires IsField(f) && DistinctPowers(f, base, |word|)
    requires Syndromes(f, word, base, d) && Weight(f, word) <= d
    ensures forall k :: 0 <= k < |word| ==> word[k] == f.zero
  {
    forall m | 0 <= m < |word| ensures word[m] == f.zero {
      if word[m] != f.zero {
        var xs := Locators(f, base, |word|);
        var others := OtherLocators(f, word, xs, m);
        OtherLocatorsCount(f, word, xs, m);
        OtherLocatorsMembers(f, word, xs, m);
        var p := FromRoots(f, others);
        forall k | 0 <= k < |word| && k != m ensures word[k] == f.zero || Eval(f, p, xs[k]) == f.zero {
          FromRootsValue(f, others, xs[k]);
          RootProductZero(f, others, xs[k]);
        }
        WeightedSingle(f, word, xs, p, m);
        LocatorApart(f, word, base, m);
        assert Law(f, word[m], Eval(f, p, xs[m]), f.zero);
        WeightedVanishes(f, word, base, d, p);
      }
    }
  }

  lemma {:induction false} DistanceIsWeight<T(!new)>(f: Field<T>, a: seq<T>, b: seq<T>)
    requires IsField(f) && |a| == |b|
    ensures Distance(a, b) == Weight(f, Sum(f, a, b))
  {
    if a != [] {
      DistanceIsWeight(f, a[1..], b[1..]);
      assert Sum(f, a, b)[1..] == Sum(f, a[1..], b[1..]);
      AddIsZero(f, a[0], b[0]);
    }
  }

  lemma NearCodeWordsAgree<T(!new)>(f: Field<T>, a: seq<T>, b: seq<T>, base: T, d: nat)
    requires IsField(f) && |a| == |b| && DistinctPowers(f, base, |a|)
    requires Syndromes(f, a, base, d) && Syndromes(f, b, base, d)
    requires Distance(a, b) <= d
    ensures a == b
  {
    DistanceIsWeight(f, a, b);
    var sum := Sum(f, a, b);
    forall i | 0 <= i < d ensures Eval(f, sum, Pow(f, base, i)) == f.zero {
      EvalSum(f, a, b, Pow(f, base, i));
      assert Law(f, f.zero, f.zero, f.zero);
    }
    MinimumWeight(f, sum, base, d);
    forall k | 0 <= k < |a| ensures a[k] == b[k] {
      assert sum[k] == f.zero;
      AddIsZero(f, a[k], b[k]);
    }
  }

  /** Two different code words differ in more than d positions. */
  lemma MinimumDistance<T(!new)>(f: Field<T>, a: seq<T>, b: seq<T>, base: T, d: nat)
    requires IsField(f) && |a| == |b| && DistinctPowers(f, base, |a|)
    requires Syndromes(f, a, base, d) && Syndromes(f, b, base, d)
    requires a != b
    ensures Distance(a, b) > d
  {
    if Distance(a, b) <= d {
      NearCodeWordsAgree(f, a, b, base, d);
    }
  }

  lemma {:induction false} DistanceSuffix<T(!new)>(front: seq<T>, a: seq<T>, b: seq<T>)
    requires |a| == |b|
    ensures Distance(front + a, front + b) <= |a|
  {
    if front == [] {
      assert front + a == a && front + b == b;
      if a != [] {
        DistanceSuffix([], a[1..], b[1..]);
        assert [] + a[1..] == a[1..] && [] + b[1..] == b[1..];
      }
    } else {
      DistanceSuffix(front[1..], a, b);
      assert (front + a)[1..] == front[1..] + a && (front + b)[1..] == front[1..] + b;
    }
  }

  lemma {:induction false} DistanceTriangle<T>(a: seq<T>, b: seq<T>, c: seq<T>)
    requires |a| == |b| == |c|
    ensures Distance(a, c) <= Distance(b, a) + Distance(b, c)
  {
    if a != [] { DistanceTriangle(a[1..], b[1..], c[1..]); }
  }
}
