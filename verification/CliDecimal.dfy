/** Exact decimal amounts: strings with up to six fraction digits, held as whole millionths. */
module CliDecimal {
  import opened Options
  import opened Strings

  const DECIMALS: nat := 6
  const UNIT: nat := 1_000_000
  const BPS: nat := 10_000

  // ---------- Digit strings ----------

  predicate IsDigit(c: char) {
    '0' <= c <= '9'
  }

  predicate AllDigits(s: string) {
    forall i :: 0 <= i < |s| ==> IsDigit(s[i])
  }

  function DigitValue(c: char): nat
    requires IsDigit(c)
  {
    c as nat - '0' as nat
  }

  function DigitChar(d: nat): (c: char)
    requires d < 10
    ensures IsDigit(c) && DigitValue(c) == d
  {
    '0' + d as char
  }

  /** The number a digit string spells. */
  function Number(s: string): nat
    requires AllDigits(s)
  {
    if s == "" then 0 else 10 * Number(s[..|s| - 1]) + DigitValue(s[|s| - 1])
  }

  /** A number's digits, without leading zeros. */
  function Digits(n: nat): (s: string)
    ensures s != "" && AllDigits(s)
  {
    if n < 10 then [DigitChar(n)] else Digits(n / 10) + [DigitChar(n % 10)]
  }

  predicate NoLeadingZero(s: string) {
    |s| > 1 ==> s[0] != '0'
  }

  lemma {:induction false} NumberOfDigits(n: nat)
    ensures Number(Digits(n)) == n && NoLeadingZero(Digits(n)) && (n > 0 ==> Digits(n)[0] != '0')
  {
    if n >= 10 {
      NumberOfDigits(n / 10);
      assert Digits(n)[..|Digits(n)| - 1] == Digits(n / 10);
    } else {
      assert Digits(n)[..0] == "";
    }
  }

  lemma {:induction false} NumberPositive(s: string)
    requires AllDigits(s) && s != "" && s[0] != '0'
    ensures Number(s) > 0
  {
    if |s| > 1 { NumberPositive(s[..|s| - 1]); }
  }

  lemma {:induction false} DigitsOfNumber(s: string)
    requires AllDigits(s) && s != "" && NoLeadingZero(s)
    ensures Digits(Number(s)) == s
  {
    var front, last := s[..|s| - 1], s[|s| - 1];
    assert s == front + [last];
    if front != "" {
      DigitsOfNumber(front);
      NumberPositive(front);
      assert Number(s) / 10 == Number(front) && Number(s) % 10 == DigitValue(last);
    }
  }

  function Pow10(n: nat): (p: nat)
    ensures p > 0
  {
    if n == 0 then 1 else 10 * Pow10(n - 1)
  }

  function ZeroDigits(n: nat): (s: string)
    ensures |s| == n && AllDigits(s)
  {
    seq(n, i => '0')
  }

  lemma {:induction false} NumberAppend(a: string, b: string)
    requires AllDigits(a) && AllDigits(b)
    ensures Number(a + b) == Number(a) * Pow10(|b|) + Number(b)
  {
    if b == "" {
      assert a + b == a;
    } else {
      var front := b[..|b| - 1];
      NumberAppend(a, front);
      assert (a + b)[..|a + b| - 1] == a + front;
      assert Number(a) * Pow10(|b|) == 10 * (Number(a) * Pow10(|front|));
    }
  }

  lemma {:induction false} NumberZeros(n: nat)
    ensures Number(ZeroDigits(n)) == 0
  {
    if n > 0 {
      NumberZeros(n - 1);
      assert ZeroDigits(n)[..n - 1] == ZeroDigits(n - 1);
    }
  }

  lemma {:induction false} NumberBound(s: string)
    requires AllDigits(s)
    ensures Number(s) < Pow10(|s|)
  {
    if s != "" { NumberBound(s[..|s| - 1]); }
  }

  // ---------- Parsing ----------

  function Whole(s: string): string {
    s[..IndexOf(s, '.')]
  }

  function Fraction(s: string): string {
    if IndexOf(s, '.') == |s| then "" else s[IndexOf(s, '.') + 1..]
  }

  /** Digits, and after a single point at least one more digit. */
  predicate IsDecimal(s: string) {
    && Whole(s) != "" && AllDigits(Whole(s)) && AllDigits(Fraction(s))
    && (IndexOf(s, '.') < |s| ==> Fraction(s) != "")
  }

  /** The amount in millionths; a seventh fraction digit is refused, not rounded. */
  function ParseDecimal(s: string): (r: Option<nat>) {
    if !IsDecimal(s) || |Fraction(s)| > DECIMALS then None
    else Some(Number(Whole(s) + Fraction(s) + ZeroDigits(DECIMALS - |Fraction(s)|)))
  }

  /** What is parsed is what is written: the digits over a power of ten, as an exact fraction. */
  lemma ParseIsExact(s: string)
    requires ParseDecimal(s).Some?
    ensures ParseDecimal(s).value * Pow10(|Fraction(s)|) == Number(Whole(s) + Fraction(s)) * UNIT
  {
    hide Number, Whole, Fraction, IndexOf, Pow10;
    var f := Fraction(s);
    NumberAppend(Whole(s) + f, ZeroDigits(DECIMALS - |f|));
    NumberZeros(DECIMALS - |f|);
    PowersMeet(|f|);
    var a, b, n := Pow10(DECIMALS - |f|), Pow10(|f|), Number(Whole(s) + f);
    assert n * a * b == n * (a * b);
  }

  lemma PowersMeet(n: nat)
    requires n <= DECIMALS
    ensures Pow10(DECIMALS - n) * Pow10(n) == UNIT && Pow10(0) == 1
  {
    assert Pow10(1) == 10 && Pow10(2) == 10 * Pow10(1) && Pow10(3) == 10 * Pow10(2);
    assert Pow10(4) == 10 * Pow10(3) && Pow10(5) == 10 * Pow10(4) && Pow10(6) == 10 * Pow10(5);
  }

  // ---------- Printing ----------

  function PadStart(s: string, n: nat): string {
    if |s| >= n then s else ZeroDigits(n - |s|) + s
  }

  function StripZeros(s: string): (r: string)
    ensures r <= s && (r != "" ==> r[|r| - 1] != '0')
  {
    if s == "" || s[|s| - 1] != '0' then s else StripZeros(s[..|s| - 1])
  }

  function FormatDecimal(n: nat): string {
    var fraction := StripZeros(PadStart(Digits(n % UNIT), DECIMALS));
    if fraction == "" then Digits(n / UNIT) else Digits(n / UNIT) + "." + fraction
  }

  /** The one spelling without leading or trailing zeros. */
  predicate IsCanonical(s: string) {
    && IsDecimal(s) && |Fraction(s)| <= DECIMALS
    && NoLeadingZero(Whole(s)) && (Fraction(s) != "" ==> Fraction(s)[|Fraction(s)| - 1] != '0')
  }

  lemma {:induction false} StrippedValue(s: string)
    requires AllDigits(s)
    ensures AllDigits(StripZeros(s)) && StripZeros(s) + ZeroDigits(|s| - |StripZeros(s)|) == s
  {
    if s != "" && s[|s| - 1] == '0' {
      StrippedValue(s[..|s| - 1]);
    }
  }

  lemma {:induction false} DigitsShort(n: nat, k: nat)
    requires n < Pow10(k) && k > 0
    ensures |Digits(n)| <= k
  {
    if n >= 10 { DigitsShort(n / 10, k - 1); }
  }

  lemma SixDigits(n: nat)
    requires n < UNIT
    ensures
      var padded := PadStart(Digits(n), DECIMALS);
      |padded| == DECIMALS && AllDigits(padded) && Number(padded) == n
  {
    PowersMeet(0);
    DigitsShort(n, DECIMALS);
    NumberOfDigits(n);
    var zeros := ZeroDigits(DECIMALS - |Digits(n)|);
    NumberAppend(zeros, Digits(n));
    NumberZeros(DECIMALS - |Digits(n)|);
    assert zeros + Digits(n) == if zeros == "" then Digits(n) else zeros + Digits(n);
  }

  /** Splitting what was joined at the point. */
  lemma SplitAtPoint(whole: string, fraction: string)
    requires AllDigits(whole)
    ensures Whole(whole + "." + fraction) == whole && Fraction(whole + "." + fraction) == fraction
    ensures IndexOf(whole + "." + fraction, '.') == |whole|
    ensures Whole(whole) == whole && Fraction(whole) == "" && IndexOf(whole, '.') == |whole|
  {
    var s := whole + "." + fraction;
    assert s[|whole|] == '.';
    assert forall j :: 0 <= j < |whole| ==> s[j] == whole[j] && IsDigit(whole[j]);
  }

  /** A canonical spelling from its two parts, and what it parses to. */
  lemma ParseOfParts(whole: string, fraction: string)
    requires whole != "" && AllDigits(whole) && AllDigits(fraction) && |fraction| <= DECIMALS
    requires NoLeadingZero(whole) && (fraction != "" ==> fraction[|fraction| - 1] != '0')
    ensures
      var s := if fraction == "" then whole else whole + "." + fraction;
      && IsCanonical(s) && Whole(s) == whole && Fraction(s) == fraction
      && ParseDecimal(s) == Some(Number(whole + fraction + ZeroDigits(DECIMALS - |fraction|)))
  {
    hide Number, Whole, Fraction, IndexOf;
    SplitAtPoint(whole, fraction);
  }

  /** Printing gives a canonical spelling, and parsing it gives the amount back. */
  lemma ParseOfFormat(n: nat)
    ensures ParseDecimal(FormatDecimal(n)) == Some(n) && IsCanonical(FormatDecimal(n))
  {
    hide Number, Digits, PadStart, StripZeros, Pow10, ParseDecimal, IsCanonical, AllDigits, NoLeadingZero;
    var whole, padded := Digits(n / UNIT), PadStart(Digits(n % UNIT), DECIMALS);
    var fraction := StripZeros(padded);
    SixDigits(n % UNIT);
    StrippedValue(padded);
    NumberOfDigits(n / UNIT);
    ParseOfParts(whole, fraction);
    PowersMeet(6);
    NumberAppend(whole, padded);
    assert whole + fraction + ZeroDigits(DECIMALS - |fraction|) == whole + padded;
  }

  /** The parts of a canonical spelling can be read off its amount. */
  lemma PartsOfAmount(s: string)
    requires IsCanonical(s)
    ensures
      var n := ParseDecimal(s).value;
      && ParseDecimal(s).Some? && n / UNIT == Number(Whole(s))
      && n % UNIT == Number(Fraction(s) + ZeroDigits(DECIMALS - |Fraction(s)|))
  {
    hide Number, Whole, Fraction, IndexOf, Pow10;
    var padded := Fraction(s) + ZeroDigits(DECIMALS - |Fraction(s)|);
    assert Whole(s) + Fraction(s) + ZeroDigits(DECIMALS - |Fraction(s)|) == Whole(s) + padded;
    NumberAppend(Whole(s), padded);
    NumberBound(padded);
    PowersMeet(6);
  }

  lemma {:induction false} NumberInjective(a: string, b: string)
    requires AllDigits(a) && AllDigits(b) && |a| == |b| && Number(a) == Number(b)
    ensures a == b
  {
    if a != "" {
      NumberInjective(a[..|a| - 1], b[..|b| - 1]);
      assert a == a[..|a| - 1] + [a[|a| - 1]] && b == b[..|b| - 1] + [b[|b| - 1]];
    }
  }

  lemma {:induction false} StripOfPadded(fraction: string, k: nat)
    requires fraction != "" ==> fraction[|fraction| - 1] != '0'
    ensures StripZeros(fraction + ZeroDigits(k)) == fraction
  {
    if k == 0 {
      assert fraction + ZeroDigits(0) == fraction;
    } else {
      var s := fraction + ZeroDigits(k);
      assert s[..|s| - 1] == fraction + ZeroDigits(k - 1);
      StripOfPadded(fraction, k - 1);
    }
  }

  /** A canonical spelling is what its amount prints as. */
  lemma FormatOfParse(s: string)
    requires IsCanonical(s)
    ensures ParseDecimal(s).Some? && FormatDecimal(ParseDecimal(s).value) == s
  {
    hide Number, Digits, PadStart, StripZeros, Pow10, ParseDecimal, AllDigits, NoLeadingZero, Whole, Fraction, IndexOf, IsDecimal;
    PartsOfAmount(s);
    PartsAreDigits(s);
    var n := ParseDecimal(s).value;
    var padded := Fraction(s) + ZeroDigits(DECIMALS - |Fraction(s)|);
    AllDigitsPadded(Fraction(s), DECIMALS - |Fraction(s)|);
    SixDigits(n % UNIT);
    NumberInjective(PadStart(Digits(n % UNIT), DECIMALS), padded);
    StripOfPadded(Fraction(s), DECIMALS - |Fraction(s)|);
    DigitsOfNumber(Whole(s));
    JoinAtPoint(s);
  }

  lemma PartsAreDigits(s: string)
    requires IsDecimal(s)
    ensures AllDigits(Whole(s)) && Whole(s) != "" && AllDigits(Fraction(s))
  {
  }

  lemma AllDigitsPadded(s: string, k: nat)
    requires AllDigits(s)
    ensures AllDigits(s + ZeroDigits(k))
  {
  }

  lemma JoinAtPoint(s: string)
    requires IsDecimal(s)
    ensures s == if Fraction(s) == "" then Whole(s) else Whole(s) + "." + Fraction(s)
  {
  }

  /** Every accepted string has one canonical spelling, and printing finds it. */
  lemma CanonicalSpelling(s: string, other: string)
    requires ParseDecimal(s).Some?
    ensures
      var t := FormatDecimal(ParseDecimal(s).value);
      && IsCanonical(t) && ParseDecimal(t) == ParseDecimal(s)
      && (IsCanonical(other) && ParseDecimal(other) == ParseDecimal(s) <==> other == t)
  {
    hide ParseDecimal, FormatDecimal, IsCanonical;
    ParseOfFormat(ParseDecimal(s).value);
    if IsCanonical(other) { FormatOfParse(other); }
  }

  // ---------- Directed rounding ----------

  function MulDivFloor(a: nat, b: nat, c: nat): (q: nat)
    requires c > 0
    ensures q * c <= a * b < q * c + c
  {
    a * b / c
  }

  function MulDivCeil(a: nat, b: nat, c: nat): (q: nat)
    requires c > 0
    ensures a * b <= q * c < a * b + c
  {
    a * b / c + if a * b % c == 0 then 0 else 1
  }

  datatype Side = BUY | SELL

  datatype Binding = SLIPPAGE | WORST_ACCEPTABLE_PRICE

  datatype Estimate = Estimate(fromSlippage: string, effective: string, binding: Binding)

  function SlippageBound(side: Side, reference: nat, slippage: nat): nat
    requires slippage < BPS
  {
    if side == BUY then
      var raw := MulDivFloor(reference, BPS + slippage, BPS);
      if raw > UNIT then UNIT else raw
    else MulDivCeil(reference, BPS - slippage, BPS)
  }

  predicate IsPrice(n: nat) {
    0 < n <= UNIT
  }

  /** A slippage in basis points may arrive as any number; it must be a whole one below 10000. */
  predicate IsSlippage(bps: real) {
    bps == bps.Floor as real && 0.0 <= bps < BPS as real
  }

  function EstimateWorstAcceptablePrice(side: Side, referencePrice: string, maxSlippageBps: real,
      worstAcceptablePrice: Option<string>): Option<Estimate>
  {
    var reference := ParseDecimal(referencePrice);
    if reference.None? || !IsPrice(reference.value) || !IsSlippage(maxSlippageBps) then None
    else
      var fromSlippage := SlippageBound(side, reference.value, maxSlippageBps.Floor);
      var absolute := if worstAcceptablePrice.None? then None else ParseDecimal(worstAcceptablePrice.value);
      if absolute.None? || !IsPrice(absolute.value) then
        Some(Estimate(FormatDecimal(fromSlippage), FormatDecimal(fromSlippage), SLIPPAGE))
      else
        var stricter := if side == BUY
          then if absolute.value < fromSlippage then absolute.value else fromSlippage
          else if absolute.value > fromSlippage then absolute.value else fromSlippage;
        Some(Estimate(FormatDecimal(fromSlippage), FormatDecimal(stricter),
          if stricter == absolute.value && stricter != fromSlippage then WORST_ACCEPTABLE_PRICE else SLIPPAGE))
  }

  /** The bound never hands back slippage nobody asked for, and is within a millionth of the exact one. */
  lemma BoundIsTight(side: Side, reference: nat, slippage: nat)
    requires IsPrice(reference) && slippage < BPS
    ensures
      var bound := SlippageBound(side, reference, slippage);
      && IsPrice(bound)
      && (side == BUY ==>
          bound >= reference && bound * BPS <= reference * (BPS + slippage)
          && (bound == UNIT || reference * (BPS + slippage) < (bound + 1) * BPS))
      && (side == SELL ==>
          bound <= reference && reference * (BPS - slippage) <= bound * BPS
          && (bound - 1) * BPS < reference * (BPS - slippage))
  {
    if side == BUY {
      assert reference * (BPS + slippage) >= reference * BPS;
    } else {
      assert 0 < reference * (BPS - slippage) <= reference * BPS;
    }
  }

  /** More slippage never tightens the bound. */
  lemma BoundIsMonotone(side: Side, reference: nat, less: nat, more: nat)
    requires less <= more < BPS
    ensures side == BUY ==> SlippageBound(side, reference, less) <= SlippageBound(side, reference, more)
    ensures side == SELL ==> SlippageBound(side, reference, more) <= SlippageBound(side, reference, less)
  {
    if side == BUY {
      assert reference * (BPS + less) <= reference * (BPS + more);
    } else {
      assert reference * (BPS - more) <= reference * (BPS - less);
    }
  }

  predicate Stricter(side: Side, a: nat, b: nat) {
    if side == BUY then a < b else a > b
  }

  /** An estimate exists exactly for a real price and slippage. Its printed amounts read back as the
      slippage bound and as the stricter of the two bounds, and the binding names the one that decides. */
  lemma EstimateIsCorrect(side: Side, referencePrice: string, maxSlippageBps: real, worstAcceptablePrice: Option<string>)
    ensures
      var estimate := EstimateWorstAcceptablePrice(side, referencePrice, maxSlippageBps, worstAcceptablePrice);
      var reference := ParseDecimal(referencePrice);
      && (estimate.Some? <==> reference.Some? && IsPrice(reference.value) && IsSlippage(maxSlippageBps))
      && (estimate.Some? ==>
          var bound := SlippageBound(side, reference.value, maxSlippageBps.Floor);
          var absolute := if worstAcceptablePrice.None? then None else ParseDecimal(worstAcceptablePrice.value);
          var decides := absolute.Some? && IsPrice(absolute.value) && Stricter(side, absolute.value, bound);
          && ParseDecimal(estimate.value.fromSlippage) == Some(bound)
          && ParseDecimal(estimate.value.effective) == Some(if decides then absolute.value else bound)
          && (estimate.value.binding == WORST_ACCEPTABLE_PRICE <==> decides))
  {
    hide ParseDecimal, FormatDecimal, IsCanonical, SlippageBound;
    var reference := ParseDecimal(referencePrice);
    if reference.Some? && IsPrice(reference.value) && IsSlippage(maxSlippageBps) {
      ParseOfFormat(SlippageBound(side, reference.value, maxSlippageBps.Floor));
      if worstAcceptablePrice.Some? && ParseDecimal(worstAcceptablePrice.value).Some? {
        ParseOfFormat(ParseDecimal(worstAcceptablePrice.value).value);
      }
    }
  }
}
