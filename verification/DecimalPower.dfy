/**
  * Decimal powers (numeric_big.rs): squaring, a shortcut for plus and minus one,
  * and multiplication that restores the fractional digits an exact product drops.
  */
module DecimalPower {
  import opened Wrappers
  import NumberText
  import opened DecimalRounding

  /** The number `digits` times ten to the power of `-scale`. */
  datatype Decimal = Decimal(digits: int, scale: int)

  const ONE := Decimal(1, 0)
  const MAX_DIGITS := 0x40_0000

  datatype PowFault = NonIntegral | TooLarge | ZeroToNegative

  /**
    * `*` of the decimal library: exact, with no more fractional digits than the
    * operands have together, perhaps fewer, even fewer than none.
    */
  ghost predicate ExactProduct(times: (Decimal, Decimal) -> Decimal) {
    forall a: Decimal, b: Decimal :: ExactAt(times, a, b)
  }

  ghost predicate ExactAt(times: (Decimal, Decimal) -> Decimal, a: Decimal, b: Decimal) {
    var p, wanted := times(a, b), a.scale + b.scale;
    if a.digits == 0 || b.digits == 0 then p.digits == 0 && (p.scale <= 0 || p.scale <= wanted)
    else p.scale <= wanted && p.digits * Pow10(wanted - p.scale) == a.digits * b.digits
  }

  function WithScale(d: Decimal, scale: int): Decimal
    requires d.scale <= scale
  {
    Decimal(d.digits * Pow10(scale - d.scale), scale)
  }

  function MulDecimal(times: (Decimal, Decimal) -> Decimal, a: Decimal, b: Decimal): Decimal {
    var wanted := a.scale + b.scale;
    var product := times(a, b);
    if wanted > 0 && product.scale < wanted then WithScale(product, wanted) else product
  }

  function Power(x: int, n: nat): int {
    if n == 0 then 1 else x * Power(x, n - 1)
  }

  /** `d` is `exact` with no digits beyond those of its scale lost. */
  ghost predicate Equals(d: Decimal, exact: Decimal) {
    d.scale <= exact.scale && d.digits * Pow10(exact.scale - d.scale) == exact.digits
  }

  function Abs(x: int): nat {
    if x < 0 then -x else x
  }

  /** The value is one or minus one. */
  predicate IsUnit(d: Decimal) {
    if d.scale >= 0 then Abs(d.digits) == Pow10(d.scale) else Abs(d.digits) * Pow10(-d.scale) == 1
  }

  // --- multiplication --------------------------------------------------------

  lemma Group(r: int, s: int, t: int)
    ensures r * (s * t) == (r * s) * t
  {
  }

  lemma {:induction false} Pow10Sum(m: nat, n: nat)
    ensures Pow10(m + n) == Pow10(m) * Pow10(n)
  {
    if m > 0 {
      Pow10Sum(m - 1, n);
      Group(10, Pow10(m - 1), Pow10(n));
    }
  }

  lemma Swap(p: int, x: int, y: int, z: int, u: int, v: int)
    requires p * x == u * v
    ensures p * ((x * y) * z) == (u * y) * (v * z)
  {
    calc {
      p * ((x * y) * z);
      (p * x) * (y * z);
      (u * v) * (y * z);
      (u * y) * (v * z);
    }
  }

  /** The product of two decimals is their exact product, whatever digits they dropped before. */
  lemma MulEquals(times: (Decimal, Decimal) -> Decimal, a: Decimal, b: Decimal, x: Decimal, y: Decimal)
    requires ExactProduct(times) && Equals(a, x) && Equals(b, y) && a.digits != 0 && b.digits != 0
    ensures Equals(MulDecimal(times, a, b), Decimal(x.digits * y.digits, x.scale + y.scale))
  {
    var product, wanted := times(a, b), a.scale + b.scale;
    assert ExactAt(times, a, b);
    var drop, da, db := wanted - product.scale, x.scale - a.scale, y.scale - b.scale;
    Pow10Sum(drop, da);
    Pow10Sum(drop + da, db);
    Swap(product.digits, Pow10(drop), Pow10(da), Pow10(db), a.digits, b.digits);
    assert product.digits * Pow10(drop + da + db) == x.digits * y.digits;
    if wanted > 0 && product.scale < wanted {
      Pow10Sum(da, db);
      Widen(product.digits, Pow10(drop), Pow10(da), Pow10(db));
    }
  }

  lemma Widen(p: int, x: int, y: int, z: int)
    ensures (p * x) * (y * z) == p * ((x * y) * z)
  {
  }

  /** With a fractional digit between them, all are kept. */
  lemma MulKeepsDigits(times: (Decimal, Decimal) -> Decimal, a: Decimal, b: Decimal)
    requires ExactProduct(times) && a.scale + b.scale > 0
    ensures MulDecimal(times, a, b) == Decimal(a.digits * b.digits, a.scale + b.scale)
  {
    assert ExactAt(times, a, b);
    assert Pow10(0) == 1;
  }

  /** A factor of zero gives zero. */
  lemma MulByZero(times: (Decimal, Decimal) -> Decimal, a: Decimal, b: Decimal)
    requires ExactProduct(times) && (a.digits == 0 || b.digits == 0)
    ensures MulDecimal(times, a, b).digits == 0
  {
    assert ExactAt(times, a, b);
  }

  // --- powers ------------------------------------------------------------------

  lemma {:induction false} PowerSquare(x: int, n: nat)
    ensures Power(x * x, n) == Power(x, 2 * n)
  {
    if n > 0 {
      PowerSquare(x, n - 1);
      assert Power(x, 2 * n) == x * (x * Power(x, 2 * n - 2));
      Group(x, x, Power(x, 2 * n - 2));
    }
  }

  lemma {:induction false} PowerNonZero(x: int, n: nat)
    requires x != 0
    ensures Power(x, n) != 0
  {
    if n > 0 { PowerNonZero(x, n - 1); }
  }

  /** One step of the loop: the low bit's factor moves into the result, the rest is squared. */
  lemma StepPower(r: int, s: int, bits: nat)
    requires bits > 0
    ensures r * Power(s, bits) == (if bits % 2 == 1 then r * s else r) * Power(s * s, bits / 2)
  {
    PowerSquare(s, bits / 2);
    if bits % 2 == 1 {
      assert Power(s, bits) == s * Power(s, bits - 1);
      Group(r, s, Power(s, bits - 1));
    }
  }

  lemma StepScale(r: int, s: int, bits: nat)
    requires bits > 0
    ensures r + s * bits == (if bits % 2 == 1 then r + s else r) + (s + s) * (bits / 2)
  {
    var half := bits / 2;
    if bits % 2 == 1 {
      assert bits == 2 * half + 1;
      assert s * (2 * half + 1) == s + (s + s) * half;
    } else {
      assert bits == 2 * half;
      assert s * (2 * half) == (s + s) * half;
    }
  }

  /** What the loop makes of its variables. */
  function Squaring(times: (Decimal, Decimal) -> Decimal, result: Decimal, square: Decimal, bits: nat): Decimal
    decreases bits
  {
    if bits == 0 then result
    else
      var next := if bits % 2 == 1 then MulDecimal(times, result, square) else result;
      if bits / 2 == 0 then next else Squaring(times, next, MulDecimal(times, square, square), bits / 2)
  }

  method PowerBySquaring(times: (Decimal, Decimal) -> Decimal, base: Decimal, magnitude: nat)
    returns (result: Decimal)
    requires ExactProduct(times) && magnitude > 0 && base.digits != 0
    ensures result == Squaring(times, ONE, base, magnitude)
    ensures Equals(result, Decimal(Power(base.digits, magnitude), base.scale * magnitude))
    ensures KeepsScale(base) ==> result == Decimal(Power(base.digits, magnitude), base.scale * magnitude)
  {
    hide ExactProduct, MulDecimal, Power, Equals, KeepsScale;
    result := ONE;
    var square := base;
    var bits: nat := magnitude;
    while bits > 0
      invariant Squaring(times, ONE, base, magnitude) == Squaring(times, result, square, bits)
    {
      if bits % 2 == 1 {
        result := MulDecimal(times, result, square);
      }
      bits := bits / 2;
      if bits > 0 {
        square := MulDecimal(times, square, square);
      }
    }
    PowerIsExact(times, base, magnitude);
    if KeepsScale(base) { PowerKeepsScale(times, base, magnitude); }
  }

  lemma {:induction false} SquaringEquals(times: (Decimal, Decimal) -> Decimal, result: Decimal, square: Decimal,
                                          bits: nat, exact: Decimal, squared: Decimal)
    requires ExactProduct(times) && Equals(result, exact) && Equals(square, squared)
    requires exact.digits != 0 && squared.digits != 0
    ensures Equals(Squaring(times, result, square, bits),
                   Decimal(exact.digits * Power(squared.digits, bits), exact.scale + squared.scale * bits))
    decreases bits
  {
    hide ExactProduct, MulDecimal, Power, Equals;
    PowerZero(squared.digits);
    assert squared.scale * 0 == 0;
    if bits > 0 {
      StepPower(exact.digits, squared.digits, bits);
      StepScale(exact.scale, squared.scale, bits);
      EqualsNonZero(result, exact);
      EqualsNonZero(square, squared);
      MulEquals(times, result, square, exact, squared);
      MulEquals(times, square, square, squared, squared);
      var next := if bits % 2 == 1 then MulDecimal(times, result, square) else result;
      var exactNext :=
        if bits % 2 == 1 then Decimal(exact.digits * squared.digits, exact.scale + squared.scale) else exact;
      var squares := Decimal(squared.digits * squared.digits, squared.scale + squared.scale);
      NonZeroProduct(exact.digits, squared.digits);
      NonZeroProduct(squared.digits, squared.digits);
      if bits / 2 > 0 {
        SquaringEquals(times, next, MulDecimal(times, square, square), bits / 2, exactNext, squares);
      } else {
        PowerZero(squares.digits);
        assert squares.scale * 0 == 0;
      }
    }
  }

  lemma NonZeroProduct(x: int, y: int)
    requires x != 0 && y != 0
    ensures x * y != 0
  {
  }

  lemma PowerIsExact(times: (Decimal, Decimal) -> Decimal, base: Decimal, magnitude: nat)
    requires ExactProduct(times) && base.digits != 0
    ensures Equals(Squaring(times, ONE, base, magnitude),
                   Decimal(Power(base.digits, magnitude), base.scale * magnitude))
  {
    hide ExactProduct, MulDecimal, Power, Equals, Squaring;
    EqualsItself(ONE);
    EqualsItself(base);
    SquaringEquals(times, ONE, base, magnitude, ONE, base);
  }

  // --- when the scale is kept -----------------------------------------------------

  /** The base has a fractional digit, or it is whole and does not end in zero. */
  predicate KeepsScale(base: Decimal) {
    base.scale > 0 || (base.scale == 0 && base.digits % 10 != 0)
  }

  lemma {:induction false} SquaringKeepsDigits(times: (Decimal, Decimal) -> Decimal, result: Decimal, square: Decimal,
                                               bits: nat)
    requires ExactProduct(times) && result.scale >= 0 && square.scale > 0
    ensures Squaring(times, result, square, bits)
         == Decimal(result.digits * Power(square.digits, bits), result.scale + square.scale * bits)
    decreases bits
  {
    hide ExactProduct, MulDecimal, Power;
    PowerZero(square.digits);
    assert square.scale * 0 == 0;
    if bits > 0 {
      StepPower(result.digits, square.digits, bits);
      StepScale(result.scale, square.scale, bits);
      MulKeepsDigits(times, result, square);
      MulKeepsDigits(times, square, square);
      var next := if bits % 2 == 1 then MulDecimal(times, result, square) else result;
      var squares := MulDecimal(times, square, square);
      if bits / 2 > 0 {
        SquaringKeepsDigits(times, next, squares, bits / 2);
      } else {
        PowerZero(squares.digits);
        assert squares.scale * 0 == 0;
      }
    }
  }

  /** A whole number that does not end in zero has no shorter form. */
  lemma WholeIsItself(d: Decimal, exact: Decimal)
    requires Equals(d, exact) && exact.digits % 10 != 0
    ensures d == exact
  {
    var k := exact.scale - d.scale;
    if k > 0 {
      assert Pow10(k) == 10 * Pow10(k - 1);
      TenDivides(d.digits, Pow10(k - 1));
    } else {
      assert Pow10(0) == 1;
    }
  }

  lemma TenDivides(x: int, y: int)
    ensures (x * (10 * y)) % 10 == 0
  {
    assert x * (10 * y) == 10 * (x * y);
  }

  lemma Expand(k: int, a: int, r: int, b: int, q: int)
    ensures (k * a + r) * (k * b + q) == k * (k * (a * b) + a * q + b * r) + r * q
  {
    assert (k * a + r) * (k * b + q) == (k * a) * (k * b) + (k * a) * q + r * (k * b) + r * q;
    assert (k * a) * (k * b) == k * (k * (a * b));
  }

  lemma OddTimesOdd(x: int, y: int)
    requires x % 2 != 0 && y % 2 != 0
    ensures (x * y) % 2 != 0
  {
    var a, b := x / 2, y / 2;
    Expand(2, a, 1, b, 1);
    Remainder2(2 * (a * b) + a * 1 + b * 1);
    assert x == 2 * a + 1 && y == 2 * b + 1;
  }

  lemma Remainder2(m: int)
    ensures (2 * m + 1 * 1) % 2 == 1
  {
  }

  lemma Remainder5(m: int, t: int)
    ensures (5 * m + t) % 5 == t % 5
  {
  }

  lemma FiveFree(x: int, y: int)
    requires x % 5 != 0 && y % 5 != 0
    ensures (x * y) % 5 != 0
  {
    var a, b, r, q := x / 5, y / 5, x % 5, y % 5;
    FiveFreeOf(x, y, a, b, r, q);
  }

  lemma FiveFreeOf(x: int, y: int, a: int, b: int, r: int, q: int)
    requires x == 5 * a + r && y == 5 * b + q && 1 <= r <= 4 && 1 <= q <= 4
    ensures (x * y) % 5 != 0
  {
    Expand(5, a, r, b, q);
    Remainder5(5 * (a * b) + a * q + b * r, r * q);
    SmallProducts(r, q);
  }

  lemma SmallProducts(r: int, q: int)
    requires 1 <= r <= 4 && 1 <= q <= 4
    ensures (r * q) % 5 != 0
  {
    assert r == 1 || r == 2 || r == 3 || r == 4;
  }

  lemma EndsInZero(x: int)
    ensures x % 10 == 0 <==> x % 2 == 0 && x % 5 == 0
  {
  }

  lemma {:induction false} PowerStaysOdd(x: int, n: nat)
    requires x % 2 != 0
    ensures Power(x, n) % 2 != 0
  {
    if n > 0 {
      PowerStaysOdd(x, n - 1);
      OddTimesOdd(x, Power(x, n - 1));
    }
  }

  lemma {:induction false} PowerStaysFiveFree(x: int, n: nat)
    requires x % 5 != 0
    ensures Power(x, n) % 5 != 0
  {
    if n > 0 {
      PowerStaysFiveFree(x, n - 1);
      FiveFree(x, Power(x, n - 1));
    }
  }

  lemma PowerEndsNotInZero(x: int, n: nat)
    requires x % 10 != 0
    ensures Power(x, n) % 10 != 0
  {
    hide Power;
    EndsInZero(x);
    EndsInZero(Power(x, n));
    if x % 2 != 0 { PowerStaysOdd(x, n); } else { PowerStaysFiveFree(x, n); }
  }

  lemma PowerKeepsScale(times: (Decimal, Decimal) -> Decimal, base: Decimal, magnitude: nat)
    requires ExactProduct(times) && base.digits != 0 && KeepsScale(base)
    ensures Squaring(times, ONE, base, magnitude) == Decimal(Power(base.digits, magnitude), base.scale * magnitude)
  {
    hide ExactProduct, MulDecimal, Power, Equals, Squaring;
    if base.scale > 0 {
      SquaringKeepsDigits(times, ONE, base, magnitude);
    } else {
      PowerIsExact(times, base, magnitude);
      PowerEndsNotInZero(base.digits, magnitude);
      WholeIsItself(Squaring(times, ONE, base, magnitude),
                    Decimal(Power(base.digits, magnitude), base.scale * magnitude));
    }
  }

  // --- a product that drops zeros ---------------------------------------------------

  predicate IsOne(d: Decimal) {
    IsUnit(d) && d.digits > 0
  }

  /** Without trailing zeros. */
  function Normalized(d: Decimal): Decimal
    decreases Abs(d.digits)
  {
    if d.digits == 0 then Decimal(0, 0)
    else if d.digits % 10 == 0 then Normalized(Decimal(d.digits / 10, d.scale - 1))
    else d
  }

  /** A product that normalises its other factor when one of them is one, and multiplies otherwise. */
  function NormalizingTimes(a: Decimal, b: Decimal): Decimal {
    if IsOne(a) then Normalized(b)
    else if IsOne(b) then Normalized(a)
    else Decimal(a.digits * b.digits, a.scale + b.scale)
  }

  lemma {:induction false} NormalizedEquals(d: Decimal)
    requires d.digits != 0
    ensures Equals(Normalized(d), d) && Normalized(d).digits % 10 != 0
    ensures d.digits % 10 == 0 ==> Normalized(d).scale < d.scale
    decreases Abs(d.digits)
  {
    if d.digits % 10 == 0 {
      var e := Decimal(d.digits / 10, d.scale - 1);
      NormalizedEquals(e);
      var n, k := Normalized(e), e.scale - Normalized(e).scale;
      assert Pow10(k + 1) == 10 * Pow10(k);
      Group(n.digits, 10, Pow10(k));
      Group(10, n.digits, Pow10(k));
    } else {
      EqualsItself(d);
    }
  }

  lemma NormalizingIsExactAt(a: Decimal, b: Decimal)
    ensures ExactAt(NormalizingTimes, a, b)
  {
    hide Normalized;
    assert Pow10(0) == 1;
    if a.digits != 0 && b.digits != 0 {
      if IsOne(a) {
        UnitScale(a);
        OneTimes(a, b);
      } else if IsOne(b) {
        UnitScale(b);
        OneTimes(b, a);
      }
    } else {
      NormalizedZero(a);
      NormalizedZero(b);
    }
  }

  lemma NormalizedZero(d: Decimal)
    ensures d.digits == 0 ==> Normalized(d) == Decimal(0, 0)
  {
  }

  lemma OneTimes(one: Decimal, d: Decimal)
    requires IsOne(one) && one.scale >= 0 && d.digits != 0
    ensures var p := Normalized(d);
            && p.scale <= one.scale + d.scale
            && p.digits * Pow10(one.scale + d.scale - p.scale) == one.digits * d.digits
  {
    NormalizedEquals(d);
    hide Normalized;
    var p := Normalized(d);
    var k := d.scale - p.scale;
    Pow10Sum(one.scale, k);
    assert one.digits == Pow10(one.scale);
    Commute(p.digits, one.digits, Pow10(k));
  }

  lemma Commute(p: int, x: int, y: int)
    ensures p * (x * y) == x * (p * y)
  {
  }

  lemma NormalizingIsExact()
    ensures ExactProduct(NormalizingTimes)
  {
    forall a: Decimal, b: Decimal ensures ExactAt(NormalizingTimes, a, b) { NormalizingIsExactAt(a, b); }
  }

  /** Nothing restores the zeros of a whole number: `1 * 100` comes out with scale -2. */
  lemma OneTimesHundred()
    ensures MulDecimal(NormalizingTimes, ONE, Decimal(100, 0)) == Decimal(1, -2)
    ensures Squaring(NormalizingTimes, ONE, Decimal(100, 0), 1) == Decimal(1, -2)
  {
    assert Pow10(0) == 1;
    assert Normalized(Decimal(100, 0)) == Normalized(Decimal(10, -1)) == Normalized(Decimal(1, -2));
  }

  lemma ProductDropsZeros(result: Decimal, v: int)
    requires (result == ONE || result.scale < 0) && v != 0 && v % 10 == 0
    ensures MulDecimal(NormalizingTimes, result, Decimal(v, 0)).scale < 0
  {
    hide Normalized;
    assert Pow10(0) == 1;
    NormalizedEquals(Decimal(v, 0));
    if IsUnit(result) { UnitScale(result); }
  }

  lemma SquareKeepsZeros(v: int)
    requires v % 10 == 0
    ensures MulDecimal(NormalizingTimes, Decimal(v, 0), Decimal(v, 0)) == Decimal(v * v, 0)
  {
    assert Pow10(0) == 1;
  }

  lemma {:induction false} ZerosAreDropped(result: Decimal, v: int, bits: nat)
    requires (result == ONE && bits > 0) || result.scale < 0
    requires v != 0 && v % 10 == 0
    ensures Squaring(NormalizingTimes, result, Decimal(v, 0), bits).scale < 0
    decreases bits
  {
    hide MulDecimal, NormalizingTimes;
    if bits > 0 {
      var square := Decimal(v, 0);
      ProductDropsZeros(result, v);
      SquareKeepsZeros(v);
      NonZeroProduct(v, v);
      SquareEndsInZero(v);
      var next := if bits % 2 == 1 then MulDecimal(NormalizingTimes, result, square) else result;
      if bits / 2 > 0 { ZerosAreDropped(next, v * v, bits / 2); }
    }
  }

  lemma SquareEndsInZero(v: int)
    requires v % 10 == 0
    ensures (v * v) % 10 == 0
  {
    var q := v / 10;
    assert v * v == 10 * (q * v);
  }

  /**
    * The power of a base of scale zero or more has all its fractional digits under
    * every exact product, and under the normalising one, exactly when the base has
    * a fractional digit or does not end in zero.
    */
  lemma ScaleIsKeptExactly(base: Decimal, magnitude: nat)
    requires base.scale >= 0 && base.digits != 0 && magnitude > 0
    ensures var exact := Decimal(Power(base.digits, magnitude), base.scale * magnitude);
            && (Squaring(NormalizingTimes, ONE, base, magnitude) == exact <==> KeepsScale(base))
            && ((forall times :: ExactProduct(times) ==> Squaring(times, ONE, base, magnitude) == exact)
                <==> KeepsScale(base))
  {
    hide ExactProduct, Squaring, Power;
    NormalizingIsExact();
    if KeepsScale(base) {
      forall times | ExactProduct(times)
        ensures Squaring(times, ONE, base, magnitude) == Decimal(Power(base.digits, magnitude), base.scale * magnitude)
      {
        PowerKeepsScale(times, base, magnitude);
      }
    } else {
      ZerosAreDropped(ONE, base.digits, magnitude);
      assert base.scale * magnitude == 0;
    }
  }

  lemma PowerZero(x: int)
    ensures Power(x, 0) == 1
  {
  }

  lemma EqualsItself(d: Decimal)
    ensures Equals(d, d)
  {
    assert Pow10(0) == 1;
  }

  // --- the shortcut for plus and minus one -------------------------------------------

  function UnitPower(base: Decimal, magnitude: nat): Decimal
    requires base.scale >= 0
  {
    var target := base.scale * magnitude;
    WithScale(if base.digits < 0 && magnitude % 2 == 1 then Decimal(-1, 0) else ONE, target)
  }

  lemma UnitScale(d: Decimal)
    requires IsUnit(d)
    ensures d.scale >= 0 && d.digits != 0
  {
    if d.scale < 0 {
      assert Pow10(-d.scale) == 10 * Pow10(-d.scale - 1);
      NotOne(Abs(d.digits), Pow10(-d.scale - 1));
    }
  }

  lemma NotOne(a: nat, b: nat)
    ensures a * (10 * b) != 1
  {
    assert a * (10 * b) == 10 * (a * b);
  }

  lemma {:induction false} PowerOfUnit(x: int, s: nat, m: nat)
    requires Abs(x) == Pow10(s)
    ensures Power(x, m) == (if x < 0 && m % 2 == 1 then -1 else 1) * Pow10(s * m)
  {
    if m == 0 {
      assert s * m == 0;
    } else {
      PowerOfUnit(x, s, m - 1);
      assert s * m == s + s * (m - 1);
      Pow10Sum(s, s * (m - 1));
      var sign := if x < 0 && (m - 1) % 2 == 1 then -1 else 1;
      assert x == (if x < 0 then -1 else 1) * Pow10(s);
      SignTimes(if x < 0 then -1 else 1, Pow10(s), sign, Pow10(s * (m - 1)));
    }
  }

  lemma SignTimes(a: int, p: int, b: int, q: int)
    ensures (a * p) * (b * q) == (a * b) * (p * q)
  {
  }

  /** The shortcut gives what squaring would: value, sign and scale. */
  lemma UnitPowerAgrees(base: Decimal, magnitude: nat)
    requires IsUnit(base) && base.scale >= 0
    ensures UnitPower(base, magnitude) == Decimal(Power(base.digits, magnitude), base.scale * magnitude)
  {
    PowerOfUnit(base.digits, base.scale, magnitude);
  }

  // --- the whole operation ------------------------------------------------------------

  function ToInteger(d: Decimal): Option<int> {
    if d.scale <= 0 then Some(d.digits * Pow10(-d.scale))
    else if d.digits % Pow10(d.scale) == 0 then Some(d.digits / Pow10(d.scale))
    else None
  }

  /** The integer that `d` denotes, and none exactly when it denotes none. */
  lemma ToIntegerIsExact(d: Decimal, n: int)
    ensures ToInteger(d) == Some(n)
       <==> d.digits * Pow10(if d.scale < 0 then -d.scale else 0) == n * Pow10(if d.scale > 0 then d.scale else 0)
  {
    assert Pow10(0) == 1;
    if d.scale > 0 {
      var p := Pow10(d.scale);
      QuotientIs(d.digits, n, p);
    }
  }

  lemma QuotientIs(x: int, n: int, p: nat)
    requires p > 0
    ensures x == n * p <==> x % p == 0 && x / p == n
  {
    if x == n * p {
      assert x == n * p + 0;
      QuotientIsUnique(x, n, 0, p);
    }
  }

  lemma QuotientIsUnique(x: int, n: int, r: int, p: nat)
    requires p > 0 && x == n * p + r && 0 <= r < p
    ensures x / p == n && x % p == r
  {
    var q, s := x / p, x % p;
    assert q * p + s == x && 0 <= s < p;
    assert (q - n) * p == r - s;
    if q > n {
      assert (q - n) * p >= p by { AtLeast(q - n, p); }
    } else if q < n {
      assert (n - q) * p >= p by { AtLeast(n - q, p); }
    }
  }

  lemma AtLeast(k: int, p: nat)
    requires k >= 1
    ensures k * p >= p
  {
  }

  lemma {:induction false} DigitsCount(n: nat)
    requires n > 0
    ensures var k := |NumberText.Digits(n)|; Pow10(k - 1) <= n < Pow10(k)
  {
    var k := |NumberText.Digits(n)|;
    if n < 10 {
      assert NumberText.Digits(n) == [NumberText.DigitAt(n)];
      assert Pow10(1) == 10 * Pow10(0);
    } else {
      DigitsCount(n / 10);
      assert |NumberText.Digits(n / 10)| == k - 1;
      assert Pow10(k - 1) == 10 * Pow10(k - 2);
    }
  }

  lemma {:induction false} PowersGrow(a: nat, b: nat)
    requires a <= b
    ensures Pow10(a) <= Pow10(b)
  {
    if a < b { PowersGrow(a, b - 1); }
  }

  /** A power is refused when the digits of the base, however many there are, times the exponent pass 2^22. */
  lemma OversizedCounts(base: Decimal, magnitude: nat, k: nat)
    requires base.digits != 0 && k > 0 && Pow10(k - 1) <= Abs(base.digits) < Pow10(k)
    ensures Oversized(base, magnitude)
       <==> (if IsUnit(base) then base.scale * magnitude > 4194304 else k * magnitude > 4194304)
  {
    var n := |NumberText.Digits(Abs(base.digits))|;
    DigitsCount(Abs(base.digits));
    if n < k { PowersGrow(n, k - 1); }
    if k < n { PowersGrow(k, n - 1); }
    hide Pow10, IsUnit;
  }

  function DivDecimal(quotient: (Decimal, Decimal) -> Decimal, a: Decimal, b: Decimal): Result<Decimal, PowFault> {
    if b.digits == 0 then Err(ZeroToNegative) else Ok(quotient(a, b))
  }

  predicate FitsI64(e: int) {
    -NumberText.TWO_63 <= e < NumberText.TWO_63
  }

  predicate Oversized(base: Decimal, magnitude: nat) {
    if IsUnit(base) then base.scale * magnitude > MAX_DIGITS
    else |NumberText.Digits(Abs(base.digits))| * magnitude > MAX_DIGITS
  }

  /**
    * `base` to an integral power: the exact power, with all its fractional digits
    * when the base keeps its scale; its quotient into one when the exponent is negative.
    */
  method PowDecimal(times: (Decimal, Decimal) -> Decimal, quotient: (Decimal, Decimal) -> Decimal,
                    base: Decimal, exp: Decimal) returns (r: Result<Decimal, PowFault>)
    requires ExactProduct(times)
    ensures ToInteger(exp).None? <==> r == Err(NonIntegral)
    ensures ToInteger(exp).Some? ==>
              var e := ToInteger(exp).value;
              && (!FitsI64(e) ==> r == Err(TooLarge))
              && (FitsI64(e) ==>
                    && (e == 0 ==> r == Ok(ONE))
                    && (base.digits == 0 && e > 0 ==> r == Ok(Decimal(0, 0)))
                    && (base.digits == 0 && e < 0 ==> r == Err(ZeroToNegative))
                    && (base.digits != 0 && e != 0 ==>
                          && (Oversized(base, Abs(e)) <==> r == Err(TooLarge))
                          && (r.Ok? <==> r != Err(TooLarge))
                          && (r.Ok? ==> PowerGiven(quotient, base, e, r.value))))
  {
    hide ExactProduct, ToInteger, IsUnit, Equals, UnitPower, Power, Oversized, NumberText.Digits;
    var integer := ToInteger(exp);
    if integer.None? { return Err(NonIntegral); }
    var e := integer.value;
    if !FitsI64(e) { return Err(TooLarge); }
    if base.digits == 0 {
      return if e == 0 then Ok(ONE) else if e > 0 then Ok(Decimal(0, 0)) else Err(ZeroToNegative);
    }
    if e == 0 { return Ok(ONE); }
    var magnitude := Abs(e);
    if Oversized(base, magnitude) { return Err(TooLarge); }
    var power;
    if IsUnit(base) {
      UnitScale(base);
      power := UnitPower(base, magnitude);
      UnitPowerAgrees(base, magnitude);
      EqualsItself(power);
    } else {
      power := PowerBySquaring(times, base, magnitude);
    }
    PowerNonZero(base.digits, magnitude);
    EqualsNonZero(power, Decimal(Power(base.digits, magnitude), base.scale * magnitude));
    r := if e < 0 then DivDecimal(quotient, ONE, power) else Ok(power);
    GivenBy(quotient, base, e, power);
  }

  /** The exact power, or one divided by it. */
  ghost predicate PowerGiven(quotient: (Decimal, Decimal) -> Decimal, base: Decimal, e: int, r: Decimal) {
    exists power ::
      && Equals(power, Decimal(Power(base.digits, Abs(e)), base.scale * Abs(e)))
      && (KeepsScale(base) ==> power == Decimal(Power(base.digits, Abs(e)), base.scale * Abs(e)))
      && r == if e < 0 then quotient(ONE, power) else power
  }

  lemma GivenBy(quotient: (Decimal, Decimal) -> Decimal, base: Decimal, e: int, power: Decimal)
    requires Equals(power, Decimal(Power(base.digits, Abs(e)), base.scale * Abs(e)))
    requires KeepsScale(base) ==> power == Decimal(Power(base.digits, Abs(e)), base.scale * Abs(e))
    ensures PowerGiven(quotient, base, e, if e < 0 then quotient(ONE, power) else power)
  {
  }

  lemma EqualsNonZero(d: Decimal, exact: Decimal)
    requires Equals(d, exact) && exact.digits != 0
    ensures d.digits != 0
  {
  }
}
