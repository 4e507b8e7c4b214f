/**
 The calculation of a price as it is carried out: every quotient is rounded to the 28 digits of the
 default decimal context, and a whole number of more digits is refused (pricing_policy.py:70-78 and
 :100-110, with pricing/calculator.py:57-123).
 */
module CalculatorContext {
  import opened Base
  import Moneys
  import opened Pricing
  import opened Calculator
  import opened PricingContext

  /** The first whole number of 29 digits. */
  const TOO_LONG := 10_000_000_000_000_000_000_000_000_000

  /** To a whole number, upwards; a result of more than 28 digits is refused. */
  function Quantized(z: real): Result<int, Moneys.MoneyError> {
    var n := Ceiling(z);
    if n >= TOO_LONG || -n >= TOO_LONG then Err(Moneys.InvalidOperation) else Ok(n)
  }

  lemma AtMost(n: int, u: real)
    requires u > 0.0 && -TOO_LONG <= n <= TOO_LONG
    ensures Abs(n as real * u) <= TOO_LONG as real * u
    ensures n != 0 ==> Abs(n as real * u) > 0.0
  {
    ProductIsNotNegative((TOO_LONG - n) as real, u);
    ProductIsNotNegative((TOO_LONG + n) as real, u);
    assert n > 0 ==> n as real * u > 0.0;
    assert n < 0 ==> -n as real * u > 0.0;
  }

  lemma FinerUnits(x: real, n: int, k: int, j: int)
    requires x == n as real * Pow10(k) && j <= k && Pow10(j + 27) <= Abs(x) < Pow10(j + 28)
    ensures IsRounded(x, x)
  {
    hide Pow10, RoundHalfEven;
    var whole := PowerIsWhole(k - j);
    PowersMultiply(k - j, j);
    Reassociate(n as real, whole as real, Pow10(j));
    assert (n * whole) as real == n as real * whole as real;
    DividesBack(x, (n * whole) as real, Pow10(j));
    RoundHalfEvenIsUnique(x / Pow10(j), n * whole);
    assert RoundsAt(x, x, j);
  }

  lemma ZeroStays()
    ensures Rounded(0.0) == 0.0
  {
  }

  lemma RoundedIs(y: real, z: real)
    requires IsRounded(y, z)
    ensures Rounded(y) == z
  {
    var x := RoundedExists(y);
  }

  lemma TooLongIsAPower()
    ensures Pow10(28) == TOO_LONG as real && Pow10(27) * 10.0 == TOO_LONG as real
  {
    hide Pow10;
    Thousand();
    NextPower(3);
    NextPower(4);
    NextPower(5);
    NextPower(6);
    PowersMultiply(7, 7);
    PowersMultiply(14, 14);
    NextPower(27);
  }

  lemma PowerStays(x: real, j: int)
    requires Abs(x) == Pow10(j + 27)
    ensures IsRounded(x, x)
  {
    hide Pow10, IsRounded;
    TooLongIsAPower();
    PowersMultiply(27, j);
    NextPower(j + 27);
    var m := TOO_LONG / 10;
    assert m as real * Pow10(j) == Pow10(j + 27) && (-m) as real * Pow10(j) == -Pow10(j + 27);
    FinerUnits(x, if x > 0.0 then m else -m, j, j);
  }

  /** A whole number of units that has 28 digits, or is the first of 29, is its own rounded value. */
  lemma ShortNumbersStay(x: real, n: int, k: int)
    requires x == n as real * Pow10(k) && -TOO_LONG <= n <= TOO_LONG
    ensures Rounded(x) == x
  {
    hide Pow10, Rounded, IsRounded;
    AtMost(n, Pow10(k));
    if n == 0 {
      ZeroStays();
    } else {
      var j := ScaleOf(Abs(x));
      TooLongIsAPower();
      PowersMultiply(28, k);
      if j <= k {
        FinerUnits(x, n, k, j);
      } else {
        PowersGrow(28 + k, j + 27);
        PowerStays(x, j);
      }
      RoundedIs(x, x);
    }
  }

  /** The target and what is left of the price are short. */
  lemma TargetStays(target: int)
    requires 0 <= target < 1000
    ensures Rounded(target as real / 1000.0) == target as real / 1000.0
    ensures Rounded(1.0 - target as real / 1000.0) == 1.0 - target as real / 1000.0
  {
    hide Pow10, Rounded;
    Thousandth();
    ShortNumbersStay(target as real / 1000.0, target, -3);
    ShortNumbersStay(1.0 - target as real / 1000.0, 1000 - target, -3);
  }

  ghost function SellPriceInContext(total: Moneys.Money, target: int): Result<Moneys.Money, Moneys.MoneyError> {
    if !(0 <= target < 1000) then Err(Moneys.InvalidMargin)
    else
      var margin := Rounded(target as real / 1000.0);
      TargetStays(target);
      var raw := Rounded(total.amountMinor as real / Rounded(1.0 - margin));
      var minor :- Quantized(raw);
      Moneys.Make(minor, total.currency, total.minorUnit)
  }

  ghost function MarginInContext(total: Moneys.Money, sell: Moneys.Money): Result<int, Moneys.MoneyError> {
    if sell.amountMinor <= 0 then Err(Moneys.InvalidMargin)
    else
      var margin := Rounded((sell.amountMinor - total.amountMinor) as real / sell.amountMinor as real);
      Quantized(Rounded(margin * 1000.0))
  }

  ghost function CalculateInContext(rates: seq<RateResolution>, prior: Option<PriorSnapshot>,
                                    marginFloorRef: Option<string>): Result<Calculation, Moneys.MoneyError>
    requires rates != []
  {
    var total :- SumCosts(rates, |rates|);
    var r2 :- EvaluateR2(LastRate(rates), prior);
    var profile := ResolveProfile(marginFloorRef);
    var target := TargetMargin(profile, r2.result == OverThreshold);
    var unrounded :- SellPriceInContext(total, target);
    var sell :- CommercialRoundUp(unrounded);
    var margin :- MarginInContext(total, sell);
    Ok(Calculation(total, sell, margin, LastRate(rates), [EvaluateR1(profile, margin), r2] + UNEVALUATED))
  }

  // ---------------------------------------------------------------- numbers that are not rounded

  lemma QuotientIsBelowIff(y: real, u: real, limit: real)
    requires u > 0.0
    ensures y / u < limit <==> y < limit * u
  {
    var x := y / u;
    assert x * u == y;
    assert x < limit ==> (limit - x) * u > 0.0;
    assert x >= limit ==> (x - limit) * u >= 0.0;
  }

  lemma QuotientIsWithin(y: real, u: real, limit: real)
    requires u > 0.0 && Abs(y) < limit * u
    ensures -limit < y / u < limit
  {
    QuotientIsBelowIff(y, u, limit);
    QuotientIsBelowIff(-y, u, limit);
    DividesBack(-y, -(y / u), u);
  }

  lemma RoundsWithin(x: real, limit: int)
    requires -(limit as real) < x < limit as real
    ensures -limit <= RoundHalfEven(x) <= limit
  {
    RoundingBounds(x, limit);
    RoundingBounds(x, -limit);
  }

  lemma RoundedIsWhole(y: real, z: real, k: int) returns (n: int)
    requires RoundsAt(y, z, k)
    ensures z == n as real * Pow10(k) && -TOO_LONG <= n <= TOO_LONG
  {
    hide Pow10, RoundHalfEven;
    n := RoundHalfEven(y / Pow10(k));
    TooLongIsAPower();
    PowersMultiply(28, k);
    QuotientIsWithin(y, Pow10(k), TOO_LONG as real);
    RoundsWithin(y / Pow10(k), TOO_LONG);
  }

  /** Multiplying by a thousand adds no digits. */
  lemma ThousandfoldStays(y: real, z: real)
    requires IsRounded(y, z)
    ensures Rounded(z * 1000.0) == z * 1000.0
  {
    hide Pow10, Rounded, RoundsAt;
    if y == 0.0 {
      ZeroStays();
    } else {
      var k :| RoundsAt(y, z, k);
      var n := RoundedIsWhole(y, z, k);
      PowersMultiply(k, 3);
      Thousand();
      Reassociate(n as real, Pow10(k), 1000.0);
      ShortNumbersStay(z * 1000.0, n, k + 3);
    }
  }

  // ---------------------------------------------------------------- arithmetic

  lemma QuotientIsTheSame(c: int, target: int)
    requires 0 <= target < 1000
    ensures c as real / (1.0 - target as real / 1000.0) == 1000.0 * c as real / (1000 - target) as real
  {
    var d, b := 1.0 - target as real / 1000.0, (1000 - target) as real;
    var x := c as real / d;
    assert x * d == c as real && 1000.0 * d == b;
    assert x * b == 1000.0 * (x * d);
    DividesBack(1000.0 * c as real, x, b);
  }

  lemma CeilingIsLeast(x: real, q: int)
    ensures Ceiling(x) <= q <==> x <= q as real
  {
  }

  /** In the widest band rounding up is a ceiling, too, so that a fraction that is left over does not matter. */
  lemma RoundUpOfCeiling(x: real)
    requires x >= 1_000_000.0
    ensures RoundUpCents(Ceiling(x)) == 5_000 * Ceiling(x / 5_000.0)
  {
    hide Ceiling, RoundUpCents;
    var n, m := Ceiling(x), Ceiling(x / 5_000.0);
    CeilingIsLeast(x, 999_999);
    RoundUpIsLeastGridPrice(n, 5_000 * m);
    CeilingIsLeast(x, 5_000 * m);
    CeilingIsLeast(x / 5_000.0, m);
    var k := RoundUpCents(n) / 5_000;
    CeilingIsLeast(x, 5_000 * k);
    CeilingIsLeast(x / 5_000.0, k);
  }

  lemma CeilingOfQuotient(a: int, b: int)
    requires b > 0
    ensures Ceiling(a as real / b as real) == CeilDiv(a, b)
  {
    if a % b == 0 {
      WholeQuotient(a, b, a / b);
    }
    PositiveQuotient(1.0, b as real);
    SmallErrorKeepsCeiling(a, b, a as real / b as real);
  }

  /** Scales of numbers below ten to the 28, and of those from there on. */
  lemma ScaleAt28(y: real, z: real, k: int)
    requires RoundsAt(y, z, k) && y > 0.0
    ensures y < Pow10(28) ==> k <= 0 && Pow10(k) <= 1.0
    ensures y >= Pow10(28) ==> k >= 1
  {
    hide Pow10;
    if y < Pow10(28) {
      ScaleIsFine(y, z, k, 28);
      PowersGrow(k, 0);
      ZerothPower();
    } else if k <= 0 {
      PowersGrow(k + 28, 28);
    }
  }

  // ---------------------------------------------------------------- the sell price

  lemma FiveThousandth(c: int, b: int, y: real)
    requires b > 0 && y == 1000.0 * c as real / b as real
    ensures y / 5_000.0 == c as real / (5 * b) as real
  {
    assert y * b as real == 1000.0 * c as real;
    assert y / 5_000.0 * (5 * b) as real == c as real;
    DividesBack(c as real, y / 5_000.0, (5 * b) as real);
  }

  lemma SmallestStep(b: int)
    requires 0 < b <= 1000
    ensures 1.0 / (5 * b) as real >= 0.0002
  {
    var x := 1.0 / (5 * b) as real;
    assert x * (5 * b) as real == 1.0;
    assert x < 0.0002 ==> x * (5 * b) as real < 1.0;
  }

  /** A price of a million cents and more comes out the same, although its last cents may not. */
  lemma LargePriceIsExact(c: int, b: int, y: real, z: real, k: int)
    requires 0 < b <= 1000 && y == 1000.0 * c as real / b as real && y >= 2_000_000.0
    requires RoundsAt(y, z, k) && k <= 0 && Pow10(k) <= 1.0
    ensures RoundUpCents(Ceiling(z)) == RoundUpCents(CeilDiv(1000 * c, b))
  {
    hide Pow10, RoundUpCents, CeilDiv, Ceiling, RoundsAt;
    CeilingOfQuotient(1000 * c, b);
    RoundUpOfCeiling(y);
    RoundingError(y, z, k);
    RoundUpOfCeiling(z);
    CeilingOfQuotient(c, 5 * b);
    FiveThousandth(c, b, y);
    if c % (5 * b) == 0 {
      WholeQuotient(c, 5 * b, c / (5 * b));
      ZerothPower();
      WholeAtScale(0, y, z, k, 5_000 * (c / (5 * b)));
    }
    SmallestStep(b);
    SmallErrorKeepsCeiling(c, 5 * b, z / 5_000.0);
  }

  lemma QuotientIsAtLeast(y: real, u: real, limit: real)
    requires u > 0.0 && y >= limit * u
    ensures y / u >= limit
  {
    var x := y / u;
    assert x * u == y;
    assert x < limit ==> (limit - x) * u > 0.0;
  }

  lemma LongWhenRounded(y: real, z: real, k: int)
    requires RoundsAt(y, z, k) && k >= 1 && y > 0.0
    ensures z >= TOO_LONG as real
  {
    hide Pow10, RoundHalfEven;
    var u := Pow10(k);
    var n := PowerIsWhole(27);
    PowersMultiply(27, k);
    PowersGrow(28, k + 27);
    TooLongIsAPower();
    QuotientIsAtLeast(y, u, n as real);
    RoundingBounds(y / u, n);
    ProductIsNotNegative((RoundHalfEven(y / u) - n) as real, u);
  }

  lemma AtScaleZero(y: real, z: real)
    requires RoundsAt(y, z, 0)
    ensures z == RoundHalfEven(y) as real
  {
    hide RoundHalfEven;
    ZerothPower();
    DividesBack(y, y, Pow10(0));
  }

  lemma WholeIsShortIff(y: real, n: int)
    requires y > 0.0 && n == RoundHalfEven(y)
    ensures n >= 0 && (n < TOO_LONG <==> y < TOO_LONG as real - 0.5)
  {
    hide RoundHalfEven;
    RoundingBounds(y, 0);
    RoundingBounds(y, TOO_LONG);
    RoundingBounds(y, TOO_LONG - 1);
    if y == TOO_LONG as real - 0.5 {
      RoundHalfEvenIsUnique(y, TOO_LONG);
    }
  }

  lemma WholeRounding(y: real, z: real)
    requires RoundsAt(y, z, 0) && y > 0.0
    ensures Quantized(z).Ok? <==> y < TOO_LONG as real - 0.5
    ensures z >= 0.0
  {
    hide RoundsAt, RoundHalfEven;
    AtScaleZero(y, z);
    WholeIsShortIff(y, RoundHalfEven(y));
  }

  lemma ShortWhenRounded(y: real, z: real, k: int)
    requires RoundsAt(y, z, k) && y > 0.0 && k < 0 && Pow10(k) <= 1.0
    ensures Quantized(z).Ok? && y < TOO_LONG as real - 0.5
    ensures z >= 0.0
  {
    hide Pow10;
    RoundingError(y, z, k);
    TooLongIsAPower();
    PowersGrow(k + 28, 27);
    RoundingBounds(y / Pow10(k), 0);
    PositiveQuotient(y, Pow10(k));
    ProductIsNotNegative(RoundHalfEven(y / Pow10(k)) as real, Pow10(k));
  }

  /** The rounded quotient has too many digits just when it was less than half a cent away from having them. */
  lemma PriceFitsIff(y: real, z: real)
    requires y >= 0.0 && IsRounded(y, z)
    ensures Quantized(z).Ok? <==> y < TOO_LONG as real - 0.5
    ensures Quantized(z).Err? ==> Quantized(z).error == Moneys.InvalidOperation
    ensures z >= 0.0
  {
    hide Pow10, RoundsAt;
    if y > 0.0 {
      var k :| RoundsAt(y, z, k);
      TooLongIsAPower();
      ScaleAt28(y, z, k);
      if k >= 1 {
        LongWhenRounded(y, z, k);
      } else if k == 0 {
        WholeRounding(y, z);
      } else {
        ShortWhenRounded(y, z, k);
      }
    }
  }

  lemma SellPriceIs(total: Moneys.Money, target: int)
    requires 0 <= target < 1000
    ensures var z := Rounded(1000.0 * total.amountMinor as real / (1000 - target) as real);
            SellPriceInContext(total, target)
            == if Quantized(z).Err? then Err(Quantized(z).error)
               else Moneys.Make(Quantized(z).value, total.currency, total.minorUnit)
  {
    hide Rounded, Quantized;
    TargetStays(target);
    QuotientIsTheSame(total.amountMinor, target);
  }

  /** The price fits into 28 digits: a condition on the cost and the target alone. */
  predicate Fits(c: int, target: int) {
    2000 * c < (2 * TOO_LONG - 1) * (1000 - target)
  }

  lemma HalfBelow(b: int, limit: real)
    requires limit == TOO_LONG as real - 0.5
    ensures limit * b as real * 2.0 == ((2 * TOO_LONG - 1) * b) as real
  {
  }

  lemma FitsIff(c: int, target: int)
    requires 0 <= target < 1000
    ensures Fits(c, target) <==> 1000.0 * c as real / (1000 - target) as real < TOO_LONG as real - 0.5
  {
    QuotientIsBelowIff(1000.0 * c as real, (1000 - target) as real, TOO_LONG as real - 0.5);
    HalfBelow(1000 - target, TOO_LONG as real - 0.5);
  }

  lemma PriceIsExact(c: int, b: int, y: real, z: real)
    requires c >= 0 && 0 < b <= 1000 && y == 1000.0 * c as real / b as real && y < TOO_LONG as real - 0.5
    requires IsRounded(y, z)
    ensures RoundUpCents(Ceiling(z)) == RoundUpCents(CeilDiv(1000 * c, b))
  {
    hide Pow10, RoundUpCents, CeilDiv, Ceiling, RoundsAt;
    TooLongIsAPower();
    if y < Pow10(25) {
      SellPriceIsUnaffected(c, 1000 - b, z);
    } else {
      PowersGrow(7, 25);
      Thousand();
      NextPower(3);
      NextPower(4);
      NextPower(5);
      NextPower(6);
      var k :| RoundsAt(y, z, k);
      ScaleAt28(y, z, k);
      LargePriceIsExact(c, b, y, z, k);
    }
  }

  /** The price a customer sees is the exact one if it fits, and refused if it does not. */
  lemma SellPriceIsExactIff(total: Moneys.Money, target: int)
    requires total.amountMinor >= 0 && 0 <= target < 1000
    ensures !Fits(total.amountMinor, target) ==> SellPriceInContext(total, target) == Err(Moneys.InvalidOperation)
    ensures Fits(total.amountMinor, target) ==>
              && SellPriceInContext(total, target).Ok? && CalculateSellPrice(total, target).Ok?
              && CommercialRoundUp(SellPriceInContext(total, target).value)
                 == CommercialRoundUp(CalculateSellPrice(total, target).value)
  {
    hide Pow10, RoundUpCents, CeilDiv, IsRounded, Fits, SellPriceInContext;
    var c, b := total.amountMinor, 1000 - target;
    var y := 1000.0 * c as real / b as real;
    SellPriceIs(total, target);
    FitsIff(c, target);
    QuotientIsAtLeast(1000.0 * c as real, b as real, 0.0);
    PriceFitsIff(y, Rounded(y));
    ComposedPrice(total, target);
    if Fits(c, target) {
      PriceIsExact(c, b, y, Rounded(y));
    }
  }

  // ---------------------------------------------------------------- the margin

  lemma ReducedMargin(c: int, p: int)
    requires p > 0 && p % 1000 == 0
    ensures p / 1000 > 0 && CeilDiv(p - c, p / 1000) == ActualMargin(c, p)
    ensures (p - c) as real / p as real * 1000.0 == (p - c) as real / (p / 1000) as real
  {
    hide CeilDiv, Ceiling;
    var b := p / 1000;
    var x, y := (p - c) as real / b as real, (p - c) as real / p as real;
    ScaledQuotient(p - c, p);
    assert p as real == 1000.0 * b as real;
    assert y * p as real == (p - c) as real;
    DividesBack((p - c) as real, 1000.0 * y, b as real);
    CeilingOfQuotient(p - c, b);
    CeilingOfQuotient(1000 * (p - c), p);
  }

  lemma RatioIsProper(d: real, p: real)
    requires 0.0 < d < p
    ensures 0.0 < d / p < 1.0
  {
    var x := d / p;
    assert x * p == d;
    assert x >= 1.0 ==> (x - 1.0) * p >= 0.0;
    PositiveQuotient(d, p);
  }

  lemma LargeMarginIsExact(c: int, p: int, z: real)
    requires 0 < c <= p <= TOO_LONG && p % 1000 == 0 && IsRounded((p - c) as real / p as real, z)
    ensures Ceiling(1000.0 * z) == ActualMargin(c, p)
  {
    hide Pow10, CeilDiv, RoundsAt, Ceiling;
    var b, y := p / 1000, (p - c) as real / p as real;
    ReducedMargin(c, p);
    if c == p {
      MarginIsUnaffected(c, p, z);
    } else {
      RatioIsProper((p - c) as real, p as real);
      var k :| RoundsAt(y, z, k);
      ZerothPower();
      ScaleIsFine(y, z, k, 0);
      PowersGrow(k + 3, -25);
      PowersMultiply(-25, 25);
      PowersMultiply(3, 25);
      TooLongIsAPower();
      Thousand();
      Shrunk(Pow10(k + 3), b as real, Pow10(-25), Pow10(25));
      FineRoundingKeepsCeiling(p - c, b, 3, y, z, k, 1000.0 * z);
    }
  }

  lemma MarginIsSmall(c: int, p: int)
    requires 0 < c <= p
    ensures 0 <= ActualMargin(c, p) <= 1000
  {
    hide CeilDiv;
    CeilDivIsLeast(1000 * (p - c), p, 1000);
    CeilDivIsLeast(1000 * (p - c), p, -1);
  }

  /** The margin of a grid price that covers its cost is exact. */
  lemma MarginIsExact(total: Moneys.Money, sell: Moneys.Money)
    requires 0 < total.amountMinor <= sell.amountMinor <= TOO_LONG && OnGrid(sell.amountMinor)
    ensures MarginInContext(total, sell) == MarginPctX10(total, sell)
  {
    hide Pow10, IsRounded, Ceiling, CeilDiv;
    var c, p := total.amountMinor, sell.amountMinor;
    ThousandfoldStays((p - c) as real / p as real, Rounded((p - c) as real / p as real));
    if p < 1_000_000 {
      Thousand();
      PowersMultiply(3, 3);
      PowersGrow(6, 24);
      MarginIsUnaffected(c, p, Rounded((p - c) as real / p as real));
    } else {
      LargeMarginIsExact(c, p, Rounded((p - c) as real / p as real));
    }
    MarginIsSmall(c, p);
  }

  // ---------------------------------------------------------------- the calculation

  lemma GridPriceIsShort(c: int, target: int)
    requires c > 0 && 0 <= target < 1000 && Fits(c, target)
    ensures c <= SellCents(c, target) <= TOO_LONG && OnGrid(SellCents(c, target))
  {
    hide CeilDiv, RoundUpCents;
    var b := 1000 - target;
    LeastCompliantPrice(c, target, 0);
    var p := SellCents(c, target);
    assert p * b >= 1000 * c;
    PositiveCostHasPositivePrice(c, target);
    ProductGrows(b, 1000, p);
    RoundUpIsLeastGridPrice(CeilDiv(1000 * c, b), TOO_LONG);
    CeilDivIsLeast(1000 * c, b, TOO_LONG);
  }

  /** The cost and the target a calculation that succeeds has worked with. */
  ghost predicate PriceFits(rates: seq<RateResolution>, prior: Option<PriorSnapshot>, marginFloorRef: Option<string>)
    requires rates != []
  {
    SumCosts(rates, |rates|).Ok? && EvaluateR2(LastRate(rates), prior).Ok? ==>
      var fx := EvaluateR2(LastRate(rates), prior).value.result == OverThreshold;
      Fits(SumCosts(rates, |rates|).value.amountMinor, TargetMargin(ResolveProfile(marginFloorRef), fx))
  }

  lemma NothingIsRefused(total: Moneys.Money, sell: Moneys.Money)
    requires sell.amountMinor <= 0
    ensures MarginInContext(total, sell) == MarginPctX10(total, sell)
  {
  }

  lemma NothingFits(total: Moneys.Money, target: int)
    requires total.amountMinor >= 0 && 0 <= target < 1000 && !Fits(total.amountMinor, target)
    ensures total.amountMinor > 0
  {
  }

  lemma MarginIsDefined(total: Moneys.Money, sell: Moneys.Money)
    requires sell.amountMinor > 0
    ensures MarginPctX10(total, sell).Ok?
  {
  }

  /**
   Rounding every quotient to 28 digits never changes a calculation, although it can change a quotient's ceiling
   (`SellPriceBoundIsSharp`, `MarginBoundIsSharp`): the result is the exact one if and only if the price fits
   into 28 digits, and else the calculation is refused.
   */
  lemma {:induction false} CalculationIsExactIff(rates: seq<RateResolution>, prior: Option<PriorSnapshot>,
                                                 marginFloorRef: Option<string>)
    requires rates != [] && forall k :: 0 <= k < |rates| ==> rates[k].cost.amountMinor >= 0
    ensures CalculateInContext(rates, prior, marginFloorRef) == Calculate(rates, prior, marginFloorRef)
            <==> PriceFits(rates, prior, marginFloorRef)
    ensures !PriceFits(rates, prior, marginFloorRef) ==>
              CalculateInContext(rates, prior, marginFloorRef) == Err(Moneys.InvalidOperation)
  {
    hide Pow10, SumCosts, SumMinor, LastRate, EvaluateR2, ResolveProfile, TargetMargin, SellPriceInContext, Fits,
      MarginInContext, CalculateSellPrice, MarginPctX10, CommercialRoundUp, SellCents, OnGrid;
    UnitsMatchIff(rates);
    if SumCosts(rates, |rates|).Ok? && EvaluateR2(LastRate(rates), prior).Ok? {
      var total, fx := SumCosts(rates, |rates|).value, EvaluateR2(LastRate(rates), prior).value.result == OverThreshold;
      var target := TargetMargin(ResolveProfile(marginFloorRef), fx);
      TargetsAreInRange(marginFloorRef, fx);
      SellPriceIsExactIff(total, target);
      ComposedPrice(total, target);
      var sell := CommercialRoundUp(CalculateSellPrice(total, target).value).value;
      if Fits(total.amountMinor, target) {
        if total.amountMinor > 0 {
          GridPriceIsShort(total.amountMinor, target);
          MarginIsExact(total, sell);
        } else {
          NothingIsRefused(total, sell);
        }
      } else {
        NothingFits(total, target);
        MarginIsDefined(total, sell);
      }
    }
  }
}
