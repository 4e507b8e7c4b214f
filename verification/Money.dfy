/**
 Money as an integer count of minor units (pricing/money.py), and the currency conversion that
 feeds it (mock_fx/convert.py).  Decimal arithmetic is exact rational arithmetic here; see
 `PricingContext` and `CalculatorContext` for what the 28-digit context could change.
 */
module Moneys {
  import opened Base

  datatype Money = Money(amountMinor: int, currency: string, minorUnit: nat)

  datatype MoneyError = NegativeAmount | CurrencyMismatch | ScaleMismatch | InvalidMargin | DivisionByZero
                      | InvalidOperation

  /** Construction refuses a negative amount. */
  function Make(amount: int, currency: string, minorUnit: nat): Result<Money, MoneyError> {
    if amount < 0 then Err(NegativeAmount) else Ok(Money(amount, currency, minorUnit))
  }

  function Pow10(n: nat): (p: real)
    ensures p >= 1.0
  {
    if n == 0 then 1.0 else 10.0 * Pow10(n - 1)
  }

  /** Major units to minor units and back, unrounded. */
  function Scaled(amount: real, minorUnit: nat): real {
    amount * Pow10(minorUnit)
  }

  /** Without decimals the amount counts itself; every further decimal makes it ten times as many. */
  lemma MinorUnitsAreTenths(amount: real, n: nat)
    ensures Scaled(amount, 0) == amount
    ensures Scaled(amount, n + 1) == 10.0 * Scaled(amount, n)
  {
  }

  function Unscaled(minor: real, minorUnit: nat): real {
    minor / Pow10(minorUnit)
  }

  lemma ScaleBack(x: real, minorUnit: nat)
    ensures Scaled(Unscaled(x, minorUnit), minorUnit) == x
  {
  }

  function FromMajor(amount: real, currency: string, minorUnit: nat): Result<Money, MoneyError> {
    Make(RoundHalfEven(Scaled(amount, minorUnit)), currency, minorUnit)
  }

  function Major(m: Money): real {
    Unscaled(m.amountMinor as real, m.minorUnit)
  }

  function Add(a: Money, b: Money): Result<Money, MoneyError> {
    if b.currency != a.currency then Err(CurrencyMismatch)
    else if b.minorUnit != a.minorUnit then Err(ScaleMismatch)
    else Make(a.amountMinor + b.amountMinor, a.currency, a.minorUnit)
  }

  /** Writing an amount in major units and reading it back loses nothing. */
  lemma MajorRoundTrips(m: Money)
    requires m.amountMinor >= 0
    ensures FromMajor(Major(m), m.currency, m.minorUnit) == Ok(m)
  {
    hide Scaled, Unscaled, RoundHalfEven;
    ScaleBack(m.amountMinor as real, m.minorUnit);
    RoundHalfEvenIsUnique(m.amountMinor as real, m.amountMinor);
  }

  lemma SumOfQuotients(x: real, y: real, p: real)
    requires p > 0.0
    ensures (x + y) / p == x / p + y / p
  {
  }

  /** Sums of constructed amounts: defined exactly for one currency at one scale, and exact. */
  lemma AddIsExact(a: Money, b: Money)
    requires a.amountMinor >= 0 && b.amountMinor >= 0
    ensures Add(a, b).Ok? <==> a.currency == b.currency && a.minorUnit == b.minorUnit
    ensures Add(a, b).Ok? ==> Major(Add(a, b).value) == Major(a) + Major(b)
    ensures Add(a, b).Ok? ==> Add(b, a) == Add(a, b)
  {
    if Add(a, b).Ok? {
      var p := Pow10(a.minorUnit);
      assert p > 0.0;
      SumOfQuotients(a.amountMinor as real, b.amountMinor as real, p);
    }
  }

  // ---------------------------------------------------------------- conversion

  /** To nearest, ties away from zero. */
  function RoundHalfUp(x: real): (n: int)
    ensures Abs(x - n as real) <= 0.5
    ensures Abs(x - n as real) == 0.5 ==> Abs(n as real) > Abs(x)
  {
    if x >= 0.0 then (x + 0.5).Floor else -((-x + 0.5).Floor)
  }

  /** The exact converted amount, in minor units of the target currency. */
  function ExactConversion(amount: real, rate: real, targetMinorUnit: nat): real {
    Scaled(amount * rate, targetMinorUnit)
  }

  /** The converted amount, quantised to the target currency's precision. */
  function ConvertAmount(amount: real, rate: real, targetMinorUnit: nat): real {
    Unscaled(RoundHalfUp(ExactConversion(amount, rate, targetMinorUnit)) as real, targetMinorUnit)
  }

  /** A converted amount becomes money without a second rounding. */
  lemma ConvertedAmountIsExact(amount: real, rate: real, minorUnit: nat, currency: string)
    ensures FromMajor(ConvertAmount(amount, rate, minorUnit), currency, minorUnit)
            == Make(RoundHalfUp(ExactConversion(amount, rate, minorUnit)), currency, minorUnit)
  {
    hide Scaled, Unscaled, RoundHalfEven, RoundHalfUp, ExactConversion;
    var n := RoundHalfUp(ExactConversion(amount, rate, minorUnit));
    ScaleBack(n as real, minorUnit);
    RoundHalfEvenIsUnique(n as real, n);
  }

  /** One line of a quotation's cost: a major-unit amount and, unless it is in EUR already, a rate. */
  datatype CostLine = CostLine(amount: int, rate: Option<real>)

  /** The exact cost in minor units, and what the program books. */
  function ExactMinor(line: CostLine, minorUnit: nat): real {
    if line.rate.Some? then ExactConversion(line.amount as real, line.rate.value, minorUnit)
    else Scaled(line.amount as real, minorUnit)
  }

  function Booked(line: CostLine, currency: string, minorUnit: nat): Result<Money, MoneyError> {
    if line.rate.None? then FromMajor(line.amount as real, currency, minorUnit)
    else FromMajor(ConvertAmount(line.amount as real, line.rate.value, minorUnit), currency, minorUnit)
  }

  lemma {:induction false} PowerIsWhole(n: nat) returns (k: int)
    ensures Pow10(n) == k as real
  {
    if n == 0 {
      k := 1;
    } else {
      var j := PowerIsWhole(n - 1);
      k := 10 * j;
    }
  }

  lemma ScaledIsWhole(amount: int, minorUnit: nat) returns (k: int)
    ensures Scaled(amount as real, minorUnit) == k as real
  {
    var p := PowerIsWhole(minorUnit);
    k := amount * p;
  }

  lemma WholeAmountIsExact(amount: int, currency: string, minorUnit: nat)
    requires FromMajor(amount as real, currency, minorUnit).Ok?
    ensures FromMajor(amount as real, currency, minorUnit).value.amountMinor as real
            == Scaled(amount as real, minorUnit)
  {
    hide RoundHalfEven, Scaled;
    var k := ScaledIsWhole(amount, minorUnit);
    RoundHalfEvenIsUnique(k as real, k);
  }

  lemma BookedIsWithinHalf(line: CostLine, currency: string, minorUnit: nat)
    requires Booked(line, currency, minorUnit).Ok?
    ensures var error := Abs(Booked(line, currency, minorUnit).value.amountMinor as real - ExactMinor(line, minorUnit));
            if line.rate.None? then error == 0.0 else error <= 0.5
  {
    hide Scaled, RoundHalfEven, RoundHalfUp, ConvertAmount, FromMajor, ExactConversion;
    if line.rate.None? {
      WholeAmountIsExact(line.amount, currency, minorUnit);
    } else {
      ConvertedAmountIsExact(line.amount as real, line.rate.value, minorUnit, currency);
    }
  }

  /**
   A line in EUR counts with its own amount, any other with amount times rate, in minor units; what is booked
   is that number to the nearest whole one, a half away from zero, and refused if it is negative.
   */
  lemma BookingMeans(line: CostLine, currency: string, minorUnit: nat) returns (n: int)
    ensures var major := if line.rate.None? then line.amount as real else line.amount as real * line.rate.value;
            && ExactMinor(line, minorUnit) == Scaled(major, minorUnit)
            && Abs(Scaled(major, minorUnit) - n as real) <= 0.5
            && (Abs(Scaled(major, minorUnit) - n as real) == 0.5 ==> Abs(n as real) > Abs(Scaled(major, minorUnit)))
    ensures Booked(line, currency, minorUnit)
            == if n < 0 then Err(NegativeAmount) else Ok(Money(n, currency, minorUnit))
  {
    hide Scaled, RoundHalfEven, RoundHalfUp, ConvertAmount;
    if line.rate.None? {
      n := ScaledIsWhole(line.amount, minorUnit);
      RoundHalfEvenIsUnique(n as real, n);
    } else {
      n := RoundHalfUp(ExactConversion(line.amount as real, line.rate.value, minorUnit));
      ConvertedAmountIsExact(line.amount as real, line.rate.value, minorUnit, currency);
    }
  }

  ghost function ExactTotal(lines: seq<CostLine>, minorUnit: nat): real {
    if lines == [] then 0.0 else ExactTotal(lines[..|lines| - 1], minorUnit) + ExactMinor(Last(lines), minorUnit)
  }

  ghost function BookedTotal(lines: seq<CostLine>, currency: string, minorUnit: nat): int
    requires forall k :: 0 <= k < |lines| ==> Booked(lines[k], currency, minorUnit).Ok?
  {
    if lines == [] then 0
    else
      assert Booked(lines[|lines| - 1], currency, minorUnit).Ok?;
      BookedTotal(lines[..|lines| - 1], currency, minorUnit)
      + Booked(Last(lines), currency, minorUnit).value.amountMinor
  }

  ghost function Conversions(lines: seq<CostLine>): nat {
    if lines == [] then 0 else Conversions(lines[..|lines| - 1]) + (if Last(lines).rate.Some? then 1 else 0)
  }

  /** A total is off by at most half a minor unit per converted line; EUR lines add nothing. */
  lemma {:induction false} TotalErrorIsBounded(lines: seq<CostLine>, currency: string, minorUnit: nat)
    requires forall k :: 0 <= k < |lines| ==> Booked(lines[k], currency, minorUnit).Ok?
    ensures Abs(BookedTotal(lines, currency, minorUnit) as real - ExactTotal(lines, minorUnit))
            <= Conversions(lines) as real / 2.0
  {
    if lines != [] {
      TotalErrorIsBounded(lines[..|lines| - 1], currency, minorUnit);
      assert Booked(lines[|lines| - 1], currency, minorUnit).Ok?;
      BookedIsWithinHalf(Last(lines), currency, minorUnit);
    }
  }
}
