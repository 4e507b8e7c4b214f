/**
 What a calculated price means, in numbers: statements about the inputs and the results of
 pricing/calculator.py and pricing_policy.py alone, with the figures of the policy written out.
 */
module PriceMeaning {
  import opened Base
  import opened Calculator
  import opened Moneys
  import opened Pricing

  // ---------------------------------------------------------------- vocabulary

  /** Whole 5 EUR below 1,000 EUR, whole 10 EUR below 10,000 EUR, whole 50 EUR from there on. */
  predicate IsRoundPrice(p: int) {
    && (p < 100_000 ==> p % 500 == 0)
    && (100_000 <= p < 1_000_000 ==> p % 1_000 == 0)
    && (1_000_000 <= p ==> p % 5_000 == 0)
  }

  /** The least round price of which the cost leaves that many tenths of a percent. */
  ghost predicate IsLeastPrice(p: int, cost: int, target: int) {
    && IsRoundPrice(p) && p * (1000 - target) >= 1000 * cost
    && forall q :: IsRoundPrice(q) && q * (1000 - target) >= 1000 * cost ==> p <= q
  }

  /** Cost `k` is the last one with a conversion, at that rate. */
  predicate ConvertsLast(rates: seq<RateResolution>, k: nat, rate: real) {
    k < |rates| && rates[k].fxRate == Some(rate) && forall l :: k < l < |rates| ==> rates[l].fxRate.None?
  }

  /** The rate of the last conversion among some costs, if there was any. */
  ghost predicate IsLastRate(rates: seq<RateResolution>, used: Option<real>) {
    match used
    case None => forall k :: 0 <= k < |rates| ==> rates[k].fxRate.None?
    case Some(rate) => exists k :: ConvertsLast(rates, k, rate)
  }

  /** The change of the rate in tenths of a percent, to the nearest, against two percent; or nothing to compare. */
  ghost predicate IsRateCheck(r2: RuleResult, used: Option<real>, prior: Option<PriorSnapshot>) {
    if used.None? || prior.None? || prior.value.fxRateSnapshot.None? then
      r2 == RuleResult("R2", None, None, NotEvaluated)
    else
      var now, was := used.value, prior.value.fxRateSnapshot.value;
      && was != 0.0 && r2.actual.Some?
      && r2 == RuleResult("R2", r2.actual, Some(20), if r2.actual.value > 20 then OverThreshold else WithinThreshold)
      && -0.5 <= r2.actual.value as real - 1000.0 * (if now < was then was - now else now - was) / was <= 0.5
      && (was > 0.0 ==> (r2.result == OverThreshold <==> now - was > 0.0205 * was || was - now > 0.0205 * was))
  }

  // ---------------------------------------------------------------- the pieces

  lemma RoundPricesAreGridPrices(p: int)
    ensures IsRoundPrice(p) <==> OnGrid(p)
  {
  }

  lemma LeastPriceIs(p: int, c: int, target: int)
    requires OnGrid(p) && Complies(p, c, target)
    requires forall q :: OnGrid(q) && Complies(q, c, target) ==> p <= q
    ensures IsLeastPrice(p, c, target)
  {
    hide OnGrid, IsRoundPrice;
    RoundPricesAreGridPrices(p);
    forall q | IsRoundPrice(q) && q * (1000 - target) >= 1000 * c
      ensures p <= q
    {
      RoundPricesAreGridPrices(q);
    }
  }

  lemma ConvertsAtTheEnd(rates: seq<RateResolution>)
    requires rates != [] && Last(rates).fxRate.Some?
    ensures ConvertsLast(rates, |rates| - 1, Last(rates).fxRate.value)
  {
  }

  lemma ConvertsLastStill(rates: seq<RateResolution>, k: nat, rate: real)
    requires rates != [] && ConvertsLast(rates[..|rates| - 1], k, rate) && Last(rates).fxRate.None?
    ensures ConvertsLast(rates, k, rate)
  {
    var before := rates[..|rates| - 1];
    assert before[k] == rates[k];
    forall l | k < l < |rates|
      ensures rates[l].fxRate.None?
    {
      if l < |before| {
        assert before[l] == rates[l];
      }
    }
  }

  lemma {:induction false} LastRateIsLast(rates: seq<RateResolution>)
    ensures IsLastRate(rates, LastRate(rates))
  {
    hide ConvertsLast;
    if rates != [] && Last(rates).fxRate.None? {
      var before := rates[..|rates| - 1];
      LastRateIsLast(before);
      match LastRate(before)
      case None =>
        assert forall k :: 0 <= k < |before| ==> before[k] == rates[k];
      case Some(rate) =>
        var k: nat :| ConvertsLast(before, k, rate);
        ConvertsLastStill(rates, k, rate);
    } else if rates != [] {
      ConvertsAtTheEnd(rates);
    }
  }

  lemma QuotientsAgree(d: real, w: real)
    requires w != 0.0
    ensures d / w * 1000.0 == 1000.0 * d / w
  {
    assert d / w * w == d;
    assert 1000.0 * d / w * w == 1000.0 * d;
    assert (d / w * 1000.0 - 1000.0 * d / w) * w == 0.0;
  }

  lemma RateCheckIs(used: Option<real>, prior: Option<PriorSnapshot>)
    requires EvaluateR2(used, prior).Ok?
    ensures IsRateCheck(EvaluateR2(used, prior).value, used, prior)
  {
    hide RoundHalfEven;
    if used.Some? && prior.Some? && prior.value.fxRateSnapshot.Some? {
      var now, was := used.value, prior.value.fxRateSnapshot.value;
      QuotientsAgree(Abs(now - was), was);
      if was > 0.0 {
        R2FiresIff(now, was);
      }
    }
  }

  lemma CeilingIsBetween(a: int, b: int, m: int)
    requires b > 0 && m == CeilDiv(a, b)
    ensures (m - 1) * b < a <= m * b
  {
    hide CeilDiv;
    CeilDivIsLeast(a, b, m);
    CeilDivIsLeast(a, b, m - 1);
  }

  lemma TargetsInNumbers(marginFloorRef: Option<string>, breached: bool)
    ensures TargetMargin(ResolveProfile(marginFloorRef), breached) ==
            if marginFloorRef == Some("strategic-account") then (if breached then 140 else 120)
            else if breached then 200 else 180
    ensures ResolveProfile(marginFloorRef).baseMargin ==
            if marginFloorRef == Some("strategic-account") then 120 else 180
  {
  }

  // ---------------------------------------------------------------- the calculation

  /**
   A successful calculation, whatever the rates: the total is their sum; the price is the least round
   price with a margin of 18 percent, or 12 percent for a strategic account, and of two percent more
   if the rate has moved by more than 2.05 percent; the margin is what is left of it, in tenths of a
   percent rounded up; R1 holds it against 18 or 12 percent.
   */
  lemma CalculationInNumbers(rates: seq<RateResolution>, prior: Option<PriorSnapshot>, marginFloorRef: Option<string>)
    requires rates != [] && forall k :: 0 <= k < |rates| ==> rates[k].cost.amountMinor >= 0
    requires Calculate(rates, prior, marginFloorRef).Ok?
    ensures var x := Calculate(rates, prior, marginFloorRef).value;
            var c, p := x.totalCost.amountMinor, x.sellPrice.amountMinor;
            var strategic := marginFloorRef == Some("strategic-account");
            && c == SumMinor(rates) > 0 && |x.rules| == 5
            && IsLastRate(rates, x.fxRateUsed) && IsRateCheck(x.rules[1], x.fxRateUsed, prior)
            && (var breached := x.rules[1].result == OverThreshold;
                var target := if strategic then (if breached then 140 else 120) else if breached then 200 else 180;
                IsLeastPrice(p, c, target))
            && (x.margin - 1) * p < 1000 * (p - c) <= x.margin * p
            && x.rules[0] == RuleResult("R1", Some(x.margin), Some(if strategic then 120 else 180), WithinThreshold)
            && x.rules[2..] == [RuleResult("R3", None, None, NotEvaluated), RuleResult("R4", None, None, NotEvaluated),
                                RuleResult("R5", None, None, NotEvaluated)]
            && x.totalCost == Money(c, rates[0].cost.currency, rates[0].cost.minorUnit)
            && x.sellPrice == Money(p, rates[0].cost.currency, rates[0].cost.minorUnit)
  {
    hide SumCosts, SumMinor, LastRate, EvaluateR2, OnGrid, Complies, SellCents, CeilDiv, IsLeastPrice, IsLastRate,
      IsRateCheck, TargetMargin, ResolveProfile, CalculateSellPrice, CommercialRoundUp;
    var x := Calculate(rates, prior, marginFloorRef).value;
    var c, p := x.totalCost.amountMinor, x.sellPrice.amountMinor;
    CalculationIsSound(rates, prior, marginFloorRef);
    SumIsTotal(rates, |rates|);
    TargetsInNumbers(marginFloorRef, x.rules[1].result == OverThreshold);
    ComposedPrice(x.totalCost, TargetMargin(ResolveProfile(marginFloorRef), x.rules[1].result == OverThreshold));
    LeastPriceIs(p, c, TargetMargin(ResolveProfile(marginFloorRef), x.rules[1].result == OverThreshold));
    CeilingIsBetween(1000 * (p - c), p, x.margin);
    LastRateIsLast(rates);
    RateCheckIs(x.fxRateUsed, prior);
  }

  /** With the same costs and the same reference a moved rate never makes the price lower. */
  lemma BreachNeverLowersPrice(rates: seq<RateResolution>, prior: Option<PriorSnapshot>, other: Option<PriorSnapshot>,
                               marginFloorRef: Option<string>)
    requires rates != [] && forall k :: 0 <= k < |rates| ==> rates[k].cost.amountMinor >= 0
    requires Calculate(rates, prior, marginFloorRef).Ok? && Calculate(rates, other, marginFloorRef).Ok?
    ensures var x, y := Calculate(rates, prior, marginFloorRef).value, Calculate(rates, other, marginFloorRef).value;
            && |x.rules| == 5 == |y.rules|
            && (x.rules[1].result == OverThreshold ==> x.sellPrice.amountMinor >= y.sellPrice.amountMinor)
  {
    hide Calculate, SumMinor, IsRoundPrice, IsLastRate, IsRateCheck;
    CalculationInNumbers(rates, prior, marginFloorRef);
    CalculationInNumbers(rates, other, marginFloorRef);
  }

  // ---------------------------------------------------------------- the failures

  /** Cost `k` is the first that is not in the currency, or not at the scale, of the first one. */
  predicate IsFirstMisfit(rates: seq<RateResolution>, k: nat)
    requires k < |rates|
  {
    && (rates[k].cost.currency != rates[0].cost.currency || rates[k].cost.minorUnit != rates[0].cost.minorUnit)
    && forall j :: 0 <= j < k ==>
         rates[j].cost.currency == rates[0].cost.currency && rates[j].cost.minorUnit == rates[0].cost.minorUnit
  }

  lemma {:induction false} NoMisfitMeansSame(rates: seq<RateResolution>, n: nat)
    requires n <= |rates| && rates != [] && forall k :: 0 <= k < n ==> !IsFirstMisfit(rates, k)
    ensures forall j :: 0 <= j < n ==>
              rates[j].cost.currency == rates[0].cost.currency && rates[j].cost.minorUnit == rates[0].cost.minorUnit
  {
    if n > 0 {
      NoMisfitMeansSame(rates, n - 1);
      assert !IsFirstMisfit(rates, n - 1);
    }
  }

  lemma {:induction false} SumBeforeMisfit(rates: seq<RateResolution>, n: nat)
    requires n <= |rates| && rates != [] && forall k :: 0 <= k < |rates| ==> rates[k].cost.amountMinor >= 0
    requires forall j :: 0 <= j < n ==>
               rates[j].cost.currency == rates[0].cost.currency && rates[j].cost.minorUnit == rates[0].cost.minorUnit
    ensures SumCosts(rates, n).Ok? && SumCosts(rates, n).value.amountMinor >= 0
    ensures SumCosts(rates, n).value.currency == rates[0].cost.currency
    ensures SumCosts(rates, n).value.minorUnit == rates[0].cost.minorUnit
  {
    if n > 0 {
      SumBeforeMisfit(rates, n - 1);
    }
  }

  lemma SumAtMisfit(rates: seq<RateResolution>, k: nat)
    requires k < |rates| && forall j :: 0 <= j < |rates| ==> rates[j].cost.amountMinor >= 0
    requires IsFirstMisfit(rates, k)
    ensures SumCosts(rates, |rates|)
            == Err(if rates[k].cost.currency != rates[0].cost.currency then CurrencyMismatch else ScaleMismatch)
  {
    SumBeforeMisfit(rates, k);
    SumStaysFailed(rates, k + 1, |rates|);
  }

  lemma PricedUnlessNothing(rates: seq<RateResolution>, prior: Option<PriorSnapshot>, marginFloorRef: Option<string>)
    requires rates != [] && SumCosts(rates, |rates|).Ok? && SumCosts(rates, |rates|).value.amountMinor >= 0
    ensures if EvaluateR2(LastRate(rates), prior).Err?
            then Calculate(rates, prior, marginFloorRef) == Err(EvaluateR2(LastRate(rates), prior).error)
            else if SumCosts(rates, |rates|).value.amountMinor == 0
            then Calculate(rates, prior, marginFloorRef) == Err(InvalidMargin)
            else Calculate(rates, prior, marginFloorRef).Ok?
  {
    hide SumCosts, LastRate, ResolveProfile, TargetMargin, CalculateSellPrice, CommercialRoundUp, FxVariance, SellCents,
      CeilDiv, EvaluateR2;
    if EvaluateR2(LastRate(rates), prior).Ok? {
      var breached := EvaluateR2(LastRate(rates), prior).value.result == OverThreshold;
      TargetsAreInRange(marginFloorRef, breached);
      ComposedPrice(SumCosts(rates, |rates|).value, TargetMargin(ResolveProfile(marginFloorRef), breached));
    }
  }

  lemma RateCheckFailsIff(rates: seq<RateResolution>, prior: Option<PriorSnapshot>)
    ensures EvaluateR2(LastRate(rates), prior).Err? <==>
              prior == Some(PriorSnapshot(Some(0.0))) && exists k :: 0 <= k < |rates| && rates[k].fxRate.Some?
    ensures EvaluateR2(LastRate(rates), prior).Err? ==> EvaluateR2(LastRate(rates), prior).error == DivisionByZero
  {
    hide LastRate, FxVariance;
    LastRateIsLast(rates);
  }

  lemma MisfitIsReported(rates: seq<RateResolution>, prior: Option<PriorSnapshot>, marginFloorRef: Option<string>)
    requires rates != [] && SumCosts(rates, |rates|).Err?
    ensures Calculate(rates, prior, marginFloorRef) == Err(SumCosts(rates, |rates|).error)
  {
    hide SumCosts, LastRate, ResolveProfile, TargetMargin, CalculateSellPrice, CommercialRoundUp, EvaluateR2;
  }

  /**
   Which error a calculation fails with: the first cost in another currency or at another scale, then a
   previous rate of zero that there is something to compare with, then a total of nothing.
   */
  lemma FailuresInNumbers(rates: seq<RateResolution>, prior: Option<PriorSnapshot>, marginFloorRef: Option<string>)
    requires rates != [] && forall k :: 0 <= k < |rates| ==> rates[k].cost.amountMinor >= 0
    ensures forall k :: 0 <= k < |rates| && IsFirstMisfit(rates, k) ==>
              Calculate(rates, prior, marginFloorRef)
              == Err(if rates[k].cost.currency != rates[0].cost.currency then CurrencyMismatch else ScaleMismatch)
    ensures (forall k :: 0 <= k < |rates| ==> !IsFirstMisfit(rates, k)) ==>
              if prior == Some(PriorSnapshot(Some(0.0))) && exists k :: 0 <= k < |rates| && rates[k].fxRate.Some? then
                Calculate(rates, prior, marginFloorRef) == Err(DivisionByZero)
              else if SumMinor(rates) == 0 then Calculate(rates, prior, marginFloorRef) == Err(InvalidMargin)
              else Calculate(rates, prior, marginFloorRef).Ok?
  {
    hide Calculate, SumCosts, SumMinor, LastRate, EvaluateR2, IsFirstMisfit;
    forall k | 0 <= k < |rates| && IsFirstMisfit(rates, k)
      ensures Calculate(rates, prior, marginFloorRef)
              == Err(if rates[k].cost.currency != rates[0].cost.currency then CurrencyMismatch else ScaleMismatch)
    {
      SumAtMisfit(rates, k);
      MisfitIsReported(rates, prior, marginFloorRef);
    }
    if forall k :: 0 <= k < |rates| ==> !IsFirstMisfit(rates, k) {
      NoMisfitMeansSame(rates, |rates|);
      SumBeforeMisfit(rates, |rates|);
      UnitsMatchIff(rates);
      PricedUnlessNothing(rates, prior, marginFloorRef);
      RateCheckFailsIff(rates, prior);
    }
  }
}
