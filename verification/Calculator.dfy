/**
 The calculation core of pricing (pricing/calculator.py): total cost, the FX-variance rule R2,
 the price, and the margin-floor rule R1.
 */
module Calculator {
  import opened Base
  import opened Moneys
  import opened Pricing

  /** One rate reference's cost, already in the quote currency; the rate if a conversion took place. */
  datatype RateResolution = RateResolution(routeId: string, cost: Money, fxRate: Option<real>)

  /** What the previous version knows about its own rate. */
  datatype PriorSnapshot = PriorSnapshot(fxRateSnapshot: Option<real>)

  datatype Verdict = WithinThreshold | BelowFloor | OverThreshold | NotEvaluated

  datatype RuleResult = RuleResult(ruleId: string, actual: Option<int>, threshold: Option<int>, result: Verdict)

  datatype Calculation = Calculation(totalCost: Money, sellPrice: Money, margin: int, fxRateUsed: Option<real>,
                                     rules: seq<RuleResult>)

  const R2_THRESHOLD := 20

  const UNEVALUATED: seq<RuleResult> := [
    RuleResult("R3", None, None, NotEvaluated), RuleResult("R4", None, None, NotEvaluated),
    RuleResult("R5", None, None, NotEvaluated)]

  // ---------------------------------------------------------------- the pieces

  /** Sum of the first `n` costs, left to right; mixed currencies or scales are refused. */
  function SumCosts(rates: seq<RateResolution>, n: nat): Result<Money, MoneyError>
    requires rates != [] && n <= |rates|
  {
    if n == 0 then Ok(Money(0, rates[0].cost.currency, rates[0].cost.minorUnit))
    else
      var sum :- SumCosts(rates, n - 1);
      Add(sum, rates[n - 1].cost)
  }

  /** The rate of the last conversion, if there was any. */
  function LastRate(rates: seq<RateResolution>): Option<real> {
    if rates == [] then None
    else if Last(rates).fxRate.Some? then Last(rates).fxRate
    else LastRate(rates[..|rates| - 1])
  }

  function FxVariance(current: real, prior: real): int
    requires prior != 0.0
  {
    RoundHalfEven(Abs(current - prior) / prior * 1000.0)
  }

  function EvaluateR2(fxRate: Option<real>, prior: Option<PriorSnapshot>): Result<RuleResult, MoneyError> {
    if fxRate.None? || prior.None? || prior.value.fxRateSnapshot.None? then
      Ok(RuleResult("R2", None, None, NotEvaluated))
    else if prior.value.fxRateSnapshot.value == 0.0 then Err(DivisionByZero)
    else
      var variance := FxVariance(fxRate.value, prior.value.fxRateSnapshot.value);
      Ok(RuleResult("R2", Some(variance), Some(R2_THRESHOLD),
                    if variance > R2_THRESHOLD then OverThreshold else WithinThreshold))
  }

  function EvaluateR1(profile: Profile, margin: int): RuleResult {
    RuleResult("R1", Some(margin), Some(profile.baseMargin),
               if margin >= profile.baseMargin then WithinThreshold else BelowFloor)
  }

  function Calculate(rates: seq<RateResolution>, prior: Option<PriorSnapshot>, marginFloorRef: Option<string>)
    : Result<Calculation, MoneyError>
    requires rates != []
  {
    var total :- SumCosts(rates, |rates|);
    var r2 :- EvaluateR2(LastRate(rates), prior);
    var profile := ResolveProfile(marginFloorRef);
    var target := TargetMargin(profile, r2.result == OverThreshold);
    var unrounded :- CalculateSellPrice(total, target);
    var sell :- CommercialRoundUp(unrounded);
    var margin :- MarginPctX10(total, sell);
    Ok(Calculation(total, sell, margin, LastRate(rates), [EvaluateR1(profile, margin), r2] + UNEVALUATED))
  }

  lemma {:induction false} SumStaysFailed(rates: seq<RateResolution>, k: nat, n: nat)
    requires rates != [] && k <= n <= |rates| && SumCosts(rates, k).Err?
    ensures SumCosts(rates, n) == SumCosts(rates, k)
  {
    if k < n {
      SumStaysFailed(rates, k, n - 1);
    }
  }

  method CalculatePricing(rates: seq<RateResolution>, prior: Option<PriorSnapshot>, marginFloorRef: Option<string>)
    returns (r: Result<Calculation, MoneyError>)
    requires rates != []
    ensures r == Calculate(rates, prior, marginFloorRef)
  {
    hide EvaluateR2, CalculateSellPrice, CommercialRoundUp, MarginPctX10, Add, TargetMargin, ResolveProfile, EvaluateR1;
    var totalCost := Money(0, rates[0].cost.currency, rates[0].cost.minorUnit);
    for k := 0 to |rates|
      invariant SumCosts(rates, k) == Ok(totalCost)
    {
      var sum := Add(totalCost, rates[k].cost);
      if sum.Err? {
        SumStaysFailed(rates, k + 1, |rates|);
        return Err(sum.error);
      }
      totalCost := sum.value;
    }
    var fxRateUsed: Option<real> := None;
    for k := 0 to |rates|
      invariant fxRateUsed == LastRate(rates[..k])
    {
      assert rates[..k + 1][..k] == rates[..k];
      if rates[k].fxRate.Some? {
        fxRateUsed := rates[k].fxRate;
      }
    }
    assert rates[..|rates|] == rates;
    var r2 :- EvaluateR2(fxRateUsed, prior);
    var profile := ResolveProfile(marginFloorRef);
    var target := TargetMargin(profile, r2.result == OverThreshold);
    var unrounded :- CalculateSellPrice(totalCost, target);
    var sell :- CommercialRoundUp(unrounded);
    var margin :- MarginPctX10(totalCost, sell);
    var ruleResults := [EvaluateR1(profile, margin), r2];
    for k := 0 to 3
      invariant ruleResults == [EvaluateR1(profile, margin), r2] + UNEVALUATED[..k]
    {
      ruleResults := ruleResults + [UNEVALUATED[k]];
    }
    assert UNEVALUATED[..3] == UNEVALUATED;
    return Ok(Calculation(totalCost, sell, margin, fxRateUsed, ruleResults));
  }

  // ---------------------------------------------------------------- what it promises

  /** All costs are in one currency at one scale. */
  predicate SameUnit(rates: seq<RateResolution>)
    requires rates != []
  {
    forall k :: 0 <= k < |rates| ==>
      && rates[k].cost.currency == rates[0].cost.currency && rates[k].cost.minorUnit == rates[0].cost.minorUnit
  }

  ghost function SumMinor(rates: seq<RateResolution>): int {
    if rates == [] then 0 else SumMinor(rates[..|rates| - 1]) + Last(rates).cost.amountMinor
  }

  lemma {:induction false} SumIsTotal(rates: seq<RateResolution>, n: nat)
    requires rates != [] && n <= |rates|
    requires forall k :: 0 <= k < |rates| ==> rates[k].cost.amountMinor >= 0
    ensures SumMinor(rates[..n]) >= 0
    ensures SumCosts(rates, n).Ok? ==>
              SumCosts(rates, n).value == Money(SumMinor(rates[..n]), rates[0].cost.currency, rates[0].cost.minorUnit)
    ensures SumCosts(rates, n).Ok? <==> n == 0 || SameUnit([rates[0]] + rates[..n])
  {
    if n > 0 {
      SumIsTotal(rates, n - 1);
      assert rates[..n][..n - 1] == rates[..n - 1];
      var before, after := [rates[0]] + rates[..n - 1], [rates[0]] + rates[..n];
      assert after == before + [rates[n - 1]];
      assert forall k :: 0 <= k < |before| ==> after[k] == before[k];
      assert after[|before|] == rates[n - 1];
    }
  }

  /** A previous rate of zero would divide by zero, but only when there is something to compare. */
  predicate R2Defined(rates: seq<RateResolution>, prior: Option<PriorSnapshot>) {
    LastRate(rates).Some? && prior.Some? ==> prior.value.fxRateSnapshot != Some(0.0)
  }

  lemma UnitsMatchIff(rates: seq<RateResolution>)
    requires rates != [] && forall k :: 0 <= k < |rates| ==> rates[k].cost.amountMinor >= 0
    ensures SumCosts(rates, |rates|).Ok? <==> SameUnit(rates)
    ensures SumCosts(rates, |rates|).Ok? ==> SumCosts(rates, |rates|).value.amountMinor == SumMinor(rates) >= 0
  {
    hide SumCosts, SumMinor;
    SumIsTotal(rates, |rates|);
    assert rates[..|rates|] == rates;
    var all := [rates[0]] + rates;
    assert forall k :: 0 <= k < |rates| ==> all[k + 1] == rates[k];
    assert SameUnit(all) <==> SameUnit(rates);
  }

  lemma PriceNeedsItsInputs(rates: seq<RateResolution>, prior: Option<PriorSnapshot>, marginFloorRef: Option<string>)
    requires rates != [] && !(SumCosts(rates, |rates|).Ok? && R2Defined(rates, prior))
    ensures Calculate(rates, prior, marginFloorRef).Err?
  {
    hide SumCosts, LastRate, ResolveProfile, TargetMargin, CalculateSellPrice, CommercialRoundUp, FxVariance;
  }

  lemma TargetsAreInRange(marginFloorRef: Option<string>, fx: bool)
    ensures 0 <= TargetMargin(ResolveProfile(marginFloorRef), fx) < 1000
    ensures ResolveProfile(marginFloorRef).baseMargin <= TargetMargin(ResolveProfile(marginFloorRef), fx)
  {
  }

  lemma PriceSucceedsIff(rates: seq<RateResolution>, prior: Option<PriorSnapshot>, marginFloorRef: Option<string>)
    requires rates != [] && SumCosts(rates, |rates|).Ok? && SumCosts(rates, |rates|).value.amountMinor >= 0
    requires R2Defined(rates, prior)
    ensures Calculate(rates, prior, marginFloorRef).Ok? <==> SumCosts(rates, |rates|).value.amountMinor > 0
  {
    hide SumCosts, LastRate, ResolveProfile, TargetMargin, CalculateSellPrice, CommercialRoundUp, FxVariance,
      SellCents, CeilDiv;
    var r2 := EvaluateR2(LastRate(rates), prior).value;
    var total := SumCosts(rates, |rates|).value;
    TargetsAreInRange(marginFloorRef, r2.result == OverThreshold);
    ComposedPrice(total, TargetMargin(ResolveProfile(marginFloorRef), r2.result == OverThreshold));
  }

  /** Pricing succeeds exactly on a positive total in one unit with a usable previous rate. */
  lemma {:induction false} CalculationSucceedsIff(rates: seq<RateResolution>, prior: Option<PriorSnapshot>,
                                                  marginFloorRef: Option<string>)
    requires rates != [] && forall k :: 0 <= k < |rates| ==> rates[k].cost.amountMinor >= 0
    ensures Calculate(rates, prior, marginFloorRef).Ok? <==>
              SameUnit(rates) && R2Defined(rates, prior) && SumMinor(rates) > 0
  {
    hide *;
    UnitsMatchIff(rates);
    if SumCosts(rates, |rates|).Ok? && R2Defined(rates, prior) {
      PriceSucceedsIff(rates, prior, marginFloorRef);
    } else {
      PriceNeedsItsInputs(rates, prior, marginFloorRef);
    }
  }

  /**
   What a successful calculation means: the price is the least grid price that leaves the target
   margin, R1 always holds, and R2 compares the last conversion's rate with the previous version's.
   */
  ghost predicate IsSound(priced: Calculation, prior: Option<PriorSnapshot>, marginFloorRef: Option<string>) {
    var c, p := priced.totalCost.amountMinor, priced.sellPrice.amountMinor;
    && c > 0 && p > 0 && |priced.rules| == 5
    && priced.rules[0]
       == RuleResult("R1", Some(priced.margin), Some(ResolveProfile(marginFloorRef).baseMargin), WithinThreshold)
    && EvaluateR2(priced.fxRateUsed, prior) == Ok(priced.rules[1])
    && (var target := TargetMargin(ResolveProfile(marginFloorRef), priced.rules[1].result == OverThreshold);
        && 0 <= target < 1000 && p == SellCents(c, target)
        && OnGrid(p) && Complies(p, c, target) && priced.margin >= target
        && (forall q :: OnGrid(q) && Complies(q, c, target) ==> p <= q))
    && priced.margin == ActualMargin(c, p)
  }

  lemma {:induction false} CalculationIsSound(rates: seq<RateResolution>, prior: Option<PriorSnapshot>,
                                              marginFloorRef: Option<string>)
    requires rates != [] && forall k :: 0 <= k < |rates| ==> rates[k].cost.amountMinor >= 0
    requires Calculate(rates, prior, marginFloorRef).Ok?
    ensures IsSound(Calculate(rates, prior, marginFloorRef).value, prior, marginFloorRef)
    ensures Calculate(rates, prior, marginFloorRef).value.totalCost.amountMinor == SumMinor(rates)
    ensures Calculate(rates, prior, marginFloorRef).value.fxRateUsed == LastRate(rates)
  {
    hide ResolveProfile, TargetMargin, CalculateSellPrice, CommercialRoundUp, SellCents, FxVariance, EvaluateR2,
      OnGrid, Complies, SumCosts, LastRate, CeilDiv;
    SumIsTotal(rates, |rates|);
    assert rates[..|rates|] == rates;
    var priced := Calculate(rates, prior, marginFloorRef).value;
    var c := priced.totalCost.amountMinor;
    var target := TargetMargin(ResolveProfile(marginFloorRef), priced.rules[1].result == OverThreshold);
    TargetsAreInRange(marginFloorRef, priced.rules[1].result == OverThreshold);
    ComposedPrice(priced.totalCost, target);
    LeastCompliantPrice(c, target, 0);
    CompliantPriceHasMargin(c, target, SellCents(c, target));
    forall q | OnGrid(q) && Complies(q, c, target)
      ensures SellCents(c, target) <= q
    {
      LeastCompliantPrice(c, target, q);
    }
  }

  lemma RoundedAboveTwenty(x: real, n: int)
    requires n == RoundHalfEven(x)
    ensures n > 20 <==> x > 20.5
  {
  }

  /** R2 fires exactly beyond a change of 2.05 percent: ties round to the even threshold itself. */
  lemma R2FiresIff(current: real, previous: real)
    requires previous > 0.0
    ensures EvaluateR2(Some(current), Some(PriorSnapshot(Some(previous)))).Ok?
    ensures EvaluateR2(Some(current), Some(PriorSnapshot(Some(previous)))).value.result == OverThreshold <==>
              Abs(current - previous) > 0.0205 * previous
  {
    hide RoundHalfEven, Abs;
    var ratio := Abs(current - previous) / previous;
    var n := RoundHalfEven(ratio * 1000.0);
    assert ratio * previous == Abs(current - previous);
    assert (ratio - 0.0205) * previous == Abs(current - previous) - 0.0205 * previous;
    RoundedAboveTwenty(ratio * 1000.0, n);
  }
}
