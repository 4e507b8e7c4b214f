/**
 Pricing a version from end to end: exactly when it succeeds, what the stored total is made of,
 and how far it can be from the exact cost.
 */
module QuotePricing {
  import opened Base
  import opened Calculator
  import opened Decimals
  import opened Moneys
  import opened QuoteHistory
  import opened QuoteInvariant
  import opened QuoteModel

  predicate AllResolve(facts: Facts, refs: seq<string>) {
    forall k :: 0 <= k < |refs| ==> ResolveRate(facts, refs[k]).Ok?
  }

  lemma {:induction false} RatesResolveIff(facts: Facts, refs: seq<string>, n: nat)
    requires n <= |refs|
    ensures ResolveRates(facts, refs, n).Ok? <==> forall k :: 0 <= k < n ==> ResolveRate(facts, refs[k]).Ok?
    ensures ResolveRates(facts, refs, n).Ok? ==>
              forall k :: 0 <= k < n ==> ResolveRate(facts, refs[k]) == Ok(ResolveRates(facts, refs, n).value[k])
  {
    hide ResolveRate;
    if n > 0 {
      RatesResolveIff(facts, refs, n - 1);
    }
  }

  /** Every rate reference of the version, as a cost. */
  function Rates(facts: Facts, refs: seq<string>): (rates: seq<RateResolution>)
    requires AllResolve(facts, refs)
    ensures |rates| == |refs| && forall k :: 0 <= k < |rates| ==> rates[k] == ResolveRate(facts, refs[k]).value
  {
    seq(|refs|, k requires 0 <= k < |refs| => ResolveRate(facts, refs[k]).value)
  }

  lemma RatesAreTheResolved(facts: Facts, refs: seq<string>)
    requires AllResolve(facts, refs)
    ensures ResolveRates(facts, refs, |refs|) == Ok(Rates(facts, refs))
    ensures forall k :: 0 <= k < |refs| ==> Rates(facts, refs)[k].cost.amountMinor >= 0
  {
    hide ResolveRate;
    RatesResolveIff(facts, refs, |refs|);
    assert ResolveRates(facts, refs, |refs|).value == Rates(facts, refs);
  }

  /** The commercial preconditions of pricing. */
  ghost predicate IsPriceable(s: Store, v: Version, facts: Facts) {
    && v.status.Draft? && IsComposed(v.inputs) && facts.configured
    && (match facts.routeState(v.inputs.selectedRouteId.value)
        case Found(state) => state != "unavailable"
        case _ => false)
    && AllResolve(facts, v.inputs.rateRefs)
    && var rates := Rates(facts, v.inputs.rateRefs);
       && SameUnit(rates) && SumMinor(rates) > 0 && R2Defined(rates, PriorOf(s, v.quoteId, v))
  }

  lemma ResolvingSucceedsIff(facts: Facts, refs: seq<string>)
    ensures ResolveRates(facts, refs, |refs|).Ok? <==> AllResolve(facts, refs)
  {
    hide ResolveRate;
    RatesResolveIff(facts, refs, |refs|);
  }

  /** Pricing succeeds if and only if every precondition is established. */
  lemma PricingSucceedsIff(s: Store, q: string, number: int, facts: Facts)
    requires GetVersion(s, q, number).Some? ==> GetVersion(s, q, number).value.quoteId == q
    ensures PriceRead(s, s, q, number, facts).Ok? <==>
              GetVersion(s, q, number).Some? && IsPriceable(s, GetVersion(s, q, number).value, facts)
  {
    hide GetVersion, ResolveRate, ResolveRates, Calculate, PriorOf, SameUnit, SumMinor, R2Defined, AllResolve;
    if VersionIn(s, q, number, Draft).Ok? {
      var v := VersionIn(s, q, number, Draft).value;
      if IsComposed(v.inputs) {
        ResolvingSucceedsIff(facts, v.inputs.rateRefs);
        if AllResolve(facts, v.inputs.rateRefs) {
          RatesAreTheResolved(facts, v.inputs.rateRefs);
          CalculationSucceedsIff(Rates(facts, v.inputs.rateRefs), PriorOf(s, q, v), v.inputs.marginFloorRef);
        }
      }
    }
  }

  /** What is stored: the sum of all costs, in order, and the rate of the last conversion. */
  lemma StoredTotalIsTheSum(s: Store, q: string, number: int, facts: Facts)
    requires PriceRead(s, s, q, number, facts).Ok?
    ensures var v := PriceRead(s, s, q, number, facts).value;
            && AllResolve(facts, v.inputs.rateRefs)
            && v.outputs.totalCost == Some(SumMinor(Rates(facts, v.inputs.rateRefs)))
            && v.outputs.fxRateSnapshot == LastRate(Rates(facts, v.inputs.rateRefs))
  {
    hide GetVersion, ResolveRate, ResolveRates, Calculate, PriorOf, SumMinor, LastRate, RouteIsPricable, AllResolve,
      IsSound;
    var v := VersionIn(s, q, number, Draft).value;
    ResolvingSucceedsIff(facts, v.inputs.rateRefs);
    RatesAreTheResolved(facts, v.inputs.rateRefs);
    CalculationIsSound(Rates(facts, v.inputs.rateRefs), PriorOf(s, q, v), v.inputs.marginFloorRef);
  }

  // ---------------------------------------------------------------- the rounding error

  /** Whatever the currency service converts, it converts with `rateOf`, to the unit the master data gives for EUR. */
  ghost predicate ConvertsWith(facts: Facts, rateOf: string -> real, unit: nat) {
    && (facts.eurMinorUnit.Found? ==> facts.eurMinorUnit.value == unit)
    && forall amount: int, currency: string ::
         facts.convert(amount, currency).Found? ==>
           facts.convert(amount, currency).value
           == Conversion(ConvertAmount(amount as real, rateOf(currency), unit), unit, rateOf(currency))
  }

  function LineOf(facts: Facts, rateOf: string -> real, routeId: string): CostLine {
    match facts.rate(routeId)
    case Found(rate) =>
      CostLine(rate.baseCost + rate.surcharges, if rate.currency == "EUR" then None else Some(rateOf(rate.currency)))
    case _ => CostLine(0, None)
  }

  function Lines(facts: Facts, rateOf: string -> real, refs: seq<string>): (lines: seq<CostLine>)
    ensures |lines| == |refs| && forall k :: 0 <= k < |lines| ==> lines[k] == LineOf(facts, rateOf, refs[k])
  {
    seq(|refs|, k requires 0 <= k < |refs| => LineOf(facts, rateOf, refs[k]))
  }

  lemma ResolvedIsBooked(facts: Facts, rateOf: string -> real, unit: nat, routeId: string)
    requires ConvertsWith(facts, rateOf, unit) && ResolveRate(facts, routeId).Ok?
    ensures Booked(LineOf(facts, rateOf, routeId), "EUR", unit) == Ok(ResolveRate(facts, routeId).value.cost)
  {
    hide FromMajor, ConvertAmount;
  }

  lemma {:induction false} SumIsBookedTotal(rates: seq<RateResolution>, lines: seq<CostLine>, unit: nat)
    requires |rates| == |lines|
    requires forall k :: 0 <= k < |lines| ==> Booked(lines[k], "EUR", unit) == Ok(rates[k].cost)
    ensures SumMinor(rates) == BookedTotal(lines, "EUR", unit)
  {
    hide Booked;
    if rates != [] {
      assert Booked(lines[|lines| - 1], "EUR", unit) == Ok(rates[|lines| - 1].cost);
      SumIsBookedTotal(rates[..|rates| - 1], lines[..|lines| - 1], unit);
    }
  }

  /**
   The stored total of a priced version is within half a minor unit per converted rate of the
   exact sum of its rates.
   */
  lemma StoredTotalIsCloseToExact(s: Store, q: string, number: int, facts: Facts, rateOf: string -> real, unit: nat)
    requires PriceRead(s, s, q, number, facts).Ok? && ConvertsWith(facts, rateOf, unit)
    ensures var v := PriceRead(s, s, q, number, facts).value;
            var lines := Lines(facts, rateOf, v.inputs.rateRefs);
            && v.outputs.totalCost.Some?
            && Abs(v.outputs.totalCost.value as real - ExactTotal(lines, unit)) <= Conversions(lines) as real / 2.0
  {
    hide PriceRead, ResolveRate, SumMinor, LastRate, Booked, ConvertsWith, LineOf;
    StoredTotalIsTheSum(s, q, number, facts);
    var refs := PriceRead(s, s, q, number, facts).value.inputs.rateRefs;
    var rates, lines := Rates(facts, refs), Lines(facts, rateOf, refs);
    forall k | 0 <= k < |refs|
      ensures Booked(lines[k], "EUR", unit) == Ok(rates[k].cost)
    {
      ResolvedIsBooked(facts, rateOf, unit, refs[k]);
    }
    SumIsBookedTotal(rates, lines, unit);
    TotalErrorIsBounded(lines, "EUR", unit);
  }

  // ---------------------------------------------------------------- pricing can succeed

  /** Services that know everybody, have every route open and charge 100 EUR for each. */
  function FavourableFacts(): Facts {
    Facts(true, id => Found(true), Found(2), id => Found("available"), id => Found(Rate("EUR", 100, 0)),
          (amount, currency) => Unreachable)
  }

  lemma FavourableRate(routeId: string)
    ensures ResolveRate(FavourableFacts(), routeId) == Ok(RateResolution(routeId, Money(10_000, "EUR", 2), None))
  {
    assert Pow10(1) == 10.0 && Pow10(2) == 100.0;
    assert Scaled(100.0, 2) == 10_000.0;
    RoundHalfEvenIsUnique(10_000.0, 10_000);
  }

  lemma {:induction false} EqualCostsAddUp(rates: seq<RateResolution>)
    requires forall k :: 0 <= k < |rates| ==> rates[k].cost == Money(10_000, "EUR", 2) && rates[k].fxRate.None?
    ensures SumMinor(rates) == 10_000 * |rates| && LastRate(rates) == None
  {
    if rates != [] {
      EqualCostsAddUp(rates[..|rates| - 1]);
    }
  }

  /** Every composed draft can be priced, given such services. */
  lemma ComposedDraftCanBePriced(s: Store, q: string, number: int)
    requires GetVersion(s, q, number).Some? && GetVersion(s, q, number).value.quoteId == q
    requires GetVersion(s, q, number).value.status.Draft? && IsComposed(GetVersion(s, q, number).value.inputs)
    ensures PriceRead(s, s, q, number, FavourableFacts()).Ok?
  {
    hide GetVersion, ResolveRate, PriceRead, PriorOf, SumMinor, LastRate;
    var v, facts := GetVersion(s, q, number).value, FavourableFacts();
    forall k | 0 <= k < |v.inputs.rateRefs|
      ensures ResolveRate(facts, v.inputs.rateRefs[k])
              == Ok(RateResolution(v.inputs.rateRefs[k], Money(10_000, "EUR", 2), None))
    {
      FavourableRate(v.inputs.rateRefs[k]);
    }
    EqualCostsAddUp(Rates(facts, v.inputs.rateRefs));
    PricingSucceedsIff(s, q, number, facts);
  }

  lemma FirstDraft(create: Command, now: string)
    requires create.CreateQuote?
    ensures Inv(EMPTY) && WellKeyed(EMPTY)
    ensures var v := GetVersion(After(EMPTY, create, FavourableFacts(), now), QuoteId(1001), 1);
            v.Some? && v.value.status.Draft? && v.value.quoteId == QuoteId(1001)
  {
    hide QuoteId;
    EmptyIsGood();
  }

  lemma DraftIsComposed(s: Store, c: Command, facts: Facts, now: string)
    requires WellKeyed(s) && (c.ComposeRecommendation? || c.ComposePricingInputs?)
    requires GetVersion(s, c.quoteId, c.version).Some? && GetVersion(s, c.quoteId, c.version).value.status.Draft?
    ensures var v := GetVersion(s, c.quoteId, c.version).value;
            Prepare(s, s, c, facts, now) == Ok(Rewrite(c.quoteId, v, v.(inputs := Composed(v.inputs, c)), None))
  {
    hide GetVersion, Composed;
  }

  /** Three calls lead from the empty store to a state in which a version can be priced. */
  lemma PricingIsReachable(now: string)
    ensures var id, facts := QuoteId(1001), FavourableFacts();
            && WellKeyed(EMPTY)
            && var s1 := After(EMPTY, CreateQuote("RFQ-1", "ACME", "EUR", None), facts, now);
               && WellKeyed(s1)
               && var s2 := After(s1, ComposeRecommendation(id, 1, "REC-1", "ROUTE-1"), facts, now);
                  && WellKeyed(s2)
                  && var s3 := After(s2, ComposePricingInputs(id, 1, "FX-1", ["RATE-1"], "TERMS-1", "standard"),
                                     facts, now);
                     && Inv(s3) && PriceRead(s3, s3, id, 1, facts).Ok?
  {
    hide After, GetVersion, PriceRead, Inv, QuoteId, WellKeyed, Prepare;
    var id, facts := QuoteId(1001), FavourableFacts();
    var create := CreateQuote("RFQ-1", "ACME", "EUR", None);
    var recommend := ComposeRecommendation(id, 1, "REC-1", "ROUTE-1");
    var compose := ComposePricingInputs(id, 1, "FX-1", ["RATE-1"], "TERMS-1", "standard");
    FirstDraft(create, now);
    ApplyEvolves(EMPTY, create, facts, now);
    var s1 := After(EMPTY, create, facts, now);
    DraftIsComposed(s1, recommend, facts, now);
    RevisionIsStored(s1, recommend, facts, now);
    var s2 := After(s1, recommend, facts, now);
    DraftIsComposed(s2, compose, facts, now);
    RevisionIsStored(s2, compose, facts, now);
    ComposedDraftCanBePriced(After(s2, compose, facts, now), id, 1);
  }
}
