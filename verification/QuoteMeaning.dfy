/**
 What every command of the quote store does when nothing comes in between (mock_qms/store.py), field
 by field and in terms of its arguments: which version is changed to what, what else changes, and with
 which error it is refused.
 */
module QuoteMeaning {
  import opened Base
  import opened Calculator
  import opened Decimals
  import opened Moneys
  import opened PriceMeaning
  import opened QuoteHistory
  import opened QuoteInvariant
  import opened QuoteModel
  import opened QuotePricing

  // ---------------------------------------------------------------- vocabulary

  /** There is a version of that number, at its place in the history. */
  predicate IsStored(s: Store, q: string, n: int) {
    q in s.versions && q in s.quotes && 1 <= n <= |s.versions[q]|
  }

  /** Version `n` has become `v`; its quote shows the status of its last version; no other quote is touched. */
  predicate Turned(s: Store, t: Store, q: string, n: int, v: Version) {
    && IsStored(s, q, n)
    && t.versions == s.versions[q := s.versions[q][n - 1 := v]]
    && t.quotes == s.quotes[q := if n == |s.versions[q]| then s.quotes[q].(latestStatus := v.status) else s.quotes[q]]
    && t.nextId == s.nextId
  }

  /** The call was refused with that error, and nothing has changed. */
  predicate IsRefused(s: Store, c: Command, facts: Facts, now: string, error: StoreError)
    requires WellKeyed(s)
  {
    Reported(s, c, facts, now) == Err(error) && After(s, c, facts, now) == s
  }

  // ---------------------------------------------------------------- commands on one version

  lemma RefusedChangesNothing(s: Store, c: Command, facts: Facts, now: string)
    requires WellKeyed(s) && Reported(s, c, facts, now).Err?
    ensures After(s, c, facts, now) == s
  {
    hide Prepare, Commit;
  }

  lemma ReportedIsPlanned(s: Store, c: Command, facts: Facts, now: string)
    requires WellKeyed(s) && !c.CreateQuote? && !c.CreateNextVersion?
    ensures var found := GetVersion(s, c.quoteId, c.version);
            var plan := Plan(c, found, if c.Price? && found.Some? then PriorOf(s, c.quoteId, found.value) else None,
                             facts, now);
            Reported(s, c, facts, now) == if plan.Err? then Err(plan.error) else Ok(Written(plan.value))
  {
    hide Plan, PriorOf, GetVersion;
  }

  lemma StoredIsFound(s: Store, q: string, n: int)
    requires Inv(s) && WellKeyed(s)
    ensures GetVersion(s, q, n) == if IsStored(s, q, n) then Some(s.versions[q][n - 1]) else None
    ensures StatusOf(s, q, n) == if IsStored(s, q, n) then Some(s.versions[q][n - 1].status) else None
    ensures IsStored(s, q, n) ==> s.versions[q][n - 1].number == n && s.versions[q][n - 1].quoteId == q
  {
    hide HistoryInv, GetVersion, LogInv, IdsInv;
    VersionAt(s, q, n);
    if IsStored(s, q, n) {
      VersionAtInv(s, q, n);
    }
  }

  lemma KeysOf(s: Store)
    requires WellKeyed(s)
    ensures s.quotes.Keys == s.versions.Keys
  {
  }

  lemma RecordIs(s: Store, c: Command, facts: Facts, now: string)
    requires WellKeyed(s) && c.Decide? && Prepare(s, s, c, facts, now).Ok?
    ensures Prepare(s, s, c, facts, now).value.record
            == Some(DecisionRecord(c.decision, c.approver, c.reason, now))
  {
    hide GetVersion;
  }

  /** What a successful command on a version leaves in the store. */
  lemma RevisionTurns(s: Store, c: Command, facts: Facts, now: string)
    requires Inv(s) && WellKeyed(s) && !c.CreateQuote? && !c.CreateNextVersion? && Reported(s, c, facts, now).Ok?
    ensures Turned(s, After(s, c, facts, now), c.quoteId, c.version, Reported(s, c, facts, now).value)
    ensures After(s, c, facts, now).decisions ==
            if c.Decide? then
              var key := DecisionKey(c.quoteId, c.version);
              s.decisions[key := (if key in s.decisions then s.decisions[key] else [])
                                 + [DecisionRecord(c.decision, c.approver, c.reason, now)]]
            else s.decisions
  {
    hide Inv, Prepare, Commit, GetVersion, VersionIn, DecisionKey, WellKeyed;
    var w := Prepare(s, s, c, facts, now).value;
    PreparedRewriteIs(s, s, c, facts, now);
    FoundIsFrozenInv(s, c.quoteId, c.version, Asked(c));
    KeysOf(s);
    SameNumber(w.base, w.updated);
    RewriteShape(s, w);
    if c.Decide? {
      RecordIs(s, c, facts, now);
    }
  }

  /** A version that is not there, or not in the status asked for. */
  lemma RevisionIsRefused(s: Store, c: Command, facts: Facts, now: string)
    requires Inv(s) && WellKeyed(s) && !c.CreateQuote? && !c.CreateNextVersion?
    ensures !IsStored(s, c.quoteId, c.version) ==> IsRefused(s, c, facts, now, UnknownQuote)
    ensures IsStored(s, c.quoteId, c.version) ==>
              var status := s.versions[c.quoteId][c.version - 1].status;
              status != (if c.Submit? then Priced else if c.Decide? then ApprovalRequired else Draft) ==>
                IsRefused(s, c, facts, now, InvalidState)
  {
    hide Inv, WellKeyed, GetVersion, PriceFrom, PriorOf, Composed, After, Reported;
    StoredIsFound(s, c.quoteId, c.version);
    ReportedIsPlanned(s, c, facts, now);
    if Reported(s, c, facts, now).Err? {
      RefusedChangesNothing(s, c, facts, now);
    }
  }

  /** Composing a recommendation writes its two fields and keeps everything else. */
  lemma RecommendationMeans(s: Store, q: string, n: int, recommendation: string, route: string, facts: Facts,
                            now: string)
    requires Inv(s) && WellKeyed(s) && IsStored(s, q, n) && s.versions[q][n - 1].status == Draft
    ensures var c, v := ComposeRecommendation(q, n, recommendation, route), s.versions[q][n - 1];
            && Reported(s, c, facts, now)
               == Ok(Version(q, n, v.prior, Draft, v.currency, v.createdAt, v.createdBy, v.triggerEventRef,
                             Inputs(Some(recommendation), Some(route), v.inputs.rateRefs, v.inputs.fxRateRef,
                                    v.inputs.pricingTermsRef, v.inputs.marginFloorRef),
                             v.outputs))
            && Turned(s, After(s, c, facts, now), q, n, Reported(s, c, facts, now).value)
            && After(s, c, facts, now).decisions == s.decisions
  {
    hide Inv, WellKeyed, GetVersion, PriceFrom, PriorOf, After, Reported, Turned;
    var c := ComposeRecommendation(q, n, recommendation, route);
    StoredIsFound(s, q, n);
    ReportedIsPlanned(s, c, facts, now);
    RevisionTurns(s, c, facts, now);
  }

  /** Composing pricing inputs writes its four fields and keeps everything else. */
  lemma PricingInputsMean(s: Store, q: string, n: int, fx: string, rates: seq<string>, terms: string, floor: string,
                          facts: Facts, now: string)
    requires Inv(s) && WellKeyed(s) && IsStored(s, q, n) && s.versions[q][n - 1].status == Draft
    ensures var c, v := ComposePricingInputs(q, n, fx, rates, terms, floor), s.versions[q][n - 1];
            && Reported(s, c, facts, now)
               == Ok(Version(q, n, v.prior, Draft, v.currency, v.createdAt, v.createdBy, v.triggerEventRef,
                             Inputs(v.inputs.recommendationId, v.inputs.selectedRouteId, rates, Some(fx), Some(terms),
                                    Some(floor)),
                             v.outputs))
            && Turned(s, After(s, c, facts, now), q, n, Reported(s, c, facts, now).value)
            && After(s, c, facts, now).decisions == s.decisions
  {
    hide Inv, WellKeyed, GetVersion, PriceFrom, PriorOf, After, Reported, Turned;
    var c := ComposePricingInputs(q, n, fx, rates, terms, floor);
    StoredIsFound(s, q, n);
    ReportedIsPlanned(s, c, facts, now);
    RevisionTurns(s, c, facts, now);
  }

  /** Submitting asks for approval, and changes nothing but the status. */
  lemma SubmissionMeans(s: Store, q: string, n: int, facts: Facts, now: string)
    requires Inv(s) && WellKeyed(s) && IsStored(s, q, n) && s.versions[q][n - 1].status == Priced
    ensures var c, v := Submit(q, n), s.versions[q][n - 1];
            && Reported(s, c, facts, now)
               == Ok(Version(q, n, v.prior, ApprovalRequired, v.currency, v.createdAt, v.createdBy, v.triggerEventRef,
                             v.inputs, v.outputs))
            && Turned(s, After(s, c, facts, now), q, n, Reported(s, c, facts, now).value)
            && After(s, c, facts, now).decisions == s.decisions
  {
    hide Inv, WellKeyed, GetVersion, PriceFrom, PriorOf, After, Reported, Turned;
    StoredIsFound(s, q, n);
    ReportedIsPlanned(s, Submit(q, n), facts, now);
    RevisionTurns(s, Submit(q, n), facts, now);
  }

  lemma UndecidedHasNoRecord(s: Store, q: string, n: int)
    requires Inv(s) && IsStored(s, q, n) && s.versions[q][n - 1].status == ApprovalRequired
    ensures DecisionKey(q, n) !in s.decisions
  {
    hide Histories, IdsInv, DecisionKey;
    assert LogMatches(s, q, n);
  }

  /** A decision becomes the status, and the only record of its version. */
  lemma DecisionMeans(s: Store, q: string, n: int, decision: Status, approver: string, reason: Option<string>,
                      facts: Facts, now: string)
    requires Inv(s) && WellKeyed(s) && IsStored(s, q, n) && s.versions[q][n - 1].status == ApprovalRequired
    requires decision in {Approved, Rejected, Revise}
    ensures var c, v := Decide(q, n, decision, approver, reason), s.versions[q][n - 1];
            && Reported(s, c, facts, now)
               == Ok(Version(q, n, v.prior, decision, v.currency, v.createdAt, v.createdBy, v.triggerEventRef,
                             v.inputs, v.outputs))
            && Turned(s, After(s, c, facts, now), q, n, Reported(s, c, facts, now).value)
            && After(s, c, facts, now).decisions
               == s.decisions[DecisionKey(q, n) := [DecisionRecord(decision, approver, reason, now)]]
  {
    hide Inv, WellKeyed, GetVersion, PriceFrom, PriorOf, After, Reported, Turned, DecisionKey;
    var c := Decide(q, n, decision, approver, reason);
    StoredIsFound(s, q, n);
    ReportedIsPlanned(s, c, facts, now);
    RevisionTurns(s, c, facts, now);
    UndecidedHasNoRecord(s, q, n);
    var record := DecisionRecord(decision, approver, reason, now);
    assert [] + [record] == [record];
  }

  // ---------------------------------------------------------------- creating and superseding

  /** Creating for a known customer stores a quote and its first draft under an id that is free. */
  lemma CreationMeans(s: Store, rfq: string, customer: string, currency: string, createdBy: Option<string>,
                      facts: Facts,
                      now: string)
    requires Inv(s) && WellKeyed(s)
    ensures var c, id := CreateQuote(rfq, customer, currency, createdBy), QuoteId(s.nextId);
            match facts.party(customer)
            case NoRecord => IsRefused(s, c, facts, now, UnknownCustomer)
            case Unreachable => IsRefused(s, c, facts, now, ServiceFailure)
            case Found(_) =>
              var first := Version(id, 1, None, Draft, currency, now, createdBy, None,
                                   Inputs(None, None, [], None, None, None), Outputs(None, None, None, None, None, []));
              && id !in s.quotes && id !in s.versions
              && Reported(s, c, facts, now) == Ok(first)
              && After(s, c, facts, now)
                 == Store(s.quotes[id := Quote(id, rfq, customer, currency, 1, Draft, now)], s.versions[id := [first]],
                          s.decisions, s.nextId + 1)
  {
    hide QuoteId, IdNumber, HistoryInv, LogInv;
    FreshId(s);
    KeysOf(s);
  }

  /**
   Superseding by someone who knows how many versions there are adds one draft with the next number; asked
   to, it takes over what was composed, and never what was computed.
   */
  lemma SupersedeMeans(s: Store, q: string, prior: int, expected: int, copy: bool, trigger: Option<string>,
                       facts: Facts, now: string)
    requires Inv(s) && WellKeyed(s)
    ensures var c := CreateNextVersion(q, prior, expected, copy, trigger);
            if q !in s.versions then IsRefused(s, c, facts, now, UnknownQuote)
            else if prior != |s.versions[q]| || expected != |s.versions[q]| then
              IsRefused(s, c, facts, now, VersionConflict)
            else
              var n := |s.versions[q]|;
              n >= 1 && q in s.quotes &&
              var last := s.versions[q][n - 1];
              var draft := Version(q, n + 1, Some(n), Draft, last.currency, now, if copy then last.createdBy else None,
                                   trigger, if copy then last.inputs else Inputs(None, None, [], None, None, None),
                                   Outputs(None, None, None, None, None, []));
              && Reported(s, c, facts, now) == Ok(draft)
              && After(s, c, facts, now)
                 == Store(s.quotes[q := s.quotes[q].(latestVersion := n + 1, latestStatus := Draft)],
                          s.versions[q := s.versions[q] + [draft]], s.decisions, s.nextId)
  {
    hide VersionInv, LogInv, IdsInv;
    if q in s.versions {
      assert HistoryInv(q, s.quotes[q], s.versions[q]);
      LastNumber(q, s.quotes[q], s.versions[q]);
    }
  }

  // ---------------------------------------------------------------- searching

  /** A quote is found if and only if it has the customer, the RFQ and the status that are asked for, if any. */
  lemma SearchMeans(s: Store, customer: Option<string>, rfq: Option<string>, status: Option<Status>, q: string)
    requires Inv(s) && WellKeyed(s)
    ensures q in Search(s, customer, rfq, status) <==>
              && q in s.quotes && q in s.versions && s.versions[q] != []
              && (customer == None || customer == Some(s.quotes[q].customerId))
              && (rfq == None || rfq == Some(s.quotes[q].rfqId))
              && (status == None || status == Some(s.versions[q][|s.versions[q]| - 1].status))
  {
    hide VersionInv, LogInv, IdsInv;
    if q in s.versions {
      assert HistoryInv(q, s.quotes[q], s.versions[q]);
    }
  }

  // ---------------------------------------------------------------- pricing

  lemma {:induction false} ScaledKeepsSign(amount: int, unit: nat)
    ensures amount < 0 <==> Scaled(amount as real, unit) < 0.0
  {
    hide Scaled;
    MinorUnitsAreTenths(amount as real, if unit == 0 then 0 else unit - 1);
    if unit > 0 {
      ScaledKeepsSign(amount, unit - 1);
    }
  }

  lemma WholeAmountMeans(amount: int, unit: nat)
    ensures if amount < 0 then FromMajor(amount as real, "EUR", unit) == Err(NegativeAmount)
            else && FromMajor(amount as real, "EUR", unit).Ok?
                 && FromMajor(amount as real, "EUR", unit).value.currency == "EUR"
                 && FromMajor(amount as real, "EUR", unit).value.minorUnit == unit
                 && FromMajor(amount as real, "EUR", unit).value.amountMinor as real == Scaled(amount as real, unit)
  {
    hide RoundHalfEven, Scaled;
    var k := ScaledIsWhole(amount, unit);
    RoundHalfEvenIsUnique(k as real, k);
    ScaledKeepsSign(amount, unit);
  }

  /** To the nearest whole number, to the even one of two. */
  predicate IsRounded(n: int, x: real) {
    -0.5 <= n as real - x <= 0.5 && (n as real - x in {-0.5, 0.5} ==> n % 2 == 0)
  }

  lemma RoundedMeans(x: real)
    ensures RoundHalfEven(x) < 0 <==> x < -0.5
    ensures IsRounded(RoundHalfEven(x), x)
  {
    RoundingBounds(x, 0);
    if x == -0.5 {
      RoundHalfEvenIsUnique(x, 0);
    }
  }

  lemma RoundedAmountMeans(amount: real, unit: nat)
    ensures if Scaled(amount, unit) < -0.5 then FromMajor(amount, "EUR", unit) == Err(NegativeAmount)
            else && FromMajor(amount, "EUR", unit).Ok?
                 && FromMajor(amount, "EUR", unit).value.currency == "EUR"
                 && FromMajor(amount, "EUR", unit).value.minorUnit == unit
                 && FromMajor(amount, "EUR", unit).value.amountMinor >= 0
                 && IsRounded(FromMajor(amount, "EUR", unit).value.amountMinor, Scaled(amount, unit))
  {
    hide RoundHalfEven, Scaled;
    RoundedMeans(Scaled(amount, unit));
  }

  /** Exactly that amount of EUR, in minor units. */
  predicate IsExactCost(x: RateResolution, ref: string, amount: int, unit: nat) {
    && x == RateResolution(ref, Money(x.cost.amountMinor, "EUR", unit), None)
    && x.cost.amountMinor as real == Scaled(amount as real, unit)
  }

  /** The converted amount to the nearest minor unit of EUR, with the rate it was converted at. */
  predicate IsConvertedCost(x: RateResolution, ref: string, conv: Conversion) {
    && x == RateResolution(ref, Money(x.cost.amountMinor, "EUR", conv.minorUnit), Some(conv.rate))
    && IsRounded(x.cost.amountMinor, Scaled(conv.convertedAmount, conv.minorUnit))
    && x.cost.amountMinor >= 0
  }

  predicate IsBelowNothing(conv: Conversion) {
    Scaled(conv.convertedAmount, conv.minorUnit) < -0.5
  }

  lemma EuroRateMeans(facts: Facts, ref: string, rate: Rate, unit: nat)
    requires facts.rate(ref) == Found(rate) && rate.currency == "EUR" && facts.eurMinorUnit == Found(unit)
    ensures if rate.baseCost + rate.surcharges < 0 then ResolveRate(facts, ref) == Err(MoneyProblem(NegativeAmount))
            else && ResolveRate(facts, ref).Ok?
                 && IsExactCost(ResolveRate(facts, ref).value, ref, rate.baseCost + rate.surcharges, unit)
  {
    hide FromMajor, Scaled;
    WholeAmountMeans(rate.baseCost + rate.surcharges, unit);
  }

  lemma ConvertedRateMeans(facts: Facts, ref: string, rate: Rate, conv: Conversion)
    requires facts.rate(ref) == Found(rate) && rate.currency != "EUR"
    requires facts.convert(rate.baseCost + rate.surcharges, rate.currency) == Found(conv)
    ensures if IsBelowNothing(conv) then ResolveRate(facts, ref) == Err(MoneyProblem(NegativeAmount))
            else ResolveRate(facts, ref).Ok? && IsConvertedCost(ResolveRate(facts, ref).value, ref, conv)
  {
    hide FromMajor, Scaled;
    RoundedAmountMeans(conv.convertedAmount, conv.minorUnit);
  }

  /** A rate of so much in major units, as a cost in EUR: exact in EUR, to the nearest minor unit if converted. */
  lemma RateMeans(facts: Facts, ref: string)
    ensures var r := ResolveRate(facts, ref);
            match facts.rate(ref)
            case NoRecord => r == Err(ComposeIncomplete)
            case Unreachable => r == Err(ServiceFailure)
            case Found(rate) =>
              var amount := rate.baseCost + rate.surcharges;
              if rate.currency == "EUR" then
                match facts.eurMinorUnit
                case NoRecord => r == Err(UnknownCurrency)
                case Unreachable => r == Err(ServiceFailure)
                case Found(unit) =>
                  if amount < 0 then r == Err(MoneyProblem(NegativeAmount))
                  else r.Ok? && IsExactCost(r.value, ref, amount, unit)
              else
                match facts.convert(amount, rate.currency)
                case NoRecord => r == Err(ServiceFailure)
                case Unreachable => r == Err(ServiceFailure)
                case Found(conv) =>
                  if IsBelowNothing(conv) then r == Err(MoneyProblem(NegativeAmount))
                  else r.Ok? && IsConvertedCost(r.value, ref, conv)
  {
    hide FromMajor, IsExactCost, IsConvertedCost, IsBelowNothing;
    if facts.rate(ref).Found? {
      var rate := facts.rate(ref).value;
      if rate.currency == "EUR" {
        if facts.eurMinorUnit.Found? {
          EuroRateMeans(facts, ref, rate, facts.eurMinorUnit.value);
        }
      } else if facts.convert(rate.baseCost + rate.surcharges, rate.currency).Found? {
        ConvertedRateMeans(facts, ref, rate, facts.convert(rate.baseCost + rate.surcharges, rate.currency).value);
      }
    }
  }

  predicate IsText(text: Option<string>) {
    text != None && text != Some("")
  }

  /** Rate `k` is the first that cannot be had. */
  predicate IsFirstProblem(facts: Facts, refs: seq<string>, k: nat) {
    k < |refs| && ResolveRate(facts, refs[k]).Err? && forall j :: 0 <= j < k ==> ResolveRate(facts, refs[j]).Ok?
  }

  lemma {:induction false} ProblemStops(facts: Facts, refs: seq<string>, n: nat, k: nat)
    requires n <= |refs| && k < n && IsFirstProblem(facts, refs, k)
    ensures ResolveRates(facts, refs, n) == Err(ResolveRate(facts, refs[k]).error)
  {
    hide ResolveRate;
    if k < n - 1 {
      ProblemStops(facts, refs, n - 1, k);
    } else {
      RatesResolveIff(facts, refs, k);
    }
  }

  lemma {:induction false} SomeProblemIsFirst(facts: Facts, refs: seq<string>, n: nat) returns (k: nat)
    requires n <= |refs| && exists j :: 0 <= j < n && ResolveRate(facts, refs[j]).Err?
    ensures IsFirstProblem(facts, refs, k)
  {
    hide ResolveRate;
    if j :| 0 <= j < n - 1 && ResolveRate(facts, refs[j]).Err? {
      k := SomeProblemIsFirst(facts, refs, n - 1);
    } else {
      k := n - 1;
    }
  }

  lemma PriorMeans(s: Store, q: string, n: int)
    requires Inv(s) && WellKeyed(s) && IsStored(s, q, n)
    ensures PriorOf(s, q, s.versions[q][n - 1])
            == if n == 1 then None else Some(PriorSnapshot(s.versions[q][n - 2].outputs.fxRateSnapshot))
  {
    hide LogInv, IdsInv;
    PriorIsPredecessor(s, q, n);
  }

  lemma RatesMean(facts: Facts, refs: seq<string>)
    ensures AllResolve(facts, refs) ==> ResolveRates(facts, refs, |refs|) == Ok(Rates(facts, refs))
    ensures !AllResolve(facts, refs) ==>
              exists k: nat :: IsFirstProblem(facts, refs, k)
                          && ResolveRates(facts, refs, |refs|) == Err(ResolveRate(facts, refs[k]).error)
  {
    hide ResolveRate;
    if AllResolve(facts, refs) {
      RatesAreTheResolved(facts, refs);
    } else {
      var k := SomeProblemIsFirst(facts, refs, |refs|);
      ProblemStops(facts, refs, |refs|, k);
    }
  }

  /**
   Pricing a draft: refused if anything is missing, if the route cannot be executed or a rate cannot be
   had, or if the calculation fails; otherwise the version is priced, with what was calculated from all
   its rates, the rate stored by the version before and its own margin floor.
   */
  lemma PricingMeans(s: Store, q: string, n: int, facts: Facts, now: string)
    requires Inv(s) && WellKeyed(s) && IsStored(s, q, n) && s.versions[q][n - 1].status == Draft
    ensures var c, v := Price(q, n), s.versions[q][n - 1];
            if !(IsText(v.inputs.recommendationId) && IsText(v.inputs.selectedRouteId) && v.inputs.rateRefs != []
                 && IsText(v.inputs.fxRateRef) && facts.configured)
            then IsRefused(s, c, facts, now, ComposeIncomplete)
            else if facts.routeState(v.inputs.selectedRouteId.value) == Unreachable
            then IsRefused(s, c, facts, now, ServiceFailure)
            else if facts.routeState(v.inputs.selectedRouteId.value) in {NoRecord, Found("unavailable")}
            then IsRefused(s, c, facts, now, RouteUnavailable)
            else if !AllResolve(facts, v.inputs.rateRefs)
            then exists k: nat :: IsFirstProblem(facts, v.inputs.rateRefs, k)
                             && IsRefused(s, c, facts, now, ResolveRate(facts, v.inputs.rateRefs[k]).error)
            else
              match Calculate(Rates(facts, v.inputs.rateRefs),
                              if n == 1 then None else Some(PriorSnapshot(s.versions[q][n - 2].outputs.fxRateSnapshot)),
                              v.inputs.marginFloorRef)
              case Err(error) => IsRefused(s, c, facts, now, MoneyProblem(error))
              case Ok(x) =>
                && Reported(s, c, facts, now)
                   == Ok(Version(q, n, v.prior, Priced, v.currency, v.createdAt, v.createdBy, v.triggerEventRef,
                                 v.inputs,
                                 Outputs(Some(x.totalCost.amountMinor), Some(x.sellPrice.amountMinor),
                                         Some("demo-cost-plus-margin-v1"), Some(x.margin), x.fxRateUsed, x.rules)))
                && Turned(s, After(s, c, facts, now), q, n, Reported(s, c, facts, now).value)
                && After(s, c, facts, now).decisions == s.decisions
  {
    hide Inv, WellKeyed, GetVersion, PriorOf, After, Reported, Turned, Calculate, ResolveRates, ResolveRate, Rates,
      AllResolve;
    var c, v := Price(q, n), s.versions[q][n - 1];
    var refs := v.inputs.rateRefs;
    StoredIsFound(s, q, n);
    ReportedIsPlanned(s, c, facts, now);
    PriorMeans(s, q, n);
    if Reported(s, c, facts, now).Ok? {
      RevisionTurns(s, c, facts, now);
    } else {
      RefusedChangesNothing(s, c, facts, now);
    }
    RatesMean(facts, refs);
    if !AllResolve(facts, refs) {
      var k: nat :| IsFirstProblem(facts, refs, k)
                    && ResolveRates(facts, refs, |refs|) == Err(ResolveRate(facts, refs[k]).error);
    }
  }

  lemma RatesAreCosts(facts: Facts, refs: seq<string>)
    requires AllResolve(facts, refs)
    ensures |Rates(facts, refs)| == |refs|
    ensures forall k :: 0 <= k < |refs| ==> Rates(facts, refs)[k].cost.amountMinor >= 0
  {
    hide ResolveRate;
    RatesAreTheResolved(facts, refs);
  }

  /** What a priced version holds is the calculation's result, in numbers. */
  lemma PricedInNumbers(s: Store, q: string, n: int, facts: Facts, now: string)
    requires Inv(s) && WellKeyed(s) && Reported(s, Price(q, n), facts, now).Ok?
    ensures IsStored(s, q, n) && s.versions[q][n - 1].status == Draft
    ensures var w, floor := Reported(s, Price(q, n), facts, now).value, s.versions[q][n - 1].inputs.marginFloorRef;
            && w.inputs == s.versions[q][n - 1].inputs && w.status == Priced && |w.outputs.rules| == 5
            && AllResolve(facts, w.inputs.rateRefs) && w.outputs.sellPrice.Some?
            && w.outputs.totalCost == Some(SumMinor(Rates(facts, w.inputs.rateRefs)))
            && var breached := w.outputs.rules[1].result == OverThreshold;
               var target := if floor == Some("strategic-account") then (if breached then 140 else 120)
                             else if breached then 200 else 180;
               && w.outputs.rules[0].threshold == Some(if floor == Some("strategic-account") then 120 else 180)
               && IsLeastPrice(w.outputs.sellPrice.value, w.outputs.totalCost.value, target)
  {
    hide Inv, WellKeyed, After, Reported, Calculate, ResolveRate, Rates, AllResolve, SumMinor, IsLeastPrice, IsLastRate,
      IsRateCheck, Turned;
    RevisionIsRefused(s, Price(q, n), facts, now);
    PricingMeans(s, q, n, facts, now);
    var v := s.versions[q][n - 1];
    RatesAreCosts(facts, v.inputs.rateRefs);
    CalculationInNumbers(Rates(facts, v.inputs.rateRefs),
                         if n == 1 then None else Some(PriorSnapshot(s.versions[q][n - 2].outputs.fxRateSnapshot)),
                         v.inputs.marginFloorRef);
  }

  /**
   The margin floor that a draft is composed with governs its price: composed with "strategic-account", R1
   holds it against 12 percent and the price is the least one for 12 percent, or 14 after a rate breach;
   composed with any other reference, against 18, and for 18 or 20 percent.
   */
  lemma FloorGovernsPrice(s: Store, compose: Command, facts: Facts, now: string, later: Facts, afterwards: string)
    requires Inv(s) && WellKeyed(s) && compose.ComposePricingInputs? && Reported(s, compose, facts, now).Ok?
    requires WellKeyed(After(s, compose, facts, now))
    requires Reported(After(s, compose, facts, now), Price(compose.quoteId, compose.version), later, afterwards).Ok?
    ensures var t := After(s, compose, facts, now);
            var w := Reported(t, Price(compose.quoteId, compose.version), later, afterwards).value;
            && w.inputs.rateRefs == compose.rateRefs && w.inputs.marginFloorRef == Some(compose.marginFloorRef)
            && AllResolve(later, compose.rateRefs) && |w.outputs.rules| == 5 && w.outputs.sellPrice.Some?
            && w.outputs.totalCost == Some(SumMinor(Rates(later, compose.rateRefs)))
            && var breached := w.outputs.rules[1].result == OverThreshold;
               var strategic := compose.marginFloorRef == "strategic-account";
               var target := if strategic then (if breached then 140 else 120) else if breached then 200 else 180;
               && w.outputs.rules[0].threshold == Some(if strategic then 120 else 180)
               && IsLeastPrice(w.outputs.sellPrice.value, w.outputs.totalCost.value, target)
  {
    hide Inv, WellKeyed, After, Reported, Rates, AllResolve, SumMinor, IsLeastPrice;
    var q, n, t := compose.quoteId, compose.version, After(s, compose, facts, now);
    RevisionIsRefused(s, compose, facts, now);
    PricingInputsMean(s, q, n, compose.fxRateRef, compose.rateRefs, compose.pricingTermsRef, compose.marginFloorRef,
                      facts, now);
    ApplyEvolves(s, compose, facts, now);
    PricedInNumbers(t, q, n, later, afterwards);
  }
}
