/**
 When a call to the quote store is atomic although it reads first and writes later: exactly when
 its late write leaves what the whole call, made at that moment, would leave.
 */
module QuoteAtomicity {
  import opened Base
  import opened Calculator
  import opened Decimals
  import opened QuoteHistory
  import opened QuoteInvariant
  import opened QuoteModel

  // ---------------------------------------------------------------- when a late write is atomic

  function RateOf(prior: Option<PriorSnapshot>): Option<real> {
    if prior.None? then None else prior.value.fxRateSnapshot
  }

  /** The rate that pricing compares with: the one the previous version stores. */
  function PriorRate(s: Store, q: string, v: Version): Option<real> {
    RateOf(PriorOf(s, q, v))
  }

  /** The rate that was read for a write, if pricing read one. */
  function RateRead(later: Store, w: Write): Option<real> {
    if w.Rewrite? then PriorRate(later, w.quoteId, w.base) else None
  }

  /**
   What must not have changed between a call's reading and its writing, in terms of the store that
   is written to, of the write, and of the previous version's rate that pricing read.
   */
  predicate Undisturbed(t: Store, c: Command, w: Write, rate: Option<real>) {
    match w
    case Rewrite(q, base, updated, record) =>
      GetVersion(t, q, base.number).Some? &&
      var current := GetVersion(t, q, base.number).value;
      if c.ComposeRecommendation? || c.ComposePricingInputs? then
        current.status.Draft? && Composed(current.inputs, c) == updated.inputs
      else if c.Price? then
        || current == updated
        || (&& current.status.Draft? && current.inputs == updated.inputs
            && (updated.outputs.fxRateSnapshot.None? || PriorRate(t, q, current) == rate))
      else if c.Submit? then current.status == Priced || current == updated
      else current.status == ApprovalRequired
    case Append(q, draft) =>
      && q in t.versions && |t.versions[q]| == draft.number - 1 && c.CreateNextVersion?
      && (c.copyFromPrior ==> t.versions[q] != [] && Last(t.versions[q]).inputs == draft.inputs)
    case Insert(quote, _) => quote.quoteId == QuoteId(t.nextId)
  }

  lemma TwoRewritesAgreeIff(t: Store, w: Write, x: Write)
    requires Inv(t) && WellKeyed(t) && w.Rewrite? && x.Rewrite? && w.quoteId == x.quoteId && w.record == x.record
    requires w.quoteId in t.versions && 1 <= w.base.number <= |t.versions[w.quoteId]|
    requires w.base.number == x.base.number == w.updated.number == x.updated.number
    ensures Commit(t, w) == Commit(t, x) <==> w.updated == x.updated
  {
    hide Inv, Commit, WellKeyed, DecisionKey;
    var q, k := w.quoteId, w.base.number - 1;
    RewriteShape(t, w);
    RewriteShape(t, x);
    assert Commit(t, w).versions[q][k] == w.updated && Commit(t, x).versions[q][k] == x.updated;
  }

  lemma LoggingAddsARecord(decisions: map<string, seq<DecisionRecord>>, key: string, record: DecisionRecord)
    ensures Logged(decisions, key, record) != decisions
  {
    var before := if key in decisions then decisions[key] else [];
    assert |Logged(decisions, key, record)[key]| == |before| + 1;
  }

  lemma RewriteIsNothingIff(t: Store, w: Write)
    requires Inv(t) && WellKeyed(t) && w.Rewrite? && w.quoteId in t.versions
    requires 1 <= w.base.number <= |t.versions[w.quoteId]| && w.base.number == w.updated.number
    ensures Commit(t, w) == t <==> w.updated == t.versions[w.quoteId][w.base.number - 1] && w.record.None?
  {
    hide Inv, Commit, WellKeyed, DecisionKey;
    var q, k := w.quoteId, w.base.number - 1;
    RewriteShape(t, w);
    assert Commit(t, w).versions[q][k] == w.updated;
    if w.record.Some? {
      LoggingAddsARecord(t.decisions, DecisionKey(q, w.base.number), w.record.value);
    }
  }

  /** Two versions that read alike in every field are one. */
  lemma SameStatusSameVersion(base: Version, current: Version)
    requires VersionEvolves(base, current) && current.status == base.status && !base.status.Draft?
    ensures current == base
  {
  }

  lemma SecondRuleIsR2(rates: seq<RateResolution>, prior: Option<PriorSnapshot>, marginFloorRef: Option<string>)
    requires rates != [] && Calculate(rates, prior, marginFloorRef).Ok?
    ensures |Calculate(rates, prior, marginFloorRef).value.rules| == 5
    ensures EvaluateR2(LastRate(rates), prior) == Ok(Calculate(rates, prior, marginFloorRef).value.rules[1])
  {
    hide SumCosts, LastRate, Pricing.ResolveProfile, Pricing.TargetMargin, Pricing.CalculateSellPrice,
      Pricing.CommercialRoundUp, Pricing.MarginPctX10, EvaluateR2;
  }

  lemma SameR2SameCalculation(rates: seq<RateResolution>, prior: Option<PriorSnapshot>, now: Option<PriorSnapshot>,
                              marginFloorRef: Option<string>)
    requires rates != [] && EvaluateR2(LastRate(rates), now) == EvaluateR2(LastRate(rates), prior)
    ensures Calculate(rates, now, marginFloorRef) == Calculate(rates, prior, marginFloorRef)
  {
    hide SumCosts, LastRate, Pricing.ResolveProfile, Pricing.TargetMargin, Pricing.CalculateSellPrice,
      Pricing.CommercialRoundUp, Pricing.MarginPctX10, EvaluateR2;
  }

  /** Calculating again with another previous rate changes nothing exactly if there was nothing to compare it with. */
  lemma RateMattersIff(rates: seq<RateResolution>, prior: Option<PriorSnapshot>, now: Option<PriorSnapshot>,
                       marginFloorRef: Option<string>)
    requires rates != [] && Calculate(rates, prior, marginFloorRef).Ok?
    requires prior.None? || prior.value.fxRateSnapshot.None? || prior == now
    ensures Calculate(rates, now, marginFloorRef) == Calculate(rates, prior, marginFloorRef) <==>
              || LastRate(rates).None?
              || RateOf(now) == RateOf(prior)
  {
    hide Calculate, SumCosts, LastRate, FxVariance;
    if EvaluateR2(LastRate(rates), now) == EvaluateR2(LastRate(rates), prior) {
      SameR2SameCalculation(rates, prior, now, marginFloorRef);
    } else if Calculate(rates, now, marginFloorRef).Ok? {
      SecondRuleIsR2(rates, prior, marginFloorRef);
      SecondRuleIsR2(rates, now, marginFloorRef);
    }
  }

  /** Total and price are in the unit of the costs. */
  lemma UnitIsKept(rates: seq<RateResolution>, prior: Option<PriorSnapshot>, marginFloorRef: Option<string>)
    requires rates != [] && Calculate(rates, prior, marginFloorRef).Ok?
    ensures var priced := Calculate(rates, prior, marginFloorRef).value;
            && SumCosts(rates, |rates|) == Ok(priced.totalCost)
            && priced.sellPrice.currency == priced.totalCost.currency
            && priced.sellPrice.minorUnit == priced.totalCost.minorUnit
  {
    hide SumCosts, LastRate, Pricing.ResolveProfile, Pricing.TargetMargin, EvaluateR2;
  }

  lemma OutputsTellCalculations(a: Calculation, b: Calculation, rates: seq<RateResolution>,
                                prior: Option<PriorSnapshot>, now: Option<PriorSnapshot>,
                                marginFloorRef: Option<string>)
    requires rates != [] && Calculate(rates, prior, marginFloorRef) == Ok(a)
    requires Calculate(rates, now, marginFloorRef) == Ok(b)
    ensures OutputsOf(a) == OutputsOf(b) <==> a == b
    ensures OutputsOf(a).fxRateSnapshot == LastRate(rates)
  {
    hide SumCosts, LastRate, Pricing.ResolveProfile, Pricing.TargetMargin, Pricing.CalculateSellPrice,
      Pricing.CommercialRoundUp, Pricing.MarginPctX10, EvaluateR2;
    UnitIsKept(rates, prior, marginFloorRef);
    UnitIsKept(rates, now, marginFloorRef);
  }

  /** A previous version without a rate counts like no previous version. */
  function Normalised(prior: Option<PriorSnapshot>): Option<PriorSnapshot> {
    Some(PriorSnapshot(RateOf(prior)))
  }

  lemma NormalisedPrior(rates: seq<RateResolution>, prior: Option<PriorSnapshot>, marginFloorRef: Option<string>)
    requires rates != []
    ensures Calculate(rates, prior, marginFloorRef) == Calculate(rates, Normalised(prior), marginFloorRef)
  {
    hide LastRate, FxVariance, Calculate;
    SameR2SameCalculation(rates, prior, Normalised(prior), marginFloorRef);
  }

  /** Pricing again later gives the same result exactly if the inputs are the same and the rate is, where it counts. */
  lemma PricedAgainIff(seen: Store, later: Store, t: Store, q: string, number: int, facts: Facts)
    requires PriceRead(seen, later, q, number, facts).Ok? && VersionIn(t, q, number, Draft).Ok?
    requires var base, current := VersionIn(seen, q, number, Draft).value, VersionIn(t, q, number, Draft).value;
             && current == base.(inputs := current.inputs)
             && (PriorRate(later, q, base).None? || PriorRate(t, q, current) == PriorRate(later, q, base))
    ensures var base, current := VersionIn(seen, q, number, Draft).value, VersionIn(t, q, number, Draft).value;
            var updated := PriceRead(seen, later, q, number, facts).value;
            && updated.inputs == base.inputs
            && (PriceRead(t, t, q, number, facts) == Ok(updated) <==>
                  && current.inputs == updated.inputs
                  && (updated.outputs.fxRateSnapshot.None? || PriorRate(t, q, current) == PriorRate(later, q, base)))
  {
    hide VersionIn, ResolveRates, Calculate, RouteIsPricable, PriorOf, LastRate;
    var base, current := VersionIn(seen, q, number, Draft).value, VersionIn(t, q, number, Draft).value;
    if current.inputs == base.inputs {
      var rates := ResolveRates(facts, base.inputs.rateRefs, |base.inputs.rateRefs|).value;
      var before, now := PriorOf(later, q, base), PriorOf(t, q, current);
      NormalisedPrior(rates, before, base.inputs.marginFloorRef);
      NormalisedPrior(rates, now, base.inputs.marginFloorRef);
      RateMattersIff(rates, Normalised(before), Normalised(now), base.inputs.marginFloorRef);
      var priced := Calculate(rates, before, base.inputs.marginFloorRef).value;
      OutputsTellCalculations(priced, priced, rates, before, before, base.inputs.marginFloorRef);
      if Calculate(rates, now, base.inputs.marginFloorRef).Ok? {
        OutputsTellCalculations(priced, Calculate(rates, now, base.inputs.marginFloorRef).value, rates, before, now,
                                base.inputs.marginFloorRef);
      }
    }
  }

  // ---------------------------------------------------------------- command by command

  /** Everything that is known when a rewrite prepared earlier meets the version as it is now. */
  ghost predicate Meets(seen: Store, later: Store, t: Store, c: Command, facts: Facts, now: string) {
    && Inv(seen) && WellKeyed(seen) && Inv(later) && Inv(t) && WellKeyed(t)
    && StoreEvolves(seen, later) && StoreEvolves(later, t)
    && Prepare(seen, later, c, facts, now).Ok?
  }

  lemma MeetingFits(seen: Store, later: Store, t: Store, c: Command, facts: Facts, now: string)
    requires Meets(seen, later, t, c, facts, now)
    ensures Fits(t, Prepare(seen, later, c, facts, now).value)
  {
    hide Prepare, Fits, StoreEvolves, Histories, LogInv, IdsInv, WellKeyed;
    PreparedFits(seen, later, c, facts, now);
    FitsEvolves(later, t, Prepare(seen, later, c, facts, now).value);
  }

  lemma FitsAtPosition(t: Store, w: Write)
    requires Fits(t, w) && w.Rewrite?
    ensures w.quoteId in t.versions && 1 <= w.base.number <= |t.versions[w.quoteId]|
    ensures VersionEvolves(w.base, t.versions[w.quoteId][w.base.number - 1])
    ensures SameIdentity(w.base, w.updated) && StatusStep(w.base.status, w.updated.status)
  {
    hide Frozen, VersionEvolves, SameIdentity, StatusStep;
  }

  lemma LookedUpByStatus(s: Store, q: string, number: int, status: Status)
    requires GetVersion(s, q, number).Some?
    ensures var v := GetVersion(s, q, number).value;
            VersionIn(s, q, number, status) == if v.status == status then Ok(v) else Err(InvalidState)
  {
    hide GetVersion;
  }

  lemma DraftsAreBlank(s: Store, q: string, number: int)
    requires Inv(s) && q in s.versions && 1 <= number <= |s.versions[q]|
    ensures s.versions[q][number - 1].status.Draft? ==> s.versions[q][number - 1].outputs == NO_OUTPUTS
  {
    hide LogInv, IdsInv, Replays;
    assert VersionInv(q, s.versions[q], number - 1);
  }

  /** The version as it is now, for a rewrite. */
  lemma RewriteMeets(seen: Store, later: Store, t: Store, c: Command, facts: Facts, now: string, w: Write)
    requires Meets(seen, later, t, c, facts, now) && !c.CreateQuote? && !c.CreateNextVersion?
    requires Prepare(seen, later, c, facts, now) == Ok(w) && w.Rewrite?
    ensures && w.quoteId == c.quoteId && w.base.number == c.version == w.updated.number
            && w.base.status == Asked(c) && SameIdentity(w.base, w.updated)
            && StatusStep(w.base.status, w.updated.status)
            && c.quoteId in t.versions && 1 <= c.version <= |t.versions[c.quoteId]|
            && var current := t.versions[c.quoteId][c.version - 1];
               && GetVersion(t, c.quoteId, c.version) == Some(current) && current.number == c.version
               && VersionEvolves(w.base, current)
               && (current.status == Asked(c) <==> VersionIn(t, c.quoteId, c.version, Asked(c)) == Ok(current))
               && (current.status != Asked(c) ==> VersionIn(t, c.quoteId, c.version, Asked(c)).Err?)
               && (current.status.Draft? ==> current.outputs == NO_OUTPUTS)
               && (w.base.status.Draft? ==> w.base.outputs == NO_OUTPUTS)
  {
    hide Prepare, Inv, StoreEvolves, WellKeyed, GetVersion, Fits, VersionEvolves, SameIdentity, StatusStep, VersionIn,
      Asked;
    MeetingFits(seen, later, t, c, facts, now);
    FitsAtPosition(t, w);
    PreparedRewriteIs(seen, later, c, facts, now);
    FoundIsFrozenInv(seen, c.quoteId, c.version, Asked(c));
    SameNumber(w.base, w.updated);
    VersionAtInv(t, c.quoteId, c.version);
    DraftsAreBlank(t, c.quoteId, c.version);
    DraftsAreBlank(seen, c.quoteId, c.version);
    LookedUpByStatus(t, c.quoteId, c.version, Asked(c));
  }

  lemma RefusedElsewhere(t: Store, c: Command, facts: Facts, now: string)
    requires WellKeyed(t) && !c.CreateQuote? && !c.CreateNextVersion?
    requires VersionIn(t, c.quoteId, c.version, Asked(c)).Err?
    ensures Prepare(t, t, c, facts, now).Err? && After(t, c, facts, now) == t
  {
    hide GetVersion, PriceFrom, PriorOf;
  }

  lemma ComposeAgain(t: Store, c: Command, facts: Facts, now: string, current: Version) returns (x: Write)
    requires WellKeyed(t) && (c.ComposeRecommendation? || c.ComposePricingInputs?)
    requires VersionIn(t, c.quoteId, c.version, Draft) == Ok(current)
    ensures x == Rewrite(c.quoteId, current, current.(inputs := Composed(current.inputs, c)), None)
    ensures After(t, c, facts, now) == Commit(t, x)
  {
    hide VersionIn, Commit, Composed;
    x := Rewrite(c.quoteId, current, current.(inputs := Composed(current.inputs, c)), None);
  }

  lemma ComposedDraftsAgreeIff(base: Version, current: Version, updated: Version, again: Version, c: Command)
    requires SameIdentity(base, current) && base.status == current.status && base.outputs == current.outputs
    requires c.ComposeRecommendation? || c.ComposePricingInputs?
    requires updated == base.(inputs := Composed(base.inputs, c))
    requires again == current.(inputs := Composed(current.inputs, c))
    ensures updated == again <==> Composed(current.inputs, c) == updated.inputs
  {
    hide Composed;
  }

  lemma ComposeIsAtomicIff(seen: Store, later: Store, t: Store, c: Command, facts: Facts, now: string)
    requires Meets(seen, later, t, c, facts, now) && (c.ComposeRecommendation? || c.ComposePricingInputs?)
    ensures var w := Prepare(seen, later, c, facts, now).value;
            Commit(t, w) == After(t, c, facts, now) <==> Undisturbed(t, c, w, RateRead(later, w))
  {
    hide Inv, WellKeyed, StoreEvolves, Prepare, Commit, GetVersion, VersionEvolves, SameIdentity, VersionIn, Composed,
      Fits;
    var w := Prepare(seen, later, c, facts, now).value;
    PreparedRewriteIs(seen, later, c, facts, now);
    RewriteMeets(seen, later, t, c, facts, now, w);
    var current := t.versions[c.quoteId][c.version - 1];
    if current.status.Draft? {
      var x := ComposeAgain(t, c, facts, now, current);
      TwoRewritesAgreeIff(t, w, x);
      SameThroughEvolution(w.base, current);
      ComposedDraftsAgreeIff(w.base, current, w.updated, x.updated, c);
    } else {
      RefusedElsewhere(t, c, facts, now);
      RewriteIsNothingIff(t, w);
    }
  }

  lemma DraftsAgree(base: Version, current: Version)
    requires SameIdentity(base, current) && base.status == current.status && base.outputs == current.outputs
    ensures current == base.(inputs := current.inputs)
  {
  }

  lemma PricedNumber(t: Store, q: string, number: int, facts: Facts)
    requires PriceRead(t, t, q, number, facts).Ok? && VersionIn(t, q, number, Draft).Ok?
    ensures PriceRead(t, t, q, number, facts).value.number == VersionIn(t, q, number, Draft).value.number
  {
    hide VersionIn, ResolveRates, Calculate, RouteIsPricable, PriorOf;
  }

  lemma PricePlan(t: Store, c: Command, facts: Facts, now: string, current: Version)
    requires WellKeyed(t) && c.Price? && VersionIn(t, c.quoteId, c.version, Draft) == Ok(current)
    ensures Prepare(t, t, c, facts, now) ==
            match PriceRead(t, t, c.quoteId, c.version, facts)
            case Err(error) => Err(error)
            case Ok(updated) => Ok(Rewrite(c.quoteId, current, updated, None))
  {
    hide GetVersion, PriceFrom, PriorOf;
  }

  lemma PriceAgain(t: Store, c: Command, facts: Facts, now: string, current: Version)
    requires WellKeyed(t) && c.Price? && VersionIn(t, c.quoteId, c.version, Draft) == Ok(current)
    ensures After(t, c, facts, now) ==
            match PriceRead(t, t, c.quoteId, c.version, facts)
            case Err(_) => t
            case Ok(updated) => Commit(t, Rewrite(c.quoteId, current, updated, None))
  {
    hide VersionIn, Commit, PriceRead, Prepare;
    PricePlan(t, c, facts, now, current);
  }

  lemma PositionStays(s: Store, t: Store, q: string, k: nat)
    requires StoreEvolves(s, t) && q in s.versions && k < |s.versions[q]|
    ensures q in t.versions && k < |t.versions[q]| && t.versions[q][k].prior == s.versions[q][k].prior
  {
    hide SameQuote;
    assert VersionEvolves(s.versions[q][k], t.versions[q][k]);
  }

  /** A previous version's rate that pricing saw is still the one that is stored. */
  lemma PriorRateOnlyFillsIn(seen: Store, later: Store, t: Store, q: string, number: int, base: Version)
    requires Inv(seen) && Inv(later) && Inv(t) && StoreEvolves(seen, later) && StoreEvolves(later, t)
    requires VersionIn(seen, q, number, Draft) == Ok(base)
    requires q in t.versions && 1 <= number <= |t.versions[q]|
    ensures || PriorRate(later, q, base).None?
            || PriorRate(t, q, t.versions[q][number - 1]) == PriorRate(later, q, base)
  {
    hide LogInv, IdsInv, Histories, StoreEvolves, VersionIn, PriorOf;
    FoundIsFrozenInv(seen, q, number, Draft);
    PositionStays(seen, later, q, number - 1);
    PriorIsPredecessor(later, q, number);
    PriorIsPredecessor(t, q, number);
    SamePriorSamePrice(later, q, base, later.versions[q][number - 1]);
    SnapshotOnlyFillsIn(later, t, q, number - 1);
  }

  lemma PriceIsAtomicIff(seen: Store, later: Store, t: Store, c: Command, facts: Facts, now: string)
    requires Meets(seen, later, t, c, facts, now) && c.Price?
    ensures var w := Prepare(seen, later, c, facts, now).value;
            Commit(t, w) == After(t, c, facts, now) <==> Undisturbed(t, c, w, RateRead(later, w))
  {
    hide Inv, WellKeyed, StoreEvolves, Prepare, Commit, GetVersion, VersionEvolves, SameIdentity, VersionIn,
      PriceRead, PriorRate;
    var w := Prepare(seen, later, c, facts, now).value;
    PreparedRewriteIs(seen, later, c, facts, now);
    RewriteMeets(seen, later, t, c, facts, now, w);
    var current := t.versions[c.quoteId][c.version - 1];
    RewriteIsNothingIff(t, w);
    if current.status.Draft? {
      SameThroughEvolution(w.base, current);
      DraftsAgree(w.base, current);
      PriorRateOnlyFillsIn(seen, later, t, c.quoteId, c.version, w.base);
      PricedAgainIff(seen, later, t, c.quoteId, c.version, facts);
      PriceAgain(t, c, facts, now, current);
      if PriceRead(t, t, c.quoteId, c.version, facts).Ok? {
        var x := Rewrite(c.quoteId, current, PriceRead(t, t, c.quoteId, c.version, facts).value, None);
        PricedNumber(t, c.quoteId, c.version, facts);
        TwoRewritesAgreeIff(t, w, x);
      }
    } else {
      RefusedElsewhere(t, c, facts, now);
    }
  }

  /** Read again, the same version makes the same write. */
  lemma MoveAgain(seen: Store, later: Store, t: Store, c: Command, facts: Facts, now: string)
    requires WellKeyed(seen) && WellKeyed(t) && (c.Submit? || c.Decide?)
    requires VersionIn(seen, c.quoteId, c.version, Asked(c)).Ok?
    requires VersionIn(t, c.quoteId, c.version, Asked(c)) == VersionIn(seen, c.quoteId, c.version, Asked(c))
    ensures Prepare(seen, later, c, facts, now).Ok?
    ensures After(t, c, facts, now) == Commit(t, Prepare(seen, later, c, facts, now).value)
  {
    hide VersionIn, Commit;
  }

  lemma MoveIsAtomicIff(seen: Store, later: Store, t: Store, c: Command, facts: Facts, now: string)
    requires Meets(seen, later, t, c, facts, now) && (c.Submit? || c.Decide?)
    ensures var w := Prepare(seen, later, c, facts, now).value;
            Commit(t, w) == After(t, c, facts, now) <==> Undisturbed(t, c, w, RateRead(later, w))
  {
    hide Inv, WellKeyed, StoreEvolves, Prepare, Commit, GetVersion, VersionEvolves, SameIdentity, VersionIn;
    var w := Prepare(seen, later, c, facts, now).value;
    PreparedRewriteIs(seen, later, c, facts, now);
    RewriteMeets(seen, later, t, c, facts, now, w);
    var current := t.versions[c.quoteId][c.version - 1];
    RewriteIsNothingIff(t, w);
    if current.status == Asked(c) {
      SameStatusSameVersion(w.base, current);
      MoveAgain(seen, later, t, c, facts, now);
    } else {
      RefusedElsewhere(t, c, facts, now);
    }
  }

  lemma HistoryStays(s: Store, t: Store, q: string)
    requires Inv(s) && WellKeyed(s) && StoreEvolves(s, t) && q in s.versions
    ensures q in t.versions && |s.versions[q]| <= |t.versions[q]| && s.versions[q] != []
    ensures SameIdentity(Last(s.versions[q]), t.versions[q][|s.versions[q]| - 1])
  {
    hide Inv, SameQuote;
    var k := |s.versions[q]| - 1;
    assert VersionEvolves(s.versions[q][k], t.versions[q][k]);
  }

  lemma DraftsFromSameLatest(v: Version, w: Version, c: Command, now: string)
    requires SameIdentity(v, w) && c.CreateNextVersion?
    ensures NextDraft(v, c, now) == NextDraft(w, c, now)
            <==> (c.copyFromPrior ==> w.inputs == NextDraft(v, c, now).inputs)
  {
  }

  lemma SupersedeIsAtomicIff(seen: Store, later: Store, t: Store, c: Command, facts: Facts, now: string)
    requires Meets(seen, later, t, c, facts, now) && c.CreateNextVersion?
    ensures var w := Prepare(seen, later, c, facts, now).value;
            Commit(t, w) == After(t, c, facts, now) <==> Undisturbed(t, c, w, RateRead(later, w))
  {
    hide Inv, StoreEvolves, Prepare, VersionEvolves, NextDraft;
    var w, q := Prepare(seen, later, c, facts, now).value, c.quoteId;
    SupersedesLatest(seen, later, c, facts, now);
    SupersedesLatest(t, t, c, facts, now);
    EvolvesOnwards(seen, later, t);
    HistoryStays(seen, t, q);
    var u := Commit(t, w);
    assert u.versions[q] == t.versions[q] + [w.draft];
    if |t.versions[q]| == c.expectedLatest {
      var x := Prepare(t, t, c, facts, now).value;
      assert Commit(t, x).versions[q] == t.versions[q] + [x.draft];
      assert Commit(t, x).versions[q][|t.versions[q]|] == x.draft && u.versions[q][|t.versions[q]|] == w.draft;
      DraftsFromSameLatest(Last(seen.versions[q]), Last(t.versions[q]), c, now);
    } else {
      assert After(t, c, facts, now) == t;
      assert |u.versions[q]| != |t.versions[q]|;
    }
  }

  lemma CreateIsAtomicIff(seen: Store, later: Store, t: Store, c: Command, facts: Facts, now: string)
    requires Meets(seen, later, t, c, facts, now) && c.CreateQuote?
    ensures var w := Prepare(seen, later, c, facts, now).value;
            Commit(t, w) == After(t, c, facts, now) <==> Undisturbed(t, c, w, RateRead(later, w))
  {
    hide Histories, LogInv, StoreEvolves, QuoteId, IdNumber, ValidateCustomer, FirstVersions;
    var w := Prepare(seen, later, c, facts, now).value;
    var x := Prepare(t, t, c, facts, now).value;
    FreshId(t);
    QuoteIdReadsBack(seen.nextId);
    QuoteIdReadsBack(t.nextId);
    assert w.quote.quoteId == QuoteId(seen.nextId) && x.quote.quoteId == QuoteId(t.nextId);
    assert QuoteId(t.nextId) in Commit(t, x).versions;
    if t.nextId != seen.nextId {
      assert QuoteId(t.nextId) !in Commit(t, w).versions;
    }
  }

  /**
   A call that read `seen` (and, pricing, the previous rate in `later`) leaves in `t` what the whole
   call made in `t` would leave, if and only if nothing it relies on changed in between.
   */
  lemma CallIsAtomicIff(seen: Store, later: Store, t: Store, c: Command, facts: Facts, now: string)
    requires Meets(seen, later, t, c, facts, now)
    ensures var w := Prepare(seen, later, c, facts, now).value;
            Commit(t, w) == After(t, c, facts, now) <==> Undisturbed(t, c, w, RateRead(later, w))
  {
    hide Inv, WellKeyed, StoreEvolves, Prepare, Commit, After, Undisturbed;
    if c.CreateQuote? {
      CreateIsAtomicIff(seen, later, t, c, facts, now);
    } else if c.CreateNextVersion? {
      SupersedeIsAtomicIff(seen, later, t, c, facts, now);
    } else if c.Price? {
      PriceIsAtomicIff(seen, later, t, c, facts, now);
    } else if c.Submit? || c.Decide? {
      MoveIsAtomicIff(seen, later, t, c, facts, now);
    } else {
      ComposeIsAtomicIff(seen, later, t, c, facts, now);
    }
  }
}
