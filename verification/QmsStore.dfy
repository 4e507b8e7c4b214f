/**
 The in-memory quote store itself (mock_qms/store.py): its dictionaries and counter as fields that
 the methods update in place.  Every method does what the command of the same name says.
 */
module Qms {
  import opened Base
  import opened Calculator
  import opened Decimals
  import opened QuoteHistory
  import opened QuoteInvariant
  import opened QuoteModel

  /** A call took the store from `before` to `after`, and reported `r`, as the command prescribes. */
  predicate Performed(c: Command, facts: Facts, now: string, before: Store, after: Store,
                      r: Result<Version, StoreError>) {
    WellKeyed(before) && after == After(before, c, facts, now) && r == Reported(before, c, facts, now)
  }

  /** Creating, written out. */
  lemma CreateIs(s: Store, c: Command, facts: Facts, now: string)
    requires WellKeyed(s) && c.CreateQuote?
    ensures match ValidateCustomer(facts, c.customerId)
            case Err(error) => After(s, c, facts, now) == s && Reported(s, c, facts, now) == Err(error)
            case Ok(_) =>
              var id := QuoteId(s.nextId);
              var first := FirstVersions(id, c.currency, now, 1)[0].(createdBy := c.createdBy);
              && Reported(s, c, facts, now) == Ok(first)
              && After(s, c, facts, now)
                 == Store(s.quotes[id := Quote(id, c.rfqId, c.customerId, c.currency, 1, Draft, now)],
                          s.versions[id := [first]], s.decisions, s.nextId + 1)
  {
    hide ValidateCustomer, QuoteId;
  }

  /** Superseding, written out. */
  lemma SupersedeIs(s: Store, c: Command, facts: Facts, now: string)
    requires WellKeyed(s) && c.CreateNextVersion?
    ensures if c.quoteId !in s.versions then
              After(s, c, facts, now) == s && Reported(s, c, facts, now) == Err(UnknownQuote)
            else
              var latest := Last(s.versions[c.quoteId]);
              if c.expectedLatest != latest.number || c.priorVersion != latest.number then
                After(s, c, facts, now) == s && Reported(s, c, facts, now) == Err(VersionConflict)
              else
                var draft := NextDraft(latest, c, now);
                && Reported(s, c, facts, now) == Ok(draft)
                && After(s, c, facts, now)
                   == Store(s.quotes[c.quoteId := s.quotes[c.quoteId].(latestVersion := draft.number,
                                                                       latestStatus := Draft)],
                            s.versions[c.quoteId := s.versions[c.quoteId] + [draft]], s.decisions, s.nextId)
  {
    hide NextDraft;
  }

  lemma ErrorsStay(facts: Facts, refs: seq<string>, k: nat, n: nat)
    requires k <= n <= |refs| && ResolveRates(facts, refs, k).Err?
    ensures ResolveRates(facts, refs, n) == ResolveRates(facts, refs, k)
  {
    hide ResolveRate;
  }

  lemma {:induction false} ReloadStops(entries: seq<Fixture>, k: nat, facts: Facts, now: string)
    requires k <= |entries| && Reloaded(entries[..k], facts, now).1.Some?
    ensures Reloaded(entries, facts, now) == Reloaded(entries[..k], facts, now)
    decreases |entries|
  {
    if k == |entries| {
      assert entries[..k] == entries;
    } else {
      assert entries[..|entries| - 1][..k] == entries[..k];
      ReloadStops(entries[..|entries| - 1], k, facts, now);
    }
  }

  lemma ComposedHasRates(i: Inputs)
    requires IsComposed(i)
    ensures i.selectedRouteId.Some? && i.rateRefs != []
  {
  }

  class QmsStore {
    var quotes: map<string, Quote>
    var versions: map<string, seq<Version>>
    var decisions: map<string, seq<DecisionRecord>>
    var nextId: nat

    function State(): Store
      reads this
    {
      Store(quotes, versions, decisions, nextId)
    }

    ghost predicate Valid()
      reads this
    {
      Inv(State())
    }

    constructor ()
      ensures Valid() && State() == EMPTY
    {
      quotes, versions, decisions, nextId := map[], map[], map[], 1001;
      new;
      EmptyIsGood();
    }

    /** Asked for no version at all, it stores an empty history before it fails. */
    method SeedQuote(quoteId: string, rfqId: string, customerId: string, currency: string, n: int,
                     facts: Facts, now: string)
      returns (r: Result<Version, StoreError>)
      modifies this
      ensures match ValidateCustomer(facts, customerId)
              case Err(error) => r == Err(error) && State() == old(State())
              case Ok(_) =>
                && r == (if n <= 0 then Err(EmptyHistory) else Ok(FirstVersions(quoteId, currency, now, n)[0]))
                && State() == PutQuote(old(State()), quoteId, rfqId, customerId, currency, now, n)
    {
      var _ :- ValidateCustomer(facts, customerId);
      var history := FirstVersions(quoteId, currency, now, MaxInt(n, 0));
      quotes := quotes[quoteId := Quote(quoteId, rfqId, customerId, currency, n, Draft, now)];
      versions := versions[quoteId := history];
      return if history == [] then Err(EmptyHistory) else Ok(history[0]);
    }

    /** Back to the fixtures; one that fails leaves those before it loaded, and possibly an empty history. */
    method Reload(entries: seq<Fixture>, facts: Facts, now: string) returns (error: Option<StoreError>)
      modifies this
      ensures (State(), error) == Reloaded(entries, facts, now)
      ensures Valid() <==> error != Some(EmptyHistory)
    {
      hide ValidateCustomer, IdNumber, Inv, FirstVersions;
      quotes, versions, decisions, nextId := map[], map[], map[], 1001;
      error := None;
      for i := 0 to |entries|
        invariant (State(), None) == Reloaded(entries[..i], facts, now)
      {
        var e := entries[i];
        assert entries[..i + 1][..i] == entries[..i] && Last(entries[..i + 1]) == e;
        var seeded := SeedQuote(e.quoteId, e.rfqId, e.customerId, e.currency, e.versions, facts, now);
        if seeded.Err? {
          ReloadStops(entries, i + 1, facts, now);
          ReloadEstablishesInvIff(entries, facts, now);
          return Some(seeded.error);
        }
        var number := IdNumber(e.quoteId);
        if number.Some? {
          nextId := MaxInt(nextId, number.value + 1);
        }
      }
      assert entries[..|entries|] == entries;
      ReloadEstablishesInvIff(entries, facts, now);
    }

    method CreateQuote(rfqId: string, customerId: string, currency: string, createdBy: Option<string>,
                       facts: Facts, now: string)
      returns (r: Result<Version, StoreError>)
      requires Valid()
      modifies this
      ensures Valid()
      ensures Performed(Command.CreateQuote(rfqId, customerId, currency, createdBy),
                        facts, now, old(State()), State(), r)
    {
      hide Inv, ValidateCustomer, QuoteId, After, Reported, StoreEvolves;
      ghost var c, before := Command.CreateQuote(rfqId, customerId, currency, createdBy), State();
      KeysAgree(before);
      ApplyEvolves(before, c, facts, now);
      CreateIs(before, c, facts, now);
      var _ :- ValidateCustomer(facts, customerId);
      var quoteId := QuoteId(nextId);
      nextId := nextId + 1;
      var seeded := SeedQuote(quoteId, rfqId, customerId, currency, 1, facts, now);
      var version := seeded.value;
      assert version.(createdBy := None) == version;
      if createdBy.Some? {
        version := version.(createdBy := createdBy);
        versions := versions[quoteId := [version]];
      } else {
        assert versions[quoteId] == [version];
      }
      assert State() == After(before, c, facts, now);
      return Ok(version);
    }

    method FindVersion(quoteId: string, number: int) returns (r: Option<Version>)
      ensures r == GetVersion(State(), quoteId, number)
    {
      var vs := if quoteId in versions then versions[quoteId] else [];
      for k := 0 to |vs|
        invariant forall i :: 0 <= i < k ==> vs[i].number != number
      {
        if vs[k].number == number {
          return Some(vs[k]);
        }
      }
      return None;
    }

    /** Overwrite a version in its history, and the mirrored status if it is the last one. */
    method Replace(quoteId: string, number: int, updated: Version)
      requires WellKeyed(State()) && GetVersion(State(), quoteId, number).Some?
      modifies this`versions, this`quotes
      ensures State() == ReplaceVersion(old(State()), quoteId, number, updated)
    {
      var vs := versions[quoteId];
      var k := 0;
      while vs[k].number != number
        invariant 0 <= k <= IndexOf(vs, number).value
        decreases IndexOf(vs, number).value - k
      {
        k := k + 1;
      }
      vs := vs[k := updated];
      versions := versions[quoteId := vs];
      if number == Last(vs).number {
        quotes := quotes[quoteId := quotes[quoteId].(latestStatus := updated.status)];
      }
    }

    method FindIn(quoteId: string, number: int, status: Status) returns (r: Result<Version, StoreError>)
      ensures r == VersionIn(State(), quoteId, number, status)
    {
      hide GetVersion;
      var found := FindVersion(quoteId, number);
      if found.None? {
        return Err(UnknownQuote);
      }
      if found.value.status != status {
        return Err(InvalidState);
      }
      return Ok(found.value);
    }

    method CreateNextVersion(quoteId: string, priorVersion: int, expectedLatest: int, copyFromPrior: bool,
                             triggerEventRef: Option<string>, facts: Facts, now: string)
      returns (r: Result<Version, StoreError>)
      requires Valid()
      modifies this
      ensures Valid()
      ensures Performed(Command.CreateNextVersion(quoteId, priorVersion, expectedLatest, copyFromPrior,
                                                  triggerEventRef),
                        facts, now, old(State()), State(), r)
    {
      hide Inv, After, Reported, StoreEvolves;
      ghost var c := Command.CreateNextVersion(quoteId, priorVersion, expectedLatest, copyFromPrior, triggerEventRef);
      KeysAgree(State());
      ApplyEvolves(State(), c, facts, now);
      SupersedeIs(State(), c, facts, now);
      if quoteId !in versions {
        return Err(UnknownQuote);
      }
      var latest := Last(versions[quoteId]);
      if expectedLatest != latest.number || priorVersion != latest.number {
        return Err(VersionConflict);
      }
      var version := Version(latest.quoteId, latest.number + 1, Some(latest.number), Draft, latest.currency, now, None,
                             triggerEventRef, NO_INPUTS, NO_OUTPUTS);
      if copyFromPrior {
        version := version.(createdBy := latest.createdBy, inputs := latest.inputs);
      }
      versions := versions[quoteId := versions[quoteId] + [version]];
      quotes := quotes[quoteId := quotes[quoteId].(latestVersion := version.number, latestStatus := Draft)];
      return Ok(version);
    }

    method ComposeRouteRecommendation(quoteId: string, number: int, recommendationId: string, selectedRouteId: string,
                                      facts: Facts, now: string)
      returns (r: Result<Version, StoreError>)
      requires Valid()
      modifies this
      ensures Valid()
      ensures Performed(ComposeRecommendation(quoteId, number, recommendationId, selectedRouteId), facts, now,
                        old(State()), State(), r)
    {
      hide Inv, StoreEvolves, GetVersion, ReplaceVersion;
      KeysAgree(State());
      ApplyEvolves(State(), ComposeRecommendation(quoteId, number, recommendationId, selectedRouteId), facts, now);
      var v :- FindIn(quoteId, number, Draft);
      var updated := v.(inputs := v.inputs.(recommendationId := Some(recommendationId),
      selectedRouteId := Some(selectedRouteId)));
      Replace(quoteId, number, updated);
      return Ok(updated);
    }

    method ComposePricing(quoteId: string, number: int, fxRateRef: string, rateRefs: seq<string>,
                          pricingTermsRef: string, marginFloorRef: string, facts: Facts, now: string)
      returns (r: Result<Version, StoreError>)
      requires Valid()
      modifies this
      ensures Valid()
      ensures Performed(ComposePricingInputs(quoteId, number, fxRateRef, rateRefs, pricingTermsRef, marginFloorRef),
                        facts, now, old(State()), State(), r)
    {
      hide Inv, StoreEvolves, GetVersion, ReplaceVersion;
      KeysAgree(State());
      ApplyEvolves(State(), ComposePricingInputs(quoteId, number, fxRateRef, rateRefs, pricingTermsRef, marginFloorRef),
                    facts, now);
      var v :- FindIn(quoteId, number, Draft);
      var updated := v.(inputs := v.inputs.(fxRateRef := Some(fxRateRef), rateRefs := rateRefs,
      pricingTermsRef := Some(pricingTermsRef), marginFloorRef := Some(marginFloorRef)));
      Replace(quoteId, number, updated);
      return Ok(updated);
    }

    /** Resolve every rate reference, stopping at the first problem. */
    method Resolve(facts: Facts, refs: seq<string>) returns (r: Result<seq<RateResolution>, StoreError>)
      ensures r == ResolveRates(facts, refs, |refs|)
    {
      hide ResolveRate;
      var resolutions := [];
      for k := 0 to |refs|
        invariant ResolveRates(facts, refs, k) == Ok(resolutions)
      {
        var next := ResolveRate(facts, refs[k]);
        if next.Err? {
          ErrorsStay(facts, refs, k + 1, |refs|);
          return Err(next.error);
        }
        resolutions := resolutions + [next.value];
      }
      return Ok(resolutions);
    }

    /** The rate the previous version stored, if there is a previous version. */
    method FindPrior(quoteId: string, v: Version) returns (r: Option<PriorSnapshot>)
      ensures r == PriorOf(State(), quoteId, v)
    {
      hide GetVersion;
      if v.prior.None? || v.prior.value == 0 {
        return None;
      }
      var w := FindVersion(quoteId, v.prior.value);
      return if w.None? then None else Some(PriorSnapshot(w.value.outputs.fxRateSnapshot));
    }

    /** Everything that can fail comes before the single write. */
    method PriceVersion(quoteId: string, number: int, facts: Facts, now: string)
      returns (r: Result<Version, StoreError>)
      requires Valid()
      modifies this
      ensures Valid()
      ensures Performed(Price(quoteId, number), facts, now, old(State()), State(), r)
    {
      hide Inv, StoreEvolves, GetVersion, ReplaceVersion, ResolveRates, Calculate, RouteIsPricable, PriorOf, IsComposed;
      KeysAgree(State());
      ApplyEvolves(State(), Price(quoteId, number), facts, now);
      var v :- FindIn(quoteId, number, Draft);
      if !IsComposed(v.inputs) || !facts.configured {
        return Err(ComposeIncomplete);
      }
      ComposedHasRates(v.inputs);
      var _ :- RouteIsPricable(facts, v.inputs.selectedRouteId.value);
      var rates :- Resolve(facts, v.inputs.rateRefs);
      var prior := FindPrior(quoteId, v);
      var result := CalculatePricing(rates, prior, v.inputs.marginFloorRef);
      if result.Err? {
        return Err(MoneyProblem(result.error));
      }
      var updated := v.(status := Priced, outputs := OutputsOf(result.value));
      Replace(quoteId, number, updated);
      return Ok(updated);
    }

    method SubmitForApproval(quoteId: string, number: int, facts: Facts, now: string)
      returns (r: Result<Version, StoreError>)
      requires Valid()
      modifies this
      ensures Valid()
      ensures Performed(Submit(quoteId, number), facts, now, old(State()), State(), r)
    {
      hide Inv, StoreEvolves, GetVersion, ReplaceVersion;
      KeysAgree(State());
      ApplyEvolves(State(), Submit(quoteId, number), facts, now);
      var v :- FindIn(quoteId, number, Priced);
      var updated := v.(status := ApprovalRequired);
      Replace(quoteId, number, updated);
      return Ok(updated);
    }

    method RecordDecision(quoteId: string, number: int, decision: Decision, approver: string, reason: Option<string>,
                          facts: Facts, now: string)
      returns (r: Result<Version, StoreError>)
      requires Valid()
      modifies this
      ensures Valid()
      ensures Performed(Decide(quoteId, number, decision, approver, reason), facts, now, old(State()), State(), r)
    {
      hide Inv, StoreEvolves, GetVersion, ReplaceVersion, DecisionKey;
      KeysAgree(State());
      ApplyEvolves(State(), Decide(quoteId, number, decision, approver, reason), facts, now);
      var v :- FindIn(quoteId, number, ApprovalRequired);
      var updated := v.(status := decision);
      Replace(quoteId, number, updated);
      var key := DecisionKey(quoteId, number);
      var records := if key in decisions then decisions[key] else [];
      decisions := decisions[key := records + [DecisionRecord(decision, approver, reason, now)]];
      return Ok(updated);
    }

    /** Each filter given narrows the list further. */
    method SearchQuotes(customerId: Option<string>, rfqId: Option<string>, status: Option<Status>)
      returns (ids: set<string>)
      ensures ids == Search(State(), customerId, rfqId, status)
    {
      ids := quotes.Keys;
      if customerId.Some? {
        ids := set q | q in ids && quotes[q].customerId == customerId.value;
      }
      if rfqId.Some? {
        ids := set q | q in ids && quotes[q].rfqId == rfqId.value;
      }
      if status.Some? {
        ids := set q | q in ids && quotes[q].latestStatus == status.value;
      }
    }
  }
}
