/**
 What every reachable state of the quote store keeps: numbering and the chain of versions, the
 mirrored latest status, the decision log, id allocation, and prices that can be recomputed.
 */
module QuoteInvariant {
  import opened Base
  import opened Calculator
  import opened Decimals
  import opened Pricing
  import opened QuoteModel

  // ---------------------------------------------------------------- one quote

  /** Position `k` holds version `k + 1`, chained to the one before it. */
  predicate Numbered(q: string, vs: seq<Version>, k: nat)
    requires k < |vs|
  {
    vs[k].quoteId == q && vs[k].number == k + 1 && vs[k].prior == (if k == 0 then None else Some(k))
  }

  /** The rate stored by the version before. */
  function Snapshot(vs: seq<Version>, k: nat): Option<real>
    requires k < |vs|
  {
    if k == 0 then None else vs[k - 1].outputs.fxRateSnapshot
  }

  const R2_UNEVALUATED := RuleResult("R2", None, None, NotEvaluated)

  /**
   Price, margin and rules can be recomputed from stored fields.  R2 may be unevaluated even if
   the previous version has a rate now: that version may have been priced later.
   */
  predicate Replays(v: Version, snapshot: Option<real>) {
    var o := v.outputs;
    && o.totalCost.Some? && o.sellPrice.Some? && o.margin.Some? && o.policyRef == Some(POLICY_REF) && |o.rules| == 5
    && var profile := ResolveProfile(v.inputs.marginFloorRef);
       var target := TargetMargin(profile, o.rules[1].result == OverThreshold);
       && o.totalCost.value > 0 && o.sellPrice.value > 0 && 0 <= target < 1000
       && o.sellPrice.value == SellCents(o.totalCost.value, target)
       && o.margin.value == ActualMargin(o.totalCost.value, o.sellPrice.value)
       && o.rules[0] == RuleResult("R1", o.margin, Some(profile.baseMargin), WithinThreshold)
       && (|| o.rules[1] == R2_UNEVALUATED
           || EvaluateR2(o.fxRateSnapshot, Some(PriorSnapshot(snapshot))) == Ok(o.rules[1]))
  }

  /** Drafts carry no computed field; everything else was priced. */
  predicate Frozen(v: Version, snapshot: Option<real>) {
    if v.status.Draft? then v.outputs == NO_OUTPUTS else Replays(v, snapshot)
  }

  predicate VersionInv(q: string, vs: seq<Version>, k: nat)
    requires k < |vs|
  {
    Numbered(q, vs, k) && Frozen(vs[k], Snapshot(vs, k))
  }

  /** The aggregate mirrors the number and the status of its last version. */
  predicate HistoryInv(q: string, quote: Quote, vs: seq<Version>) {
    && vs != [] && quote.quoteId == q
    && quote.latestVersion == |vs| && quote.latestStatus == Last(vs).status
    && forall k :: 0 <= k < |vs| ==> VersionInv(q, vs, k)
  }

  // ---------------------------------------------------------------- the whole store

  predicate Histories(s: Store) {
    && WellKeyed(s)
    && forall q :: q in s.versions ==> HistoryInv(q, s.quotes[q], s.versions[q])
  }

  /** The decision a version carries as its status, if it has been decided. */
  function DecidedAs(s: Store, q: string, number: int): Option<Status> {
    if q in s.versions && 1 <= number <= |s.versions[q]| && IsDecided(s.versions[q][number - 1].status)
    then Some(s.versions[q][number - 1].status)
    else None
  }

  /** Exactly one record, agreeing with the status, for a decided version; none for any other. */
  predicate LogMatches(s: Store, q: string, number: int) {
    var key := DecisionKey(q, number);
    match DecidedAs(s, q, number)
    case None => key !in s.decisions
    case Some(decision) => key in s.decisions && |s.decisions[key]| == 1 && s.decisions[key][0].decision == decision
  }

  ghost predicate LogInv(s: Store) {
    forall q: string, number: int :: LogMatches(s, q, number)
  }

  predicate IdBelow(id: string, bound: nat) {
    IdNumber(id).Some? ==> IdNumber(id).value < bound
  }

  predicate IdsInv(s: Store) {
    forall q :: q in s.versions ==> IdBelow(q, s.nextId)
  }

  ghost predicate Inv(s: Store) {
    Histories(s) && LogInv(s) && IdsInv(s)
  }

  // ---------------------------------------------------------------- positions

  lemma {:induction false} IndexOfPosition(vs: seq<Version>, offset: int, number: int)
    requires forall k :: 0 <= k < |vs| ==> vs[k].number == offset + k + 1
    ensures IndexOf(vs, number) == if 1 <= number - offset <= |vs| then Some(number - offset - 1) else None
  {
    if vs != [] && vs[0].number != number {
      IndexOfPosition(vs[1..], offset + 1, number);
    }
  }

  /** Under the numbering, looking a version up by number is looking at its position. */
  lemma VersionAt(s: Store, q: string, number: int)
    requires Histories(s)
    ensures q in s.versions && 1 <= number <= |s.versions[q]| ==>
              && IndexOf(s.versions[q], number) == Some(number - 1)
              && GetVersion(s, q, number) == Some(s.versions[q][number - 1])
    ensures GetVersion(s, q, number).Some? <==> q in s.versions && 1 <= number <= |s.versions[q]|
  {
    hide Frozen;
    if q in s.versions {
      forall k | 0 <= k < |s.versions[q]|
        ensures s.versions[q][k].number == 0 + k + 1
      {
        assert VersionInv(q, s.versions[q], k);
      }
      IndexOfPosition(s.versions[q], 0, number);
    }
  }

  // ---------------------------------------------------------------- rewriting a version

  predicate SameIdentity(v: Version, w: Version) {
    && w.quoteId == v.quoteId && w.number == v.number && w.prior == v.prior && w.currency == v.currency
    && w.createdAt == v.createdAt && w.createdBy == v.createdBy && w.triggerEventRef == v.triggerEventRef
  }

  /** What may be written over position `k`. */
  predicate MayBecome(vs: seq<Version>, k: nat, v: Version)
    requires k < |vs|
  {
    && SameIdentity(vs[k], v)
    && (vs[k].status.Draft? || v.outputs == vs[k].outputs)
    && Frozen(v, Snapshot(vs, k))
  }

  function Mirrored(quote: Quote, vs: seq<Version>, k: nat, v: Version): Quote {
    if k + 1 == |vs| then quote.(latestStatus := v.status) else quote
  }

  /**
   Filling in a rate that a later version could not have used leaves that version replayable:
   without a previous rate, R2 was not evaluated.
   */
  lemma LaterRateIsHarmless(v: Version, before: Option<real>, after: Option<real>)
    requires Frozen(v, before) && (before.None? || after == before)
    ensures Frozen(v, after)
  {
    hide SellCents, ActualMargin, TargetMargin, ResolveProfile, FxVariance;
  }

  lemma DraftHasNoRate(v: Version, snapshot: Option<real>)
    requires Frozen(v, snapshot)
    ensures v.status.Draft? ==> v.outputs == NO_OUTPUTS && v.outputs.fxRateSnapshot == None
  {
    hide Replays;
  }

  lemma RewriteKeepsHistory(q: string, quote: Quote, vs: seq<Version>, k: nat, v: Version)
    requires HistoryInv(q, quote, vs) && k < |vs| && MayBecome(vs, k, v)
    ensures HistoryInv(q, Mirrored(quote, vs, k, v), vs[k := v])
  {
    hide Frozen;
    var after := vs[k := v];
    forall i | 0 <= i < |after|
      ensures VersionInv(q, after, i)
    {
      assert VersionInv(q, vs, i);
      if i == k + 1 {
        assert VersionInv(q, vs, k);
        assert vs[k].status.Draft? ==> Snapshot(vs, i) == None by {
          DraftHasNoRate(vs[k], Snapshot(vs, k));
        }
        LaterRateIsHarmless(vs[i], Snapshot(vs, i), Snapshot(after, i));
      }
    }
  }

  lemma LastNumber(q: string, quote: Quote, vs: seq<Version>)
    requires HistoryInv(q, quote, vs)
    ensures Last(vs).number == |vs| && Last(vs).quoteId == q
  {
    hide Frozen;
    assert VersionInv(q, vs, |vs| - 1);
  }

  lemma ReplaceKeepsHistories(s: Store, q: string, number: int, v: Version)
    requires Histories(s) && GetVersion(s, q, number).Some?
    requires q in s.versions && 1 <= number <= |s.versions[q]| && MayBecome(s.versions[q], number - 1, v)
    ensures var t := ReplaceVersion(s, q, number, v);
            && t.versions == s.versions[q := s.versions[q][number - 1 := v]] && Histories(t)
            && t.decisions == s.decisions && t.nextId == s.nextId
  {
    hide Frozen, VersionInv, GetVersion, IndexOf;
    VersionAt(s, q, number);
    var vs := s.versions[q];
    RewriteKeepsHistory(q, s.quotes[q], vs, number - 1, v);
    var t := ReplaceVersion(s, q, number, v);
    assert Last(vs[number - 1 := v]).number == |vs| by {
      LastNumber(q, Mirrored(s.quotes[q], vs, number - 1, v), vs[number - 1 := v]);
    }
    assert t.quotes == s.quotes[q := Mirrored(s.quotes[q], vs, number - 1, v)];
    forall r | r in t.versions
      ensures HistoryInv(r, t.quotes[r], t.versions[r])
    {
    }
  }

  // ---------------------------------------------------------------- what pricing writes

  /** The snapshot pricing reads is the one stored by the previous version. */
  lemma PriorIsPredecessor(s: Store, q: string, number: int)
    requires Histories(s) && q in s.versions && 1 <= number <= |s.versions[q]|
    ensures PriorOf(s, q, s.versions[q][number - 1])
            == if number == 1 then None else Some(PriorSnapshot(Snapshot(s.versions[q], number - 1)))
  {
    hide Frozen, IndexOf;
    assert VersionInv(q, s.versions[q], number - 1);
    VersionAt(s, q, number - 1);
  }

  /** A calculation's outputs replay. */
  lemma CalculationReplays(v: Version, rates: seq<RateResolution>, prior: Option<PriorSnapshot>, snapshot: Option<real>)
    requires rates != [] && forall k :: 0 <= k < |rates| ==> rates[k].cost.amountMinor >= 0
    requires (prior == None && snapshot == None) || prior == Some(PriorSnapshot(snapshot))
    requires Calculate(rates, prior, v.inputs.marginFloorRef).Ok?
    requires v.outputs == OutputsOf(Calculate(rates, prior, v.inputs.marginFloorRef).value)
    ensures Replays(v, snapshot)
  {
    hide Calculate, SellCents, ActualMargin, TargetMargin, ResolveProfile, FxVariance, OnGrid, Complies;
    CalculationIsSound(rates, prior, v.inputs.marginFloorRef);
  }

  lemma SamePriorSamePrice(s: Store, q: string, v: Version, w: Version)
    requires v.prior == w.prior
    ensures PriorOf(s, q, v) == PriorOf(s, q, w)
  {
  }

  /** What pricing writes over a draft can be recomputed, given what the previous version stored at the time. */
  lemma PricedReplays(seen: Store, later: Store, q: string, number: int, facts: Facts)
    requires Histories(later) && PriceRead(seen, later, q, number, facts).Ok?
    requires q in later.versions && 1 <= number <= |later.versions[q]|
    requires SameIdentity(VersionIn(seen, q, number, Draft).value, later.versions[q][number - 1])
    ensures Replays(PriceRead(seen, later, q, number, facts).value, Snapshot(later.versions[q], number - 1))
  {
    hide Replays, Calculate, ResolveRates, RouteIsPricable, GetVersion, PriorOf, Histories, VersionIn;
    var v, w := VersionIn(seen, q, number, Draft).value, PriceRead(seen, later, q, number, facts).value;
    PriorIsPredecessor(later, q, number);
    SamePriorSamePrice(later, q, v, later.versions[q][number - 1]);
    var rates := ResolveRates(facts, v.inputs.rateRefs, |v.inputs.rateRefs|).value;
    CalculationReplays(w, rates, PriorOf(later, q, v), Snapshot(later.versions[q], number - 1));
  }

  /** The only status moves: draft, priced, approval required, decided. */
  predicate StatusStep(before: Status, after: Status) {
    match before
    case Draft => after == Draft || after == Priced
    case Priced => after == ApprovalRequired
    case ApprovalRequired => IsDecided(after)
    case _ => false
  }

  lemma FoundIsFrozen(s: Store, q: string, number: int, status: Status)
    requires Histories(s) && VersionIn(s, q, number, status).Ok?
    ensures q in s.versions && 1 <= number <= |s.versions[q]|
    ensures VersionIn(s, q, number, status).value == s.versions[q][number - 1]
    ensures s.versions[q][number - 1].status == status && s.versions[q][number - 1].number == number
    ensures Frozen(s.versions[q][number - 1], Snapshot(s.versions[q], number - 1))
  {
    hide Frozen, IndexOf, GetVersion;
    VersionAt(s, q, number);
    assert VersionInv(q, s.versions[q], number - 1);
  }

  /** Composing a draft, or moving a priced version on, leaves what pricing computed alone. */
  lemma StatusAloneKeepsFrozen(v: Version, w: Version, snapshot: Option<real>)
    requires Frozen(v, snapshot) && w.outputs == v.outputs && (v.status.Draft? <==> w.status.Draft?)
    requires v.status.Draft? || w.inputs == v.inputs
    ensures Frozen(w, snapshot)
  {
    hide TargetMargin, ResolveProfile, SellCents, ActualMargin, EvaluateR2;
  }

  // ---------------------------------------------------------------- the log

  /** Changing an undecided version's status, with a record if it is now decided, keeps the log in step. */
  lemma RewriteKeepsLog(s: Store, t: Store, q: string, number: int, v: Version, record: Option<DecisionRecord>)
    requires LogInv(s) && q in s.versions && 1 <= number <= |s.versions[q]|
    requires !IsDecided(s.versions[q][number - 1].status)
    requires record.Some? <==> IsDecided(v.status)
    requires record.Some? ==> v.status == record.value.decision
    requires t.versions == s.versions[q := s.versions[q][number - 1 := v]]
    requires t.decisions
             == if record.Some? then Logged(s.decisions, DecisionKey(q, number), record.value) else s.decisions
    ensures LogInv(t)
  {
    hide DecisionKey;
    var key := DecisionKey(q, number);
    assert LogMatches(s, q, number);
    forall r: string, n: int
      ensures LogMatches(t, r, n)
    {
      assert LogMatches(s, r, n);
      if DecisionKey(r, n) == key {
        DecisionKeysAreDistinct(r, n, q, number);
      } else {
        assert DecidedAs(t, r, n) == DecidedAs(s, r, n);
      }
    }
  }

  /** Adding drafts at the end of a history leaves the log in step. */
  lemma AppendKeepsLog(s: Store, t: Store, q: string)
    requires LogInv(s) && t.decisions == s.decisions && q in t.versions
    requires t.versions == s.versions[q := t.versions[q]]
    requires q in s.versions ==> s.versions[q] <= t.versions[q]
    requires forall k ::
               (if q in s.versions then |s.versions[q]| else 0) <= k < |t.versions[q]| ==>
                 t.versions[q][k].status.Draft?
    ensures LogInv(t)
  {
    hide DecisionKey;
    forall r: string, number: int
      ensures LogMatches(t, r, number)
    {
      assert LogMatches(s, r, number);
      assert DecidedAs(t, r, number) == DecidedAs(s, r, number);
    }
  }

  lemma FreshId(s: Store)
    requires IdsInv(s)
    ensures QuoteId(s.nextId) !in s.versions
    ensures IdBelow(QuoteId(s.nextId), s.nextId + 1)
  {
    hide QuoteId, IdNumber;
    QuoteIdReadsBack(s.nextId);
    assert QuoteId(s.nextId) in s.versions ==> IdBelow(QuoteId(s.nextId), s.nextId);
  }

  /** A fresh history of drafts is a good one. */
  lemma FreshHistory(q: string, quote: Quote, vs: seq<Version>)
    requires vs != [] && quote.quoteId == q && quote.latestVersion == |vs| && quote.latestStatus == Draft
    requires forall k :: 0 <= k < |vs| ==> Numbered(q, vs, k) && vs[k].status.Draft? && vs[k].outputs == NO_OUTPUTS
    ensures HistoryInv(q, quote, vs)
  {
    hide Replays, Numbered;
  }

  // ---------------------------------------------------------------- the invariant

  /** Appending a draft with the next number, chained to the last version. */
  lemma AppendKeepsHistory(q: string, quote: Quote, vs: seq<Version>, draft: Version)
    requires HistoryInv(q, quote, vs) && draft.quoteId == q && draft.number == |vs| + 1 && draft.prior == Some(|vs|)
    requires draft.status.Draft? && draft.outputs == NO_OUTPUTS
    ensures HistoryInv(q, quote.(latestVersion := draft.number, latestStatus := Draft), vs + [draft])
  {
    hide Replays;
    var after := vs + [draft];
    forall k | 0 <= k < |after|
      ensures VersionInv(q, after, k)
    {
      if k < |vs| {
        assert VersionInv(q, vs, k);
        assert Snapshot(after, k) == Snapshot(vs, k);
      }
    }
  }

  lemma IdsStayBelow(s: Store, t: Store, q: string)
    requires IdsInv(s) && s.nextId <= t.nextId
    requires forall r :: r in t.versions ==> r in s.versions || (r == q && IdBelow(q, t.nextId))
    ensures IdsInv(t)
  {
    forall r | r in t.versions
      ensures IdBelow(r, t.nextId)
    {
      assert r in s.versions ==> IdBelow(r, s.nextId);
    }
  }

  lemma AppendKeepsInv(s: Store, q: string, draft: Version)
    requires Inv(s) && WellKeyed(s) && q in s.versions
    requires draft.quoteId == q && draft.number == |s.versions[q]| + 1 && draft.prior == Some(|s.versions[q]|)
    requires draft.status.Draft? && draft.outputs == NO_OUTPUTS
    ensures Inv(Commit(s, Append(q, draft)))
  {
    hide LogMatches, IdNumber, VersionInv, HistoryInv;
    var t := Commit(s, Append(q, draft));
    AppendKeepsHistory(q, s.quotes[q], s.versions[q], draft);
    AppendKeepsLog(s, t, q);
    assert Histories(t);
    IdsStayBelow(s, t, q);
  }

  /** Storing a first draft under an id that no quote has. */
  lemma InsertKeepsInv(s: Store, quote: Quote, first: Version)
    requires Inv(s) && WellKeyed(s) && quote.quoteId !in s.versions && IdBelow(quote.quoteId, s.nextId + 1)
    requires HistoryInv(quote.quoteId, quote, [first]) && first.status.Draft?
    ensures Inv(Commit(s, Insert(quote, first)))
  {
    hide LogMatches, IdNumber, VersionInv, HistoryInv;
    var t := Commit(s, Insert(quote, first));
    AppendKeepsLog(s, t, quote.quoteId);
    assert Histories(t);
    IdsStayBelow(s, t, quote.quoteId);
  }

  lemma RewriteKeepsInv(s: Store, q: string, number: int, w: Write)
    requires Inv(s) && WellKeyed(s) && w.Rewrite? && w.quoteId == q && w.base.number == number
    requires q in s.versions && 1 <= number <= |s.versions[q]|
    requires MayBecome(s.versions[q], number - 1, w.updated) && !IsDecided(s.versions[q][number - 1].status)
    requires w.record.Some? <==> IsDecided(w.updated.status)
    requires w.record.Some? ==> w.updated.status == w.record.value.decision
    ensures Inv(Commit(s, w))
  {
    hide LogMatches, IdNumber, VersionInv, HistoryInv, MayBecome, ReplaceVersion, GetVersion, Logged;
    var t := Commit(s, w);
    VersionAt(s, q, number);
    ReplaceKeepsHistories(s, q, number, w.updated);
    RewriteKeepsLog(s, t, q, number, w.updated, w.record);
    assert Histories(t);
    IdsStayBelow(s, t, q);
  }

  lemma KeysAgree(s: Store)
    requires Inv(s)
    ensures WellKeyed(s)
  {
    hide HistoryInv;
  }

  // ---------------------------------------------------------------- reloading the fixtures

  lemma SeededHistory(e: Fixture, now: string)
    requires e.versions >= 1
    ensures HistoryInv(e.quoteId, Quote(e.quoteId, e.rfqId, e.customerId, e.currency, e.versions, Draft, now),
                       FirstVersions(e.quoteId, e.currency, now, e.versions))
  {
    hide VersionInv;
    FreshHistory(e.quoteId, Quote(e.quoteId, e.rfqId, e.customerId, e.currency, e.versions, Draft, now),
                 FirstVersions(e.quoteId, e.currency, now, e.versions));
  }

  lemma DraftsNeedNoRecords(s: Store, t: Store, q: string)
    requires LogInv(s) && s.decisions == map[] && t.decisions == map[]
    requires q in t.versions && t.versions == s.versions[q := t.versions[q]]
    requires forall k :: 0 <= k < |t.versions[q]| ==> t.versions[q][k].status.Draft?
    ensures LogInv(t)
  {
    forall r: string, number: int
      ensures LogMatches(t, r, number)
    {
      assert LogMatches(s, r, number);
    }
  }

  /** Seeding a fixture quote, over an earlier one with the same id if there is one. */
  lemma SeedKeepsInv(s: Store, e: Fixture, now: string)
    requires Inv(s) && s.decisions == map[] && e.versions >= 1
    ensures Inv(Seed(s, e, now)) && Seed(s, e, now).decisions == map[]
  {
    hide LogMatches, IdNumber, HistoryInv, LogInv;
    var t := Seed(s, e, now);
    SeededHistory(e, now);
    assert Histories(t);
    forall q | q in t.versions
      ensures IdBelow(q, t.nextId)
    {
      assert q != e.quoteId ==> IdBelow(q, s.nextId);
    }
    DraftsNeedNoRecords(s, t, e.quoteId);
  }

  lemma OnlySeedingFindsNoHistory(facts: Facts, customerId: string)
    ensures ValidateCustomer(facts, customerId) != Err(EmptyHistory)
  {
  }

  lemma EmptyHistoryIsBad(s: Store, e: Fixture, now: string)
    requires e.versions <= 0
    ensures var t := PutQuote(s, e.quoteId, e.rfqId, e.customerId, e.currency, now, e.versions);
            !Inv(t) && t.decisions == s.decisions
  {
    var t := PutQuote(s, e.quoteId, e.rfqId, e.customerId, e.currency, now, e.versions);
    assert e.quoteId in t.versions && t.versions[e.quoteId] == [];
  }

  lemma EmptyIsGood()
    ensures Inv(EMPTY)
  {
  }

  /**
   The store that a reload leaves is a good one, however far it gets, if and only if it was not
   stopped by an entry asking for no version.
   */
  lemma {:induction false} ReloadEstablishesInvIff(entries: seq<Fixture>, facts: Facts, now: string)
    ensures Inv(Reloaded(entries, facts, now).0) <==> Reloaded(entries, facts, now).1 != Some(EmptyHistory)
    ensures Reloaded(entries, facts, now).0.decisions == map[]
  {
    hide Inv, Seed, ValidateCustomer;
    if entries == [] {
      EmptyIsGood();
    } else {
      var before, e := Reloaded(entries[..|entries| - 1], facts, now), Last(entries);
      ReloadEstablishesInvIff(entries[..|entries| - 1], facts, now);
      OnlySeedingFindsNoHistory(facts, e.customerId);
      if before.1.None? {
        if e.versions >= 1 {
          SeedKeepsInv(before.0, e, now);
          assert Seed(before.0, e, now).decisions == map[];
        } else {
          EmptyHistoryIsBad(before.0, e, now);
        }
      }
    }
  }

  // ---------------------------------------------------------------- searching

  /** Filtering on the mirrored status finds the quotes whose last version has it. */
  lemma SearchIsScan(s: Store, q: string, status: Status)
    requires Inv(s)
    ensures q in Search(s, None, None, Some(status)) <==> q in s.versions && Last(s.versions[q]).status == status
  {
    hide VersionInv, LogInv, IdsInv;
    if q in s.versions {
      assert HistoryInv(q, s.quotes[q], s.versions[q]);
    }
  }
}
