/**
 Calls to the quote store on any number of threads: which runs keep the store's promises, and which
 do what the calls would do one after the other.
 */
module QuoteRaces {
  import opened Base
  import opened Decimals
  import opened QuoteAtomicity
  import opened QuoteCoupling
  import opened QuoteHistory
  import opened QuoteInvariant
  import opened QuoteModel
  import opened QuoteSteps

  // ---------------------------------------------------------------- which steps keep the promises

  predicate GoodHistories(s: Store) {
    forall q :: q in s.versions ==>
      s.versions[q] != [] && forall k :: 0 <= k < |s.versions[q]| ==> VersionInv(q, s.versions[q], k)
  }

  /** An id that a create has counted up is no other's, and no stored history's. */
  ghost predicate IdsAreApart(r: Race) {
    forall id, q :: HoldsQuote(r, id, q) ==>
      q !in r.store.versions && forall other :: HoldsQuote(r, other, q) ==> other == id
  }

  /** The promises of one step, about nothing but the store and the ids given out. */
  ghost predicate KeepsPromises(r: Race, e: Event) {
    Enabled(r, e) ==>
      var x, w := Step(r, e), Lands(r, e);
      && GoodHistories(x.store) && StoreEvolves(r.store, x.store) && IdsAreApart(x)
      && (w.Some? && RecordOf(w.value).Some? ==> !IsDecidedIn(r.store, w.value.quoteId, w.value.base.number))
  }

  lemma PartHasGoodHistories(s: Store, t: Store)
    requires Inv(t) && IsPartOf(s, t)
    ensures GoodHistories(s)
  {
    hide VersionInv, SameQuote, LogInv, IdsInv;
    forall q | q in s.versions
      ensures s.versions[q] != [] && forall k :: 0 <= k < |s.versions[q]| ==> VersionInv(q, s.versions[q], k)
    {
      assert HistoryInv(q, t.quotes[q], t.versions[q]);
    }
  }

  lemma EffectOnlyAdds(s: Store, th: Thread)
    requires IsShaped(th)
    ensures s.versions.Keys <= Effect(s, th).versions.Keys && s.quotes.Keys <= Effect(s, th).quotes.Keys
    ensures s.decisions.Keys <= Effect(s, th).decisions.Keys
  {
    hide IndexOf, MirrorInto, DecisionKey, IsWriteOf;
  }

  lemma StepOnlyAdds(r: Race, e: Event)
    requires Enabled(r, e)
    ensures r.store.versions.Keys <= Step(r, e).store.versions.Keys
    ensures r.store.quotes.Keys <= Step(r, e).store.quotes.Keys
    ensures r.store.decisions.Keys <= Step(r, e).store.decisions.Keys
  {
    hide Effect, Onward, IsShaped;
    if e.Go? {
      EffectOnlyAdds(r.store, r.threads[e.id]);
    }
  }

  lemma SameQuoteAcross(p: Quote, q: Quote, x: Quote, y: Quote)
    requires SameQuote(p, q) && SameQuote(q, y) && SameQuote(x, y)
    ensures SameQuote(p, x)
  {
  }

  /** Parts of stores that evolve do so themselves. */
  lemma PartsEvolve(s: Store, t: Store, x: Store, u: Store)
    requires IsPartOf(s, t) && IsPartOf(x, u) && StoreEvolves(t, u)
    requires s.versions.Keys <= x.versions.Keys && s.quotes.Keys <= x.quotes.Keys
    requires s.decisions.Keys <= x.decisions.Keys
    ensures StoreEvolves(s, x)
  {
    hide HistoryEvolves, SameQuote;
    forall q | q in s.quotes
      ensures q in x.quotes && SameQuote(s.quotes[q], x.quotes[q])
    {
      SameQuoteAcross(s.quotes[q], t.quotes[q], x.quotes[q], u.quotes[q]);
    }
  }

  lemma CoupledIdsAreApart(r: Race, t: Store)
    requires Coupled(r, t)
    ensures IdsAreApart(r)
  {
    hide Inv, WellKeyed, IsPartOf, NothingIsMissing, IsFollowed, HoldsQuote, HoldsRecord;
    CreatedAreElsewhere(r, t);
  }

  lemma SafeDecisionIsFirst(s: Store, c: Command, w: Write)
    requires IsWriteOf(c, w) && IsSafe(s, w) && RecordOf(w).Some?
    ensures !IsDecidedIn(s, w.quoteId, w.base.number)
  {
    hide GetVersion;
  }

  lemma SafeStepKeepsPromises(r: Race, t: Store, e: Event)
    requires Coupled(r, t) && Enabled(r, e) && IsSafeStep(r, e)
    ensures KeepsPromises(r, e)
  {
    hide Inv, WellKeyed, IsPartOf, NothingIsMissing, AreApart, IsFollowed, GoodHistories, StoreEvolves, IdsAreApart,
      Step, Landed, IsSafe, IsDecidedIn, IsWriteOf;
    var u := Landed(t, Lands(r, e));
    SafeStepIsCoupled(r, t, e);
    StoresAreCoupled(Step(r, e), u);
    PartHasGoodHistories(Step(r, e).store, u);
    StepOnlyAdds(r, e);
    PartsEvolve(r.store, t, Step(r, e).store, u);
    CoupledIdsAreApart(Step(r, e), u);
    if Lands(r, e).Some? && r.threads[e.id].Writing? {
      var th := r.threads[e.id];
      if RecordOf(th.write).Some? {
        SafeDecisionIsFirst(r.store, th.call.command, th.write);
      }
    }
  }

  /** An id taken before somebody else counted up has been given out already. */
  lemma StaleIdIsGivenOut(r: Race, t: Store, e: Event)
    requires Coupled(r, t) && Enabled(r, e) && e.Go? && r.threads[e.id].Taken?
    requires r.threads[e.id].number != r.store.nextId
    ensures !IdsAreApart(Step(r, e))
  {
    hide Inv, WellKeyed, SameQuote, IsHeld, DecisionKey, QuoteId, FirstVersions, IsWriteOf;
    var x, th, id := Step(r, e), r.threads[e.id], e.id;
    var q := QuoteId(th.number);
    assert IsFollowed(r.store, t, th);
    assert HoldsQuote(x, id, q);
    if q !in r.store.versions {
      var other :| HoldsQuote(r, other, q);
      assert other != id && HoldsQuote(x, other, q);
    }
  }

  lemma LateAppendIsMisnumbered(s: Store, w: Write)
    requires w.Append? && w.quoteId in s.versions && |s.versions[w.quoteId]| != w.draft.number - 1
    ensures !GoodHistories(PutVersion(s, w))
  {
    hide Frozen;
    var vs := PutVersion(s, w).versions[w.quoteId];
    assert !VersionInv(w.quoteId, vs, |vs| - 1);
  }

  /** A late rewrite moves a version back, or decides once more. */
  lemma LateRewriteIsUnlawful(s: Store, t: Store, c: Command, w: Write)
    requires Inv(t) && WellKeyed(t) && IsPartOf(s, t) && w.Rewrite? && w.quoteId in s.versions && Fits(t, w)
    requires IsWriteOf(c, w) && !IsSafe(s, w)
    ensures !StoreEvolves(s, PutVersion(s, w)) || (RecordOf(w).Some? && IsDecidedIn(s, w.quoteId, w.base.number))
  {
    hide Inv, Frozen, VersionEvolves, SameQuote, IndexOf, WellKeyed;
    var q, k := w.quoteId, w.base.number - 1;
    VersionAtInv(t, q, w.base.number);
    PositionIsNumber(t, q, w.base.number);
    var current := t.versions[q][k];
    StepEvolvesIff(w.base, current, w.updated);
    assert PutVersion(s, w).versions[q][k] == w.updated;
    if StoreEvolves(s, PutVersion(s, w)) {
      assert VersionEvolves(s.versions[q][k], PutVersion(s, w).versions[q][k]);
    }
  }

  lemma LateAppendIsUnsafe(s: Store, w: Write)
    requires w.Append? && w.quoteId in s.versions && !IsSafe(s, w)
    ensures !GoodHistories(PutVersion(s, w))
  {
    hide GoodHistories, PutVersion;
    LateAppendIsMisnumbered(s, w);
  }

  /** A step keeps the promises if and only if it is safe. */
  lemma StepIsLawfulIff(r: Race, t: Store, e: Event)
    requires Coupled(r, t) && Enabled(r, e)
    ensures KeepsPromises(r, e) <==> IsSafeStep(r, e)
  {
    hide Coupled, IsPartOf, GoodHistories, StoreEvolves, IdsAreApart, IsSafe, IsDecidedIn, IsWriteOf, PutVersion,
      Fits, Inv, WellKeyed, IsHeld, Creation;
    if IsSafeStep(r, e) {
      SafeStepKeepsPromises(r, t, e);
    } else {
      var th := r.threads[e.id];
      HoldersAreApart(r, t, e.id);
      StoresAreCoupled(r, t);
      if th.Taken? {
        StaleIdIsGivenOut(r, t, e);
      } else {
        TargetIsStored(r.store, t, th);
        LandingWrite(t, th, th.write);
        if th.write.Append? {
          LateAppendIsUnsafe(r.store, th.write);
        } else {
          LateRewriteIsUnlawful(r.store, t, th.call.command, th.write);
        }
      }
    }
  }

  // ---------------------------------------------------------------- which runs keep the promises

  /** The calls of a run, each with a safe write. */
  ghost predicate IsSafeUpTo(r: Race, es: seq<Event>, n: nat) {
    IsRun(r, es) && n <= |es| && forall k :: 0 <= k < n ==> IsSafeStep(At(r, es, k), es[k])
  }

  lemma IdealStarts(r: Race, es: seq<Event>, t: Store)
    requires WellKeyed(t)
    ensures Ideal(r, es, t, 0) == t
  {
  }

  lemma IdealNext(r: Race, es: seq<Event>, t: Store, k: nat)
    requires WellKeyed(t) && k < |es|
    ensures Ideal(r, es, t, k + 1) == Landed(Ideal(r, es, t, k), Lands(At(r, es, k), es[k]))
  {
    hide Landed, Lands, At;
  }

  /** As long as the steps are safe, or keep the promises, the race stays coupled to whole writes. */
  lemma {:induction false} StaysCoupled(r: Race, es: seq<Event>, t: Store, n: nat)
    requires IsRun(r, es) && Coupled(r, t) && WellKeyed(t) && n <= |es|
    requires (forall k :: 0 <= k < n ==> IsSafeStep(At(r, es, k), es[k]))
             || (forall k :: 0 <= k < n ==> KeepsPromises(At(r, es, k), es[k]))
    ensures Coupled(At(r, es, n), Ideal(r, es, t, n))
    ensures forall k :: 0 <= k < n ==> IsSafeStep(At(r, es, k), es[k]) && KeepsPromises(At(r, es, k), es[k])
    ensures n > 0 ==> StoreEvolves(Ideal(r, es, t, n - 1), Ideal(r, es, t, n))
  {
    hide Enabled, Step, Coupled, IsSafeStep, KeepsPromises, IsRun, At, Ideal, StoreEvolves, Landed, Lands, WellKeyed;
    if n == 0 {
      AtStart(r, es);
      IdealStarts(r, es, t);
    } else {
      StaysCoupled(r, es, t, n - 1);
      AtNext(r, es, n - 1);
      IdealNext(r, es, t, n - 1);
      StepIsLawfulIff(At(r, es, n - 1), Ideal(r, es, t, n - 1), es[n - 1]);
      SafeStepIsCoupled(At(r, es, n - 1), Ideal(r, es, t, n - 1), es[n - 1]);
    }
  }

  lemma CoupledIsKeyed(r: Race, t: Store)
    requires Coupled(r, t)
    ensures Inv(t) && WellKeyed(t)
  {
    hide Inv, WellKeyed, IsPartOf, NothingIsMissing, AreApart, IsFollowed;
  }

  /**
   In any interleaving of the steps of any calls, every step keeps the promises of the store -- numbered,
   chained and replayable histories, nothing lost or moved back, one decision for a version, no id given
   out twice -- if and only if every put finds what its call looked at, and no counter was raised between
   a create's taking its id and its raising the counter.
   */
  lemma RunIsLawfulIff(r: Race, es: seq<Event>, t: Store)
    requires IsRun(r, es) && Coupled(r, t)
    ensures (forall k :: 0 <= k < |es| ==> KeepsPromises(At(r, es, k), es[k])) <==> IsSafeUpTo(r, es, |es|)
  {
    hide Coupled, IsSafeStep, KeepsPromises, IsRun, At, WellKeyed, Inv;
    CoupledIsKeyed(r, t);
    if (forall k :: 0 <= k < |es| ==> KeepsPromises(At(r, es, k), es[k])) || IsSafeUpTo(r, es, |es|) {
      StaysCoupled(r, es, t, |es|);
    }
  }

  /** Up to the last safe write the store only evolves. */
  lemma {:induction false} RunEvolves(r: Race, es: seq<Event>, t: Store, i: nat, j: nat)
    requires IsSafeUpTo(r, es, j) && Coupled(r, t) && i <= j
    ensures StoreEvolves(At(r, es, i).store, At(r, es, j).store) && GoodHistories(At(r, es, j).store)
  {
    hide Enabled, Coupled, IsSafeStep, IsRun, At, StoreEvolves, GoodHistories, Ideal, WellKeyed, Inv, IsPartOf, Step,
      IdsAreApart, Lands;
    CoupledIsKeyed(r, t);
    StaysCoupled(r, es, t, j);
    StoresAreCoupled(At(r, es, j), Ideal(r, es, t, j));
    PartHasGoodHistories(At(r, es, j).store, Ideal(r, es, t, j));
    if i == j {
      EvolvesToItself(At(r, es, i).store);
    } else {
      RunEvolves(r, es, t, i, j - 1);
      AtNext(r, es, j - 1);
      assert KeepsPromises(At(r, es, j - 1), es[j - 1]);
      EvolvesOnwards(At(r, es, i).store, At(r, es, j - 1).store, At(r, es, j).store);
    }
  }

  lemma HistoryIsNumbered(s: Store, q: string)
    requires GoodHistories(s) && q in s.versions
    ensures forall k :: 0 <= k < |s.versions[q]| ==> s.versions[q][k].number == k + 1
  {
    hide Frozen;
    forall k | 0 <= k < |s.versions[q]|
      ensures s.versions[q][k].number == k + 1
    {
      assert VersionInv(q, s.versions[q], k);
    }
  }

  lemma FoundVersionEvolves(s: Store, t: Store, q: string, number: int)
    requires GoodHistories(s) && GoodHistories(t) && StoreEvolves(s, t) && GetVersion(s, q, number).Some?
    ensures GetVersion(t, q, number).Some?
    ensures VersionEvolves(GetVersion(s, q, number).value, GetVersion(t, q, number).value)
  {
    hide VersionEvolves, IndexOf, SameQuote, GoodHistories;
    assert HistoryEvolves(s.versions[q], t.versions[q]);
    HistoryIsNumbered(s, q);
    HistoryIsNumbered(t, q);
    IndexOfPosition(s.versions[q], 0, number);
    IndexOfPosition(t.versions[q], 0, number);
  }

  lemma DecidedStays(v: Version, w: Version)
    requires VersionEvolves(v, w) && IsDecided(v.status)
    ensures w == v
  {
  }

  /** In such a run a decided version is the same for ever. */
  lemma DecidedIsFinal(r: Race, es: seq<Event>, t: Store, i: nat, j: nat, q: string, number: int)
    requires IsSafeUpTo(r, es, j) && Coupled(r, t) && i <= j
    requires GetVersion(At(r, es, i).store, q, number).Some?
    requires IsDecided(GetVersion(At(r, es, i).store, q, number).value.status)
    ensures GetVersion(At(r, es, j).store, q, number) == GetVersion(At(r, es, i).store, q, number)
  {
    hide GetVersion, At, StoreEvolves, VersionEvolves, IsSafeStep, IsRun, Coupled, GoodHistories;
    RunEvolves(r, es, t, i, i);
    RunEvolves(r, es, t, i, j);
    FoundVersionEvolves(At(r, es, i).store, At(r, es, j).store, q, number);
    DecidedStays(GetVersion(At(r, es, i).store, q, number).value, GetVersion(At(r, es, j).store, q, number).value);
  }

  // ---------------------------------------------------------------- which runs are serial

  function WholeCall(t: Store, call: Call): (u: Store)
    requires WellKeyed(t)
    ensures WellKeyed(u)
  {
    match Prepare(t, t, call.command, call.facts, call.now)
    case Err(_) => t
    case Ok(w) =>
      CommitKeepsKeys(t, w);
      Commit(t, w)
  }

  /** The store after whole calls, one after the other, in the order in which their writes were decided on. */
  ghost function Serial(r: Race, es: seq<Event>, t: Store, n: nat): (u: Store)
    requires n <= |es| && WellKeyed(t)
    ensures WellKeyed(u)
  {
    if n == 0 then t
    else
      var before, x := Serial(r, es, t, n - 1), At(r, es, n - 1);
      if Lands(x, es[n - 1]).None? then before else WholeCall(before, x.threads[es[n - 1].id].call)
  }

  /** Nothing that the write relies on has changed since the call looked. */
  predicate IsUndisturbed(r: Race, e: Event) {
    Lands(r, e).Some? ==>
      Undisturbed(r.store, r.threads[e.id].call.command, Lands(r, e).value, RateHeld(r.threads[e.id]))
  }

  lemma UndisturbedAgrees(s: Store, t: Store, c: Command, w: Write, rate: Option<real>)
    requires IsPartOf(s, t) && (!w.Insert? ==> Target(w) in s.versions)
    ensures Undisturbed(s, c, w, rate) <==> Undisturbed(t, c, w, rate)
  {
    hide IndexOf, SameQuote, Composed, QuoteId, PriorOf;
    if w.Rewrite? && GetVersion(s, w.quoteId, w.base.number).Some? {
      PriorAgrees(s, t, w.quoteId, GetVersion(s, w.quoteId, w.base.number).value);
    }
  }

  lemma UndisturbedIsSafe(t: Store, c: Command, w: Write, rate: Option<real>)
    requires Undisturbed(t, c, w, rate) && IsWriteOf(c, w) && !w.Insert?
    requires w.Rewrite? ==> (RecordOf(w).Some? <==> c.Decide?)
    ensures IsSafe(t, w)
  {
    hide GetVersion, Composed, PriorRate;
  }

  lemma NoRewriteElse(c: Command, w: Write)
    requires c.CreateQuote? || c.CreateNextVersion?
    ensures IsWriteOf(c, w) ==> !w.Rewrite?
  {
  }

  lemma RecordIsForDecide(t: Store, th: Thread)
    requires th.Writing? && IsHeld(t, th) && IsShaped(th)
    ensures th.write.Rewrite? ==> (RecordOf(th.write).Some? <==> th.call.command.Decide?)
  {
    hide Inv, StoreEvolves, Prepare, RateRead, IsWriteOf, ValidateCustomer;
    var c := th.call;
    var seen, later :| HeldFrom(t, th, seen, later);
    if !c.command.CreateQuote? && !c.command.CreateNextVersion? {
      PreparedRewriteIs(seen, later, c.command, c.facts, c.now);
    } else {
      NoRewriteElse(c.command, th.write);
    }
  }

  lemma UndisturbedIdIsNext(s: Store, c: Command, number: nat, w: Write)
    requires c.CreateQuote? && w.Insert? && w.quote.quoteId == QuoteId(number)
    ensures Undisturbed(s, c, w, None) <==> number == s.nextId
  {
    hide QuoteId, IdNumber;
    QuoteIdReadsBack(number);
    QuoteIdReadsBack(s.nextId);
  }

  /** A write is what the whole call would write at that moment, if and only if it is undisturbed; it is safe then. */
  lemma StepIsAtomicIff(r: Race, t: Store, e: Event)
    requires Coupled(r, t) && Enabled(r, e) && Lands(r, e).Some? && WellKeyed(t)
    ensures Commit(t, Lands(r, e).value) == WholeCall(t, r.threads[e.id].call) <==> IsUndisturbed(r, e)
    ensures IsUndisturbed(r, e) ==> IsSafeStep(r, e)
  {
    hide Coupled, IsPartOf, IsSafe, IsWriteOf, Fits, Inv, WellKeyed, IsHeld, Commit, Prepare, Undisturbed, Lawful;
    var th, w := r.threads[e.id], Lands(r, e).value;
    HoldersAreApart(r, t, e.id);
    StoresAreCoupled(r, t);
    LandingWrite(t, th, w);
    if th.Writing? {
      TargetIsStored(r.store, t, th);
      UndisturbedAgrees(r.store, t, th.call.command, w, RateHeld(th));
      RecordIsForDecide(t, th);
      if IsUndisturbed(r, e) {
        UndisturbedIsSafe(r.store, th.call.command, w, RateHeld(th));
      }
    } else {
      UndisturbedAgrees(r.store, t, th.call.command, w, RateHeld(th));
      UndisturbedIdIsNext(r.store, th.call.command, th.number, w);
    }
  }

  lemma SerialNext(r: Race, es: seq<Event>, t: Store, k: nat)
    requires WellKeyed(t) && IsRun(r, es) && k < |es|
    ensures Lands(At(r, es, k), es[k]).None? ==> Serial(r, es, t, k + 1) == Serial(r, es, t, k)
    ensures Lands(At(r, es, k), es[k]).Some? ==>
              Serial(r, es, t, k + 1) == WholeCall(Serial(r, es, t, k), At(r, es, k).threads[es[k].id].call)
    ensures Serial(r, es, t, 0) == t
  {
    hide WholeCall, Landing, At;
  }

  /** Whole writes and whole calls agree all the way. */
  ghost predicate IsSerialUpTo(r: Race, es: seq<Event>, t: Store, n: nat)
    requires WellKeyed(t) && n <= |es|
  {
    forall k :: 0 <= k <= n ==> Ideal(r, es, t, k) == Serial(r, es, t, k)
  }

  ghost predicate IsUndisturbedUpTo(r: Race, es: seq<Event>, n: nat)
    requires n <= |es|
  {
    forall k :: 0 <= k < n ==> IsUndisturbed(At(r, es, k), es[k])
  }

  lemma SerialStarts(r: Race, es: seq<Event>, t: Store)
    requires WellKeyed(t)
    ensures Serial(r, es, t, 0) == t
  {
  }

  lemma OneMoreIsSerial(r: Race, t: Store, e: Event)
    requires Coupled(r, t) && Enabled(r, e) && WellKeyed(t)
    ensures Lands(r, e).None? ==> IsUndisturbed(r, e) && IsSafeStep(r, e) && Landed(t, Lands(r, e)) == t
    ensures Lands(r, e).Some? ==>
              && (Landed(t, Lands(r, e)) == WholeCall(t, r.threads[e.id].call) <==> IsUndisturbed(r, e))
              && (IsUndisturbed(r, e) ==> IsSafeStep(r, e))
  {
    hide Coupled, WholeCall, Commit, Undisturbed, IsSafe, Creation, WellKeyed;
    if Lands(r, e).Some? {
      StepIsAtomicIff(r, t, e);
    }
  }

  lemma {:induction false} SerialSoFar(r: Race, es: seq<Event>, t: Store, n: nat)
    requires IsRun(r, es) && Coupled(r, t) && WellKeyed(t) && n <= |es|
    requires IsUndisturbedUpTo(r, es, n) || IsSerialUpTo(r, es, t, n)
    ensures Coupled(At(r, es, n), Ideal(r, es, t, n))
    ensures IsUndisturbedUpTo(r, es, n) && IsSerialUpTo(r, es, t, n) && IsSafeUpTo(r, es, n)
  {
    hide Enabled, Step, Coupled, IsUndisturbed, IsRun, At, Ideal, Serial, Landed, Lands, WholeCall, WellKeyed,
      IsSafeStep;
    IdealStarts(r, es, t);
    AtStart(r, es);
    if n == 0 {
      SerialStarts(r, es, t);
    } else {
      SerialSoFar(r, es, t, n - 1);
      AtNext(r, es, n - 1);
      IdealNext(r, es, t, n - 1);
      SerialNext(r, es, t, n - 1);
      OneMoreIsSerial(At(r, es, n - 1), Ideal(r, es, t, n - 1), es[n - 1]);
      assert Ideal(r, es, t, n - 1) == Serial(r, es, t, n - 1);
      assert IsUndisturbed(At(r, es, n - 1), es[n - 1]) <==> Ideal(r, es, t, n) == Serial(r, es, t, n);
      SafeStepIsCoupled(At(r, es, n - 1), Ideal(r, es, t, n - 1), es[n - 1]);
    }
  }

  /**
   Whole writes leave what whole calls would leave, one after the other, at every point of a run, if and
   only if every write is undisturbed.
   */
  lemma RunIsSerialIff(r: Race, es: seq<Event>, t: Store)
    requires IsRun(r, es) && Coupled(r, t) && WellKeyed(t)
    ensures IsSerialUpTo(r, es, t, |es|) <==> IsUndisturbedUpTo(r, es, |es|)
    ensures IsUndisturbedUpTo(r, es, |es|) ==> IsSafeUpTo(r, es, |es|)
  {
    hide Coupled, IsUndisturbed, IsRun, At, Ideal, Serial, WellKeyed, IsSafeStep;
    if IsSerialUpTo(r, es, t, |es|) || IsUndisturbedUpTo(r, es, |es|) {
      SerialSoFar(r, es, t, |es|);
    }
  }

  // ---------------------------------------------------------------- superseding

  /** The append of a version number to a quote, if that is what the event does. */
  function Appends(r: Race, e: Event): Option<(string, int)> {
    if Lands(r, e).Some? && Lands(r, e).value.Append?
    then Some((Lands(r, e).value.quoteId, Lands(r, e).value.draft.number))
    else None
  }

  lemma AppendedNumber(r: Race, e: Event)
    requires Enabled(r, e) && Appends(r, e).Some? && IsSafeStep(r, e)
    ensures var (q, number) := Appends(r, e).value;
            q in Step(r, e).store.versions && |Step(r, e).store.versions[q]| == number
  {
  }

  lemma NumbersStayTaken(t: Store, u: Store, q: string, number: int)
    requires StoreEvolves(t, u) && q in t.versions && |t.versions[q]| == number
    ensures q in u.versions && |u.versions[q]| >= number
  {
    hide VersionEvolves, SameQuote;
    assert HistoryEvolves(t.versions[q], u.versions[q]);
  }

  lemma NumberTaken(r: Race, e: Event, q: string, number: int)
    requires q in r.store.versions && |r.store.versions[q]| >= number
    ensures Appends(r, e) == Some((q, number)) ==> !IsSafeStep(r, e)
  {
  }

  lemma StaleSupersedeIsRefused(s: Store, q: string, number: int, c: Command)
    requires GoodHistories(s) && NoEmptyHistory(s) && q in s.versions && |s.versions[q]| >= number
    requires c.CreateNextVersion? && c.quoteId == q && c.expectedLatest == number - 1
    ensures forall prior, facts, now :: Plan(c, Lookup(s, c), prior, facts, now) == Err(VersionConflict)
  {
    HistoryIsNumbered(s, q);
  }

  lemma NoHistoryIsEmpty(r: Race, t: Store)
    requires Coupled(r, t)
    ensures GoodHistories(r.store) && NoEmptyHistory(r.store)
  {
    hide Coupled, IsPartOf, Inv, WellKeyed, VersionInv;
    StoresAreCoupled(r, t);
    PartHasGoodHistories(r.store, t);
  }

  /**
   After an append has been put safely, a second append of the same number is not safe, and a call that
   only then looks is refused.
   */
  lemma SupersedesAtMostOnce(r: Race, es: seq<Event>, t: Store, i: nat, j: nat)
    requires IsSafeUpTo(r, es, j) && Coupled(r, t) && i < j < |es|
    requires Appends(At(r, es, i), es[i]).Some?
    ensures NoEmptyHistory(At(r, es, j).store)
    ensures Appends(At(r, es, j), es[j]) == Appends(At(r, es, i), es[i]) ==> !IsSafeStep(At(r, es, j), es[j])
    ensures var (q, number) := Appends(At(r, es, i), es[i]).value;
            forall c: Command, prior, facts, now ::
              c.CreateNextVersion? && c.quoteId == q && c.expectedLatest == number - 1 ==>
                Plan(c, Lookup(At(r, es, j).store, c), prior, facts, now) == Err(VersionConflict)
  {
    hide Coupled, IsSafeStep, KeepsPromises, IsRun, At, Plan, Lookup, StoreEvolves, Enabled, WellKeyed, GoodHistories,
      NoEmptyHistory, Appends, Inv;
    var (q, number) := Appends(At(r, es, i), es[i]).value;
    CoupledIsKeyed(r, t);
    StaysCoupled(r, es, t, j);
    NoHistoryIsEmpty(At(r, es, j), Ideal(r, es, t, j));
    AtNext(r, es, i);
    AppendedNumber(At(r, es, i), es[i]);
    RunEvolves(r, es, t, i + 1, j);
    var s, x := At(r, es, i + 1).store, At(r, es, j).store;
    NumbersStayTaken(s, x, q, number);
    NumberTaken(At(r, es, j), es[j], q, number);
    forall c: Command, prior, facts, now
      | c.CreateNextVersion? && c.quoteId == q && c.expectedLatest == number - 1
      ensures Plan(c, Lookup(x, c), prior, facts, now) == Err(VersionConflict)
    {
      StaleSupersedeIsRefused(x, q, number, c);
    }
  }
}
