/**
 The number and the status that a quote mirrors from its last version.  A call writes them after it has
 put the version, into a copy of the quote that it has read in between, so mirrors can overtake each
 other: when they agree with the versions once the calls are over, and with that, which runs leave a
 good store.
 */
module QuoteMirrors {
  import opened Base
  import opened Decimals
  import opened QuoteCoupling
  import opened QuoteHistory
  import opened QuoteInvariant
  import opened QuoteModel
  import opened QuoteRaces
  import opened QuoteSteps

  // ---------------------------------------------------------------- mirrors

  /** The quote says what its last version says. */
  predicate IsMirrorOf(quote: Quote, vs: seq<Version>) {
    vs != [] && quote.latestVersion == |vs| && quote.latestStatus == Last(vs).status
  }

  predicate Agrees(s: Store, q: string) {
    q in s.versions && q in s.quotes && IsMirrorOf(s.quotes[q], s.versions[q])
  }

  predicate AllAgree(s: Store) {
    forall q :: q in s.versions ==> Agrees(s, q)
  }

  /** The event writes the mirror of `q`. */
  predicate Mirrors(r: Race, e: Event, q: string) {
    Enabled(r, e) && e.Go? && r.threads[e.id].Copied? && Target(r.threads[e.id].write) == q
  }

  /**
   The last version still has the status with which the call put it, and there are as many versions as
   the copy of the quote says.
   */
  predicate MirrorsRightly(r: Race, e: Event, q: string)
    requires Mirrors(r, e, q)
  {
    && q in r.store.versions
    && IsMirrorOf(MirrorInto(r.threads[e.id].quote, r.threads[e.id].write), r.store.versions[q])
  }

  /** Of the mirrors of `q` written in the first `n` events, if any, the last one was right when it was written. */
  ghost predicate LastMirrorIsRight(r: Race, es: seq<Event>, n: nat, q: string)
    requires n <= |es|
  {
    if n == 0 then true
    else if Mirrors(At(r, es, n - 1), es[n - 1], q) then MirrorsRightly(At(r, es, n - 1), es[n - 1], q)
    else LastMirrorIsRight(r, es, n - 1, q)
  }

  // ---------------------------------------------------------------- mirrors that are still to come

  predicate IsBetween(r: Race, id: ThreadId, q: string) {
    id in r.threads && (r.threads[id].Placed? || r.threads[id].Copied?) && Target(r.threads[id].write) == q
  }

  /** Some call has put a version of `q` and not mirrored it yet, or not looked whether it should. */
  ghost predicate IsBusy(r: Race, q: string) {
    exists id :: IsBetween(r, id, q)
  }

  /** As things are, it will. */
  predicate WillMirror(r: Race, id: ThreadId, q: string) {
    IsBetween(r, id, q) && (r.threads[id].Placed? ==> IsMirrored(r.store, r.threads[id].write))
  }

  ghost predicate IsDue(r: Race, q: string) {
    exists id :: WillMirror(r, id, q)
  }

  lemma DueIsBusy(r: Race, q: string)
    ensures IsDue(r, q) ==> IsBusy(r, q)
  {
    hide IsBetween, IsMirrored;
    if IsDue(r, q) {
      var id :| WillMirror(r, id, q);
      assert IsBetween(r, id, q);
    }
  }

  /** Either a mirror is due, or the last one decides. */
  ghost predicate IsAccountedFor(r: Race, es: seq<Event>, n: nat, q: string)
    requires n <= |es|
  {
    var x := At(r, es, n);
    if q in x.store.versions then IsDue(x, q) || (Agrees(x.store, q) <==> LastMirrorIsRight(r, es, n, q))
    else LastMirrorIsRight(r, es, n, q)
  }

  /** A put of the last version changes what is to be mirrored; a put of an earlier one does not. */
  lemma PutOfEarlier(s: Store, w: Write)
    requires GoodHistories(s) && w.Rewrite? && w.quoteId in s.versions && w.updated.number == w.base.number
    ensures var vs, ws := s.versions[w.quoteId], PutVersion(s, w).versions[w.quoteId];
            && |ws| == |vs| && vs != [] && Last(ws).number == Last(vs).number
            && (w.base.number != Last(vs).number ==> Last(ws) == Last(vs))
  {
    hide Frozen;
    HistoryIsNumbered(s, w.quoteId);
    IndexOfPosition(s.versions[w.quoteId], 0, w.base.number);
  }

  /** Effects elsewhere. */
  lemma UntouchedQuote(r: Race, t: Store, e: Event, q: string)
    requires Coupled(r, t) && Enabled(r, e) && q in r.store.versions && !Mirrors(r, e, q)
    requires e.Go? && r.threads[e.id].Writing? ==> Target(r.threads[e.id].write) != q
    ensures var x := Step(r, e);
            && q in x.store.versions && x.store.versions[q] == r.store.versions[q]
            && q in r.store.quotes && q in x.store.quotes && x.store.quotes[q] == r.store.quotes[q]
  {
    hide Inv, WellKeyed, NothingIsMissing, AreApart, IsHeld, SameQuote, IndexOf, MirrorInto, DecisionKey, IsWriteOf;
    if e.Go? {
      assert IsFollowed(r.store, t, r.threads[e.id]);
    }
  }

  lemma CoupledHistories(r: Race, t: Store, q: string)
    requires Coupled(r, t) && q in r.store.versions
    ensures GoodHistories(r.store) && r.store.versions[q] != [] && q in r.store.quotes
  {
    hide Coupled, VersionInv, SameQuote, Inv;
    NoHistoryIsEmpty(r, t);
    StoresAreCoupled(r, t);
  }

  /**
   After a put of the last version, or an append, a mirror is due; any other put leaves the mirror as good as it was.
   */
  lemma PutIsDueOrOld(r: Race, t: Store, e: Event, q: string)
    requires Coupled(r, t) && Enabled(r, e) && e.Go? && r.threads[e.id].Writing? && Target(r.threads[e.id].write) == q
    requires q in r.store.versions
    ensures var x := Step(r, e);
            || WillMirror(x, e.id, q)
            || (&& q in x.store.versions && x.store.versions[q] != [] && x.store.quotes == r.store.quotes
                && |x.store.versions[q]| == |r.store.versions[q]|
                && Last(x.store.versions[q]) == Last(r.store.versions[q]))
  {
    hide Coupled, GoodHistories, IndexOf;
    CoupledHistories(r, t, q);
    var w := r.threads[e.id].write;
    if w.Rewrite? {
      PutOfEarlier(r.store, w);
    }
  }

  lemma LastNumberStays(r: Race, t: Store, e: Event, q: string)
    requires Coupled(r, t) && Enabled(r, e) && q in r.store.versions && !Mirrors(r, e, q)
    requires e.Go? && r.threads[e.id].Writing? && Target(r.threads[e.id].write) == q ==> r.threads[e.id].write.Rewrite?
    ensures var x := Step(r, e);
            && q in x.store.versions && x.store.versions[q] != [] && q in x.store.quotes
            && r.store.versions[q] != [] && Last(x.store.versions[q]).number == Last(r.store.versions[q]).number
  {
    hide Coupled, GoodHistories, IndexOf, Mirrors;
    CoupledHistories(r, t, q);
    if e.Go? && r.threads[e.id].Writing? && Target(r.threads[e.id].write) == q {
      PutOfEarlier(r.store, r.threads[e.id].write);
    } else {
      UntouchedQuote(r, t, e, q);
    }
  }

  /** A mirror that is due is due until it is written, or until an appended version's is. */
  lemma DueStays(r: Race, t: Store, e: Event, q: string)
    requires Coupled(r, t) && Enabled(r, e) && q in r.store.versions && IsDue(r, q) && !Mirrors(r, e, q)
    ensures IsDue(Step(r, e), q)
  {
    hide Coupled, IndexOf, GoodHistories, Plan, Lookup;
    var x := Step(r, e);
    var id :| WillMirror(r, id, q);
    CoupledHistories(r, t, q);
    if e.Go? && r.threads[e.id].Writing? && Target(r.threads[e.id].write) == q && r.threads[e.id].write.Append? {
      assert WillMirror(x, e.id, q);
    } else {
      LastNumberStays(r, t, e, q);
      assert WillMirror(x, id, q);
    }
  }

  /** Writing the mirror makes it agree exactly if it is right. */
  lemma MirrorAgreesIff(r: Race, e: Event, q: string)
    requires Enabled(r, e) && Mirrors(r, e, q)
    ensures Agrees(Step(r, e).store, q) <==> MirrorsRightly(r, e, q)
  {
  }

  /** A new quote mirrors its first version. */
  lemma NewQuoteAgrees(r: Race, t: Store, e: Event, q: string)
    requires Coupled(r, t) && Enabled(r, e) && q !in r.store.versions && q in Step(r, e).store.versions
    ensures Agrees(Step(r, e).store, q) && !Mirrors(r, e, q)
  {
    hide Inv, WellKeyed, NothingIsMissing, AreApart, IsHeld, SameQuote, IndexOf, MirrorInto, DecisionKey;
    if e.Go? {
      assert IsFollowed(r.store, t, r.threads[e.id]);
    }
  }

  lemma NoMirrorBeforeVersions(r: Race, t: Store, e: Event, q: string)
    requires Coupled(r, t) && Enabled(r, e) && q !in r.store.versions
    ensures !Mirrors(r, e, q)
  {
    hide Inv, WellKeyed, NothingIsMissing, AreApart, IsHeld, SameQuote, IndexOf, MirrorInto, DecisionKey;
    if e.Go? {
      assert IsFollowed(r.store, t, r.threads[e.id]);
    }
  }

  lemma UnchangedAgrees(s: Store, x: Store, q: string)
    requires q in s.versions && q in x.versions && s.versions[q] != [] && x.versions[q] != []
    requires |x.versions[q]| == |s.versions[q]| && Last(x.versions[q]) == Last(s.versions[q])
    requires q in s.quotes && q in x.quotes && x.quotes[q] == s.quotes[q]
    ensures Agrees(x, q) <==> Agrees(s, q)
  {
  }

  /** With no mirror due or written, the mirror stays as good as it was, unless one becomes due. */
  lemma OthersKeepMirror(r: Race, t: Store, e: Event, q: string)
    requires Coupled(r, t) && Enabled(r, e) && q in r.store.versions && !Mirrors(r, e, q)
    ensures IsDue(Step(r, e), q) || (Agrees(Step(r, e).store, q) <==> Agrees(r.store, q))
  {
    hide Coupled, Mirrors, Agrees, WillMirror, Step, GoodHistories;
    CoupledHistories(r, t, q);
    if e.Go? && r.threads[e.id].Writing? && Target(r.threads[e.id].write) == q {
      PutIsDueOrOld(r, t, e, q);
      if !WillMirror(Step(r, e), e.id, q) {
        UnchangedAgrees(r.store, Step(r, e).store, q);
      }
    } else {
      UntouchedQuote(r, t, e, q);
      UnchangedAgrees(r.store, Step(r, e).store, q);
    }
  }

  lemma AccountedForNext(r: Race, es: seq<Event>, n: nat, t: Store, q: string)
    requires IsRun(r, es) && n < |es| && Coupled(At(r, es, n), t) && IsAccountedFor(r, es, n, q)
    ensures IsAccountedFor(r, es, n + 1, q)
  {
    hide Coupled, At, IsRun, Mirrors, MirrorsRightly, Agrees, IsDue, Step, Enabled, WillMirror;
    AtNext(r, es, n);
    var x, e := At(r, es, n), es[n];
    StepOnlyAdds(x, e);
    if q in x.store.versions {
      if Mirrors(x, e, q) {
        MirrorAgreesIff(x, e, q);
      } else if IsDue(x, q) {
        DueStays(x, t, e, q);
      } else {
        OthersKeepMirror(x, t, e, q);
      }
    } else {
      NoMirrorBeforeVersions(x, t, e, q);
      if q in Step(x, e).store.versions {
        NewQuoteAgrees(x, t, e, q);
      }
    }
  }

  // ---------------------------------------------------------------- once the writes of a quote are over

  lemma AccountedForAtStart(s: Store, es: seq<Event>, q: string)
    requires Inv(s) && WellKeyed(s)
    ensures IsAccountedFor(Idle(s), es, 0, q)
  {
    hide LogInv, IdsInv, VersionInv;
    if q in s.versions {
      assert HistoryInv(q, s.quotes[q], s.versions[q]);
    }
  }

  lemma {:induction false} IsAccountedForUpTo(s: Store, es: seq<Event>, n: nat, q: string)
    requires Inv(s) && WellKeyed(s) && IsSafeUpTo(Idle(s), es, n)
    ensures IsAccountedFor(Idle(s), es, n, q)
  {
    hide Coupled, At, IsRun, Inv, WellKeyed, IsAccountedFor, IsSafeStep, Ideal, StoreEvolves;
    if n == 0 {
      AccountedForAtStart(s, es, q);
    } else {
      IsAccountedForUpTo(s, es, n - 1, q);
      IdleIsCoupled(s);
      StaysCoupled(Idle(s), es, s, n - 1);
      AccountedForNext(Idle(s), es, n - 1, Ideal(Idle(s), es, s, n - 1), q);
    }
  }

  /**
   Whenever no call is between putting a version of a quote and mirroring it, the quote mirrors its last
   version if and only if the mirror that was written last was right: the call that wrote it had put
   the status that the last version still carried, with as many versions as there still were.
   */
  lemma MirrorAgreesIffLastIsRight(s: Store, es: seq<Event>, n: nat, q: string)
    requires Inv(s) && WellKeyed(s) && IsSafeUpTo(Idle(s), es, n)
    requires q in At(Idle(s), es, n).store.versions && !IsBusy(At(Idle(s), es, n), q)
    ensures Agrees(At(Idle(s), es, n).store, q) <==> LastMirrorIsRight(Idle(s), es, n, q)
  {
    hide At, IsRun, Inv, WellKeyed, IsSafeStep, Agrees, LastMirrorIsRight, IsBetween;
    IsAccountedForUpTo(s, es, n, q);
    DueIsBusy(At(Idle(s), es, n), q);
  }

  /** Once all calls are over, only mirrors can be different from whole writes. */
  lemma RestIsWholeButMirrors(r: Race, t: Store)
    requires Coupled(r, t) && r.threads == map[]
    ensures r.store == t.(quotes := r.store.quotes) && r.store.quotes.Keys == t.quotes.Keys
    ensures forall q :: q in r.store.quotes ==> SameQuote(r.store.quotes[q], t.quotes[q])
    ensures forall q :: q in t.versions ==> Agrees(t, q)
  {
    hide IsFollowed, AreApart, SameQuote, LogInv, IdsInv, VersionInv;
    assert r.store.versions == t.versions && r.store.decisions == t.decisions;
    forall q | q in t.versions
      ensures Agrees(t, q)
    {
      assert HistoryInv(q, t.quotes[q], t.versions[q]);
    }
  }

  lemma SameMirrorSameQuote(p: Quote, q: Quote, vs: seq<Version>)
    requires SameQuote(p, q) && IsMirrorOf(q, vs)
    ensures IsMirrorOf(p, vs) <==> p == q
  {
  }

  lemma GoodMirrors(s: Store, q: string)
    requires Inv(s) && q in s.versions
    ensures Agrees(s, q)
  {
    hide LogInv, IdsInv, VersionInv;
    assert HistoryInv(q, s.quotes[q], s.versions[q]);
  }

  /** Then the store is good exactly if it is the one with whole writes, and that exactly if all mirrors agree. */
  lemma RestIsGoodIff(r: Race, t: Store)
    requires Coupled(r, t) && r.threads == map[]
    ensures Inv(r.store) <==> AllAgree(r.store)
    ensures r.store == t <==> AllAgree(r.store)
  {
    hide SameQuote, LogInv, IdsInv, VersionInv, IsMirrorOf, NothingIsMissing, AreApart, IsFollowed, IsPartOf;
    var s := r.store;
    RestIsWholeButMirrors(r, t);
    forall q | q in s.versions
      ensures q in s.quotes && q in t.quotes && (Agrees(s, q) <==> s.quotes[q] == t.quotes[q])
    {
      SameMirrorSameQuote(s.quotes[q], t.quotes[q], s.versions[q]);
    }
    if AllAgree(s) {
      assert s.quotes == t.quotes;
    }
    if Inv(s) {
      forall q | q in s.versions
        ensures Agrees(s, q)
      {
        GoodMirrors(s, q);
      }
    }
  }

  ghost predicate LastMirrorsAreRight(r: Race, es: seq<Event>) {
    forall q :: q in At(r, es, |es|).store.versions ==> LastMirrorIsRight(r, es, |es|, q)
  }

  ghost predicate IsOver(r: Race, es: seq<Event>) {
    IsRun(r, es) && At(r, es, |es|).threads == map[]
  }

  lemma RestingMirrors(s: Store, es: seq<Event>, x: Race)
    requires Inv(s) && WellKeyed(s) && IsOver(Idle(s), es) && IsSafeUpTo(Idle(s), es, |es|)
    requires x == At(Idle(s), es, |es|)
    ensures AllAgree(x.store) <==> LastMirrorsAreRight(Idle(s), es)
  {
    hide IsRun, Inv, WellKeyed, IsSafeStep, Agrees, Mirrors, MirrorsRightly, Enabled, Step;
    forall q | q in x.store.versions
      ensures Agrees(x.store, q) <==> LastMirrorIsRight(Idle(s), es, |es|, q)
    {
      MirrorAgreesIffLastIsRight(s, es, |es|, q);
    }
  }

  /**
   A run that starts and ends with no call under way keeps the promises of the store at every step and
   leaves a good store if and only if all its puts and counts are safe and the last mirror of every
   quote was right.
   */
  lemma RunLeavesGoodStoreIff(s: Store, es: seq<Event>)
    requires Inv(s) && WellKeyed(s) && IsOver(Idle(s), es)
    ensures var r, x := Idle(s), At(Idle(s), es, |es|);
            (forall k :: 0 <= k < |es| ==> KeepsPromises(At(r, es, k), es[k])) && Inv(x.store) <==>
              IsSafeUpTo(r, es, |es|) && LastMirrorsAreRight(r, es)
  {
    hide At, IsRun, Inv, WellKeyed, IsSafeStep, AllAgree, LastMirrorsAreRight, KeepsPromises, Coupled, Ideal,
      StoreEvolves;
    var r, x := Idle(s), At(Idle(s), es, |es|);
    IdleIsCoupled(s);
    RunIsLawfulIff(r, es, s);
    if IsSafeUpTo(r, es, |es|) {
      StaysCoupled(r, es, s, |es|);
      RestIsGoodIff(x, Ideal(r, es, s, |es|));
      RestingMirrors(s, es, x);
    }
  }

  /**
   Such a run amounts to its calls one after the other, at every write and in the store that it leaves, if
   and only if all its writes are undisturbed and the last mirror of every quote was right.
   */
  lemma RunAmountsToCallsIff(s: Store, es: seq<Event>)
    requires Inv(s) && WellKeyed(s) && IsOver(Idle(s), es)
    ensures var r, x := Idle(s), At(Idle(s), es, |es|);
            IsSerialUpTo(r, es, s, |es|) && x.store == Serial(r, es, s, |es|) <==>
              IsUndisturbedUpTo(r, es, |es|) && LastMirrorsAreRight(r, es)
  {
    hide At, IsRun, Inv, WellKeyed, IsSafeStep, AllAgree, LastMirrorsAreRight, Coupled, Ideal, StoreEvolves, Serial,
      IsUndisturbed;
    var r, x := Idle(s), At(Idle(s), es, |es|);
    IdleIsCoupled(s);
    RunIsSerialIff(r, es, s);
    if IsUndisturbedUpTo(r, es, |es|) {
      StaysCoupled(r, es, s, |es|);
      RestIsGoodIff(x, Ideal(r, es, s, |es|));
      RestingMirrors(s, es, x);
    }
  }
}
