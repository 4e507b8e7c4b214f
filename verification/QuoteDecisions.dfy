/**
 Which decisions stand.  Whoever looks a version up after it was decided is refused; only calls that had
 looked before can still write over it.
 */
module QuoteDecisions {
  import opened Base
  import opened Decimals
  import opened QuoteCoupling
  import opened QuoteHistory
  import opened QuoteInvariant
  import opened QuoteModel
  import opened QuoteSteps

  // ---------------------------------------------------------------- what a put does to statuses

  lemma IndexIsUnique(vs: seq<Version>, number: int, k: nat)
    requires k < |vs| && vs[k].number == number && forall i :: 0 <= i < k ==> vs[i].number != number
    ensures IndexOf(vs, number) == Some(k)
  {
    hide IndexOf;
  }

  /** Rewriting a version leaves every other one where it is found. */
  lemma RewriteKeepsIndexes(vs: seq<Version>, k: nat, v: Version, number: int)
    requires k < |vs| && v.number == vs[k].number
    ensures IndexOf(vs[k := v], number) == IndexOf(vs, number)
  {
    hide IndexOf;
    assert forall i :: 0 <= i < |vs| ==> vs[k := v][i].number == vs[i].number;
    if IndexOf(vs, number).Some? {
      IndexIsUnique(vs[k := v], number, IndexOf(vs, number).value);
    }
  }

  lemma AppendKeepsIndexes(vs: seq<Version>, v: Version, number: int)
    requires IndexOf(vs, number).Some?
    ensures IndexOf(vs + [v], number) == IndexOf(vs, number)
  {
    hide IndexOf;
    IndexIsUnique(vs + [v], number, IndexOf(vs, number).value);
  }

  lemma IndexesDiffer(vs: seq<Version>, m: int, n: int)
    ensures m != n && IndexOf(vs, m).Some? && IndexOf(vs, n).Some? ==> IndexOf(vs, m) != IndexOf(vs, n)
  {
    hide IndexOf;
  }

  predicate Covers(w: Write, q: string, number: int) {
    w.Rewrite? && w.quoteId == q && w.base.number == number
  }

  /** No assumption on the store: a put changes the status of the version it is about, and of no other. */
  lemma PutStatus(s: Store, w: Write, q: string, number: int)
    requires !w.Insert? && (w.Rewrite? ==> w.updated.number == w.base.number) && StatusOf(s, q, number).Some?
    ensures StatusOf(PutVersion(s, w), q, number) ==
            if Covers(w, q, number) then Some(w.updated.status) else StatusOf(s, q, number)
  {
    hide IndexOf;
    if w.Append? && w.quoteId == q {
      AppendKeepsIndexes(s.versions[q], w.draft, number);
    }
    if w.Rewrite? && w.quoteId == q && IndexOf(s.versions[q], w.base.number).Some? {
      var vs := s.versions[q];
      RewriteKeepsIndexes(vs, IndexOf(vs, w.base.number).value, w.updated, number);
      IndexesDiffer(vs, number, w.base.number);
    }
  }

  lemma FirstPutStatus(s: Store, w: Write, q: string, number: int)
    requires w.Insert? && w.first.status.Draft?
    ensures Target(w) == q ==> !IsDecidedIn(PutVersion(s, w), q, number)
    ensures Target(w) != q ==> StatusOf(PutVersion(s, w), q, number) == StatusOf(s, q, number)
  {
    hide IndexOf;
  }

  // ---------------------------------------------------------------- calls that had looked before

  /** The call may yet write over the version: it has found it undecided, or is to store a quote of that id. */
  predicate AimsAt(th: Thread, q: string, number: int) {
    match th
    case Reading(call, found) =>
      && !call.command.CreateQuote? && !call.command.CreateNextVersion?
      && call.command.quoteId == q && call.command.version == number
      && found.Some? && !IsDecided(found.value.status)
    case Writing(_, _, w) => Covers(w, q, number)
    case Taken(_, taken) => QuoteId(taken) == q
    case Counted(_, w) => Target(w) == q
    case Described(_, w) => Target(w) == q
    case _ => false
  }

  function LateCalls(r: Race, q: string, number: int): set<ThreadId> {
    set id | id in r.threads && AimsAt(r.threads[id], q, number)
  }

  ghost predicate OnlyLateCallsAim(r: Race, q: string, number: int, late: set<ThreadId>) {
    forall id :: id in r.threads && AimsAt(r.threads[id], q, number) ==> id in late
  }

  /** The event puts another status over the version, or another history over the quote's. */
  predicate WritesOver(r: Race, e: Event, q: string, number: int, decision: Status) {
    && Enabled(r, e) && e.Go?
    && match r.threads[e.id]
       case Writing(_, _, w) => Covers(w, q, number) && w.updated.status != decision
       case Described(_, w) => Target(w) == q
       case _ => false
  }

  /** Ids given out are below the counter, and ids taken not above it. */
  ghost predicate IdsAreBelow(r: Race) {
    && (forall q :: q in r.store.versions ==> IdBelow(q, r.store.nextId))
    && (forall id :: id in r.threads && (r.threads[id].Counted? || r.threads[id].Described?) ==>
          IdBelow(Target(r.threads[id].write), r.store.nextId))
    && (forall id :: id in r.threads && r.threads[id].Taken? ==> r.threads[id].number <= r.store.nextId)
  }

  lemma HistoriesStayBelow(r: Race, e: Event)
    requires IdsAreBelow(r) && Enabled(r, e)
    ensures r.store.nextId <= Step(r, e).store.nextId
    ensures forall q :: q in Step(r, e).store.versions ==> IdBelow(q, r.store.nextId)
  {
    hide IndexOf, IdNumber, IsWriteOf, MirrorInto, DecisionKey, Onward;
  }

  lemma MoverStaysBelow(r: Race, e: Event)
    requires IdsAreBelow(r) && Enabled(r, e) && e.id in Step(r, e).threads
    ensures var th, next := Step(r, e).threads[e.id], Step(r, e).store.nextId;
            && (th.Counted? || th.Described? ==> IdBelow(Target(th.write), next))
            && (th.Taken? ==> th.number <= next)
  {
    hide QuoteId, IdNumber, Plan, Lookup, IsWriteOf, IsMirrored, MirrorInto, DecisionKey, FirstVersions, PutVersion;
    if e.Go? && r.threads[e.id].Taken? {
      QuoteIdReadsBack(r.threads[e.id].number);
    }
  }

  lemma StepKeepsIdsBelow(r: Race, e: Event)
    requires IdsAreBelow(r) && Enabled(r, e)
    ensures IdsAreBelow(Step(r, e))
  {
    hide IdNumber, Effect, Onward, IsShaped;
    HistoriesStayBelow(r, e);
    if e.id in Step(r, e).threads {
      MoverStaysBelow(r, e);
    }
  }

  /** An id that is in use is not taken again. */
  lemma UsedIdIsNotTaken(r: Race, q: string)
    requires IdsAreBelow(r) && q in r.store.versions
    ensures QuoteId(r.store.nextId) != q
  {
    hide QuoteId, IdNumber;
    QuoteIdReadsBack(r.store.nextId);
  }

  lemma DecidedIsStored(s: Store, q: string, number: int)
    requires IsDecidedIn(s, q, number)
    ensures q in s.versions
  {
    hide IndexOf;
  }

  /** A thread that goes on does not come to aim at a version that is decided. */
  lemma NobodyNewAims(r: Race, e: Event, q: string, number: int)
    requires IdsAreBelow(r) && Enabled(r, e) && e.Go? && IsDecidedIn(r.store, q, number)
    requires e.id in Step(r, e).threads && AimsAt(Step(r, e).threads[e.id], q, number)
    ensures AimsAt(r.threads[e.id], q, number)
  {
    hide IndexOf, QuoteId, Plan, GetVersion, IsMirrored, FirstVersions, IdsAreBelow;
    var th := r.threads[e.id];
    DecidedIsStored(r.store, q, number);
    UsedIdIsNotTaken(r, q);
    if th.Reading? {
      var c, prior := th.call.command, PriorFor(r.store, th.call.command, th.found);
      PlanIsWriteOf(c, th.found, prior, th.call.facts, th.call.now);
    }
  }

  lemma EnteredAimsAtNothing(call: Call, q: string, number: int)
    ensures !AimsAt(Entered(call), q, number)
  {
  }

  lemma OthersKeepAiming(r: Race, e: Event, q: string, number: int, late: set<ThreadId>)
    requires IdsAreBelow(r) && Enabled(r, e) && IsDecidedIn(r.store, q, number) && OnlyLateCallsAim(r, q, number, late)
    ensures OnlyLateCallsAim(Step(r, e), q, number, late)
  {
    hide Effect, Onward, AimsAt, IsDecidedIn, IdsAreBelow, IsShaped;
    forall id | id in Step(r, e).threads && AimsAt(Step(r, e).threads[id], q, number)
      ensures id in late
    {
      if id != e.id {
        assert r.threads[id] == Step(r, e).threads[id];
      } else if e.Go? {
        NobodyNewAims(r, e, q, number);
      } else {
        EnteredAimsAtNothing(e.call, q, number);
      }
    }
  }

  lemma SameVersionsSameStatus(s: Store, t: Store, q: string, number: int)
    requires t.versions == s.versions
    ensures StatusOf(t, q, number) == StatusOf(s, q, number)
  {
    hide IndexOf;
  }

  /** One step changes a decided status if and only if it writes over it, and then it is a late call's. */
  lemma StepKeepsDecisionIff(r: Race, e: Event, q: string, number: int, decision: Status)
    requires Enabled(r, e) && IsDecided(decision) && StatusOf(r.store, q, number) == Some(decision)
    ensures StatusOf(Step(r, e).store, q, number) == Some(decision) <==> !WritesOver(r, e, q, number, decision)
    ensures WritesOver(r, e, q, number, decision) ==> AimsAt(r.threads[e.id], q, number)
  {
    hide GetVersion, Plan, Lookup, PriorFor, IsMirrored, MirrorInto, DecisionKey, PutVersion, QuoteId;
    if e.Go? {
      var th := r.threads[e.id];
      if th.Writing? {
        PutStatus(r.store, th.write, q, number);
      } else if th.Described? {
        FirstPutStatus(r.store, th.write, q, number);
      } else {
        SameVersionsSameStatus(r.store, Effect(r.store, th), q, number);
      }
    }
  }

  // ---------------------------------------------------------------- over a run

  ghost predicate NoneWritesOver(r: Race, es: seq<Event>, i: nat, j: nat, q: string, number: int, decision: Status)
    requires i <= j <= |es|
  {
    forall k :: i <= k < j && es[k].id in LateCalls(At(r, es, i), q, number) ==>
      !WritesOver(At(r, es, k), es[k], q, number, decision)
  }

  ghost predicate Stands(r: Race, es: seq<Event>, i: nat, j: nat, q: string, number: int, decision: Status)
    requires i <= j <= |es|
  {
    forall k :: i <= k <= j ==> StatusOf(At(r, es, k).store, q, number) == Some(decision)
  }

  lemma WriterIsThere(r: Race, e: Event, q: string, number: int, decision: Status)
    ensures WritesOver(r, e, q, number, decision) ==> e.id in r.threads
  {
  }

  lemma DecidedBy(s: Store, q: string, number: int, decision: Status)
    requires StatusOf(s, q, number) == Some(decision) && IsDecided(decision)
    ensures IsDecidedIn(s, q, number)
  {
    hide StatusOf;
  }

  lemma {:induction false} StandsSoFar(r: Race, es: seq<Event>, i: nat, j: nat, q: string, number: int,
                                       decision: Status)
    requires IsRun(r, es) && i <= j <= |es| && IdsAreBelow(At(r, es, i)) && IsDecided(decision)
    requires StatusOf(At(r, es, i).store, q, number) == Some(decision)
    requires NoneWritesOver(r, es, i, j, q, number, decision)
    ensures Stands(r, es, i, j, q, number, decision)
    ensures IdsAreBelow(At(r, es, j))
    ensures OnlyLateCallsAim(At(r, es, j), q, number, LateCalls(At(r, es, i), q, number))
  {
    hide IsRun, At, IdsAreBelow, Enabled, Step, AimsAt, WritesOver, StatusOf, IsDecidedIn;
    if i < j {
      StandsSoFar(r, es, i, j - 1, q, number, decision);
      var x, e, late := At(r, es, j - 1), es[j - 1], LateCalls(At(r, es, i), q, number);
      AtNext(r, es, j - 1);
      DecidedBy(x.store, q, number, decision);
      StepKeepsDecisionIff(x, e, q, number, decision);
      StepKeepsIdsBelow(x, e);
      OthersKeepAiming(x, e, q, number, late);
      WriterIsThere(x, e, q, number, decision);
      assert WritesOver(x, e, q, number, decision) ==> e.id in late;
    }
  }

  lemma IdleIdsAreBelow(s: Store)
    requires Inv(s)
    ensures IdsAreBelow(Idle(s))
  {
    hide Histories, LogInv, IdNumber;
  }

  lemma {:induction false} IdsStayBelow(s: Store, es: seq<Event>, n: nat)
    requires Inv(s) && IsRun(Idle(s), es) && n <= |es|
    ensures IdsAreBelow(At(Idle(s), es, n))
  {
    hide IsRun, At, Enabled, Step, Histories, LogInv, IdNumber, IdsAreBelow;
    if n == 0 {
      AtStart(Idle(s), es);
      IdleIdsAreBelow(s);
    } else {
      IdsStayBelow(s, es, n - 1);
      AtNext(Idle(s), es, n - 1);
      StepKeepsIdsBelow(At(Idle(s), es, n - 1), es[n - 1]);
    }
  }

  /**
   In any run, whatever else goes wrong in it, a decision stands from its moment on if and only if none
   of the calls that had looked before -- found the version undecided, or taken the quote's id -- puts
   another status over the version, or another history over the quote's, afterwards.
   */
  lemma DecisionStandsIff(s: Store, es: seq<Event>, i: nat, q: string, number: int, decision: Status)
    requires Inv(s) && IsRun(Idle(s), es) && i <= |es| && IsDecided(decision)
    requires StatusOf(At(Idle(s), es, i).store, q, number) == Some(decision)
    ensures Stands(Idle(s), es, i, |es|, q, number, decision) <==>
            NoneWritesOver(Idle(s), es, i, |es|, q, number, decision)
  {
    hide IsRun, At, Inv, IdsAreBelow, Enabled, Step, WritesOver, StatusOf, LateCalls;
    var r := Idle(s);
    IdsStayBelow(s, es, i);
    if NoneWritesOver(r, es, i, |es|, q, number, decision) {
      StandsSoFar(r, es, i, |es|, q, number, decision);
    }
    if Stands(r, es, i, |es|, q, number, decision) {
      forall k | i <= k < |es| && es[k].id in LateCalls(At(r, es, i), q, number)
        ensures !WritesOver(At(r, es, k), es[k], q, number, decision)
      {
        AtNext(r, es, k);
        StepKeepsDecisionIff(At(r, es, k), es[k], q, number, decision);
      }
    }
  }

  // ---------------------------------------------------------------- safe steps

  lemma SafePutKeepsDecision(s: Store, c: Command, w: Write, q: string, number: int, decision: Status)
    requires IsWriteOf(c, w) && IsSafe(s, w) && IsDecided(decision) && StatusOf(s, q, number) == Some(decision)
    ensures Covers(w, q, number) ==> w.updated.status == decision
  {
    hide GetVersion;
  }

  /** A safe step writes over no decision. */
  lemma SafeStepWritesOverNothing(r: Race, t: Store, e: Event, q: string, number: int, decision: Status)
    requires Coupled(r, t) && Enabled(r, e) && IsSafeStep(r, e)
    requires IsDecided(decision) && StatusOf(r.store, q, number) == Some(decision)
    ensures !WritesOver(r, e, q, number, decision)
  {
    hide Inv, WellKeyed, IsPartOf, NothingIsMissing, AreApart, IsHeld, StatusOf, IsSafe, IsWriteOf, DecisionKey,
      SameQuote;
    DecidedBy(r.store, q, number, decision);
    DecidedIsStored(r.store, q, number);
    if e.Go? {
      assert IsFollowed(r.store, t, r.threads[e.id]);
      if r.threads[e.id].Writing? {
        SafePutKeepsDecision(r.store, r.threads[e.id].call.command, r.threads[e.id].write, q, number, decision);
      }
    }
  }
}
