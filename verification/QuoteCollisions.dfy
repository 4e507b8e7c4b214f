/**
 What does happen when calls to the quote store collide: from every state that allows it, a run in
 which all callers are told that they succeeded and something is wrong in the end.
 */
module QuoteCollisions {
  import opened Base
  import opened Decimals
  import opened QuoteAtomicity
  import opened QuoteCoupling
  import opened QuoteDecisions
  import opened QuoteHistory
  import opened QuoteInvariant
  import opened QuoteMirrors
  import opened QuoteModel
  import opened QuoteRaces
  import opened QuoteSteps

  // ---------------------------------------------------------------- parts of runs

  ghost function Prepared(s: Store, call: Call): Result<Write, StoreError>
    requires WellKeyed(s)
  {
    Prepare(s, s, call.command, call.facts, call.now)
  }

  /** A call comes in, looks up and plans. */
  function Planning(id: ThreadId, call: Call): seq<Event> {
    [Begin(id, call)] + Steps(id, 2)
  }

  /** The steps from a put to the end of the call. */
  function WritingSteps(s: Store, w: Write): nat {
    2 + (if IsMirrored(PutVersion(s, w), w) then 1 else 0) + (if RecordOf(w).Some? then 1 else 0)
  }

  ghost predicate IsFresh(r: Race, id: ThreadId) {
    id !in r.threads && id !in r.answers
  }

  lemma SafeRunsCompose(r: Race, es: seq<Event>, fs: seq<Event>)
    requires IsSafeUpTo(r, es, |es|) && IsSafeUpTo(At(r, es, |es|), fs, |fs|)
    ensures IsSafeUpTo(r, es + fs, |es + fs|) && At(r, es + fs, |es + fs|) == At(At(r, es, |es|), fs, |fs|)
  {
    hide IsSafeStep, At, IsRun;
    RunsCompose(r, es, fs);
    forall k | 0 <= k < |es + fs|
      ensures IsSafeStep(At(r, es + fs, k), (es + fs)[k])
    {
      if k < |es| {
        AtPrefix(r, es, fs, k);
      } else {
        AtSuffix(r, es, fs, k - |es|);
      }
    }
  }

  lemma SafeOne(r: Race, e: Event)
    requires Enabled(r, e) && IsSafeStep(r, e)
    ensures IsSafeUpTo(r, [e], 1) && At(r, [e], 1) == Step(r, e)
  {
    hide Enabled, Step, IsSafeStep;
    RunOfOne(r, e);
    AtStart(r, [e]);
  }

  /** One thread taking one safe step more. */
  lemma OneMoreSafeStep(r: Race, es: seq<Event>, id: ThreadId, n: nat)
    requires IsSafeUpTo(r, es + Steps(id, n), |es| + n)
    requires Enabled(At(r, es + Steps(id, n), |es| + n), Go(id))
    requires IsSafeStep(At(r, es + Steps(id, n), |es| + n), Go(id))
    ensures IsSafeUpTo(r, es + Steps(id, n + 1), |es| + n + 1)
    ensures At(r, es + Steps(id, n + 1), |es| + n + 1) == Step(At(r, es + Steps(id, n), |es| + n), Go(id))
  {
    hide Enabled, Step, IsSafeStep, IsRun, At;
    var fs := es + Steps(id, n);
    SafeOne(At(r, fs, |fs|), Go(id));
    SafeRunsCompose(r, fs, [Go(id)]);
    assert fs + [Go(id)] == es + Steps(id, n + 1);
  }

  lemma NoStepsYet(r: Race, es: seq<Event>, id: ThreadId)
    requires IsSafeUpTo(r, es, |es|)
    ensures IsSafeUpTo(r, es + Steps(id, 0), |es| + 0) && At(r, es + Steps(id, 0), |es| + 0) == At(r, es, |es|)
  {
    hide IsSafeStep, IsRun, At;
    assert es + Steps(id, 0) == es;
  }

  /** Up to its plan a call changes nothing. */
  lemma PlanningRun(r: Race, id: ThreadId, call: Call, w: Write)
    requires WellKeyed(r.store) && IsFresh(r, id) && !call.command.CreateQuote? && Prepared(r.store, call) == Ok(w)
    ensures IsSafeUpTo(r, Planning(id, call), 3) && IsWriteOf(call.command, w) && !w.Insert?
    ensures Target(w) in r.store.versions
    ensures w.Rewrite? ==> GetVersion(r.store, w.quoteId, w.base.number) == Some(w.base)
    ensures var prior := PriorFor(r.store, call.command, Lookup(r.store, call.command));
            At(r, Planning(id, call), 3) == r.(threads := r.threads[id := Writing(call, prior, w)])
  {
    hide IsSafeUpTo, At, Plan, Lookup, PriorFor, IsWriteOf, GetVersion;
    var c := call.command;
    var found := Lookup(r.store, c);
    var prior := PriorFor(r.store, c, found);
    PlanFindsTarget(r.store, c, prior, call.facts, call.now);
    LookupHasNumber(r.store, c);
    SafeOne(r, Begin(id, call));
    NoStepsYet(r, [Begin(id, call)], id);
    var x0 := r.(threads := r.threads[id := Entered(call)]);
    assert Step(r, Begin(id, call)) == x0;
    OneMoreSafeStep(r, [Begin(id, call)], id, 0);
    var x1 := r.(threads := r.threads[id := Reading(call, found)]);
    assert x0.threads[id := Reading(call, found)] == x1.threads;
    assert Step(x0, Go(id)) == x1;
    OneMoreSafeStep(r, [Begin(id, call)], id, 1);
    assert x1.threads[id := Writing(call, prior, w)] == r.threads[id := Writing(call, prior, w)];
  }

  lemma WritingAhead(s: Store, th: Thread)
    requires NoEmptyHistory(s) && IsShaped(th) && th.Writing?
    ensures var w, n := th.write, WritingSteps(s, th.write);
            && Ahead(s, th, n) == (Completed(PutVersion(s, w), w), Over(Ok(Written(w))))
            && Ahead(s, th, n - 1).1.On? && Ahead(s, th, 1) == (PutVersion(s, w), On(Placed(th.call, w)))
  {
    hide PutVersion, IsWriteOf, MirrorInto, DecisionKey, Logged, Ahead;
    var w, t := th.write, PutVersion(s, th.write);
    NoneAhead(s, th);
    OneAhead(s, th, 0, s, th);
    OneAhead(s, th, 1, t, Placed(th.call, w));
    if IsMirrored(t, w) {
      OneAhead(s, th, 2, t, Copied(th.call, w, t.quotes[Target(w)]));
      if RecordOf(w).Some? {
        OneAhead(s, th, 3, t.(quotes := t.quotes[Target(w) := MirrorInto(t.quotes[Target(w)], w)]),
                 Logging(th.call, w));
      }
    } else if RecordOf(w).Some? {
      OneAhead(s, th, 2, t, Logging(th.call, w));
    }
  }

  /** No step after the put decides on anything. */
  lemma PlacedStays(s: Store, th: Thread, n: nat)
    requires NoEmptyHistory(s) && IsShaped(th) && th.Writing? && n > 0
    ensures var p := Ahead(s, th, n).1; p.On? ==> p.thread.Placed? || p.thread.Copied? || p.thread.Logging?
  {
    hide PutVersion, IsWriteOf, IsMirrored, MirrorInto, DecisionKey, Logged;
    if n > 1 {
      PlacedStays(s, th, n - 1);
    } else {
      NoneAhead(s, th);
    }
  }

  lemma MovedThread(r: Race, id: ThreadId, ahead: (Store, Progress))
    ensures ahead.1.On? ==> id in Moved(r, id, ahead).threads && Moved(r, id, ahead).threads[id] == ahead.1.thread
    ensures ahead.1.Over? ==> id !in Moved(r, id, ahead).threads
    ensures Moved(r, id, ahead).store == ahead.0
  {
  }

  lemma StepsPrefix(r: Race, id: ThreadId, k: nat, n: nat)
    requires k <= n
    ensures At(r, Steps(id, n), k) == At(r, Steps(id, k), k)
  {
    hide At;
    assert Steps(id, n) == Steps(id, k) + Steps(id, n - k);
    AtPrefix(r, Steps(id, k), Steps(id, n - k), k);
  }

  lemma EarlierAreOn(s: Store, th: Thread, n: nat, m: nat)
    requires NoEmptyHistory(s) && IsShaped(th) && Ahead(s, th, n).1.On? && m <= n
    ensures Ahead(s, th, m).1.On?
  {
    hide Effect, Onward, IsShaped;
    if m < n {
      EarlierIsOn(s, th, n);
      EarlierAreOn(s, th, n - 1, m);
    }
  }

  /** A thread writes, with the others waiting: the put, the mirror as the store is then, and the record. */
  lemma WritingRun(r: Race, id: ThreadId)
    requires NoEmptyHistory(r.store) && id in r.threads && IsShaped(r.threads[id]) && r.threads[id].Writing?
    ensures var w, n := r.threads[id].write, WritingSteps(r.store, r.threads[id].write);
            && IsRun(r, Steps(id, n))
            && At(r, Steps(id, n), n)
               == Race(Completed(PutVersion(r.store, w), w), r.threads - {id}, r.answers[id := Ok(Written(w))])
            && (IsSafe(r.store, w) ==> IsSafeUpTo(r, Steps(id, n), n))
  {
    hide At, IsRun, IsShaped, PutVersion, Completed, IsSafe, IsMirrored, Ahead, Enabled;
    var th := r.threads[id];
    var n := WritingSteps(r.store, th.write);
    WritingAhead(r.store, th);
    StepsAlone(r, id, n);
    forall k | 0 <= k < n
      ensures IsSafe(r.store, th.write) ==> IsSafeStep(At(r, Steps(id, n), k), Steps(id, n)[k])
    {
      StepsPrefix(r, id, k, n);
      if k == 0 {
        AtStart(r, Steps(id, 0));
      } else {
        EarlierAreOn(r.store, th, n - 1, k);
        EarlierAreOn(r.store, th, n - 1, k - 1);
        StepsAlone(r, id, k);
        MovedThread(r, id, Ahead(r.store, th, k));
        PlacedStays(r.store, th, k);
      }
    }
  }

  /** Whole calls, planned earlier, write over stores in which nothing else is on its way. */
  lemma CommitRun(r: Race, id: ThreadId)
    requires WellKeyed(r.store) && id in r.threads && IsShaped(r.threads[id]) && r.threads[id].Writing?
    requires Target(r.threads[id].write) in r.store.versions
    requires r.threads[id].write.Rewrite? ==>
               GetVersion(r.store, r.threads[id].write.quoteId, r.threads[id].write.base.number).Some?
    ensures var w, n := r.threads[id].write, WritingSteps(r.store, r.threads[id].write);
            && IsRun(r, Steps(id, n)) && WellKeyed(Commit(r.store, w))
            && At(r, Steps(id, n), n) == Race(Commit(r.store, w), r.threads - {id}, r.answers[id := Ok(Written(w))])
            && (IsSafe(r.store, w) ==> IsSafeUpTo(r, Steps(id, n), n))
  {
    hide At, IsRun, PutVersion, Completed, IsSafe, Commit, GetVersion, WritingSteps, IsSafeUpTo;
    WritingRun(r, id);
    CommitIsCompleted(r.store, r.threads[id].write);
    CommitKeepsKeys(r.store, r.threads[id].write);
  }

  lemma FoundStays(s: Store, w: Write, q: string, number: int)
    requires WellKeyed(s) && !w.Insert? && (w.Rewrite? ==> w.updated.number == w.base.number)
    requires Target(w) in s.versions && (w.Rewrite? ==> GetVersion(s, w.quoteId, w.base.number).Some?)
    ensures q in s.versions ==> q in Commit(s, w).versions
    ensures GetVersion(s, q, number).Some? ==> GetVersion(Commit(s, w), q, number).Some?
    ensures StatusOf(s, q, number).Some? ==>
              StatusOf(Commit(s, w), q, number) ==
              if Covers(w, q, number) then Some(w.updated.status) else StatusOf(s, q, number)
  {
    hide IndexOf, Commit, DecisionKey, Logged, MirrorInto, IsMirrored;
    CommitIsCompleted(s, w);
    if StatusOf(s, q, number).Some? {
      PutStatus(s, w, q, number);
    }
  }

  // ---------------------------------------------------------------- two calls at once

  /** Both calls look; then the one writes, and after it the other. */
  function BothAtOnce(s: Store, a: Call, b: Call, wa: Write, wb: Write): seq<Event>
    requires WellKeyed(s)
  {
    Planning(0, a) + Planning(1, b) + Steps(0, WritingSteps(s, wa)) + Steps(1, WritingSteps(Commit(s, wa), wb))
  }

  lemma BothPlan(s: Store, a: Call, b: Call, wa: Write, wb: Write)
    requires WellKeyed(s) && Prepared(s, a) == Ok(wa) && Prepared(s, b) == Ok(wb)
    requires !a.command.CreateQuote? && !b.command.CreateQuote?
    ensures var es := Planning(0, a) + Planning(1, b);
            var pa, pb := PriorFor(s, a.command, Lookup(s, a.command)), PriorFor(s, b.command, Lookup(s, b.command));
            && IsSafeUpTo(Idle(s), es, |es|)
            && At(Idle(s), es, |es|) == Race(s, map[0 := Writing(a, pa, wa), 1 := Writing(b, pb, wb)], map[])
    ensures IsWriteOf(a.command, wa) && !wa.Insert? && IsWriteOf(b.command, wb) && !wb.Insert?
    ensures Target(wa) in s.versions && Target(wb) in s.versions
    ensures wa.Rewrite? ==> GetVersion(s, wa.quoteId, wa.base.number) == Some(wa.base)
    ensures wb.Rewrite? ==> GetVersion(s, wb.quoteId, wb.base.number) == Some(wb.base)
  {
    hide At, IsSafeUpTo, Prepare, Lookup, PriorFor, IsWriteOf, GetVersion;
    var r := Idle(s);
    PlanningRun(r, 0, a, wa);
    var x := At(r, Planning(0, a), 3);
    PlanningRun(x, 1, b, wb);
    SafeRunsCompose(r, Planning(0, a), Planning(1, b));
  }

  lemma NumbersStay(c: Command, w: Write)
    requires IsWriteOf(c, w) && w.Rewrite?
    ensures w.updated.number == w.base.number == c.version && w.quoteId == c.quoteId
  {
  }

  lemma SafeIsRun(r: Race, es: seq<Event>)
    requires IsSafeUpTo(r, es, |es|)
    ensures IsRun(r, es)
  {
    hide IsRun, At, IsSafeStep;
  }

  lemma TwoCalls(s: Store, a: Call, b: Call, wa: Write, wb: Write)
    requires WellKeyed(s) && Prepared(s, a) == Ok(wa) && Prepared(s, b) == Ok(wb)
    requires !a.command.CreateQuote? && !b.command.CreateQuote?
    ensures var es := BothAtOnce(s, a, b, wa, wb);
            && WellKeyed(Commit(s, wa)) && IsRun(Idle(s), es)
            && At(Idle(s), es, |es|)
               == Race(Commit(Commit(s, wa), wb), map[], map[0 := Ok(Written(wa)), 1 := Ok(Written(wb))])
            && (IsSafe(s, wa) && IsSafe(Commit(s, wa), wb) ==> IsSafeUpTo(Idle(s), es, |es|))
    ensures var es, k := BothAtOnce(s, a, b, wa, wb), 6 + WritingSteps(s, wa);
            var pb := PriorFor(s, b.command, Lookup(s, b.command));
            && k < |es| && es[k] == Go(1)
            && At(Idle(s), es, k) == Race(Commit(s, wa), map[1 := Writing(b, pb, wb)], map[0 := Ok(Written(wa))])
  {
    hide At, IsSafeUpTo, IsRun, Prepare, Lookup, PriorFor, IsWriteOf, GetVersion, Commit, WritingSteps, IsSafe,
      WellKeyed;
    var r, fs := Idle(s), Planning(0, a) + Planning(1, b);
    BothPlan(s, a, b, wa, wb);
    var x := At(r, fs, |fs|);
    if wa.Rewrite? {
      NumbersStay(a.command, wa);
    }
    if wb.Rewrite? {
      NumbersStay(b.command, wb);
      FoundStays(s, wa, wb.quoteId, wb.base.number);
    }
    FoundStays(s, wa, Target(wb), 0);
    CommitRun(x, 0);
    var gs := Steps(0, WritingSteps(s, wa));
    var y := At(x, gs, |gs|);
    assert x.threads - {0} == y.threads;
    CommitRun(y, 1);
    var hs := Steps(1, WritingSteps(Commit(s, wa), wb));
    assert y.threads - {1} == map[];
    SafeIsRun(r, fs);
    RunsCompose(r, fs, gs);
    RunsCompose(r, fs + gs, hs);
    AtPrefix(r, fs + gs, hs, |fs + gs|);
    if IsSafe(s, wa) && IsSafe(Commit(s, wa), wb) {
      SafeRunsCompose(r, fs, gs);
      SafeRunsCompose(r, fs + gs, hs);
    }
  }

  // ---------------------------------------------------------------- superseding, deciding, composing

  lemma SharedNumberIsBad(t: Store, q: string, k: nat)
    requires q in t.versions && k + 1 < |t.versions[q]| && t.versions[q][k].number == t.versions[q][k + 1].number
    ensures !GoodHistories(t)
  {
    hide Frozen;
    assert !VersionInv(q, t.versions[q], k) || !VersionInv(q, t.versions[q], k + 1);
  }

  /** Two supersedes of the same version are both told so: two versions share a number. */
  lemma TwoSupersedesBothSucceed(s: Store, a: Call, b: Call, wa: Write, wb: Write)
    requires Inv(s) && WellKeyed(s) && Prepared(s, a) == Ok(wa) && Prepared(s, b) == Ok(wb)
    requires a.command.CreateNextVersion? && b.command.CreateNextVersion? && a.command.quoteId == b.command.quoteId
    ensures var q, r, es := a.command.quoteId, Idle(s), BothAtOnce(s, a, b, wa, wb);
            var x := At(r, es, |es|);
            && IsRun(r, es) && x.threads == map[] && a.command.expectedLatest == b.command.expectedLatest
            && wa.Append? && wb.Append? && wa.draft.number == wb.draft.number
            && x.answers == map[0 := Ok(wa.draft), 1 := Ok(wb.draft)]
            && q in s.versions && q in x.store.versions && x.store.versions[q] == s.versions[q] + [wa.draft, wb.draft]
            && !GoodHistories(x.store)
  {
    hide Prepare, Inv, NextDraft, At, IsRun, IsSafeUpTo, WritingSteps, GoodHistories, Lookup;
    var q := a.command.quoteId;
    TwoCalls(s, a, b, wa, wb);
    SupersedesLatest(s, s, a.command, a.facts, a.now);
    SupersedesLatest(s, s, b.command, b.facts, b.now);
    var t := Commit(Commit(s, wa), wb);
    assert t.versions[q] == s.versions[q] + [wa.draft, wb.draft];
    SharedNumberIsBad(t, q, |s.versions[q]|);
  }

  lemma WholeIsCommit(s: Store, a: Call)
    requires WellKeyed(s) && Prepared(s, a).Ok?
    ensures After(s, a.command, a.facts, a.now) == Commit(s, Prepared(s, a).value)
  {
    hide Prepare, Commit;
  }

  lemma StatusIsStored(t: Store, q: string, number: int)
    requires GetVersion(t, q, number).Some?
    ensures StatusOf(t, q, number) == Some(GetVersion(t, q, number).value.status)
  {
    hide GetVersion;
  }

  /** Two decisions on one version are both logged, and the second one's status replaces the first's. */
  lemma TwoDecisionsAreBothLogged(s: Store, a: Call, b: Call, wa: Write, wb: Write)
    requires Inv(s) && WellKeyed(s) && Prepared(s, a) == Ok(wa) && Prepared(s, b) == Ok(wb)
    requires a.command.Decide? && b.command.Decide?
    requires a.command.quoteId == b.command.quoteId && a.command.version == b.command.version
    ensures var q, n, r, es := a.command.quoteId, a.command.version, Idle(s), BothAtOnce(s, a, b, wa, wb);
            var x := At(r, es, |es|);
            && IsRun(r, es) && x.threads == map[] && x.answers == map[0 := Ok(Written(wa)), 1 := Ok(Written(wb))]
            && StatusOf(x.store, q, n) == Some(b.command.decision)
            && DecisionKey(q, n) in x.store.decisions && |x.store.decisions[DecisionKey(q, n)]| == 2
            && !Inv(x.store)
  {
    hide Prepare, Inv, Commit, At, IsRun, WellKeyed, DecisionKey, StatusOf, GetVersion, Fits, VersionIn, SameIdentity,
      StoreEvolves, IsSafeUpTo, WritingSteps, Lookup;
    var q, n := a.command.quoteId, a.command.version;
    var t := Commit(s, wa);
    TwoCalls(s, a, b, wa, wb);
    PreparedRewriteIs(s, s, a.command, a.facts, a.now);
    PreparedRewriteIs(s, s, b.command, b.facts, b.now);
    RevisionIsStored(s, a.command, a.facts, a.now);
    WholeIsCommit(s, a);
    FoundIsFrozenInv(s, q, n, ApprovalRequired);
    FoundIsFrozenInv(s, q, n, Asked(b.command));
    SameNumber(wa.base, wa.updated);
    SameNumber(wb.base, wb.updated);
    RewriteShape(s, wa);
    RewriteShape(t, wb);
    TwoRecordsAreBad(t, Commit(t, wb), q, n, wb.record.value);
    StatusIsStored(t, q, n);
    FoundStays(t, wb, q, n);
  }

  /** Of two writes over one version that log nothing, only the second is left. */
  lemma LastWriteWins(s: Store, w: Write, x: Write)
    requires Inv(s) && WellKeyed(s) && w.Rewrite? && x.Rewrite? && w.record.None? && x.record.None?
    requires w.quoteId == x.quoteId && w.base == x.base && w.quoteId in s.versions
    requires 1 <= w.base.number <= |s.versions[w.quoteId]|
    requires w.base.number == w.updated.number == x.updated.number
    requires Inv(Commit(s, w)) && WellKeyed(Commit(s, w))
    ensures Commit(Commit(s, w), x) == Commit(s, x)
  {
    hide Inv, Commit, WellKeyed;
    var t, q, k := Commit(s, w), w.quoteId, w.base.number - 1;
    RewriteShape(s, w);
    RewriteShape(s, x);
    RewriteShape(t, x);
    assert t.versions[q][k := x.updated] == s.versions[q][k := x.updated];
    assert Commit(t, x).versions == Commit(s, x).versions;
    assert Commit(t, x).quotes == Commit(s, x).quotes;
  }

  /** A price is disturbed by other inputs. */
  lemma ComposedAnewDisturbs(r: Race, b: Call, wb: Write, current: Version)
    requires Enabled(r, Go(1)) && r.threads[1].Writing? && r.threads[1].call == b
    requires r.threads[1].write == wb && b.command.Price? && wb.Rewrite?
    requires GetVersion(r.store, wb.quoteId, wb.base.number) == Some(current) && current.inputs != wb.updated.inputs
    ensures !IsUndisturbed(r, Go(1))
  {
    hide GetVersion, PriorRate, IsShaped;
  }

  /**
   A draft is composed anew while it is being priced: both calls succeed, both puts are safe, and the
   store ends as if the composition had never been made -- priced on the inputs it replaced.
   */
  lemma CompositionIsLost(s: Store, a: Call, b: Call, wa: Write, wb: Write)
    requires Inv(s) && WellKeyed(s) && Prepared(s, a) == Ok(wa) && Prepared(s, b) == Ok(wb)
    requires (a.command.ComposePricingInputs? || a.command.ComposeRecommendation?) && b.command.Price?
    requires a.command.quoteId == b.command.quoteId && a.command.version == b.command.version
    ensures var q, n, es := a.command.quoteId, a.command.version, BothAtOnce(s, a, b, wa, wb);
            var x := At(Idle(s), es, |es|);
            && IsSafeUpTo(Idle(s), es, |es|) && Inv(x.store) && x.threads == map[]
            && x.answers == map[0 := Ok(Written(wa)), 1 := Ok(Written(wb))]
            && x.store == After(s, b.command, b.facts, b.now)
            && GetVersion(x.store, q, n) == Some(Written(wb))
            && GetVersion(s, q, n).Some? && Written(wb).inputs == GetVersion(s, q, n).value.inputs
            && (Written(wa).inputs != GetVersion(s, q, n).value.inputs ==> !IsUndisturbedUpTo(Idle(s), es, |es|))
  {
    hide Prepare, Inv, Commit, At, IsRun, WellKeyed, GetVersion, VersionIn, SameIdentity, StoreEvolves, PriceRead,
      PriorRate, WritingSteps, Lookup, PriorFor, IsSafeUpTo;
    var q, n, es, r := a.command.quoteId, a.command.version, BothAtOnce(s, a, b, wa, wb), Idle(s);
    TwoCalls(s, a, b, wa, wb);
    PreparedRewriteIs(s, s, a.command, a.facts, a.now);
    PreparedRewriteIs(s, s, b.command, b.facts, b.now);
    SameNumber(wa.base, wa.updated);
    SameNumber(wb.base, wb.updated);
    FoundIsFrozenInv(s, q, n, Draft);
    VersionAtInv(s, q, n);
    RevisionIsStored(s, a.command, a.facts, a.now);
    RevisionIsStored(s, b.command, b.facts, b.now);
    WholeIsCommit(s, a);
    WholeIsCommit(s, b);
    LastWriteWins(s, wa, wb);
    if wa.updated.inputs != wb.updated.inputs {
      var k := 6 + WritingSteps(s, wa);
      AtNext(r, es, k);
      ComposedAnewDisturbs(At(r, es, k), b, wb, wa.updated);
      assert !IsUndisturbed(At(r, es, k), es[k]);
    }
  }

  // ---------------------------------------------------------------- a decision taken back

  /** A whole call of one thread, with the others waiting. */
  function Whole(id: ThreadId, call: Call, s: Store, w: Write): seq<Event> {
    Planning(id, call) + Steps(id, WritingSteps(s, w))
  }

  lemma WholeRun(r: Race, id: ThreadId, call: Call, w: Write)
    requires WellKeyed(r.store) && IsFresh(r, id) && !call.command.CreateQuote? && Prepared(r.store, call) == Ok(w)
    ensures var es := Whole(id, call, r.store, w);
            && IsRun(r, es) && WellKeyed(Commit(r.store, w))
            && At(r, es, |es|) == Race(Commit(r.store, w), r.threads, r.answers[id := Ok(Written(w))])
            && (IsSafe(r.store, w) ==> IsSafeUpTo(r, es, |es|))
  {
    hide At, IsSafeUpTo, IsRun, Prepare, Lookup, PriorFor, IsWriteOf, GetVersion, Commit, WritingSteps, IsSafe,
      WellKeyed;
    PlanningRun(r, id, call, w);
    var x := At(r, Planning(id, call), 3);
    CommitRun(x, id);
    assert x.threads - {id} == r.threads;
    SafeIsRun(r, Planning(id, call));
    RunsCompose(r, Planning(id, call), Steps(id, WritingSteps(r.store, w)));
    if IsSafe(r.store, w) {
      SafeRunsCompose(r, Planning(id, call), Steps(id, WritingSteps(r.store, w)));
    }
  }

  lemma MovePrepares(s: Store, move: Call)
    requires WellKeyed(s) && (move.command.Submit? || move.command.Decide?)
    requires StatusOf(s, move.command.quoteId, move.command.version) == Some(Asked(move.command))
    ensures Prepared(s, move).Ok?
    ensures Prepared(s, move).value.updated.status
            == if move.command.Submit? then ApprovalRequired else move.command.decision
  {
    hide GetVersion;
  }

  /** The stores along the way. */
  lemma PricedSubmittedDecided(s: Store, price: Call, submit: Call, decide: Call)
    requires Inv(s) && WellKeyed(s) && Prepared(s, price).Ok?
    requires price.command.Price? && submit.command.Submit? && decide.command.Decide?
    requires price.command.quoteId == submit.command.quoteId == decide.command.quoteId
    requires price.command.version == submit.command.version == decide.command.version
    ensures var s1 := After(s, price.command, price.facts, price.now);
            && Inv(s1) && WellKeyed(s1) && Prepared(s1, submit).Ok?
            && var s2 := After(s1, submit.command, submit.facts, submit.now);
               && Inv(s2) && WellKeyed(s2) && Prepared(s2, decide).Ok?
               && var s3 := After(s2, decide.command, decide.facts, decide.now);
                  && Inv(s3) && WellKeyed(s3)
                  && StatusOf(s3, price.command.quoteId, price.command.version) == Some(decide.command.decision)
  {
    hide After, Inv, WellKeyed, GetVersion, VersionIn, Prepare, SameIdentity, PriceRead;
    var q, n := price.command.quoteId, price.command.version;
    var s1 := After(s, price.command, price.facts, price.now);
    RevisionIsStored(s, price.command, price.facts, price.now);
    PreparedRewriteIs(s, s, price.command, price.facts, price.now);
    MovePrepares(s1, submit);
    var s2 := After(s1, submit.command, submit.facts, submit.now);
    RevisionIsStored(s1, submit.command, submit.facts, submit.now);
    MovePrepares(s2, decide);
    RevisionIsStored(s2, decide.command, decide.facts, decide.now);
  }

  lemma FoundInRange(t: Store, q: string, number: int)
    requires Inv(t) && GetVersion(t, q, number).Some?
    ensures q in t.versions && 1 <= number <= |t.versions[q]|
    ensures GetVersion(t, q, number) == Some(t.versions[q][number - 1])
  {
    hide Histories, LogInv, IdsInv, GetVersion;
    VersionAt(t, q, number);
  }

  /** A record in the log whose version is not decided any more. */
  lemma DecisionWithoutStatusIsBad(t: Store, u: Store, q: string, number: int)
    requires Inv(t) && q in t.versions && 1 <= number <= |t.versions[q]| && IsDecided(t.versions[q][number - 1].status)
    requires u.decisions == t.decisions && q in u.versions && number <= |u.versions[q]|
    requires !IsDecided(u.versions[q][number - 1].status)
    ensures !Inv(u)
  {
    hide Histories, IdsInv, DecisionKey;
    assert LogMatches(t, q, number);
    assert !LogMatches(u, q, number);
  }

  /** A price prepared before a decision takes that decision back when it is written. */
  lemma LatePriceUndoes(s: Store, t: Store, price: Call, w: Write)
    requires WellKeyed(s) && Inv(t) && WellKeyed(t) && price.command.Price? && Prepared(s, price) == Ok(w)
    requires IsDecidedIn(t, price.command.quoteId, price.command.version) && Inv(s)
    ensures w.Rewrite? && w.updated.status == Priced && Covers(w, price.command.quoteId, price.command.version)
    ensures !IsSafe(t, w) && GetVersion(t, w.quoteId, w.base.number).Some? && w.quoteId in t.versions
    ensures StatusOf(Commit(t, w), price.command.quoteId, price.command.version) == Some(Priced)
    ensures !Inv(Commit(t, w))
  {
    hide Prepare, WellKeyed, Commit, Inv, GetVersion, VersionIn, PriceRead, SameIdentity, LogMatches;
    var c := price.command;
    PreparedRewriteIs(s, s, c, price.facts, price.now);
    FoundIsFrozenInv(s, c.quoteId, c.version, Draft);
    FoundInRange(t, c.quoteId, c.version);
    SameNumber(w.base, w.updated);
    FoundStays(t, w, c.quoteId, c.version);
    RewriteShape(t, w);
    DecisionWithoutStatusIsBad(t, Commit(t, w), c.quoteId, c.version);
  }

  /** One pricing call plans; another prices the version, it is submitted, somebody decides. */
  function Overtaking(s: Store, price: Call, submit: Call, decide: Call, w: Write, x: Write, y: Write): seq<Event>
    requires WellKeyed(s) && WellKeyed(Commit(s, w))
  {
    Planning(0, price) + Whole(1, price, s, w) + Whole(2, submit, Commit(s, w), x)
    + Whole(3, decide, Commit(Commit(s, w), x), y)
  }

  lemma OvertakingRun(s: Store, price: Call, submit: Call, decide: Call, w: Write, x: Write, y: Write)
    requires WellKeyed(s) && Prepared(s, price) == Ok(w)
    requires price.command.Price? && submit.command.Submit? && decide.command.Decide?
    requires WellKeyed(Commit(s, w)) && Prepared(Commit(s, w), submit) == Ok(x)
    requires WellKeyed(Commit(Commit(s, w), x)) && Prepared(Commit(Commit(s, w), x), decide) == Ok(y)
    ensures var es := Overtaking(s, price, submit, decide, w, x, y);
            var prior := PriorFor(s, price.command, Lookup(s, price.command));
            && IsRun(Idle(s), es)
            && At(Idle(s), es, |es|)
               == Race(Commit(Commit(Commit(s, w), x), y), map[0 := Writing(price, prior, w)],
                       map[1 := Ok(Written(w)), 2 := Ok(Written(x)), 3 := Ok(Written(y))])
  {
    hide At, IsSafeUpTo, IsRun, Prepare, Lookup, PriorFor, IsWriteOf, GetVersion, Commit, WellKeyed, Whole;
    var r := Idle(s);
    PlanningRun(r, 0, price, w);
    SafeIsRun(r, Planning(0, price));
    var x0 := At(r, Planning(0, price), 3);
    WholeRun(x0, 1, price, w);
    var e1 := Whole(1, price, s, w);
    var x1 := At(x0, e1, |e1|);
    RunsCompose(r, Planning(0, price), e1);
    WholeRun(x1, 2, submit, x);
    var e2 := Whole(2, submit, Commit(s, w), x);
    var x2 := At(x1, e2, |e2|);
    RunsCompose(r, Planning(0, price) + e1, e2);
    WholeRun(x2, 3, decide, y);
    RunsCompose(r, Planning(0, price) + e1 + e2, Whole(3, decide, Commit(Commit(s, w), x), y));
  }

  lemma SomeSteps(s: Store, w: Write)
    ensures WritingSteps(s, w) > 0
  {
  }

  /**
   From every state in which a version can be priced such a run exists, and then the first call writes: the
   version is priced again, while the log still holds the decision.
   */
  lemma DecisionCanOvertakePricing(s: Store, price: Call, submit: Call, decide: Call) returns (es: seq<Event>, k: nat)
    requires Inv(s) && WellKeyed(s) && Prepared(s, price).Ok?
    requires price.command.Price? && submit.command.Submit? && decide.command.Decide?
    requires price.command.quoteId == submit.command.quoteId == decide.command.quoteId
    requires price.command.version == submit.command.version == decide.command.version
    ensures var q, n, r := price.command.quoteId, price.command.version, Idle(s);
            && IsRun(r, es) && k < |es| && At(r, es, |es|).threads == map[]
            && StatusOf(At(r, es, k).store, q, n) == Some(decide.command.decision)
            && StatusOf(At(r, es, |es|).store, q, n) == Some(Priced)
            && WritesOver(At(r, es, k), es[k], q, n, decide.command.decision) && !IsSafeStep(At(r, es, k), es[k])
            && Inv(At(r, es, k).store) && !Inv(At(r, es, |es|).store)
  {
    hide After, Inv, WellKeyed, Prepare, StatusOf, StoreEvolves, Commit, At, IsRun, WritingSteps, GetVersion, IsSafe,
      Overtaking, PriorFor, Lookup;
    var r, w := Idle(s), Prepared(s, price).value;
    PricedSubmittedDecided(s, price, submit, decide);
    WholeIsCommit(s, price);
    var x := Prepared(Commit(s, w), submit).value;
    WholeIsCommit(Commit(s, w), submit);
    var y := Prepared(Commit(Commit(s, w), x), decide).value;
    WholeIsCommit(Commit(Commit(s, w), x), decide);
    OvertakingRun(s, price, submit, decide, w, x, y);
    var fs := Overtaking(s, price, submit, decide, w, x, y);
    k := |fs|;
    var z := At(r, fs, k);
    LatePriceUndoes(s, z.store, price, w);
    PlanningRun(r, 0, price, w);
    CommitRun(z, 0);
    var gs := Steps(0, WritingSteps(z.store, w));
    es := fs + gs;
    RunsCompose(r, fs, gs);
    AtPrefix(r, fs, gs, k);
    assert z.threads - {0} == map[];
    SomeSteps(z.store, w);
    AtNext(r, es, k);
  }

  // ---------------------------------------------------------------- an overtaken mirror

  /** The first call puts its version and copies the quote; the second is made as a whole; the first mirrors. */
  function OvertakenMirror(s: Store, first: Call, second: Call, w: Write, x: Write): seq<Event> {
    Planning(0, first) + Steps(0, 2) + Whole(1, second, PutVersion(s, w), x) + Steps(0, 1)
  }

  lemma NoSteps(r: Race, id: ThreadId)
    ensures IsSafeUpTo(r, [], 0) && [] + Steps(id, 0) == [] && At(r, [], 0) == r
  {
  }

  /** The put of the last version, and the copy. */
  lemma CopyingRun(r: Race, id: ThreadId, quote: Quote)
    requires NoEmptyHistory(r.store) && id in r.threads && IsShaped(r.threads[id]) && r.threads[id].Writing?
    requires IsSafe(r.store, r.threads[id].write)
    requires var w, t := r.threads[id].write, PutVersion(r.store, r.threads[id].write);
             IsMirrored(t, w) && quote == t.quotes[Target(w)]
    ensures var th := r.threads[id];
            && IsSafeUpTo(r, Steps(id, 2), 2)
            && At(r, Steps(id, 2), 2) == Race(PutVersion(r.store, th.write),
                                              r.threads[id := Copied(th.call, th.write, quote)], r.answers)
  {
    hide At, IsSafeUpTo, PutVersion, IsMirrored, IsSafe, IsWriteOf;
    var th := r.threads[id];
    NoSteps(r, id);
    OneMoreSafeStep(r, [], id, 0);
    var x := Race(PutVersion(r.store, th.write), r.threads[id := Placed(th.call, th.write)], r.answers);
    assert [] + Steps(id, 0) == Steps(id, 0) && [] + Steps(id, 1) == Steps(id, 1) && [] + Steps(id, 2) == Steps(id, 2);
    EffectKeepsHistories(r.store, th);
    OneMoreSafeStep(r, [], id, 1);
    assert x.threads[id := Copied(th.call, th.write, quote)] == r.threads[id := Copied(th.call, th.write, quote)];
  }

  lemma MirroringRun(r: Race, id: ThreadId)
    requires NoEmptyHistory(r.store) && id in r.threads && IsShaped(r.threads[id]) && r.threads[id].Copied?
    requires RecordOf(r.threads[id].write).None?
    ensures var th := r.threads[id];
            && IsSafeUpTo(r, Steps(id, 1), 1)
            && At(r, Steps(id, 1), 1)
               == Race(r.store.(quotes := r.store.quotes[Target(th.write) := MirrorInto(th.quote, th.write)]),
                       r.threads - {id}, r.answers[id := Ok(Written(th.write))])
  {
    hide At, IsSafeUpTo, MirrorInto, IsWriteOf;
    SafeOne(r, Go(id));
    assert Steps(id, 1) == [Go(id)];
  }

  lemma PlannedIsSafe(s: Store, c: Command, w: Write)
    requires w.Rewrite? && GetVersion(s, w.quoteId, w.base.number) == Some(w.base)
    ensures IsSafe(s, w)
  {
    hide GetVersion;
  }

  /**
   Whatever whole call is made between a call's copying the quote and its writing the copy back, and safe
   as all the puts may be, the quote ends up saying what the first call says.
   */
  lemma OvertakenMirrorRun(s: Store, first: Call, second: Call, w: Write, x: Write)
    requires WellKeyed(s) && Prepared(s, first) == Ok(w) && w.Rewrite? && RecordOf(w).None?
    requires !first.command.CreateQuote?
    requires WellKeyed(PutVersion(s, w)) && IsMirrored(PutVersion(s, w), w)
    requires Prepared(PutVersion(s, w), second) == Ok(x) && !second.command.CreateQuote? && IsSafe(PutVersion(s, w), x)
    ensures var es, t := OvertakenMirror(s, first, second, w, x), Commit(PutVersion(s, w), x);
            && IsSafeUpTo(Idle(s), es, |es|) && w.quoteId in s.quotes
            && At(Idle(s), es, |es|)
               == Race(t.(quotes := t.quotes[w.quoteId := MirrorInto(s.quotes[w.quoteId], w)]), map[],
                       map[0 := Ok(Written(w)), 1 := Ok(Written(x))])
  {
    hide At, IsSafeUpTo, IsRun, Prepare, Lookup, PriorFor, IsWriteOf, GetVersion, Commit, WellKeyed, WritingSteps,
      IsSafe, MirrorInto;
    var r, s1 := Idle(s), PutVersion(s, w);
    PlanningRun(r, 0, first, w);
    PlannedIsSafe(s, first.command, w);
    var x0 := At(r, Planning(0, first), 3);
    NoneIsEmpty(s);
    CopyingRun(x0, 0, s1.quotes[w.quoteId]);
    SafeRunsCompose(r, Planning(0, first), Steps(0, 2));
    var x1 := At(x0, Steps(0, 2), 2);
    var e2 := Whole(1, second, s1, x);
    WholeRun(x1, 1, second, x);
    SafeRunsCompose(r, Planning(0, first) + Steps(0, 2), e2);
    var x2 := At(x1, e2, |e2|);
    NoneIsEmpty(x2.store);
    MirroringRun(x2, 0);
    SafeRunsCompose(r, Planning(0, first) + Steps(0, 2) + e2, Steps(0, 1));
    assert x2.threads - {0} == map[];
  }

  lemma PositionOfLast(s: Store, q: string)
    requires Inv(s) && q in s.versions
    ensures IndexOf(s.versions[q], |s.versions[q]|) == Some(|s.versions[q]| - 1)
  {
    hide GetVersion, LogInv, IdsInv;
    VersionAt(s, q, |s.versions[q]|);
  }

  /** What a put of the last version leaves. */
  lemma LastPut(s: Store, w: Write)
    requires Inv(s) && WellKeyed(s) && w.Rewrite? && w.quoteId in s.versions && w.base.number == |s.versions[w.quoteId]|
    requires w.updated.number == w.base.number
    ensures var q, t := w.quoteId, PutVersion(s, w);
            && t == s.(versions := s.versions[q := s.versions[q][|s.versions[q]| - 1 := w.updated]])
            && WellKeyed(t) && IsMirrored(t, w) && GetVersion(t, q, w.base.number) == Some(w.updated)
  {
    hide LogInv, IdsInv, Frozen, IndexOf;
    var q := w.quoteId;
    VersionAtInv(s, q, w.base.number);
    PositionOfLast(s, q);
    RewriteKeepsIndexes(s.versions[q], |s.versions[q]| - 1, w.updated, w.base.number);
  }

  lemma DecisionPlan(t: Store, decide: Call, v: Version)
    requires WellKeyed(t) && decide.command.Decide? && Prepared(t, decide).Ok?
    requires GetVersion(t, decide.command.quoteId, decide.command.version) == Some(v)
    ensures var x := Prepared(t, decide).value;
            && x.Rewrite? && x.quoteId == decide.command.quoteId && x.base == v
            && x.updated == v.(status := decide.command.decision)
  {
    hide GetVersion;
  }

  /** The decision is put at the end of the history, and mirrored; the late mirror says otherwise. */
  lemma DecidedLast(s: Store, t: Store, q: string, w: Write, x: Write)
    requires Inv(s) && WellKeyed(s) && q in s.versions && WellKeyed(t)
    requires w.Rewrite? && w.quoteId == q && w.base.number == |s.versions[q]| == w.updated.number
    requires t == PutVersion(s, w)
    requires t == s.(versions := s.versions[q := s.versions[q][|s.versions[q]| - 1 := w.updated]])
    requires x.Rewrite? && x.quoteId == q && x.base == w.updated && x.updated.number == x.base.number
    requires GetVersion(t, q, x.base.number).Some?
    ensures var u, n := Commit(t, x), |s.versions[q]| - 1;
            && q in u.versions && |u.versions[q]| == n + 1 && u.versions[q][n] == x.updated && q in u.quotes
    ensures var u := Commit(t, x);
            w.updated.status != x.updated.status ==>
              !Inv(u.(quotes := u.quotes[q := MirrorInto(s.quotes[q], w)]))
  {
    hide LogInv, IdsInv, Frozen, IndexOf, DecisionKey, Logged;
    PositionOfLast(s, q);
    RewriteKeepsIndexes(s.versions[q], |s.versions[q]| - 1, w.updated, w.base.number);
    var u := Commit(t, x);
    var z := u.(quotes := u.quotes[q := MirrorInto(s.quotes[q], w)]);
    assert z.versions[q][|s.versions[q]| - 1] == x.updated;
    if Inv(z) {
      GoodMirrors(z, q);
    }
  }

  /**
   From every state in which the last version of a quote is priced: a submit is overtaken by the decision
   before it mirrors.  Every put is safe and both calls succeed, but the quote says that approval is
   required, and a search for the decision does not find it.
   */
  lemma DecisionIsNotMirrored(s: Store, submit: Call, decide: Call) returns (es: seq<Event>)
    requires Inv(s) && WellKeyed(s) && Prepared(s, submit).Ok? && submit.command.Submit? && decide.command.Decide?
    requires submit.command.quoteId == decide.command.quoteId && submit.command.version == decide.command.version
    requires submit.command.quoteId in s.versions
    requires submit.command.version == |s.versions[submit.command.quoteId]|
    ensures var q, r := submit.command.quoteId, Idle(s);
            var x := At(r, es, |es|);
            && IsSafeUpTo(r, es, |es|) && x.threads == map[] && x.answers.Keys == {0, 1}
            && x.answers[0].Ok? && x.answers[1].Ok?
            && q in x.store.versions && x.store.versions[q] != [] && q in x.store.quotes
            && Last(x.store.versions[q]).status == decide.command.decision
            && x.store.quotes[q].latestStatus == ApprovalRequired
            && q !in Search(x.store, None, None, Some(decide.command.decision))
            && !Inv(x.store)
  {
    hide Inv, WellKeyed, Prepare, IsSafeUpTo, At, IsRun, GetVersion, OvertakenMirror, VersionIn, SameIdentity,
      PutVersion, IsMirrored, IsSafe;
    var q, w := submit.command.quoteId, Prepared(s, submit).value;
    PreparedRewriteIs(s, s, submit.command, submit.facts, submit.now);
    SameNumber(w.base, w.updated);
    FoundIsFrozenInv(s, q, submit.command.version, Priced);
    LastPut(s, w);
    var t := PutVersion(s, w);
    StatusIsStored(t, q, w.base.number);
    MovePrepares(t, decide);
    var x := Prepared(t, decide).value;
    DecisionPlan(t, decide, w.updated);
    PlannedIsSafe(t, decide.command, x);
    OvertakenMirrorRun(s, submit, decide, w, x);
    es := OvertakenMirror(s, submit, decide, w, x);
    DecidedLast(s, t, q, w, x);
  }

  lemma AppendPlan(t: Store, supersede: Call)
    requires WellKeyed(t) && supersede.command.CreateNextVersion? && supersede.command.quoteId in t.versions
    requires var vs := t.versions[supersede.command.quoteId];
             supersede.command.priorVersion == supersede.command.expectedLatest == Last(vs).number == |vs|
    ensures Prepared(t, supersede).Ok?
    ensures var x := Prepared(t, supersede).value;
            x.Append? && x.quoteId == supersede.command.quoteId && IsSafe(t, x)
  {
  }

  lemma NumberStaysBehind(s: Store, t: Store, q: string, w: Write, x: Write)
    requires Inv(s) && WellKeyed(s) && q in s.versions && WellKeyed(t) && x.Append? && x.quoteId == q && w.Rewrite?
    requires t == s.(versions := s.versions[q := s.versions[q][|s.versions[q]| - 1 := w.updated]])
    ensures var u := Commit(t, x);
            var z := u.(quotes := u.quotes[q := MirrorInto(s.quotes[q], w)]);
            && q in z.versions && |z.versions[q]| == |s.versions[q]| + 1 && q in z.quotes
            && z.quotes[q].latestVersion == |s.versions[q]| && !Inv(z)
  {
    hide LogInv, IdsInv, Frozen;
    GoodMirrors(s, q);
    var u := Commit(t, x);
    var z := u.(quotes := u.quotes[q := MirrorInto(s.quotes[q], w)]);
    if Inv(z) {
      GoodMirrors(z, q);
    }
  }

  /**
   From every state in which the last version of a quote is a draft: a composition is overtaken by a
   supersede before it mirrors, and the quote goes on saying that there are as many versions as before.
   */
  lemma NewVersionIsNotMirrored(s: Store, compose: Call, supersede: Call) returns (es: seq<Event>)
    requires Inv(s) && WellKeyed(s) && Prepared(s, compose).Ok? && supersede.command.CreateNextVersion?
    requires compose.command.ComposeRecommendation? || compose.command.ComposePricingInputs?
    requires compose.command.quoteId == supersede.command.quoteId && compose.command.quoteId in s.versions
    requires var n := |s.versions[compose.command.quoteId]|;
             compose.command.version == supersede.command.priorVersion == supersede.command.expectedLatest == n
    ensures var q, r := compose.command.quoteId, Idle(s);
            var x := At(r, es, |es|);
            && IsSafeUpTo(r, es, |es|) && x.threads == map[] && x.answers.Keys == {0, 1}
            && x.answers[0].Ok? && x.answers[1].Ok?
            && q in x.store.versions && q in x.store.quotes
            && |x.store.versions[q]| == |s.versions[q]| + 1
            && x.store.quotes[q].latestVersion == |s.versions[q]|
            && !Inv(x.store)
  {
    hide Inv, WellKeyed, Prepare, IsSafeUpTo, At, IsRun, GetVersion, OvertakenMirror, VersionIn, SameIdentity,
      PutVersion, IsMirrored, IsSafe;
    var q, w := compose.command.quoteId, Prepared(s, compose).value;
    PreparedRewriteIs(s, s, compose.command, compose.facts, compose.now);
    SameNumber(w.base, w.updated);
    FoundIsFrozenInv(s, q, compose.command.version, Draft);
    LastPut(s, w);
    var t := PutVersion(s, w);
    AppendPlan(t, supersede);
    var x := Prepared(t, supersede).value;
    OvertakenMirrorRun(s, compose, supersede, w, x);
    es := OvertakenMirror(s, compose, supersede, w, x);
    NumberStaysBehind(s, t, q, w, x);
  }
}
