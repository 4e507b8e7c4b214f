/**
 A call to the quote store as the steps it takes on a thread of the web layer.  No lock orders the
 threads: between any two accesses to what they share -- the versions, the quotes, the decision log,
 the id counter -- other threads may run.
 */
module QuoteSteps {
  import opened Base
  import opened Calculator
  import opened Decimals
  import opened QuoteModel

  type ThreadId = nat

  /** One call as it happens: the command, what the other services answer, the clock. */
  datatype Call = Call(command: Command, facts: Facts, now: string)

  /**
   What a call holds between two of its steps.  A create takes its id, raises the counter, stores the
   quote and then its versions; any other call looks up, reads the previous rate and plans, puts the
   version, reads the aggregate, writes it back and logs.
   */
  datatype Thread =
    | Entered(call: Call)
    | Taken(call: Call, number: nat)
    | Counted(call: Call, write: Write)
    | Described(call: Call, write: Write)
    | Reading(call: Call, found: Option<Version>)
    | Writing(call: Call, prior: Option<PriorSnapshot>, write: Write)
    | Placed(call: Call, write: Write)
    | Copied(call: Call, write: Write, quote: Quote)
    | Logging(call: Call, write: Write)

  /** A call goes on, or it is over and has reported. */
  datatype Progress = On(thread: Thread) | Over(answer: Result<Version, StoreError>)

  // ---------------------------------------------------------------- the pieces of a write

  function RecordOf(w: Write): Option<DecisionRecord> {
    if w.Rewrite? then w.record else None
  }

  /** The quote that is written to. */
  function Target(w: Write): string {
    match w
    case Rewrite(q, _, _, _) => q
    case Append(q, _) => q
    case Insert(quote, _) => quote.quoteId
  }

  /** The version alone: over the one of its number, at the end, or as the first of a new history. */
  function PutVersion(s: Store, w: Write): Store {
    match w
    case Rewrite(q, base, updated, _) =>
      if GetVersion(s, q, base.number).None? then s
      else s.(versions := s.versions[q := s.versions[q][IndexOf(s.versions[q], base.number).value := updated]])
    case Append(q, draft) =>
      if q !in s.versions then s else s.(versions := s.versions[q := s.versions[q] + [draft]])
    case Insert(quote, first) => s.(versions := s.versions[quote.quoteId := [first]])
  }

  /** The look before mirroring: a rewrite is mirrored if its version is the last one by now, an append always. */
  predicate IsMirrored(s: Store, w: Write) {
    && Target(w) in s.quotes
    && (w.Rewrite? ==> && w.quoteId in s.versions && s.versions[w.quoteId] != []
                       && w.base.number == Last(s.versions[w.quoteId]).number)
  }

  /** The aggregate as it was read, with what a write says about the last version. */
  function MirrorInto(quote: Quote, w: Write): Quote {
    match w
    case Rewrite(_, _, updated, _) => quote.(latestStatus := updated.status)
    case Append(_, draft) => quote.(latestVersion := draft.number, latestStatus := Draft)
    case Insert(_, _) => quote
  }

  // ---------------------------------------------------------------- the steps of one thread

  /** A write on the version, or the quote, that the command is about. */
  predicate IsWriteOf(c: Command, w: Write) {
    match w
    case Rewrite(q, base, updated, _) =>
      && !c.CreateQuote? && !c.CreateNextVersion?
      && q == c.quoteId && base.number == c.version == updated.number
      && base.status == Asked(c)
    case Append(q, _) => c.CreateNextVersion? && q == c.quoteId
    case Insert(quote, first) =>
      && c.CreateQuote? && first.status.Draft? && first.quoteId == quote.quoteId
      && quote.latestVersion == 1 && quote.latestStatus == Draft
  }

  /** Creates and other calls go through stages of their own. */
  predicate IsShaped(th: Thread) {
    match th
    case Entered(_) => true
    case Taken(call, _) => call.command.CreateQuote?
    case Counted(call, w) => w.Insert? && IsWriteOf(call.command, w)
    case Described(call, w) => w.Insert? && IsWriteOf(call.command, w)
    case Reading(call, found) =>
      && !call.command.CreateQuote?
      && (!call.command.CreateNextVersion? && found.Some? ==> found.value.number == call.command.version)
    case Writing(call, _, w) => !w.Insert? && IsWriteOf(call.command, w)
    case Placed(call, w) => !w.Insert? && IsWriteOf(call.command, w)
    case Copied(call, w, _) => !w.Insert? && IsWriteOf(call.command, w)
    case Logging(call, w) => RecordOf(w).Some? && IsWriteOf(call.command, w)
  }

  /** What the next step of a thread does to the store. */
  function Effect(s: Store, th: Thread): Store
    requires IsShaped(th)
  {
    match th
    case Entered(_) => s
    case Taken(_, _) => s.(nextId := s.nextId + 1)
    case Counted(_, w) => s.(quotes := s.quotes[w.quote.quoteId := w.quote])
    case Described(_, w) => PutVersion(s, w)
    case Reading(_, _) => s
    case Writing(_, _, w) => PutVersion(s, w)
    case Placed(_, _) => s
    case Copied(_, w, quote) => s.(quotes := s.quotes[Target(w) := MirrorInto(quote, w)])
    case Logging(_, w) =>
      s.(decisions := Logged(s.decisions, DecisionKey(w.quoteId, w.base.number), w.record.value))
  }

  /** Only a decision has something to log. */
  function AfterMirror(call: Call, w: Write): Progress {
    if RecordOf(w).Some? then On(Logging(call, w)) else Over(Ok(Written(w)))
  }

  /** And how the thread goes on. */
  function Onward(s: Store, th: Thread): Progress
    requires NoEmptyHistory(s) && IsShaped(th)
  {
    match th
    case Entered(call) =>
      if !call.command.CreateQuote? then On(Reading(call, Lookup(s, call.command)))
      else if ValidateCustomer(call.facts, call.command.customerId).Ok? then On(Taken(call, s.nextId))
      else Over(Err(ValidateCustomer(call.facts, call.command.customerId).error))
    case Taken(call, number) => On(Counted(call, Creation(call.command, number, call.now)))
    case Counted(call, w) => On(Described(call, w))
    case Described(_, w) => Over(Ok(Written(w)))
    case Reading(call, found) =>
      var prior := PriorFor(s, call.command, found);
      var plan := Plan(call.command, found, prior, call.facts, call.now);
      if plan.Ok? then On(Writing(call, prior, plan.value)) else Over(Err(plan.error))
    case Writing(call, _, w) => On(Placed(call, w))
    case Placed(call, w) => if IsMirrored(s, w) then On(Copied(call, w, s.quotes[Target(w)])) else AfterMirror(call, w)
    case Copied(call, w, _) => AfterMirror(call, w)
    case Logging(_, w) => Over(Ok(Written(w)))
  }

  lemma NoneIsEmpty(s: Store)
    requires WellKeyed(s)
    ensures NoEmptyHistory(s)
  {
  }

  lemma EffectKeepsHistories(s: Store, th: Thread)
    requires NoEmptyHistory(s) && IsShaped(th)
    ensures NoEmptyHistory(Effect(s, th))
  {
    hide IndexOf;
  }

  lemma LookupHasNumber(s: Store, c: Command)
    requires NoEmptyHistory(s) && !c.CreateQuote?
    ensures !c.CreateNextVersion? && Lookup(s, c).Some? ==> Lookup(s, c).value.number == c.version
  {
  }

  /** What is planned is a write of the command, on a version in the status it asks for. */
  lemma PlanIsWriteOf(c: Command, found: Option<Version>, prior: Option<PriorSnapshot>, facts: Facts, now: string)
    requires !c.CreateQuote? && Plan(c, found, prior, facts, now).Ok?
    requires !c.CreateNextVersion? && found.Some? ==> found.value.number == c.version
    ensures var w := Plan(c, found, prior, facts, now).value;
            !w.Insert? && IsWriteOf(c, w) && found.Some? && (w.Rewrite? ==> w.base == found.value)
  {
    hide RouteIsPricable, ResolveRates, Calculate, Composed;
  }

  lemma CreationIsDraft(c: Command, number: nat, now: string)
    requires c.CreateQuote?
    ensures IsWriteOf(c, Creation(c, number, now))
  {
  }

  lemma OnwardIsShaped(s: Store, th: Thread)
    requires NoEmptyHistory(s) && IsShaped(th)
    ensures Onward(s, th).On? ==> IsShaped(Onward(s, th).thread)
  {
    hide Plan, Lookup, PriorFor, FirstVersions;
    match th
    case Entered(call) =>
      if !call.command.CreateQuote? {
        LookupHasNumber(s, call.command);
      }
    case Taken(call, number) => CreationIsDraft(call.command, number, call.now);
    case Reading(call, found) =>
      var prior := PriorFor(s, call.command, found);
      if Plan(call.command, found, prior, call.facts, call.now).Ok? {
        PlanIsWriteOf(call.command, found, prior, call.facts, call.now);
      }
    case _ =>
  }

  // ---------------------------------------------------------------- one thread that nothing comes in between of

  /** The store and the call after `n` more steps of one thread, or fewer if it is over before. */
  function Ahead(s: Store, th: Thread, n: nat): (r: (Store, Progress))
    requires NoEmptyHistory(s) && IsShaped(th)
    ensures NoEmptyHistory(r.0) && (r.1.On? ==> IsShaped(r.1.thread))
  {
    if n == 0 then (s, On(th))
    else
      var (t, p) := Ahead(s, th, n - 1);
      match p
      case Over(_) => (t, p)
      case On(x) =>
        EffectKeepsHistories(t, x);
        OnwardIsShaped(t, x);
        (Effect(t, x), Onward(t, x))
  }

  lemma OneAhead(s: Store, th: Thread, n: nat, t: Store, x: Thread)
    requires NoEmptyHistory(s) && IsShaped(th) && Ahead(s, th, n) == (t, On(x))
    ensures NoEmptyHistory(t) && IsShaped(x) && Ahead(s, th, n + 1) == (Effect(t, x), Onward(t, x))
  {
    hide Effect, Onward, IsShaped;
  }

  lemma OverAhead(s: Store, th: Thread, n: nat, m: nat)
    requires NoEmptyHistory(s) && IsShaped(th) && n <= m && Ahead(s, th, n).1.Over?
    ensures Ahead(s, th, m) == Ahead(s, th, n)
  {
    hide Effect, Onward, IsShaped;
  }

  /** The mirror and the record, right after the put. */
  function Completed(s: Store, w: Write): Store {
    var t := if IsMirrored(s, w) then s.(quotes := s.quotes[Target(w) := MirrorInto(s.quotes[Target(w)], w)]) else s;
    if RecordOf(w).None? then t
    else t.(decisions := Logged(t.decisions, DecisionKey(w.quoteId, w.base.number), w.record.value))
  }

  lemma CommitIsCompleted(s: Store, w: Write)
    requires WellKeyed(s) && !w.Insert? && (w.Rewrite? ==> w.updated.number == w.base.number)
    requires Target(w) in s.versions && (w.Rewrite? ==> GetVersion(s, w.quoteId, w.base.number).Some?)
    ensures Commit(s, w) == Completed(PutVersion(s, w), w)
  {
    hide IndexOf, DecisionKey, Logged;
  }

  lemma NoneAhead(s: Store, th: Thread)
    requires NoEmptyHistory(s) && IsShaped(th)
    ensures Ahead(s, th, 0) == (s, On(th))
  {
  }

  lemma CompletedInSteps(s: Store, w: Write, call: Call)
    requires NoEmptyHistory(s) && !w.Insert? && IsWriteOf(call.command, w)
    ensures Ahead(s, Placed(call, w), 3) == (Completed(s, w), Over(Ok(Written(w))))
  {
    hide PutVersion, IsWriteOf, MirrorInto, DecisionKey, Logged, Ahead;
    var th := Placed(call, w);
    NoneAhead(s, th);
    OneAhead(s, th, 0, s, th);
    if IsMirrored(s, w) {
      var quote := s.quotes[Target(w)];
      OneAhead(s, th, 1, s, Copied(call, w, quote));
      if RecordOf(w).Some? {
        OneAhead(s, th, 2, s.(quotes := s.quotes[Target(w) := MirrorInto(quote, w)]), Logging(call, w));
      } else {
        OverAhead(s, th, 2, 3);
      }
    } else if RecordOf(w).Some? {
      OneAhead(s, th, 1, s, Logging(call, w));
      OverAhead(s, th, 2, 3);
    } else {
      OverAhead(s, th, 1, 3);
    }
  }

  lemma PlanFindsTarget(s: Store, c: Command, prior: Option<PriorSnapshot>, facts: Facts, now: string)
    requires NoEmptyHistory(s) && !c.CreateQuote? && Plan(c, Lookup(s, c), prior, facts, now).Ok?
    ensures var w := Plan(c, Lookup(s, c), prior, facts, now).value;
            && !w.Insert? && IsWriteOf(c, w) && Target(w) == c.quoteId && c.quoteId in s.versions
            && (w.Rewrite? ==> GetVersion(s, w.quoteId, w.base.number) == Some(w.base))
  {
    hide Plan, IndexOf;
    LookupHasNumber(s, c);
    PlanIsWriteOf(c, Lookup(s, c), prior, facts, now);
  }

  lemma CreateAlone(s: Store, call: Call)
    requires WellKeyed(s) && call.command.CreateQuote?
    ensures Ahead(s, Entered(call), 6)
            == (After(s, call.command, call.facts, call.now), Over(Reported(s, call.command, call.facts, call.now)))
  {
    hide ValidateCustomer, Creation, Ahead;
    var th := Entered(call);
    NoneAhead(s, th);
    OneAhead(s, th, 0, s, th);
    if ValidateCustomer(call.facts, call.command.customerId).Ok? {
      var w := Creation(call.command, s.nextId, call.now);
      OneAhead(s, th, 1, s, Taken(call, s.nextId));
      var t := s.(nextId := s.nextId + 1);
      OneAhead(s, th, 2, t, Counted(call, w));
      OneAhead(s, th, 3, t.(quotes := t.quotes[w.quote.quoteId := w.quote]), Described(call, w));
      OverAhead(s, th, 4, 6);
    } else {
      OverAhead(s, th, 1, 6);
    }
  }

  lemma NumbersAgree(c: Command, w: Write)
    requires IsWriteOf(c, w)
    ensures w.Rewrite? ==> w.updated.number == w.base.number
  {
  }

  lemma {:induction false} FurtherAhead(s: Store, th: Thread, n: nat, t: Store, x: Thread, m: nat)
    requires NoEmptyHistory(s) && IsShaped(th) && Ahead(s, th, n) == (t, On(x))
    ensures NoEmptyHistory(t) && IsShaped(x) && Ahead(s, th, n + m) == Ahead(t, x, m)
  {
    hide Effect, Onward, IsShaped;
    if m > 0 {
      FurtherAhead(s, th, n, t, x, m - 1);
    }
  }

  lemma RevisionAlone(s: Store, call: Call)
    requires WellKeyed(s) && !call.command.CreateQuote?
    ensures Ahead(s, Entered(call), 6)
            == (After(s, call.command, call.facts, call.now), Over(Reported(s, call.command, call.facts, call.now)))
  {
    hide Plan, Lookup, PriorFor, Ahead, PutVersion, Completed, IsWriteOf, Commit;
    var th, found := Entered(call), Lookup(s, call.command);
    NoneAhead(s, th);
    OneAhead(s, th, 0, s, th);
    OneAhead(s, th, 1, s, Reading(call, found));
    var prior := PriorFor(s, call.command, found);
    if Plan(call.command, found, prior, call.facts, call.now).Ok? {
      var w := Plan(call.command, found, prior, call.facts, call.now).value;
      PlanFindsTarget(s, call.command, prior, call.facts, call.now);
      OneAhead(s, th, 2, s, Writing(call, prior, w));
      NumbersAgree(call.command, w);
      CommitIsCompleted(s, w);
      CompletedInSteps(PutVersion(s, w), w, call);
      FurtherAhead(s, th, 3, PutVersion(s, w), Placed(call, w), 3);
    } else {
      OverAhead(s, th, 2, 6);
    }
  }

  /**
   A call that no other thread comes in between of is the command: it leaves what the command leaves and
   reports what it reports.
   */
  lemma CallAloneIsTheCommand(s: Store, call: Call)
    requires WellKeyed(s)
    ensures Ahead(s, Entered(call), 6)
            == (After(s, call.command, call.facts, call.now), Over(Reported(s, call.command, call.facts, call.now)))
  {
    if call.command.CreateQuote? {
      CreateAlone(s, call);
    } else {
      RevisionAlone(s, call);
    }
  }

  // ---------------------------------------------------------------- any number of threads

  /** The store, the calls under way, and what the calls that are over have reported. */
  datatype Race = Race(store: Store, threads: map<ThreadId, Thread>,
                       answers: map<ThreadId, Result<Version, StoreError>>)

  /** The store with no call under way. */
  function Idle(s: Store): Race {
    Race(s, map[], map[])
  }

  /** A call comes in, or the thread of one takes its next step. */
  datatype Event = Begin(id: ThreadId, call: Call) | Go(id: ThreadId)

  /** The web layer never says who created a quote. */
  predicate FromWeb(c: Command) {
    c.CreateQuote? ==> c.createdBy.None?
  }

  predicate Enabled(r: Race, e: Event) {
    && NoEmptyHistory(r.store)
    && match e
       case Begin(id, call) => id !in r.threads && id !in r.answers && FromWeb(call.command)
       case Go(id) => id in r.threads && IsShaped(r.threads[id])
  }

  function Step(r: Race, e: Event): Race
    requires Enabled(r, e)
  {
    match e
    case Begin(id, call) => r.(threads := r.threads[id := Entered(call)])
    case Go(id) =>
      var th := r.threads[id];
      var s := Effect(r.store, th);
      match Onward(r.store, th)
      case On(x) => Race(s, r.threads[id := x], r.answers)
      case Over(answer) => Race(s, r.threads - {id}, r.answers[id := answer])
  }

  /** The state after the first `n` events; events that are not enabled do nothing. */
  ghost function At(r: Race, es: seq<Event>, n: nat): Race
    requires n <= |es|
  {
    if n == 0 then r
    else
      var before := At(r, es, n - 1);
      if Enabled(before, es[n - 1]) then Step(before, es[n - 1]) else before
  }

  ghost predicate IsRun(r: Race, es: seq<Event>) {
    forall k :: 0 <= k < |es| ==> Enabled(At(r, es, k), es[k])
  }

  lemma AtStart(r: Race, es: seq<Event>)
    ensures At(r, es, 0) == r
  {
  }

  lemma AtNext(r: Race, es: seq<Event>, k: nat)
    requires IsRun(r, es) && k < |es|
    ensures Enabled(At(r, es, k), es[k]) && At(r, es, k + 1) == Step(At(r, es, k), es[k])
  {
    hide Enabled, Step;
  }

  // ---------------------------------------------------------------- putting runs together

  lemma {:induction false} AtPrefix(r: Race, es: seq<Event>, fs: seq<Event>, n: nat)
    requires n <= |es|
    ensures At(r, es + fs, n) == At(r, es, n)
  {
    hide Enabled, Step;
    if n > 0 {
      AtPrefix(r, es, fs, n - 1);
    }
  }

  lemma {:induction false} AtSuffix(r: Race, es: seq<Event>, fs: seq<Event>, n: nat)
    requires n <= |fs|
    ensures At(r, es + fs, |es| + n) == At(At(r, es, |es|), fs, n)
  {
    hide Enabled, Step;
    if n == 0 {
      AtPrefix(r, es, fs, |es|);
      AtStart(At(r, es, |es|), fs);
    } else {
      AtSuffix(r, es, fs, n - 1);
      assert (es + fs)[|es| + n - 1] == fs[n - 1];
    }
  }

  /** One run after another is a run. */
  lemma RunsCompose(r: Race, es: seq<Event>, fs: seq<Event>)
    requires IsRun(r, es) && IsRun(At(r, es, |es|), fs)
    ensures IsRun(r, es + fs) && At(r, es + fs, |es + fs|) == At(At(r, es, |es|), fs, |fs|)
  {
    hide Enabled, Step, At;
    forall k | 0 <= k < |es + fs|
      ensures Enabled(At(r, es + fs, k), (es + fs)[k])
    {
      if k < |es| {
        AtPrefix(r, es, fs, k);
      } else {
        AtSuffix(r, es, fs, k - |es|);
      }
    }
    AtSuffix(r, es, fs, |fs|);
  }

  lemma RunOfOne(r: Race, e: Event)
    requires Enabled(r, e)
    ensures IsRun(r, [e]) && At(r, [e], 1) == Step(r, e)
  {
    hide Enabled, Step;
    assert At(r, [e], 0) == r;
  }

  function Steps(id: ThreadId, n: nat): (es: seq<Event>)
    ensures |es| == n && forall k :: 0 <= k < n ==> es[k] == Go(id)
  {
    seq(n, k => Go(id))
  }

  /** The race after a thread has got as far as `ahead`. */
  function Moved(r: Race, id: ThreadId, ahead: (Store, Progress)): Race {
    match ahead.1
    case On(x) => Race(ahead.0, r.threads[id := x], r.answers)
    case Over(answer) => Race(ahead.0, r.threads - {id}, r.answers[id := answer])
  }

  lemma EarlierIsOn(s: Store, th: Thread, n: nat)
    requires NoEmptyHistory(s) && IsShaped(th) && Ahead(s, th, n).1.On?
    ensures n > 0 ==> Ahead(s, th, n - 1).1.On?
  {
    hide Effect, Onward, IsShaped;
  }

  lemma StepMoves(r: Race, id: ThreadId, ahead: (Store, Progress))
    requires id in r.threads && NoEmptyHistory(ahead.0) && ahead.1.On? && IsShaped(ahead.1.thread)
    ensures Enabled(Moved(r, id, ahead), Go(id))
    ensures Step(Moved(r, id, ahead), Go(id))
            == Moved(r, id, (Effect(ahead.0, ahead.1.thread), Onward(ahead.0, ahead.1.thread)))
  {
    hide Effect, Onward, IsShaped;
    var x := Moved(r, id, ahead);
    var p := Onward(ahead.0, ahead.1.thread);
    if p.On? {
      assert x.threads[id := p.thread] == r.threads[id := p.thread];
    }
    assert x.threads - {id} == r.threads - {id};
  }

  /** Some steps of one thread, with the others waiting. */
  lemma {:induction false} StepsAlone(r: Race, id: ThreadId, n: nat)
    requires NoEmptyHistory(r.store) && id in r.threads && IsShaped(r.threads[id])
    requires n > 0 ==> Ahead(r.store, r.threads[id], n - 1).1.On?
    ensures IsRun(r, Steps(id, n)) && At(r, Steps(id, n), n) == Moved(r, id, Ahead(r.store, r.threads[id], n))
  {
    hide Effect, Onward, IsShaped, Enabled, Step;
    var es := Steps(id, n);
    if n == 0 {
      assert r.threads[id := r.threads[id]] == r.threads;
    } else {
      EarlierIsOn(r.store, r.threads[id], n - 1);
      StepsAlone(r, id, n - 1);
      var x := Moved(r, id, Ahead(r.store, r.threads[id], n - 1));
      StepMoves(r, id, Ahead(r.store, r.threads[id], n - 1));
      RunOfOne(x, Go(id));
      RunsCompose(r, Steps(id, n - 1), [Go(id)]);
      assert es == Steps(id, n - 1) + [Go(id)];
    }
  }
}
