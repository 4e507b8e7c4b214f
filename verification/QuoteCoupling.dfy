/**
 Calls to the quote store on any number of threads, against the store as it would be if every write
 were one step: as long as every write finds what its call looked at, the two stay coupled.
 */
module QuoteCoupling {
  import opened Base
  import opened Calculator
  import opened Decimals
  import opened QuoteAtomicity
  import opened QuoteHistory
  import opened QuoteInvariant
  import opened QuoteModel
  import opened QuoteSteps

  // ---------------------------------------------------------------- whole writes

  /** The write that a thread's next step decides on: a put, or for a create the raising of the counter. */
  function Landing(th: Thread): Option<Write>
    requires IsShaped(th)
  {
    match th
    case Taken(call, number) => Some(Creation(call.command, number, call.now))
    case Writing(_, _, w) => Some(w)
    case _ => None
  }

  function Lands(r: Race, e: Event): Option<Write> {
    if Enabled(r, e) && e.Go? then Landing(r.threads[e.id]) else None
  }

  /** With its mirror, its record and its quote at once. */
  function Landed(t: Store, w: Option<Write>): (u: Store)
    requires WellKeyed(t)
    ensures WellKeyed(u)
  {
    if w.None? then t
    else
      CommitKeepsKeys(t, w.value);
      Commit(t, w.value)
  }

  /** The store `t` after the same run, had every write been one step. */
  ghost function Ideal(r: Race, es: seq<Event>, t: Store, n: nat): (u: Store)
    requires n <= |es| && WellKeyed(t)
    ensures WellKeyed(u)
  {
    if n == 0 then t else Landed(Ideal(r, es, t, n - 1), Lands(At(r, es, n - 1), es[n - 1]))
  }

  // ---------------------------------------------------------------- what threads hold

  predicate IsCreating(th: Thread) {
    th.Counted? || th.Described?
  }

  predicate IsLogging(th: Thread) {
    (th.Placed? || th.Copied? || th.Logging?) && RecordOf(th.write).Some?
  }

  /** The id has been given to this thread, and its versions are not stored yet. */
  predicate HoldsQuote(r: Race, id: ThreadId, q: string) {
    id in r.threads && IsCreating(r.threads[id]) && Target(r.threads[id].write) == q
  }

  /** The decision has been put, and not been logged yet. */
  predicate HoldsRecord(r: Race, id: ThreadId, key: string) {
    id in r.threads && IsLogging(r.threads[id])
    && DecisionKey(r.threads[id].write.quoteId, r.threads[id].write.base.number) == key
  }

  /** What a thread has read was once the store, and its write is what it made of that. */
  ghost predicate HeldFrom(t: Store, th: Thread, seen: Store, later: Store) {
    && Inv(seen) && WellKeyed(seen) && StoreEvolves(seen, t)
    && match th
       case Taken(call, number) =>
         && call.command.CreateQuote? && number == seen.nextId
         && ValidateCustomer(call.facts, call.command.customerId).Ok?
       case Reading(call, found) => !call.command.CreateQuote? && found == Lookup(seen, call.command)
       case Writing(call, prior, w) =>
         && Inv(later) && StoreEvolves(seen, later) && StoreEvolves(later, t)
         && Prepare(seen, later, call.command, call.facts, call.now) == Ok(w)
         && (call.command.Price? ==> RateOf(prior) == RateRead(later, w))
       case _ => true
  }

  predicate HasRead(th: Thread) {
    th.Taken? || (th.Reading? && th.found.Some?) || th.Writing?
  }

  ghost predicate IsHeld(t: Store, th: Thread) {
    HasRead(th) ==> exists seen, later :: HeldFrom(t, th, seen, later)
  }

  predicate IsLogged(s: Store, t: Store, w: Write) {
    RecordOf(w).Some? ==>
      var key := DecisionKey(w.quoteId, w.base.number);
      key in t.decisions && t.decisions[key] == [w.record.value] && key !in s.decisions
  }

  /** How far a thread has got with the store `s`, compared with whole writes. */
  predicate IsOnItsWay(s: Store, t: Store, th: Thread) {
    match th
    case Entered(_) => true
    case Taken(_, number) => number <= t.nextId && (number < t.nextId ==> QuoteId(number) in t.versions)
    case Counted(_, w) =>
      && w.Insert? && w.quote.quoteId !in s.versions && w.quote.quoteId !in s.quotes
      && w.quote.quoteId in t.versions && t.versions[w.quote.quoteId] == [w.first]
      && w.quote.quoteId in t.quotes && SameQuote(w.quote, t.quotes[w.quote.quoteId])
    case Described(_, w) =>
      && w.Insert? && w.quote.quoteId !in s.versions
      && w.quote.quoteId in s.quotes && s.quotes[w.quote.quoteId] == w.quote
      && w.quote.quoteId in t.versions && t.versions[w.quote.quoteId] == [w.first]
    case Reading(call, found) => found.Some? && !call.command.CreateQuote? ==> call.command.quoteId in s.versions
    case Writing(_, _, w) => Target(w) in s.versions
    case Placed(_, w) => Target(w) in s.versions && IsLogged(s, t, w)
    case Copied(_, w, quote) =>
      Target(w) in s.versions && Target(w) in t.quotes && SameQuote(quote, t.quotes[Target(w)]) && IsLogged(s, t, w)
    case Logging(_, w) => IsLogged(s, t, w)
  }

  // ---------------------------------------------------------------- the store and whole writes

  /** Whatever is in the store is there with whole writes, but for the mirrors. */
  predicate IsPartOf(s: Store, t: Store) {
    && s.nextId == t.nextId
    && s.versions.Keys <= s.quotes.Keys
    && (forall q :: q in s.versions ==> q in t.versions && t.versions[q] == s.versions[q])
    && (forall q :: q in s.quotes ==> q in t.quotes && SameQuote(s.quotes[q], t.quotes[q]))
    && (forall key :: key in s.decisions ==> key in t.decisions && t.decisions[key] == s.decisions[key])
  }

  /** And what is not there yet is on its way. */
  ghost predicate NothingIsMissing(r: Race, t: Store) {
    && (forall q :: q in t.versions ==> q in r.store.versions || exists id :: HoldsQuote(r, id, q))
    && (forall key :: key in t.decisions ==> key in r.store.decisions || exists id :: HoldsRecord(r, id, key))
  }

  ghost predicate AreApart(r: Race) {
    && (forall a, b, q :: HoldsQuote(r, a, q) && HoldsQuote(r, b, q) ==> a == b)
    && (forall a, b, key :: HoldsRecord(r, a, key) && HoldsRecord(r, b, key) ==> a == b)
  }

  ghost predicate IsFollowed(s: Store, t: Store, th: Thread) {
    IsShaped(th) && IsOnItsWay(s, t, th) && IsHeld(t, th)
  }

  /** A race and the store with whole writes. */
  ghost predicate Coupled(r: Race, t: Store) {
    && Inv(t) && WellKeyed(t)
    && IsPartOf(r.store, t) && NothingIsMissing(r, t) && AreApart(r)
    && forall id :: id in r.threads ==> IsFollowed(r.store, t, r.threads[id])
  }

  lemma IdleIsCoupled(s: Store)
    requires Inv(s) && WellKeyed(s)
    ensures Coupled(Idle(s), s)
  {
    hide Inv;
  }

  // ---------------------------------------------------------------- threads that wait

  lemma HeldStays(t: Store, u: Store, th: Thread)
    requires IsHeld(t, th) && StoreEvolves(t, u)
    ensures IsHeld(u, th)
  {
    hide Inv, WellKeyed, StoreEvolves, Prepare, Lookup, ValidateCustomer, RateRead;
    if HasRead(th) {
      var seen, later :| HeldFrom(t, th, seen, later);
      EvolvesOnwards(seen, t, u);
      if th.Writing? {
        EvolvesOnwards(later, t, u);
      }
      assert HeldFrom(u, th, seen, later);
    }
  }

  lemma SameQuoteOnwards(p: Quote, q: Quote, x: Quote)
    requires SameQuote(p, q) && SameQuote(q, x)
    ensures SameQuote(p, x)
  {
  }

  /** A thread that waits stays on its way, as long as nobody stores or logs what it is going to. */
  lemma WaitingIsFollowed(s: Store, t: Store, x: Store, u: Store, th: Thread)
    requires IsFollowed(s, t, th) && StoreEvolves(t, u)
    requires s.versions.Keys <= x.versions.Keys && s.quotes.Keys <= x.quotes.Keys
    requires th.Taken? ==> (th.number < u.nextId ==> QuoteId(th.number) in u.versions)
    requires IsCreating(th) ==> Target(th.write) !in x.versions && (th.Counted? ==> Target(th.write) !in x.quotes)
    requires th.Described? && Target(th.write) in s.quotes && Target(th.write) in x.quotes ==>
               x.quotes[Target(th.write)] == s.quotes[Target(th.write)]
    requires IsCreating(th) && Target(th.write) in t.versions && Target(th.write) in u.versions ==>
               u.versions[Target(th.write)] == t.versions[Target(th.write)]
    requires IsLogging(th) ==> DecisionKey(th.write.quoteId, th.write.base.number) !in x.decisions
    ensures IsFollowed(x, u, th)
  {
    hide IsHeld, HistoryEvolves, SameQuote, DecisionKey, QuoteId, IsShaped;
    HeldStays(t, u, th);
    match th
    case Counted(_, w) => SameQuoteOnwards(w.quote, t.quotes[w.quote.quoteId], u.quotes[w.quote.quoteId]);
    case Copied(_, w, quote) => SameQuoteOnwards(quote, t.quotes[Target(w)], u.quotes[Target(w)]);
    case _ =>
  }

  /** All threads but one are where they were. */
  ghost predicate OthersWait(r: Race, x: Race, id: ThreadId) {
    forall other :: other != id ==>
      && (other in r.threads <==> other in x.threads)
      && (other in r.threads ==> x.threads[other] == r.threads[other])
  }

  lemma StepMovesOne(r: Race, e: Event)
    requires Enabled(r, e)
    ensures OthersWait(r, Step(r, e), e.id)
  {
    hide Effect, Onward, IsShaped;
  }

  /** Nothing that others wait for is taken away, stored or logged. */
  ghost predicate LeavesOthers(r: Race, t: Store, x: Race, u: Store, id: ThreadId) {
    && r.store.versions.Keys <= x.store.versions.Keys && r.store.quotes.Keys <= x.store.quotes.Keys
    && (forall other, q :: other != id && HoldsQuote(r, other, q) ==>
          && q !in x.store.versions
          && (q in x.store.quotes ==> q in r.store.quotes && x.store.quotes[q] == r.store.quotes[q])
          && (q in t.versions && q in u.versions ==> u.versions[q] == t.versions[q]))
    && (forall other, key :: other != id && HoldsRecord(r, other, key) ==> key !in x.store.decisions)
    && (forall number: nat ::
          number <= t.nextId && (number < t.nextId ==> QuoteId(number) in t.versions) && number < u.nextId ==>
            QuoteId(number) in u.versions)
  }

  lemma OthersAreFollowed(r: Race, t: Store, x: Race, u: Store, id: ThreadId, other: ThreadId)
    requires Coupled(r, t) && StoreEvolves(t, u) && OthersWait(r, x, id) && LeavesOthers(r, t, x, u, id)
    requires other != id && other in r.threads
    ensures IsFollowed(x.store, u, r.threads[other])
  {
    hide Inv, WellKeyed, StoreEvolves, IsHeld, IsPartOf, NothingIsMissing, AreApart, DecisionKey, QuoteId, OthersWait;
    var th := r.threads[other];
    assert IsFollowed(r.store, t, th);
    if IsCreating(th) {
      assert HoldsQuote(r, other, Target(th.write));
    }
    if IsLogging(th) {
      assert HoldsRecord(r, other, DecisionKey(th.write.quoteId, th.write.base.number));
    }
    WaitingIsFollowed(r.store, t, x.store, u, th);
  }

  /** The pieces from which the coupling of the next state is put together. */
  lemma CoupledAgain(r: Race, t: Store, x: Race, u: Store, id: ThreadId)
    requires Coupled(r, t) && Inv(u) && WellKeyed(u) && StoreEvolves(t, u)
    requires OthersWait(r, x, id) && LeavesOthers(r, t, x, u, id)
    requires IsPartOf(x.store, u) && NothingIsMissing(x, u) && AreApart(x)
    requires id in x.threads ==> IsFollowed(x.store, u, x.threads[id])
    ensures Coupled(x, u)
  {
    hide Inv, WellKeyed, StoreEvolves, IsPartOf, NothingIsMissing, AreApart, IsFollowed, LeavesOthers;
    forall other | other in x.threads
      ensures IsFollowed(x.store, u, x.threads[other])
    {
      if other != id {
        OthersAreFollowed(r, t, x, u, id, other);
      }
    }
  }

  // ---------------------------------------------------------------- steps that store nothing

  /** The mover holds what it held. */
  ghost predicate HoldsOn(r: Race, x: Race, id: ThreadId) {
    && (forall q :: HoldsQuote(x, id, q) <==> HoldsQuote(r, id, q))
    && (forall key :: HoldsRecord(x, id, key) <==> HoldsRecord(r, id, key))
  }

  lemma OthersHoldOn(r: Race, x: Race, id: ThreadId)
    requires OthersWait(r, x, id)
    ensures forall other, q :: other != id ==> (HoldsQuote(x, other, q) <==> HoldsQuote(r, other, q))
    ensures forall other, key :: other != id ==> (HoldsRecord(x, other, key) <==> HoldsRecord(r, other, key))
  {
    hide IsCreating, IsLogging, DecisionKey;
  }

  lemma CreatedAreElsewhere(r: Race, t: Store)
    requires Coupled(r, t)
    ensures forall id, q :: HoldsQuote(r, id, q) ==> q !in r.store.versions && q in t.versions
    ensures forall id, key :: HoldsRecord(r, id, key) ==> key !in r.store.decisions && key in t.decisions
  {
    hide Inv, WellKeyed, IsPartOf, NothingIsMissing, AreApart, IsHeld, DecisionKey, SameQuote;
    forall id, q | HoldsQuote(r, id, q)
      ensures q !in r.store.versions && q in t.versions
    {
      assert IsFollowed(r.store, t, r.threads[id]);
    }
    forall id, key | HoldsRecord(r, id, key)
      ensures key !in r.store.decisions && key in t.decisions
    {
      assert IsFollowed(r.store, t, r.threads[id]);
    }
  }

  lemma QuietStep(r: Race, t: Store, x: Race, id: ThreadId)
    requires Coupled(r, t) && OthersWait(r, x, id) && x.store == r.store && HoldsOn(r, x, id)
    requires id in x.threads ==> IsFollowed(x.store, t, x.threads[id])
    ensures Coupled(x, t)
  {
    hide Inv, WellKeyed, StoreEvolves, IsPartOf, IsFollowed, HoldsQuote, HoldsRecord, OthersWait;
    EvolvesToItself(t);
    OthersHoldOn(r, x, id);
    assert NothingIsMissing(x, t) && AreApart(x);
    CreatedAreElsewhere(r, t);
    CoupledAgain(r, t, x, t, id);
  }

  /** With the store a part of `t`, what is looked up in the one is found in the other. */
  lemma LookupAgrees(s: Store, t: Store, c: Command)
    requires IsPartOf(s, t) && NoEmptyHistory(s) && WellKeyed(t) && !c.CreateQuote?
    ensures Lookup(s, c).Some? ==> c.quoteId in s.versions && Lookup(t, c) == Lookup(s, c)
  {
    hide IndexOf, SameQuote;
  }

  lemma PriorAgrees(s: Store, t: Store, q: string, v: Version)
    requires IsPartOf(s, t) && q in s.versions
    ensures PriorOf(s, q, v) == PriorOf(t, q, v)
  {
    hide IndexOf, SameQuote;
  }

  lemma SameCounter(s: Store, t: Store)
    requires IsPartOf(s, t)
    ensures s.nextId == t.nextId
  {
  }

  lemma EnteredGoesOn(s: Store, t: Store, call: Call)
    requires Inv(t) && WellKeyed(t) && IsPartOf(s, t) && NoEmptyHistory(s) && Onward(s, Entered(call)).On?
    ensures IsFollowed(s, t, Onward(s, Entered(call)).thread)
  {
    hide Inv, IsPartOf, StoreEvolves, Lookup, ValidateCustomer, QuoteId;
    var th := Onward(s, Entered(call)).thread;
    OnwardIsShaped(s, Entered(call));
    EvolvesToItself(t);
    SameCounter(s, t);
    if !call.command.CreateQuote? {
      LookupAgrees(s, t, call.command);
    }
    if HasRead(th) {
      assert HeldFrom(t, th, t, t);
    }
  }

  lemma TargetIsNamed(c: Command, w: Write)
    requires IsWriteOf(c, w) && !w.Insert?
    ensures !c.CreateQuote? && Target(w) == c.quoteId
  {
  }

  lemma PriceIsRewrite(c: Command, found: Option<Version>, prior: Option<PriorSnapshot>, facts: Facts, now: string)
    requires c.Price? && Plan(c, found, prior, facts, now).Ok?
    ensures Plan(c, found, prior, facts, now).value.Rewrite?
    ensures Plan(c, found, prior, facts, now).value.quoteId == c.quoteId
  {
    hide PriceFrom;
  }

  lemma ReadingGoesOn(s: Store, t: Store, call: Call, found: Option<Version>)
    requires Inv(t) && WellKeyed(t) && IsPartOf(s, t) && NoEmptyHistory(s) && IsFollowed(s, t, Reading(call, found))
    requires Onward(s, Reading(call, found)).On?
    ensures IsFollowed(s, t, Onward(s, Reading(call, found)).thread)
  {
    hide Inv, IsPartOf, WellKeyed, StoreEvolves, Lookup, Plan, PriorOf, IsWriteOf;
    var c, th := call.command, Onward(s, Reading(call, found)).thread;
    OnwardIsShaped(s, Reading(call, found));
    PlanIsWriteOf(c, found, th.prior, call.facts, call.now);
    TargetIsNamed(c, th.write);
    var seen, later :| HeldFrom(t, Reading(call, found), seen, later);
    EvolvesToItself(t);
    if c.Price? {
      PriorAgrees(s, t, c.quoteId, found.value);
      PriceIsRewrite(c, found, th.prior, call.facts, call.now);
    }
    assert PriorFor(s, c, found) == PriorFor(t, c, found);
    assert HeldFrom(t, th, seen, t);
  }

  lemma PlacedGoesOn(s: Store, t: Store, call: Call, w: Write)
    requires IsPartOf(s, t) && NoEmptyHistory(s) && IsFollowed(s, t, Placed(call, w)) && Onward(s, Placed(call, w)).On?
    ensures IsFollowed(s, t, Onward(s, Placed(call, w)).thread)
  {
    hide IsWriteOf, DecisionKey, SameQuote;
    OnwardIsShaped(s, Placed(call, w));
  }

  /** Steps that store nothing: a call comes in, looks up, plans, or looks at the last version. */
  predicate StoresNothing(r: Race, e: Event)
    requires Enabled(r, e)
  {
    e.Begin? || r.threads[e.id].Entered? || r.threads[e.id].Reading? || r.threads[e.id].Placed?
  }

  lemma FreshIsFollowed(s: Store, t: Store, call: Call)
    ensures IsFollowed(s, t, Entered(call))
  {
  }

  lemma QuietMoverIsFollowed(r: Race, t: Store, e: Event)
    requires Coupled(r, t) && Enabled(r, e) && StoresNothing(r, e)
    ensures Step(r, e).store == r.store
    ensures e.id in Step(r, e).threads ==> IsFollowed(r.store, t, Step(r, e).threads[e.id])
  {
    hide Inv, WellKeyed, IsPartOf, NothingIsMissing, AreApart, IsFollowed, Onward;
    if e.Go? {
      var th := r.threads[e.id];
      assert IsFollowed(r.store, t, th);
      if Onward(r.store, th).On? {
        match th
        case Entered(call) => EnteredGoesOn(r.store, t, call);
        case Reading(call, found) => ReadingGoesOn(r.store, t, call, found);
        case Placed(call, w) => PlacedGoesOn(r.store, t, call, w);
      }
    } else {
      FreshIsFollowed(r.store, t, e.call);
    }
  }

  lemma QuietMoverHoldsOn(r: Race, e: Event)
    requires Enabled(r, e) && StoresNothing(r, e)
    ensures HoldsOn(r, Step(r, e), e.id)
  {
    hide Plan, Lookup, PriorFor, DecisionKey, IsMirrored;
  }

  // ---------------------------------------------------------------- steps that store

  lemma HoldersAreApart(r: Race, t: Store, id: ThreadId)
    requires Coupled(r, t) && id in r.threads
    ensures IsFollowed(r.store, t, r.threads[id])
    ensures IsCreating(r.threads[id]) ==>
              forall other :: other != id ==> !HoldsQuote(r, other, Target(r.threads[id].write))
    ensures IsLogging(r.threads[id]) ==>
              forall other :: other != id ==>
                !HoldsRecord(r, other, DecisionKey(r.threads[id].write.quoteId, r.threads[id].write.base.number))
  {
    hide Inv, WellKeyed, IsPartOf, NothingIsMissing, IsFollowed, DecisionKey;
    if IsCreating(r.threads[id]) {
      assert HoldsQuote(r, id, Target(r.threads[id].write));
    }
    if IsLogging(r.threads[id]) {
      assert HoldsRecord(r, id, DecisionKey(r.threads[id].write.quoteId, r.threads[id].write.base.number));
    }
  }

  /** The store gets no less, and nothing that another thread is going to store or log. */
  ghost predicate StoresOwn(r: Race, x: Race, id: ThreadId) {
    && r.store.versions.Keys <= x.store.versions.Keys && r.store.quotes.Keys <= x.store.quotes.Keys
    && r.store.decisions.Keys <= x.store.decisions.Keys
    && (forall q :: q in x.store.versions && q !in r.store.versions ==> HoldsQuote(r, id, q))
    && (forall q :: q in x.store.quotes && q !in r.store.quotes ==> HoldsQuote(r, id, q))
    && (forall q :: q in x.store.quotes && q in r.store.quotes && x.store.quotes[q] != r.store.quotes[q] ==>
          q in r.store.versions)
    && (forall key :: key in x.store.decisions && key !in r.store.decisions ==> HoldsRecord(r, id, key))
  }

  /** What the mover no longer holds has been stored, and it holds nothing new. */
  ghost predicate HandsOver(r: Race, x: Race, id: ThreadId) {
    && (forall q :: HoldsQuote(x, id, q) ==> HoldsQuote(r, id, q))
    && (forall key :: HoldsRecord(x, id, key) ==> HoldsRecord(r, id, key))
    && (forall q :: HoldsQuote(r, id, q) ==> HoldsQuote(x, id, q) || q in x.store.versions)
    && (forall key :: HoldsRecord(r, id, key) ==> HoldsRecord(x, id, key) || key in x.store.decisions)
  }

  lemma StoringStep(r: Race, t: Store, x: Race, id: ThreadId)
    requires Coupled(r, t) && OthersWait(r, x, id) && IsPartOf(x.store, t)
    requires StoresOwn(r, x, id) && HandsOver(r, x, id)
    requires id in x.threads ==> IsFollowed(x.store, t, x.threads[id])
    ensures Coupled(x, t)
  {
    hide Inv, WellKeyed, StoreEvolves, IsPartOf, IsFollowed, HoldsQuote, HoldsRecord, OthersWait;
    EvolvesToItself(t);
    OthersHoldOn(r, x, id);
    CreatedAreElsewhere(r, t);
    assert NothingIsMissing(x, t) && AreApart(x);
    assert LeavesOthers(r, t, x, t, id);
    CoupledAgain(r, t, x, t, id);
  }

  lemma StoresAreCoupled(r: Race, t: Store)
    requires Coupled(r, t)
    ensures Inv(t) && WellKeyed(t) && IsPartOf(r.store, t)
  {
    hide Inv, WellKeyed, IsPartOf;
  }

  lemma DescribedPart(s: Store, t: Store, th: Thread)
    requires IsPartOf(s, t) && th.Counted? && IsFollowed(s, t, th)
    ensures IsPartOf(Effect(s, th), t) && IsFollowed(Effect(s, th), t, Described(th.call, th.write))
    ensures Target(th.write) !in s.quotes
  {
    hide SameQuote, IsWriteOf;
  }

  /** A create stores the quote it has counted. */
  lemma DescribingStep(r: Race, t: Store, e: Event)
    requires Coupled(r, t) && Enabled(r, e) && e.Go? && r.threads[e.id].Counted?
    ensures Coupled(Step(r, e), t)
  {
    hide Coupled, IsFollowed, OthersWait, IsPartOf;
    var x, th := Step(r, e), r.threads[e.id];
    StepMovesOne(r, e);
    HoldersAreApart(r, t, e.id);
    StoresAreCoupled(r, t);
    DescribedPart(r.store, t, th);
    assert StoresOwn(r, x, e.id) && HandsOver(r, x, e.id) by {
      hide DecisionKey;
    }
    StoringStep(r, t, x, e.id);
  }

  lemma ListedPart(s: Store, t: Store, th: Thread)
    requires IsPartOf(s, t) && th.Described? && IsFollowed(s, t, th)
    ensures IsPartOf(Effect(s, th), t)
  {
    hide SameQuote, IsWriteOf;
  }

  /** And its versions. */
  lemma ListingStep(r: Race, t: Store, e: Event)
    requires Coupled(r, t) && Enabled(r, e) && e.Go? && r.threads[e.id].Described?
    ensures Coupled(Step(r, e), t)
  {
    hide Coupled, IsFollowed, OthersWait, IsPartOf;
    var x, th := Step(r, e), r.threads[e.id];
    StepMovesOne(r, e);
    HoldersAreApart(r, t, e.id);
    StoresAreCoupled(r, t);
    ListedPart(r.store, t, th);
    assert StoresOwn(r, x, e.id) && HandsOver(r, x, e.id) by {
      hide DecisionKey;
    }
    StoringStep(r, t, x, e.id);
  }

  lemma MirrorKeepsQuote(quote: Quote, w: Write)
    ensures SameQuote(MirrorInto(quote, w), quote)
  {
  }

  lemma MirroredPart(s: Store, t: Store, th: Thread)
    requires IsPartOf(s, t) && th.Copied? && IsFollowed(s, t, th)
    ensures IsPartOf(Effect(s, th), t) && Target(th.write) in s.quotes && Target(th.write) in s.versions
    ensures RecordOf(th.write).Some? ==> IsFollowed(Effect(s, th), t, Logging(th.call, th.write))
  {
    hide SameQuote, IsWriteOf, MirrorInto, DecisionKey;
    MirrorKeepsQuote(th.quote, th.write);
    SameQuoteOnwards(MirrorInto(th.quote, th.write), th.quote, t.quotes[Target(th.write)]);
  }

  /** A mirror changes nothing but the mirror. */
  lemma MirroringStep(r: Race, t: Store, e: Event)
    requires Coupled(r, t) && Enabled(r, e) && e.Go? && r.threads[e.id].Copied?
    ensures Coupled(Step(r, e), t)
  {
    hide Coupled, IsFollowed, OthersWait, IsPartOf, MirrorInto;
    var x, th := Step(r, e), r.threads[e.id];
    StepMovesOne(r, e);
    HoldersAreApart(r, t, e.id);
    StoresAreCoupled(r, t);
    MirroredPart(r.store, t, th);
    assert StoresOwn(r, x, e.id) && HandsOver(r, x, e.id) by {
      hide DecisionKey;
    }
    StoringStep(r, t, x, e.id);
  }

  lemma LoggedPart(s: Store, t: Store, th: Thread)
    requires IsPartOf(s, t) && th.Logging? && IsFollowed(s, t, th)
    ensures IsPartOf(Effect(s, th), t)
  {
    hide SameQuote, IsWriteOf, DecisionKey;
  }

  /** The record of a decision is logged. */
  lemma LoggingStep(r: Race, t: Store, e: Event)
    requires Coupled(r, t) && Enabled(r, e) && e.Go? && r.threads[e.id].Logging?
    ensures Coupled(Step(r, e), t)
  {
    hide Coupled, IsFollowed, OthersWait, IsPartOf;
    var x, th := Step(r, e), r.threads[e.id];
    StepMovesOne(r, e);
    HoldersAreApart(r, t, e.id);
    StoresAreCoupled(r, t);
    LoggedPart(r.store, t, th);
    assert StoresOwn(r, x, e.id) && HandsOver(r, x, e.id) by {
      hide DecisionKey;
    }
    StoringStep(r, t, x, e.id);
  }

  // ---------------------------------------------------------------- steps that decide on a write

  /** The rate that the thread read for its write. */
  function RateHeld(th: Thread): Option<real> {
    if th.Writing? then RateOf(th.prior) else None
  }

  lemma TakenMeets(t: Store, th: Thread, seen: Store)
    requires Inv(t) && WellKeyed(t) && th.Taken? && IsShaped(th) && HeldFrom(t, th, seen, seen)
    ensures Meets(seen, seen, t, th.call.command, th.call.facts, th.call.now)
    ensures Prepare(seen, seen, th.call.command, th.call.facts, th.call.now) == Ok(Landing(th).value)
  {
    hide Inv, StoreEvolves, ValidateCustomer, Creation;
    EvolvesToItself(seen);
  }

  lemma RateIsForPrice(t: Store, c: Command, w: Write, rate: Option<real>, other: Option<real>)
    requires c.Price? ==> rate == other
    ensures Undisturbed(t, c, w, rate) <==> Undisturbed(t, c, w, other)
  {
    hide GetVersion, Composed, PriorRate, QuoteId;
  }

  /** A thread's write fits the store as it is now; it is lawful if safe, and atomic if undisturbed. */
  lemma LandingWrite(t: Store, th: Thread, w: Write)
    requires Inv(t) && WellKeyed(t) && IsShaped(th) && IsHeld(t, th) && Landing(th) == Some(w)
    ensures Fits(t, w)
    ensures Lawful(t, w, Commit(t, w)) <==> IsSafe(t, w)
    ensures Commit(t, w) == After(t, th.call.command, th.call.facts, th.call.now) <==>
              Undisturbed(t, th.call.command, w, RateHeld(th))
  {
    hide Inv, StoreEvolves, Prepare, WellKeyed, Fits, Lawful, IsSafe, Commit, After, IsShaped, PriorRate, Creation;
    var c := th.call;
    var seen, later :| HeldFrom(t, th, seen, later);
    if th.Taken? {
      TakenMeets(t, th, seen);
      MeetingFits(seen, seen, t, c.command, c.facts, c.now);
      CallIsAtomicIff(seen, seen, t, c.command, c.facts, c.now);
      RateIsForPrice(t, c.command, w, RateHeld(th), RateRead(seen, w));
    } else {
      assert Meets(seen, later, t, c.command, c.facts, c.now);
      MeetingFits(seen, later, t, c.command, c.facts, c.now);
      CallIsAtomicIff(seen, later, t, c.command, c.facts, c.now);
      RateIsForPrice(t, c.command, w, RateHeld(th), RateRead(later, w));
    }
    CommitIsLawfulIff(t, w);
  }

  /** One more quote, version or record with whole writes, held by the mover. */
  ghost predicate TakesOn(r: Race, t: Store, x: Race, u: Store, id: ThreadId) {
    && x.store.versions.Keys == r.store.versions.Keys && x.store.quotes == r.store.quotes
    && x.store.decisions == r.store.decisions
    && (forall q :: !HoldsQuote(r, id, q)) && (forall key :: !HoldsRecord(r, id, key))
    && (forall q :: q in u.versions ==> q in t.versions || HoldsQuote(x, id, q))
    && (forall key :: key in u.decisions ==> key in t.decisions || HoldsRecord(x, id, key))
    && (forall q :: HoldsQuote(x, id, q) ==> q !in t.versions)
    && (forall key :: HoldsRecord(x, id, key) ==> key !in t.decisions)
    && (forall q :: q in t.versions && q in u.versions && q !in r.store.versions ==> u.versions[q] == t.versions[q])
    && (forall number: nat :: t.nextId <= number < u.nextId ==> QuoteId(number) in u.versions)
  }

  lemma LandingStep(r: Race, t: Store, x: Race, u: Store, id: ThreadId)
    requires Coupled(r, t) && OthersWait(r, x, id) && id in r.threads
    requires Inv(u) && WellKeyed(u) && StoreEvolves(t, u) && IsPartOf(x.store, u) && TakesOn(r, t, x, u, id)
    requires id in x.threads ==> IsFollowed(x.store, u, x.threads[id])
    ensures Coupled(x, u)
  {
    hide Inv, WellKeyed, IsPartOf, IsFollowed, OthersWait, HistoryEvolves, SameQuote, HoldsQuote, HoldsRecord, QuoteId;
    OthersHoldOn(r, x, id);
    CreatedAreElsewhere(r, t);
    assert NothingIsMissing(x, u) && AreApart(x);
    assert LeavesOthers(r, t, x, u, id);
    CoupledAgain(r, t, x, u, id);
  }

  lemma CountedIsLawful(t: Store, th: Thread)
    requires Inv(t) && WellKeyed(t) && th.Taken? && IsShaped(th) && IsHeld(t, th) && th.number == t.nextId
    ensures var w := Landing(th).value;
            && Inv(Commit(t, w)) && WellKeyed(Commit(t, w)) && StoreEvolves(t, Commit(t, w))
            && Target(w) !in t.versions && w.first.status.Draft?
  {
    hide HistoryEvolves, QuoteId, IsHeld, Fits, FirstVersions, Histories, LogInv, ValidateCustomer, StoreEvolves,
      Commit, IdBelow;
    var w := Landing(th).value;
    FreshId(t);
    CreationIsDraft(th.call.command, th.number, th.call.now);
    LandingWrite(t, th, w);
    CommitKeepsKeys(t, w);
  }

  lemma CountedPart(s: Store, t: Store, th: Thread)
    requires Inv(t) && WellKeyed(t) && IsPartOf(s, t) && th.Taken? && IsFollowed(s, t, th) && th.number == t.nextId
    ensures var w := Landing(th).value;
            var u := Commit(t, w);
            && Inv(u) && WellKeyed(u) && StoreEvolves(t, u)
            && IsPartOf(Effect(s, th), u) && IsFollowed(Effect(s, th), u, Counted(th.call, w))
  {
    hide StoreEvolves, QuoteId, FirstVersions, Inv, ValidateCustomer;
    CountedIsLawful(t, th);
  }

  lemma CountedTakesOn(r: Race, t: Store, e: Event)
    requires Enabled(r, e) && e.Go? && r.threads[e.id].Taken? && Inv(t) && WellKeyed(t)
    requires r.threads[e.id].number == r.store.nextId == t.nextId
    ensures TakesOn(r, t, Step(r, e), Commit(t, Landing(r.threads[e.id]).value), e.id)
  {
    hide QuoteId, FirstVersions, Histories, LogInv, DecisionKey, IdBelow;
    FreshId(t);
  }

  /** A create raises the counter, and nobody has since it took its id. */
  lemma CountingStep(r: Race, t: Store, e: Event)
    requires Coupled(r, t) && Enabled(r, e) && e.Go? && r.threads[e.id].Taken?
    requires r.threads[e.id].number == r.store.nextId
    ensures Lands(r, e).Some? && StoreEvolves(t, Landed(t, Lands(r, e)))
    ensures Coupled(Step(r, e), Landed(t, Lands(r, e)))
  {
    hide Coupled, IsFollowed, OthersWait, IsPartOf, Creation, Commit, Inv, StoreEvolves, WellKeyed, IsHeld, Fits;
    var x, th := Step(r, e), r.threads[e.id];
    var w := Landing(th).value;
    StepMovesOne(r, e);
    HoldersAreApart(r, t, e.id);
    StoresAreCoupled(r, t);
    SameCounter(r.store, t);
    CountedPart(r.store, t, th);
    assert TakesOn(r, t, x, Commit(t, w), e.id) by {
      CountedTakesOn(r, t, e);
    }
    LandingStep(r, t, x, Commit(t, w), e.id);
  }

  /** The store and `t` hold the same history, so the look would find the same. */
  lemma SafetyAgrees(s: Store, t: Store, w: Write)
    requires IsPartOf(s, t) && !w.Insert? && Target(w) in s.versions
    ensures IsSafe(s, w) <==> IsSafe(t, w)
  {
    hide IndexOf, SameQuote;
  }

  lemma TargetIsStored(s: Store, t: Store, th: Thread)
    requires IsFollowed(s, t, th) && th.Writing?
    ensures !th.write.Insert? && Target(th.write) in s.versions
  {
    hide IsHeld;
  }

  lemma SafeIsLawful(t: Store, th: Thread)
    requires Inv(t) && WellKeyed(t) && th.Writing? && IsShaped(th) && IsHeld(t, th) && IsSafe(t, th.write)
    ensures Fits(t, th.write)
    ensures Inv(Commit(t, th.write)) && WellKeyed(Commit(t, th.write)) && StoreEvolves(t, Commit(t, th.write))
  {
    hide Fits, Inv, WellKeyed, StoreEvolves, Commit, IsSafe, IsShaped, IsHeld;
    LandingWrite(t, th, th.write);
    CommitKeepsKeys(t, th.write);
  }

  lemma PositionIsNumber(t: Store, q: string, number: int)
    requires Inv(t) && q in t.versions && 1 <= number <= |t.versions[q]|
    ensures IndexOf(t.versions[q], number) == Some(number - 1)
  {
    hide GetVersion, LogInv, IdsInv;
    VersionAt(t, q, number);
  }

  lemma FirstRecord(decisions: map<string, seq<DecisionRecord>>, key: string, record: DecisionRecord)
    requires key !in decisions
    ensures Logged(decisions, key, record) == decisions[key := [record]]
  {
    assert [] + [record] == [record];
  }

  /** What a safe put leaves in the store and, as a whole write, in `t`. */
  lemma PutShape(s: Store, t: Store, w: Write)
    requires Inv(t) && WellKeyed(t) && IsPartOf(s, t) && !w.Insert? && Target(w) in s.versions && Fits(t, w)
    requires IsSafe(t, w)
    ensures var q, u := Target(w), Commit(t, w);
            && q in t.versions && q in u.versions && q in u.quotes && q in t.quotes
            && u.versions == t.versions[q := u.versions[q]]
            && PutVersion(s, w) == s.(versions := s.versions[q := u.versions[q]])
            && u.quotes == t.quotes[q := u.quotes[q]] && SameQuote(t.quotes[q], u.quotes[q]) && u.nextId == t.nextId
            && (RecordOf(w).None? ==> u.decisions == t.decisions)
            && (RecordOf(w).Some? ==>
                  var key := DecisionKey(w.quoteId, w.base.number);
                  key !in t.decisions && u.decisions == t.decisions[key := [w.record.value]])
  {
    hide Inv, Frozen, VersionEvolves, DecisionKey, IndexOf, Logged;
    var q := Target(w);
    if w.Rewrite? {
      VersionAtInv(t, q, w.base.number);
      PositionIsNumber(t, q, w.base.number);
      SameNumber(w.base, w.updated);
      RewriteShape(t, w);
      if RecordOf(w).Some? {
        RewriteFitsMayBecome(t, w);
        FirstRecord(t.decisions, DecisionKey(q, w.base.number), w.record.value);
      }
    }
  }

  lemma SameQuoteForAll(s: Store, t: Store, q: string, u: Store)
    requires IsPartOf(s, t) && q in t.quotes && q in u.quotes && SameQuote(t.quotes[q], u.quotes[q])
    requires u.quotes == t.quotes[q := u.quotes[q]]
    ensures forall p :: p in s.quotes ==> p in u.quotes && SameQuote(s.quotes[p], u.quotes[p])
  {
    hide SameQuote;
    if q in s.quotes {
      SameQuoteOnwards(s.quotes[q], t.quotes[q], u.quotes[q]);
    }
  }

  lemma PutPart(s: Store, t: Store, th: Thread)
    requires Inv(t) && WellKeyed(t) && IsPartOf(s, t) && th.Writing? && IsFollowed(s, t, th) && IsSafe(t, th.write)
    ensures var u := Commit(t, th.write);
            && Inv(u) && WellKeyed(u) && StoreEvolves(t, u)
            && IsPartOf(PutVersion(s, th.write), u) && IsFollowed(PutVersion(s, th.write), u, Placed(th.call, th.write))
  {
    hide Inv, WellKeyed, StoreEvolves, Commit, IsSafe, Fits, PutVersion, SameQuote, DecisionKey, IsWriteOf;
    SafeIsLawful(t, th);
    PutShape(s, t, th.write);
    SameQuoteForAll(s, t, Target(th.write), Commit(t, th.write));
  }

  lemma PutTakesOn(r: Race, t: Store, e: Event)
    requires Coupled(r, t) && Enabled(r, e) && e.Go? && r.threads[e.id].Writing? && IsSafe(t, r.threads[e.id].write)
    ensures TakesOn(r, t, Step(r, e), Commit(t, r.threads[e.id].write), e.id)
  {
    hide Inv, WellKeyed, StoreEvolves, Commit, IsSafe, Fits, PutVersion, SameQuote, DecisionKey, IsHeld, IsWriteOf,
      NothingIsMissing, AreApart;
    var th := r.threads[e.id];
    assert IsFollowed(r.store, t, th);
    SafeIsLawful(t, th);
    PutShape(r.store, t, th.write);
  }

  /** A version is put, and the look that the code does not take would have let it pass. */
  lemma PuttingStep(r: Race, t: Store, e: Event)
    requires Coupled(r, t) && Enabled(r, e) && e.Go? && r.threads[e.id].Writing?
    requires IsSafe(r.store, r.threads[e.id].write)
    ensures Lands(r, e).Some? && StoreEvolves(t, Landed(t, Lands(r, e)))
    ensures Coupled(Step(r, e), Landed(t, Lands(r, e)))
  {
    hide Coupled, IsFollowed, OthersWait, IsPartOf, Commit, Inv, StoreEvolves, WellKeyed, IsHeld, Fits, IsSafe,
      PutVersion;
    var x, th := Step(r, e), r.threads[e.id];
    StepMovesOne(r, e);
    HoldersAreApart(r, t, e.id);
    StoresAreCoupled(r, t);
    TargetIsStored(r.store, t, th);
    SafetyAgrees(r.store, t, th.write);
    PutPart(r.store, t, th);
    assert TakesOn(r, t, x, Commit(t, th.write), e.id) by {
      PutTakesOn(r, t, e);
    }
    LandingStep(r, t, x, Commit(t, th.write), e.id);
  }

  // ---------------------------------------------------------------- safe steps

  /** The look that the code does not take: before a put, and before a create counts its id up. */
  predicate IsSafeStep(r: Race, e: Event) {
    Enabled(r, e) && e.Go? ==>
      match r.threads[e.id]
      case Taken(_, number) => number == r.store.nextId
      case Writing(_, _, w) => IsSafe(r.store, w)
      case _ => true
  }

  /** A safe step keeps the race coupled to whole writes. */
  lemma SafeStepIsCoupled(r: Race, t: Store, e: Event)
    requires Coupled(r, t) && Enabled(r, e) && IsSafeStep(r, e)
    ensures Coupled(Step(r, e), Landed(t, Lands(r, e))) && StoreEvolves(t, Landed(t, Lands(r, e)))
  {
    hide Coupled, Effect, Onward, IsShaped, StoreEvolves, Commit, IsSafe, Creation, HoldsOn;
    EvolvesToItself(t);
    if StoresNothing(r, e) {
      StepMovesOne(r, e);
      QuietMoverIsFollowed(r, t, e);
      QuietMoverHoldsOn(r, e);
      QuietStep(r, t, Step(r, e), e.id);
    } else {
      match r.threads[e.id]
      case Taken(_, _) => CountingStep(r, t, e);
      case Writing(_, _, _) => PuttingStep(r, t, e);
      case Counted(_, _) => DescribingStep(r, t, e);
      case Described(_, _) => ListingStep(r, t, e);
      case Copied(_, _, _) => MirroringStep(r, t, e);
      case Logging(_, _) => LoggingStep(r, t, e);
    }
  }
}
