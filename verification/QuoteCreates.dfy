/**
 How creates take their ids: a create reads the counter, raises it, and stores its quote afterwards.
 When two creates are given one id, and what becomes of their quotes.
 */
module QuoteCreates {
  import opened Base
  import opened Decimals
  import opened QuoteCoupling
  import opened QuoteInvariant
  import opened QuoteMirrors
  import opened QuoteModel
  import opened QuoteRaces
  import opened QuoteSteps

  // ---------------------------------------------------------------- taking and counting

  predicate Takes(r: Race, e: Event) {
    && Enabled(r, e) && e.Go? && r.threads[e.id].Entered?
    && Onward(r.store, r.threads[e.id]).On? && Onward(r.store, r.threads[e.id]).thread.Taken?
  }

  predicate Counts(r: Race, e: Event) {
    Enabled(r, e) && e.Go? && r.threads[e.id].Taken?
  }

  ghost predicate NobodyCounts(r: Race, es: seq<Event>, i: nat, j: nat)
    requires i <= j <= |es|
  {
    forall k :: i <= k < j ==> !Counts(At(r, es, k), es[k])
  }

  lemma StepCounts(r: Race, e: Event)
    requires Enabled(r, e)
    ensures Step(r, e).store.nextId == r.store.nextId + (if Counts(r, e) then 1 else 0)
  {
    hide Onward, MirrorInto, DecisionKey, IsWriteOf, GetVersion;
  }

  lemma {:induction false} CounterGrowsIff(r: Race, es: seq<Event>, i: nat, j: nat)
    requires IsRun(r, es) && i <= j <= |es|
    ensures At(r, es, i).store.nextId <= At(r, es, j).store.nextId
    ensures At(r, es, i).store.nextId == At(r, es, j).store.nextId <==> NobodyCounts(r, es, i, j)
  {
    hide IsRun, At, Enabled, Step, Counts;
    if i < j {
      CounterGrowsIff(r, es, i, j - 1);
      AtNext(r, es, j - 1);
      StepCounts(At(r, es, j - 1), es[j - 1]);
    }
  }

  lemma IdsAgreeIff(m: nat, n: nat)
    ensures QuoteId(m) == QuoteId(n) <==> m == n
  {
    hide QuoteId, IdNumber;
    QuoteIdReadsBack(m);
    QuoteIdReadsBack(n);
  }

  /** In any run, two creates take one id if and only if nobody raises the counter between their taking. */
  lemma TakenIdsAgreeIff(r: Race, es: seq<Event>, i: nat, j: nat)
    requires IsRun(r, es) && i < j < |es| && Takes(At(r, es, i), es[i]) && Takes(At(r, es, j), es[j])
    ensures var x, y := At(r, es, i + 1), At(r, es, j + 1);
            && es[i].id in x.threads && x.threads[es[i].id].Taken? && es[j].id in y.threads
            && y.threads[es[j].id].Taken?
            && (QuoteId(x.threads[es[i].id].number) == QuoteId(y.threads[es[j].id].number) <==>
                  NobodyCounts(r, es, i, j))
  {
    hide IsRun, At, QuoteId, ValidateCustomer, NobodyCounts;
    AtNext(r, es, i);
    AtNext(r, es, j);
    CounterGrowsIff(r, es, i, j);
    IdsAgreeIff(At(r, es, i).store.nextId, At(r, es, j).store.nextId);
  }

  // ---------------------------------------------------------------- the trace of a create

  ghost predicate TookAt(r: Race, es: seq<Event>, id: ThreadId, i: nat) {
    i < |es| && es[i] == Go(id) && Takes(At(r, es, i), es[i])
  }

  ghost predicate CountedAt(r: Race, es: seq<Event>, id: ThreadId, k: nat) {
    k < |es| && es[k] == Go(id) && Counts(At(r, es, k), es[k])
  }

  /** The create took its id at `i`, and has not moved before `n`. */
  ghost predicate HasTaken(r: Race, es: seq<Event>, id: ThreadId, number: nat, i: nat, n: nat) {
    && i < n <= |es| && TookAt(r, es, id, i) && number == At(r, es, i).store.nextId
    && forall m :: i < m < n ==> es[m] != Go(id)
  }

  /** And has raised the counter at `k`. */
  ghost predicate HasCounted(r: Race, es: seq<Event>, id: ThreadId, q: string, i: nat, k: nat) {
    && i < |es| && CountedAt(r, es, id, k)
    && HasTaken(r, es, id, At(r, es, i).store.nextId, i, k) && q == QuoteId(At(r, es, i).store.nextId)
  }

  /** Every create's id can be traced back. */
  ghost predicate IsTraced(r: Race, es: seq<Event>, n: nat, id: ThreadId)
    requires n <= |es|
  {
    var x := At(r, es, n);
    && (id in x.threads ==>
          && x.threads[id].call.command.CreateQuote? && IsShaped(x.threads[id])
          && (x.threads[id].Taken? ==> exists i :: HasTaken(r, es, id, x.threads[id].number, i, n))
          && (x.threads[id].Counted? || x.threads[id].Described? ==>
                exists i, k :: HasCounted(r, es, id, Target(x.threads[id].write), i, k)))
    && (id in x.answers && x.answers[id].Ok? ==>
          exists i, k :: HasCounted(r, es, id, x.answers[id].value.quoteId, i, k))
  }

  /** All calls that come in are creates. */
  predicate OnlyCreates(es: seq<Event>) {
    forall k :: 0 <= k < |es| && es[k].Begin? ==> es[k].call.command.CreateQuote?
  }

  lemma TakenIsTraced(r: Race, es: seq<Event>, n: nat, id: ThreadId)
    requires IsRun(r, es) && n < |es| && es[n] == Go(id) && Takes(At(r, es, n), es[n])
    ensures HasTaken(r, es, id, At(r, es, n).store.nextId, n, n + 1)
  {
    hide At, IsRun, Takes;
  }

  lemma CountedIsTraced(r: Race, es: seq<Event>, n: nat, id: ThreadId, number: nat, i: nat)
    requires HasTaken(r, es, id, number, i, n) && CountedAt(r, es, id, n)
    ensures HasCounted(r, es, id, QuoteId(number), i, n)
  {
    hide At, TookAt, CountedAt;
  }

  lemma WaitingIsTraced(r: Race, es: seq<Event>, n: nat, id: ThreadId, number: nat, i: nat)
    requires HasTaken(r, es, id, number, i, n) && n < |es| && es[n] != Go(id)
    ensures HasTaken(r, es, id, number, i, n + 1)
  {
    hide At, TookAt;
  }

  lemma FirstIsNamed(c: Command, w: Write)
    requires w.Insert? && IsWriteOf(c, w)
    ensures Written(w).quoteId == Target(w)
  {
  }

  lemma TracedMoves(r: Race, es: seq<Event>, n: nat, id: ThreadId)
    requires IsRun(r, es) && n < |es| && es[n] == Go(id) && IsTraced(r, es, n, id)
    requires Enabled(At(r, es, n), es[n]) && At(r, es, n + 1) == Step(At(r, es, n), es[n])
    ensures IsTraced(r, es, n + 1, id)
  {
    hide At, IsRun, TookAt, HasTaken, HasCounted, QuoteId, ValidateCustomer, FirstVersions, Plan, Lookup, PriorFor,
      IsMirrored, MirrorInto, DecisionKey, PutVersion;
    var x := At(r, es, n);
    var th := x.threads[id];
    OnwardIsShaped(x.store, th);
    match th
    case Entered(call) =>
      if Onward(x.store, th).On? {
        TakenIsTraced(r, es, n, id);
      }
    case Taken(call, number) =>
      var i :| HasTaken(r, es, id, number, i, n);
      CountedIsTraced(r, es, n, id, number, i);
      var w := Creation(call.command, number, call.now);
      assert At(r, es, n + 1).threads[id] == Counted(call, w);
      assert HasCounted(r, es, id, Target(w), i, n);
    case Described(call, w) =>
      var i, k :| HasCounted(r, es, id, Target(w), i, k);
      FirstIsNamed(call.command, w);
    case _ =>
  }

  lemma {:induction false} CreatesAreTraced(s: Store, es: seq<Event>, n: nat, id: ThreadId)
    requires IsRun(Idle(s), es) && OnlyCreates(es) && n <= |es|
    ensures IsTraced(Idle(s), es, n, id)
  {
    hide At, IsRun, TookAt, CountedAt, HasTaken, HasCounted, QuoteId, ValidateCustomer, FirstVersions, Plan, Lookup,
      PriorFor, IsMirrored, MirrorInto, DecisionKey, PutVersion;
    var r := Idle(s);
    if n == 0 {
      AtStart(r, es);
    } else {
      CreatesAreTraced(s, es, n - 1, id);
      AtNext(r, es, n - 1);
      var x, e := At(r, es, n - 1), es[n - 1];
      if e == Go(id) {
        TracedMoves(r, es, n - 1, id);
      } else if id in x.threads && x.threads[id].Taken? {
        var i :| HasTaken(r, es, id, x.threads[id].number, i, n - 1);
        WaitingIsTraced(r, es, n - 1, id, x.threads[id].number, i);
      }
    }
  }

  // ---------------------------------------------------------------- a thread goes through its stages once

  /** The call has looked, or taken its id, or is over. */
  predicate IsPastEntry(r: Race, id: ThreadId) {
    if id in r.threads then !r.threads[id].Entered? else id in r.answers
  }

  lemma StepStaysPastEntry(r: Race, e: Event, id: ThreadId)
    requires Enabled(r, e) && IsPastEntry(r, id)
    ensures IsPastEntry(Step(r, e), id)
  {
    hide Plan, Lookup, PriorFor, IsMirrored, MirrorInto, DecisionKey, PutVersion, IsWriteOf;
  }

  lemma {:induction false} PastEntryStays(r: Race, es: seq<Event>, id: ThreadId, i: nat, j: nat)
    requires IsRun(r, es) && i <= j <= |es| && IsPastEntry(At(r, es, i), id)
    ensures IsPastEntry(At(r, es, j), id)
  {
    hide IsRun, At, Effect, IsShaped, IsPastEntry, Enabled, Step;
    if i < j {
      PastEntryStays(r, es, id, i, j - 1);
      AtNext(r, es, j - 1);
      StepStaysPastEntry(At(r, es, j - 1), es[j - 1], id);
    }
  }

  lemma TakingIsPastEntry(r: Race, es: seq<Event>, id: ThreadId, i: nat)
    requires IsRun(r, es) && i < |es| && es[i] == Go(id)
    ensures TookAt(r, es, id, i) ==> !IsPastEntry(At(r, es, i), id) && IsPastEntry(At(r, es, i + 1), id)
    ensures CountedAt(r, es, id, i) ==> IsPastEntry(At(r, es, i), id)
  {
    hide IsRun, At, ValidateCustomer;
    AtNext(r, es, i);
  }

  /** A create takes one id, and counts only after that. */
  lemma TakesOnce(r: Race, es: seq<Event>, id: ThreadId, i: nat, j: nat)
    requires IsRun(r, es) && TookAt(r, es, id, i)
    ensures TookAt(r, es, id, j) ==> i == j
    ensures CountedAt(r, es, id, j) ==> i < j
  {
    hide IsRun, At, Takes, Counts, IsPastEntry;
    if TookAt(r, es, id, j) || CountedAt(r, es, id, j) {
      TakingIsPastEntry(r, es, id, i);
      TakingIsPastEntry(r, es, id, j);
      if i < j {
        PastEntryStays(r, es, id, i + 1, j);
      }
      if j < i && TookAt(r, es, id, j) {
        PastEntryStays(r, es, id, j + 1, i);
      }
      if j < i && CountedAt(r, es, id, j) {
        PastEntryStays(r, es, id, j, i);
      }
    }
  }

  lemma TraceOf(r: Race, es: seq<Event>, id: ThreadId, q: string, i: nat, k: nat)
    requires HasCounted(r, es, id, q, i, k)
    ensures i < k < |es| && TookAt(r, es, id, i) && CountedAt(r, es, id, k)
    ensures es[i] == es[k] == Go(id)
    ensures forall m :: i < m < k ==> es[m] != Go(id)
    ensures q == QuoteId(At(r, es, i).store.nextId)
  {
    hide At, Takes, Counts, QuoteId;
  }

  /** And raises the counter once. */
  lemma CountsOnce(s: Store, es: seq<Event>, id: ThreadId, q: string, i: nat, k: nat, m: nat)
    requires IsRun(Idle(s), es) && OnlyCreates(es) && HasCounted(Idle(s), es, id, q, i, k)
    requires CountedAt(Idle(s), es, id, m)
    ensures m == k
  {
    hide IsRun, At, Takes, IsShaped, QuoteId, HasCounted;
    var r := Idle(s);
    CreatesAreTraced(s, es, m, id);
    var j :| HasTaken(r, es, id, At(r, es, m).threads[id].number, j, m);
    TraceOf(r, es, id, q, i, k);
    TakesOnce(r, es, id, i, j);
  }

  // ---------------------------------------------------------------- two creates

  /** The one takes its id between the other's taking its and raising the counter. */
  ghost predicate TakesWithin(r: Race, es: seq<Event>, x: ThreadId, y: ThreadId) {
    exists i: nat, j: nat, k: nat :: i < j < k && TookAt(r, es, x, i) && TookAt(r, es, y, j) && CountedAt(r, es, x, k)
  }

  predicate OnlyThreads(es: seq<Event>, x: ThreadId, y: ThreadId) {
    forall k :: 0 <= k < |es| ==> es[k].id == x || es[k].id == y
  }

  lemma CounterIsCreate(r: Race, es: seq<Event>, k: nat)
    requires k < |es| && Counts(At(r, es, k), es[k])
    ensures CountedAt(r, es, es[k].id, k)
  {
    hide At;
  }

  lemma CountedCounts(r: Race, es: seq<Event>, id: ThreadId, k: nat)
    requires CountedAt(r, es, id, k)
    ensures Counts(At(r, es, k), es[k])
  {
    hide At, Counts;
  }

  /** Of two creates, with `x` the first to take an id. */
  lemma OrderDecides(s: Store, es: seq<Event>, x: ThreadId, y: ThreadId, qx: string, qy: string,
                     ix: nat, kx: nat, iy: nat, ky: nat)
    requires IsRun(Idle(s), es) && OnlyCreates(es) && OnlyThreads(es, x, y) && x != y && ix < iy
    requires HasCounted(Idle(s), es, x, qx, ix, kx) && HasCounted(Idle(s), es, y, qy, iy, ky)
    ensures qx == qy <==> iy < kx
    ensures kx < iy ==> NobodyCounts(Idle(s), es, ix, kx) && NobodyCounts(Idle(s), es, iy, ky)
  {
    hide IsRun, At, Takes, Counts, QuoteId, HasCounted, HasTaken, TookAt, CountedAt;
    var r := Idle(s);
    TraceOf(r, es, x, qx, ix, kx);
    TraceOf(r, es, y, qy, iy, ky);
    forall m | 0 <= m < |es| && Counts(At(r, es, m), es[m])
      ensures m == kx || m == ky
    {
      CounterIsCreate(r, es, m);
      if es[m].id == x {
        CountsOnce(s, es, x, qx, ix, kx, m);
      } else {
        CountsOnce(s, es, y, qy, iy, ky, m);
      }
    }
    CountedCounts(r, es, x, kx);
    CounterGrowsIff(r, es, ix, iy);
    IdsAgreeIff(At(r, es, ix).store.nextId, At(r, es, iy).store.nextId);
  }

  lemma WithinIff(s: Store, es: seq<Event>, x: ThreadId, y: ThreadId, qx: string, qy: string,
                  ix: nat, kx: nat, iy: nat, ky: nat)
    requires IsRun(Idle(s), es) && OnlyCreates(es) && x != y
    requires HasCounted(Idle(s), es, x, qx, ix, kx) && HasCounted(Idle(s), es, y, qy, iy, ky)
    ensures TakesWithin(Idle(s), es, x, y) <==> ix < iy < kx
  {
    hide IsRun, At, Takes, Counts, QuoteId, HasCounted, HasTaken, TookAt, CountedAt;
    var r := Idle(s);
    TraceOf(r, es, x, qx, ix, kx);
    TraceOf(r, es, y, qy, iy, ky);
    if TakesWithin(r, es, x, y) {
      var i: nat, j: nat, k: nat :| i < j < k && TookAt(r, es, x, i) && TookAt(r, es, y, j) && CountedAt(r, es, x, k);
      TakesOnce(r, es, x, ix, i);
      TakesOnce(r, es, y, iy, j);
      CountsOnce(s, es, x, qx, ix, kx, k);
    }
  }

  /** In a run of creates every other stage is safe, and no mirror is written. */
  lemma OnlyCountsMatter(s: Store, es: seq<Event>, n: nat)
    requires IsRun(Idle(s), es) && OnlyCreates(es) && n < |es|
    ensures !Counts(At(Idle(s), es, n), es[n]) ==> IsSafeStep(At(Idle(s), es, n), es[n])
    ensures forall q :: !Mirrors(At(Idle(s), es, n), es[n], q)
  {
    hide IsRun, At, HasTaken, HasCounted;
    var x := At(Idle(s), es, n);
    if es[n].Go? && es[n].id in x.threads {
      CreatesAreTraced(s, es, n, es[n].id);
    }
  }

  lemma {:induction false} MirrorsAreRightByDefault(s: Store, es: seq<Event>, n: nat, q: string)
    requires IsRun(Idle(s), es) && OnlyCreates(es) && n <= |es|
    ensures LastMirrorIsRight(Idle(s), es, n, q)
  {
    hide IsRun, At, Mirrors;
    if n > 0 {
      OnlyCountsMatter(s, es, n - 1);
      MirrorsAreRightByDefault(s, es, n - 1, q);
    }
  }

  lemma TakenOf(r: Race, es: seq<Event>, id: ThreadId, number: nat, i: nat, n: nat)
    requires HasTaken(r, es, id, number, i, n)
    ensures i < n <= |es| && TookAt(r, es, id, i) && number == At(r, es, i).store.nextId
  {
    hide At, TookAt;
  }

  /** A count is safe if nobody else has counted since the id was taken. */
  lemma CountIsSafe(s: Store, es: seq<Event>, id: ThreadId, q: string, i: nat, k: nat, m: nat)
    requires IsRun(Idle(s), es) && OnlyCreates(es) && HasCounted(Idle(s), es, id, q, i, k)
    requires CountedAt(Idle(s), es, id, m)
    requires i < k && NobodyCounts(Idle(s), es, i, k)
    ensures IsSafeStep(At(Idle(s), es, m), es[m])
  {
    hide IsRun, At, QuoteId, HasCounted, HasTaken, NobodyCounts, TookAt;
    var r := Idle(s);
    CountsOnce(s, es, id, q, i, k, m);
    CreatesAreTraced(s, es, m, id);
    var j :| HasTaken(r, es, id, At(r, es, m).threads[id].number, j, m);
    TraceOf(r, es, id, q, i, k);
    TakenOf(r, es, id, At(r, es, m).threads[id].number, j, m);
    TakesOnce(r, es, id, i, j);
    CounterGrowsIff(r, es, i, k);
  }

  /** Two creates that do not take within each other are safe throughout. */
  lemma ApartIsSafe(s: Store, es: seq<Event>, x: ThreadId, y: ThreadId, qx: string, qy: string,
                    ix: nat, kx: nat, iy: nat, ky: nat)
    requires IsRun(Idle(s), es) && OnlyCreates(es) && OnlyThreads(es, x, y) && x != y && ix < iy && qx != qy
    requires HasCounted(Idle(s), es, x, qx, ix, kx) && HasCounted(Idle(s), es, y, qy, iy, ky)
    ensures IsSafeUpTo(Idle(s), es, |es|)
  {
    hide IsRun, At, QuoteId, HasCounted, NobodyCounts, TookAt, CountedAt, IsSafeStep, Counts;
    var r := Idle(s);
    OrderDecides(s, es, x, y, qx, qy, ix, kx, iy, ky);
    TraceOf(r, es, x, qx, ix, kx);
    TraceOf(r, es, y, qy, iy, ky);
    forall m | 0 <= m < |es|
      ensures IsSafeStep(At(r, es, m), es[m])
    {
      OnlyCountsMatter(s, es, m);
      if Counts(At(r, es, m), es[m]) {
        CounterIsCreate(r, es, m);
        if es[m].id == x {
          CountIsSafe(s, es, x, qx, ix, kx, m);
        } else {
          CountIsSafe(s, es, y, qy, iy, ky, m);
        }
      }
    }
  }

  // ---------------------------------------------------------------- the quotes that are stored

  /** The quote of that id has been stored by a create, which may be over. */
  ghost predicate IsStoredBy(r: Race, id: ThreadId, q: string) {
    || (id in r.threads && r.threads[id].Described? && Target(r.threads[id].write) == q)
    || (id in r.answers && r.answers[id].Ok? && r.answers[id].value.quoteId == q)
  }

  /** The quotes are those there were and those that have been stored. */
  ghost predicate HasQuotesOf(r: Race, before: set<string>) {
    && before <= r.store.quotes.Keys
    && (forall id, q :: IsStoredBy(r, id, q) ==> q in r.store.quotes)
    && (forall q :: q in r.store.quotes ==> q in before || exists id :: IsStoredBy(r, id, q))
  }

  /** All threads are creates, and none of them has answered. */
  ghost predicate AreCreates(r: Race) {
    forall id :: id in r.threads ==>
      r.threads[id].call.command.CreateQuote? && IsShaped(r.threads[id]) && id !in r.answers
  }

  lemma MoverStores(r: Race, e: Event, q: string)
    requires Enabled(r, e) && AreCreates(r)
    ensures IsStoredBy(r, e.id, q) ==> IsStoredBy(Step(r, e), e.id, q)
    ensures IsStoredBy(Step(r, e), e.id, q) ==> IsStoredBy(r, e.id, q) || q in Step(r, e).store.quotes
    ensures q in r.store.quotes ==> q in Step(r, e).store.quotes
    ensures q in Step(r, e).store.quotes ==> q in r.store.quotes || IsStoredBy(Step(r, e), e.id, q)
  {
    hide ValidateCustomer, FirstVersions, QuoteId;
    if e.Go? && r.threads[e.id].Described? {
      FirstIsNamed(r.threads[e.id].call.command, r.threads[e.id].write);
    }
  }

  lemma OthersStore(r: Race, e: Event, id: ThreadId, q: string)
    requires Enabled(r, e) && id != e.id
    ensures IsStoredBy(Step(r, e), id, q) <==> IsStoredBy(r, id, q)
  {
    hide Effect, Onward, IsShaped;
  }

  lemma StepStores(r: Race, e: Event, before: set<string>)
    requires Enabled(r, e) && AreCreates(r) && HasQuotesOf(r, before)
    ensures HasQuotesOf(Step(r, e), before)
  {
    hide IsStoredBy, Step, Enabled, AreCreates;
    var x := Step(r, e);
    forall q
      ensures q in r.store.quotes ==> q in x.store.quotes
    {
      MoverStores(r, e, q);
    }
    forall id, q | IsStoredBy(x, id, q)
      ensures q in x.store.quotes
    {
      MoverStores(r, e, q);
      if id != e.id {
        OthersStore(r, e, id, q);
      }
    }
    forall q | q in x.store.quotes
      ensures q in before || exists id :: IsStoredBy(x, id, q)
    {
      MoverStores(r, e, q);
      if q in r.store.quotes && q !in before {
        var id :| IsStoredBy(r, id, q);
        if id != e.id {
          OthersStore(r, e, id, q);
        }
      }
    }
  }

  lemma StepKeepsCreates(r: Race, e: Event)
    requires Enabled(r, e) && AreCreates(r) && (e.Begin? ==> e.call.command.CreateQuote?)
    ensures AreCreates(Step(r, e))
  {
    hide ValidateCustomer, FirstVersions, QuoteId, MirrorInto, Plan, Lookup, PutVersion;
    if e.Go? {
      OnwardIsShaped(r.store, r.threads[e.id]);
    }
  }

  lemma {:induction false} QuotesAreStored(s: Store, es: seq<Event>, n: nat)
    requires IsRun(Idle(s), es) && OnlyCreates(es) && n <= |es|
    ensures AreCreates(At(Idle(s), es, n)) && HasQuotesOf(At(Idle(s), es, n), s.quotes.Keys)
  {
    hide IsRun, At, Step, Enabled;
    if n == 0 {
      AtStart(Idle(s), es);
    } else {
      QuotesAreStored(s, es, n - 1);
      AtNext(Idle(s), es, n - 1);
      StepStores(At(Idle(s), es, n - 1), es[n - 1], s.quotes.Keys);
      StepKeepsCreates(At(Idle(s), es, n - 1), es[n - 1]);
    }
  }

  /** What the two have in common once both are over. */
  lemma TwoCreatesTraced(s: Store, es: seq<Event>, x: Race) returns (i0: nat, k0: nat, i1: nat, k1: nat)
    requires IsOver(Idle(s), es) && OnlyCreates(es) && OnlyThreads(es, 0, 1) && x == At(Idle(s), es, |es|)
    requires 0 in x.answers && 1 in x.answers && x.answers[0].Ok? && x.answers[1].Ok?
    ensures HasCounted(Idle(s), es, 0, x.answers[0].value.quoteId, i0, k0)
    ensures HasCounted(Idle(s), es, 1, x.answers[1].value.quoteId, i1, k1)
    ensures i0 != i1
  {
    hide IsRun, At, QuoteId, HasCounted, IsShaped;
    var r := Idle(s);
    CreatesAreTraced(s, es, |es|, 0);
    CreatesAreTraced(s, es, |es|, 1);
    i0, k0 :| HasCounted(r, es, 0, x.answers[0].value.quoteId, i0, k0);
    i1, k1 :| HasCounted(r, es, 1, x.answers[1].value.quoteId, i1, k1);
    TraceOf(r, es, 0, x.answers[0].value.quoteId, i0, k0);
    TraceOf(r, es, 1, x.answers[1].value.quoteId, i1, k1);
  }

  lemma {:induction false} AnswersAreTwo(s: Store, es: seq<Event>, n: nat)
    requires IsRun(Idle(s), es) && OnlyThreads(es, 0, 1) && n <= |es|
    ensures forall id :: id in At(Idle(s), es, n).answers ==> id == 0 || id == 1
  {
    hide IsRun, At, Enabled, Effect, Onward, IsShaped;
    if n == 0 {
      AtStart(Idle(s), es);
    } else {
      AnswersAreTwo(s, es, n - 1);
      AtNext(Idle(s), es, n - 1);
    }
  }

  lemma TwoCreatesStore(s: Store, es: seq<Event>, x: Race)
    requires IsOver(Idle(s), es) && OnlyCreates(es) && OnlyThreads(es, 0, 1) && x == At(Idle(s), es, |es|)
    requires 0 in x.answers && 1 in x.answers && x.answers[0].Ok? && x.answers[1].Ok?
    ensures x.store.quotes.Keys == s.quotes.Keys + {x.answers[0].value.quoteId, x.answers[1].value.quoteId}
  {
    hide IsRun, At, AreCreates;
    QuotesAreStored(s, es, |es|);
    AnswersAreTwo(s, es, |es|);
    assert IsStoredBy(x, 0, x.answers[0].value.quoteId) && IsStoredBy(x, 1, x.answers[1].value.quoteId);
  }

  lemma SafeCreatesAreGood(s: Store, es: seq<Event>, x: Race)
    requires Inv(s) && WellKeyed(s) && IsOver(Idle(s), es) && OnlyCreates(es) && IsSafeUpTo(Idle(s), es, |es|)
    requires x == At(Idle(s), es, |es|)
    ensures Inv(x.store)
  {
    hide At, Inv, WellKeyed, IsSafeStep, KeepsPromises, LastMirrorIsRight;
    forall q | q in x.store.versions
      ensures LastMirrorIsRight(Idle(s), es, |es|, q)
    {
      MirrorsAreRightByDefault(s, es, |es|, q);
    }
    RunLeavesGoodStoreIff(s, es);
  }

  /**
   Two creates, in any interleaving of their steps, are given one id if and only if the one takes it
   between the other's taking it and raising the counter.  Otherwise the store is good in the end, with
   both quotes; if they are given one id, one of the quotes is lost.
   */
  lemma TwoCreatesShareAnIdIff(s: Store, es: seq<Event>)
    requires Inv(s) && WellKeyed(s) && IsOver(Idle(s), es) && OnlyCreates(es) && OnlyThreads(es, 0, 1)
    requires var x := At(Idle(s), es, |es|);
             0 in x.answers && 1 in x.answers && x.answers[0].Ok? && x.answers[1].Ok?
    ensures var r, x := Idle(s), At(Idle(s), es, |es|);
            var q0, q1 := x.answers[0].value.quoteId, x.answers[1].value.quoteId;
            && (q0 == q1 <==> TakesWithin(r, es, 0, 1) || TakesWithin(r, es, 1, 0))
            && (q0 != q1 ==> IsSafeUpTo(r, es, |es|) && Inv(x.store))
            && x.store.quotes.Keys == s.quotes.Keys + {q0, q1}
  {
    hide IsRun, At, Inv, WellKeyed, HasCounted, IsSafeStep, KeepsPromises, TakesWithin, LastMirrorIsRight;
    var r, x := Idle(s), At(Idle(s), es, |es|);
    var q0, q1 := x.answers[0].value.quoteId, x.answers[1].value.quoteId;
    var i0, k0, i1, k1 := TwoCreatesTraced(s, es, x);
    TwoCreatesStore(s, es, x);
    WithinIff(s, es, 0, 1, q0, q1, i0, k0, i1, k1);
    WithinIff(s, es, 1, 0, q1, q0, i1, k1, i0, k0);
    if i0 < i1 {
      OrderDecides(s, es, 0, 1, q0, q1, i0, k0, i1, k1);
    } else {
      OrderDecides(s, es, 1, 0, q1, q0, i1, k1, i0, k0);
    }
    if q0 != q1 {
      if i0 < i1 {
        ApartIsSafe(s, es, 0, 1, q0, q1, i0, k0, i1, k1);
      } else {
        ApartIsSafe(s, es, 1, 0, q1, q0, i1, k1, i0, k0);
      }
      SafeCreatesAreGood(s, es, x);
    }
  }

  // ---------------------------------------------------------------- it does happen

  function Sharing(a: Call, b: Call): seq<Event> {
    [Begin(0, a), Begin(1, b), Go(0), Go(1), Go(0), Go(0), Go(0), Go(1), Go(1), Go(1)]
  }

  lemma OneStep(r: Race, es: seq<Event>, k: nat, x: Race, y: Race)
    requires k < |es| && At(r, es, k) == x && Enabled(x, es[k]) && Step(x, es[k]) == y
    ensures Enabled(At(r, es, k), es[k]) && At(r, es, k + 1) == y
  {
    hide Enabled, Step;
  }

  /** A thread that takes a step, as an update of the race. */
  lemma GoesOn(r: Race, id: ThreadId, th: Thread, y: Thread)
    requires NoEmptyHistory(r.store) && id in r.threads && r.threads[id] == th && IsShaped(th)
    requires Onward(r.store, th) == On(y)
    ensures Enabled(r, Go(id)) && Step(r, Go(id)) == Race(Effect(r.store, th), r.threads[id := y], r.answers)
  {
    hide Effect, Onward, IsShaped;
  }

  lemma IsDone(r: Race, id: ThreadId, th: Thread, answer: Result<Version, StoreError>)
    requires NoEmptyHistory(r.store) && id in r.threads && r.threads[id] == th && IsShaped(th)
    requires Onward(r.store, th) == Over(answer)
    ensures Enabled(r, Go(id))
    ensures Step(r, Go(id)) == Race(Effect(r.store, th), r.threads - {id}, r.answers[id := answer])
  {
    hide Effect, Onward, IsShaped;
  }

  lemma CreateStages(s: Store, call: Call, number: nat, w: Write)
    requires NoEmptyHistory(s) && call.command.CreateQuote? && w == Creation(call.command, number, call.now)
    ensures IsShaped(Taken(call, number)) && IsShaped(Counted(call, w)) && IsShaped(Described(call, w))
    ensures Onward(s, Taken(call, number)) == On(Counted(call, w))
    ensures Onward(s, Counted(call, w)) == On(Described(call, w)) && Onward(s, Described(call, w)) == Over(Ok(w.first))
    ensures NoEmptyHistory(Effect(s, Taken(call, number))) && NoEmptyHistory(Effect(s, Counted(call, w)))
    ensures NoEmptyHistory(Effect(s, Described(call, w))) && w.first.quoteId == QuoteId(number)
  {
    hide QuoteId;
    CreationIsDraft(call.command, number, call.now);
  }

  /** A create from where it has taken its id, with another create waiting or over. */
  lemma CreateFinishes(r: Race, es: seq<Event>, k: nat, x: Race, id: ThreadId, call: Call, number: nat)
    requires k + 3 <= |es| && es[k] == es[k + 1] == es[k + 2] == Go(id) && At(r, es, k) == x
    requires NoEmptyHistory(x.store) && id in x.threads && x.threads[id] == Taken(call, number)
    requires call.command.CreateQuote?
    ensures var w := Creation(call.command, number, call.now);
            && Enabled(At(r, es, k), es[k]) && Enabled(At(r, es, k + 1), es[k + 1])
            && Enabled(At(r, es, k + 2), es[k + 2])
            && At(r, es, k + 3).threads == x.threads - {id} && At(r, es, k + 3).answers == x.answers[id := Ok(w.first)]
            && NoEmptyHistory(At(r, es, k + 3).store) && w.first.quoteId == QuoteId(number)
  {
    hide At, QuoteId, Enabled, Step, Onward, Effect;
    var w := Creation(call.command, number, call.now);
    CreateStages(x.store, call, number, w);
    GoesOn(x, id, Taken(call, number), Counted(call, w));
    var y := Race(Effect(x.store, Taken(call, number)), x.threads[id := Counted(call, w)], x.answers);
    OneStep(r, es, k, x, y);
    CreateStages(y.store, call, number, w);
    GoesOn(y, id, Counted(call, w), Described(call, w));
    var z := Race(Effect(y.store, Counted(call, w)), x.threads[id := Described(call, w)], x.answers);
    assert y.threads[id := Described(call, w)] == z.threads;
    OneStep(r, es, k + 1, y, z);
    CreateStages(z.store, call, number, w);
    IsDone(z, id, Described(call, w), Ok(w.first));
    OneStep(r, es, k + 2, z, Race(Effect(z.store, Described(call, w)), z.threads - {id}, x.answers[id := Ok(w.first)]));
    assert z.threads - {id} == x.threads - {id};
  }

  lemma BothTake(s: Store, a: Call, b: Call)
    requires WellKeyed(s) && a.command.CreateQuote? && b.command.CreateQuote?
    requires FromWeb(a.command) && ValidateCustomer(a.facts, a.command.customerId).Ok?
    requires FromWeb(b.command) && ValidateCustomer(b.facts, b.command.customerId).Ok?
    ensures At(Idle(s), Sharing(a, b), 4) == Race(s, map[0 := Taken(a, s.nextId), 1 := Taken(b, s.nextId)], map[])
    ensures forall k :: 0 <= k < 4 ==> Enabled(At(Idle(s), Sharing(a, b), k), Sharing(a, b)[k])
  {
    hide At, ValidateCustomer;
    var r, es := Idle(s), Sharing(a, b);
    AtStart(r, es);
    var x1 := Race(s, map[0 := Entered(a)], map[]);
    OneStep(r, es, 0, r, x1);
    var x2 := Race(s, map[0 := Entered(a), 1 := Entered(b)], map[]);
    OneStep(r, es, 1, x1, x2);
    GoesOn(x2, 0, Entered(a), Taken(a, s.nextId));
    var x3 := Race(s, map[0 := Taken(a, s.nextId), 1 := Entered(b)], map[]);
    assert x2.threads[0 := Taken(a, s.nextId)] == x3.threads;
    OneStep(r, es, 2, x2, x3);
    GoesOn(x3, 1, Entered(b), Taken(b, s.nextId));
    var x4 := Race(s, map[0 := Taken(a, s.nextId), 1 := Taken(b, s.nextId)], map[]);
    assert x3.threads[1 := Taken(b, s.nextId)] == x4.threads;
    OneStep(r, es, 3, x3, x4);
    forall k | 0 <= k < 4
      ensures Enabled(At(r, es, k), es[k])
    {
      assert k == 0 || k == 1 || k == 2 || k == 3;
    }
  }

  /** From every state, two creates for valid customers can be given one id. */
  lemma TwoCreatesCanShareAnId(s: Store, a: Call, b: Call)
    requires WellKeyed(s) && a.command.CreateQuote? && b.command.CreateQuote?
    requires FromWeb(a.command) && ValidateCustomer(a.facts, a.command.customerId).Ok?
    requires FromWeb(b.command) && ValidateCustomer(b.facts, b.command.customerId).Ok?
    ensures var es, x := Sharing(a, b), At(Idle(s), Sharing(a, b), |Sharing(a, b)|);
            && IsOver(Idle(s), es) && OnlyCreates(es) && OnlyThreads(es, 0, 1)
            && 0 in x.answers && 1 in x.answers && x.answers[0].Ok? && x.answers[1].Ok?
            && x.answers[0].value.quoteId == QuoteId(s.nextId) == x.answers[1].value.quoteId
  {
    hide At, QuoteId, ValidateCustomer, Creation, Enabled, Effect, Onward;
    var r, es := Idle(s), Sharing(a, b);
    BothTake(s, a, b);
    var x4 := At(r, es, 4);
    NoneIsEmpty(s);
    CreateFinishes(r, es, 4, x4, 0, a, s.nextId);
    CreateFinishes(r, es, 7, At(r, es, 7), 1, b, s.nextId);
    forall k | 0 <= k < |es|
      ensures Enabled(At(r, es, k), es[k])
    {
      assert k <= 3 || k == 4 || k == 5 || k == 6 || k == 7 || k == 8 || k == 9;
    }
    assert At(r, es, 10).threads == map[];
  }
}
