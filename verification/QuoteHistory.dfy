/**
 What the quote store's history must never take back, and when a write keeps to that: a call reads
 first and writes later, without looking again.
 */
module QuoteHistory {
  import opened Base
  import opened Calculator
  import opened Decimals
  import opened QuoteInvariant
  import opened QuoteModel

  // ---------------------------------------------------------------- evolution

  function Stage(s: Status): nat {
    match s
    case Draft => 0
    case Priced => 1
    case ApprovalRequired => 2
    case _ => 3
  }

  /** Forward only, and decided statuses are absorbing. */
  predicate StatusReaches(before: Status, after: Status) {
    before == after || Stage(before) < Stage(after)
  }

  /** Identity never changes; commercial content not once the version has left draft. */
  predicate VersionEvolves(v: Version, w: Version) {
    && SameIdentity(v, w)
    && StatusReaches(v.status, w.status)
    && (!v.status.Draft? ==> w.inputs == v.inputs && w.outputs == v.outputs)
  }

  predicate HistoryEvolves(vs: seq<Version>, ws: seq<Version>) {
    |vs| <= |ws| && forall k :: 0 <= k < |vs| ==> VersionEvolves(vs[k], ws[k])
  }

  predicate SameQuote(p: Quote, q: Quote) {
    && q.quoteId == p.quoteId && q.rfqId == p.rfqId && q.customerId == p.customerId && q.currency == p.currency
    && q.createdAt == p.createdAt
  }

  /** No quote and no version disappears, no quote is another's, and no decision record is changed. */
  predicate StoreEvolves(s: Store, t: Store) {
    && s.nextId <= t.nextId
    && (forall q :: q in s.quotes ==> q in t.quotes && SameQuote(s.quotes[q], t.quotes[q]))
    && (forall q :: q in s.versions ==> q in t.versions && HistoryEvolves(s.versions[q], t.versions[q]))
    && (forall key :: key in s.decisions ==> key in t.decisions && t.decisions[key] == s.decisions[key])
  }

  lemma EvolvesToItself(s: Store)
    ensures StoreEvolves(s, s)
  {
  }

  lemma VersionEvolvesOnwards(u: Version, v: Version, w: Version)
    requires VersionEvolves(u, v) && VersionEvolves(v, w)
    ensures VersionEvolves(u, w)
  {
  }

  lemma HistoryEvolvesOnwards(us: seq<Version>, vs: seq<Version>, ws: seq<Version>)
    requires HistoryEvolves(us, vs) && HistoryEvolves(vs, ws)
    ensures HistoryEvolves(us, ws)
  {
    hide SameIdentity, StatusReaches;
    forall k | 0 <= k < |us|
      ensures VersionEvolves(us[k], ws[k])
    {
      assert VersionEvolves(us[k], vs[k]) && VersionEvolves(vs[k], ws[k]);
      VersionEvolvesOnwards(us[k], vs[k], ws[k]);
    }
  }

  lemma EvolvesOnwards(s: Store, t: Store, u: Store)
    requires StoreEvolves(s, t) && StoreEvolves(t, u)
    ensures StoreEvolves(s, u)
  {
    hide HistoryEvolves;
    forall q | q in s.versions
      ensures q in u.versions && HistoryEvolves(s.versions[q], u.versions[q])
    {
      HistoryEvolvesOnwards(s.versions[q], t.versions[q], u.versions[q]);
    }
  }

  lemma {:induction false} AppendedHistoryEvolves(vs: seq<Version>, more: seq<Version>)
    ensures HistoryEvolves(vs, vs + more)
  {
  }

  lemma RewrittenHistoryEvolves(vs: seq<Version>, k: nat, v: Version)
    requires k < |vs| && VersionEvolves(vs[k], v)
    ensures HistoryEvolves(vs, vs[k := v])
  {
  }

  lemma UntouchedHistoriesEvolve(s: Store, t: Store, except: string)
    requires s.nextId <= t.nextId
    requires forall key :: key in s.decisions ==> key in t.decisions && t.decisions[key] == s.decisions[key]
    requires forall q :: q in s.quotes ==> q in t.quotes && SameQuote(s.quotes[q], t.quotes[q])
    requires forall q :: q in s.versions ==> q in t.versions
    requires forall q :: q in s.versions && q != except ==> t.versions[q] == s.versions[q]
    requires except in s.versions ==> HistoryEvolves(s.versions[except], t.versions[except])
    ensures StoreEvolves(s, t)
  {
    hide VersionEvolves, SameQuote;
    forall q | q in s.versions
      ensures HistoryEvolves(s.versions[q], t.versions[q])
    {
      if q != except {
        AppendedHistoryEvolves(s.versions[q], []);
        assert s.versions[q] + [] == s.versions[q];
      }
    }
  }

  // ---------------------------------------------------------------- what a prepared write still is

  /** What is true of a write when it is prepared, and stays true while the store evolves. */
  predicate Fits(t: Store, w: Write) {
    match w
    case Rewrite(q, base, updated, record) =>
      && q in t.versions && 1 <= base.number <= |t.versions[q]|
      && VersionEvolves(base, t.versions[q][base.number - 1])
      && SameIdentity(base, updated) && StatusStep(base.status, updated.status)
      && (base.status.Draft? || (updated.inputs == base.inputs && updated.outputs == base.outputs))
      && Frozen(updated, Snapshot(t.versions[q], base.number - 1))
      && (record.Some? <==> IsDecided(updated.status))
      && (record.Some? ==> record.value.decision == updated.status)
    case Append(q, draft) =>
      && q in t.versions && 2 <= draft.number <= |t.versions[q]| + 1
      && draft.quoteId == q && draft.prior == Some(draft.number - 1)
      && draft.status.Draft? && draft.outputs == NO_OUTPUTS
    case Insert(quote, first) =>
      && HistoryInv(quote.quoteId, quote, [first]) && first.status.Draft? && first.inputs == NO_INPUTS
      && IdBelow(quote.quoteId, t.nextId + 1)
  }

  /** A rate snapshot that is there stays; one that is not may appear. */
  lemma SnapshotOnlyFillsIn(s: Store, t: Store, q: string, k: nat)
    requires Histories(s) && StoreEvolves(s, t) && q in s.versions && k < |s.versions[q]|
    requires q in t.versions && k < |t.versions[q]|
    ensures Snapshot(s.versions[q], k).None? || Snapshot(t.versions[q], k) == Snapshot(s.versions[q], k)
  {
    hide Replays, SameQuote;
    if k > 0 {
      assert VersionInv(q, s.versions[q], k - 1);
      assert VersionEvolves(s.versions[q][k - 1], t.versions[q][k - 1]);
    }
  }

  lemma FitsEvolves(s: Store, t: Store, w: Write)
    requires Histories(s) && StoreEvolves(s, t) && Fits(s, w)
    ensures Fits(t, w)
  {
    hide Frozen, VersionEvolves, SameIdentity, Histories, SameQuote, IdNumber, HistoryInv;
    match w
    case Rewrite(q, base, updated, record) =>
      var k := base.number - 1;
      assert HistoryEvolves(s.versions[q], t.versions[q]);
      VersionEvolvesOnwards(base, s.versions[q][k], t.versions[q][k]);
      SnapshotOnlyFillsIn(s, t, q, k);
      LaterRateIsHarmless(updated, Snapshot(s.versions[q], k), Snapshot(t.versions[q], k));
    case Append(q, draft) =>
      assert HistoryEvolves(s.versions[q], t.versions[q]);
    case Insert(quote, first) =>
  }

  lemma PreparedInsertFits(seen: Store, later: Store, c: Command, facts: Facts, now: string)
    requires WellKeyed(seen) && StoreEvolves(seen, later) && c.CreateQuote?
    requires Prepare(seen, later, c, facts, now).Ok?
    ensures Fits(later, Prepare(seen, later, c, facts, now).value)
  {
    hide ValidateCustomer, QuoteId, IdNumber, SameQuote, HistoryEvolves;
    QuoteIdReadsBack(seen.nextId);
  }

  lemma PreparedAppendFits(seen: Store, later: Store, c: Command, facts: Facts, now: string)
    requires Inv(seen) && WellKeyed(seen) && StoreEvolves(seen, later) && c.CreateNextVersion?
    requires Prepare(seen, later, c, facts, now).Ok?
    ensures Fits(later, Prepare(seen, later, c, facts, now).value)
  {
    hide VersionInv, LogInv, IdsInv, VersionEvolves, SameQuote;
    var vs := seen.versions[c.quoteId];
    assert HistoryInv(c.quoteId, seen.quotes[c.quoteId], vs) && HistoryEvolves(vs, later.versions[c.quoteId]);
    LastNumber(c.quoteId, seen.quotes[c.quoteId], vs);
  }

  /** The shape of a prepared rewrite. */
  lemma PreparedRewriteIs(seen: Store, later: Store, c: Command, facts: Facts, now: string)
    requires WellKeyed(seen) && !c.CreateQuote? && !c.CreateNextVersion? && Prepare(seen, later, c, facts, now).Ok?
    ensures var w := Prepare(seen, later, c, facts, now).value;
            && w.Rewrite? && w.quoteId == c.quoteId && VersionIn(seen, c.quoteId, c.version, Asked(c)) == Ok(w.base)
            && SameIdentity(w.base, w.updated) && StatusStep(w.base.status, w.updated.status)
            && (c.Price? <==> w.updated.status == Priced)
            && (c.Price? ==> PriceRead(seen, later, c.quoteId, c.version, facts) == Ok(w.updated))
            && (c.Price? ==> w.updated.inputs == w.base.inputs)
            && (!c.Price? ==> w.updated.outputs == w.base.outputs)
            && (c.Submit? || c.Decide? ==> w.updated == w.base.(status := w.updated.status))
            && (w.record.Some? <==> c.Decide?) && (IsDecided(w.updated.status) <==> c.Decide?)
            && (c.Decide? ==> w.record.value.decision == w.updated.status == c.decision)
            && (w.updated.status.Draft? <==> c.ComposeRecommendation? || c.ComposePricingInputs?)
            && (w.updated.status.Draft? ==> w.updated == w.base.(inputs := Composed(w.base.inputs, c)))
  {
    hide GetVersion, ResolveRates, Calculate, RouteIsPricable, PriorOf, Composed;
  }

  lemma SameThroughEvolution(v: Version, w: Version)
    requires VersionEvolves(v, w)
    ensures SameIdentity(v, w)
  {
  }

  lemma PricedIsFrozen(v: Version, snapshot: Option<real>)
    requires Replays(v, snapshot) && v.status == Priced
    ensures Frozen(v, snapshot)
  {
    hide Replays;
  }

  lemma PreparedRewriteFits(seen: Store, later: Store, c: Command, facts: Facts, now: string)
    requires Inv(seen) && WellKeyed(seen) && Inv(later) && StoreEvolves(seen, later)
    requires !c.CreateQuote? && !c.CreateNextVersion? && Prepare(seen, later, c, facts, now).Ok?
    ensures Fits(later, Prepare(seen, later, c, facts, now).value)
  {
    hide Prepare, Histories, LogInv, IdsInv, VersionIn, PriceRead, Frozen, VersionEvolves, SameQuote;
    var w := Prepare(seen, later, c, facts, now).value;
    var q, k := c.quoteId, c.version - 1;
    PreparedRewriteIs(seen, later, c, facts, now);
    FoundIsFrozen(seen, q, c.version, Asked(c));
    assert HistoryEvolves(seen.versions[q], later.versions[q]);
    SameThroughEvolution(w.base, later.versions[q][k]);
    if c.Price? {
      PricedReplays(seen, later, q, c.version, facts);
      PricedIsFrozen(w.updated, Snapshot(later.versions[q], k));
    } else {
      StatusAloneKeepsFrozen(w.base, w.updated, Snapshot(seen.versions[q], k));
      SnapshotOnlyFillsIn(seen, later, q, k);
      LaterRateIsHarmless(w.updated, Snapshot(seen.versions[q], k), Snapshot(later.versions[q], k));
    }
  }

  /** Whatever a call prepares fits, when the version was read in `seen` and the rest by `later`. */
  lemma PreparedFits(seen: Store, later: Store, c: Command, facts: Facts, now: string)
    requires Inv(seen) && WellKeyed(seen) && Inv(later) && StoreEvolves(seen, later)
    requires Prepare(seen, later, c, facts, now).Ok?
    ensures Fits(later, Prepare(seen, later, c, facts, now).value)
  {
    hide Prepare, Fits, Inv, StoreEvolves;
    if c.CreateQuote? {
      PreparedInsertFits(seen, later, c, facts, now);
    } else if c.CreateNextVersion? {
      PreparedAppendFits(seen, later, c, facts, now);
    } else {
      PreparedRewriteFits(seen, later, c, facts, now);
    }
  }

  // ---------------------------------------------------------------- when a late write is lawful

  /** What every write promises: the invariant, the history, and one more quote for a new one. */
  ghost predicate Lawful(t: Store, w: Write, u: Store) {
    && Inv(u) && StoreEvolves(t, u)
    && (w.Insert? ==> |u.quotes| == |t.quotes| + 1)
  }

  /**
   The look that the code does not take before it writes: the version is in the status in which it
   was read, or carries the result already; the draft's number is the next one; the id is free.
   */
  predicate IsSafe(t: Store, w: Write) {
    match w
    case Rewrite(q, base, updated, record) =>
      var current := GetVersion(t, q, base.number);
      && current.Some?
      && (current.value.status == base.status || (current.value == updated && record.None?))
    case Append(q, draft) => q in t.versions && |t.versions[q]| == draft.number - 1
    case Insert(quote, _) => quote.quoteId !in t.versions
  }

  lemma MisnumberedIsBad(q: string, quote: Quote, vs: seq<Version>, k: nat)
    requires k < |vs| && vs[k].number != k + 1
    ensures !HistoryInv(q, quote, vs)
  {
    hide Frozen;
    assert !VersionInv(q, vs, k);
  }

  lemma AppendIsLawfulIff(t: Store, w: Write)
    requires Inv(t) && WellKeyed(t) && Fits(t, w) && w.Append?
    ensures Lawful(t, w, Commit(t, w)) <==> IsSafe(t, w)
    ensures Inv(Commit(t, w)) <==> IsSafe(t, w)
  {
    hide LogInv, IdsInv, VersionInv, VersionEvolves;
    var q, u := w.quoteId, Commit(t, w);
    if |t.versions[q]| == w.draft.number - 1 {
      AppendKeepsInv(t, q, w.draft);
      AppendedHistoryEvolves(t.versions[q], [w.draft]);
      UntouchedHistoriesEvolve(t, u, q);
    } else {
      MisnumberedIsBad(q, u.quotes[q], u.versions[q], |t.versions[q]|);
    }
  }

  lemma InsertIsLawfulIff(t: Store, w: Write)
    requires Inv(t) && WellKeyed(t) && Fits(t, w) && w.Insert?
    ensures Lawful(t, w, Commit(t, w)) <==> IsSafe(t, w)
  {
    hide LogInv, IdsInv, VersionInv, VersionEvolves, HistoryInv, IdNumber, Inv;
    var id, u := w.quote.quoteId, Commit(t, w);
    assert u.quotes.Keys == t.quotes.Keys + {id};
    if id !in t.versions {
      InsertKeepsInv(t, w.quote, w.first);
      UntouchedHistoriesEvolve(t, u, id);
    } else {
      assert u.quotes.Keys == t.quotes.Keys;
    }
  }

  lemma SameNumber(v: Version, w: Version)
    requires SameIdentity(v, w)
    ensures w.number == v.number
  {
  }

  lemma VersionAtInv(t: Store, q: string, number: int)
    requires Inv(t) && q in t.versions && 1 <= number <= |t.versions[q]|
    ensures GetVersion(t, q, number) == Some(t.versions[q][number - 1])
    ensures t.versions[q][number - 1].quoteId == q && t.versions[q][number - 1].number == number
  {
    hide Frozen, GetVersion, LogInv, IdsInv;
    VersionAt(t, q, number);
    assert VersionInv(q, t.versions[q], number - 1);
  }

  /** What a rewrite leaves, field by field. */
  lemma RewriteShape(t: Store, w: Write)
    requires Inv(t) && WellKeyed(t) && w.Rewrite? && w.quoteId in t.versions
    requires 1 <= w.base.number <= |t.versions[w.quoteId]| && w.updated.number == w.base.number
    ensures var u, q, k := Commit(t, w), w.quoteId, w.base.number - 1;
            && u.versions == t.versions[q := t.versions[q][k := w.updated]]
            && u.quotes == t.quotes[q := Mirrored(t.quotes[q], t.versions[q], k, w.updated)]
            && u.decisions == (if w.record.Some? then Logged(t.decisions, DecisionKey(q, w.base.number), w.record.value)
                               else t.decisions)
            && u.nextId == t.nextId
            && (t.versions[q][k] == w.updated && w.record.None? ==> u == t)
  {
    hide LogInv, IdsInv, Frozen, DecisionKey, IndexOf, Logged, GetVersion;
    var q, k := w.quoteId, w.base.number - 1;
    VersionAt(t, q, w.base.number);
    assert HistoryInv(q, t.quotes[q], t.versions[q]);
    LastNumber(q, t.quotes[q], t.versions[q]);
    assert t.versions[q][k := t.versions[q][k]] == t.versions[q];
    assert t.quotes[q := t.quotes[q]] == t.quotes && t.versions[q := t.versions[q]] == t.versions;
  }

  /** A rewrite of one version is an evolution of the store exactly if it is one of that version and its log. */
  lemma RewriteEvolvesIff(t: Store, w: Write)
    requires Inv(t) && WellKeyed(t) && w.Rewrite? && w.quoteId in t.versions
    requires 1 <= w.base.number <= |t.versions[w.quoteId]| && w.updated.number == w.base.number
    ensures StoreEvolves(t, Commit(t, w)) ==> VersionEvolves(t.versions[w.quoteId][w.base.number - 1], w.updated)
    ensures VersionEvolves(t.versions[w.quoteId][w.base.number - 1], w.updated)
            && (w.record.Some? ==> DecisionKey(w.quoteId, w.base.number) !in t.decisions) ==>
              StoreEvolves(t, Commit(t, w))
  {
    hide Inv, Commit, VersionEvolves, DecisionKey;
    var q, k, u := w.quoteId, w.base.number - 1, Commit(t, w);
    RewriteShape(t, w);
    if StoreEvolves(t, u) {
      assert u.versions[q][k] == w.updated;
    }
    if VersionEvolves(t.versions[q][k], w.updated)
       && (w.record.Some? ==> DecisionKey(q, w.base.number) !in t.decisions) {
      RewrittenHistoryEvolves(t.versions[q], k, w.updated);
      UntouchedHistoriesEvolve(t, u, q);
    }
  }

  /** Moving a version on by one step is an evolution exactly if it has not moved on itself. */
  lemma StepEvolvesIff(base: Version, current: Version, updated: Version)
    requires VersionEvolves(base, current) && SameIdentity(base, updated) && StatusStep(base.status, updated.status)
    requires base.status.Draft? || (updated.inputs == base.inputs && updated.outputs == base.outputs)
    ensures VersionEvolves(current, updated) <==> current.status == base.status || current == updated
  {
  }

  lemma RewriteFitsMayBecome(t: Store, w: Write)
    requires Inv(t) && Fits(t, w) && w.Rewrite?
    requires t.versions[w.quoteId][w.base.number - 1].status == w.base.status
    ensures MayBecome(t.versions[w.quoteId], w.base.number - 1, w.updated)
    ensures !IsDecided(w.base.status)
    ensures DecisionKey(w.quoteId, w.base.number) !in t.decisions
  {
    hide Frozen, Histories, IdsInv, DecisionKey;
    assert LogMatches(t, w.quoteId, w.base.number);
  }

  lemma TwoRecordsAreBad(t: Store, u: Store, q: string, number: int, record: DecisionRecord)
    requires Inv(t) && q in t.versions && 1 <= number <= |t.versions[q]| && IsDecided(t.versions[q][number - 1].status)
    requires u.decisions == Logged(t.decisions, DecisionKey(q, number), record)
    ensures |u.decisions[DecisionKey(q, number)]| == 2 && !Inv(u)
  {
    hide Histories, IdsInv, DecisionKey;
    assert LogMatches(t, q, number);
    assert !LogMatches(u, q, number);
  }

  lemma RewriteIsLawfulIff(t: Store, w: Write)
    requires Inv(t) && WellKeyed(t) && Fits(t, w) && w.Rewrite?
    ensures Lawful(t, w, Commit(t, w)) <==> IsSafe(t, w)
  {
    hide Inv, Histories, LogInv, IdsInv, Frozen, Commit, VersionEvolves, SameIdentity, GetVersion, StatusStep,
      WellKeyed, StoreEvolves, LogMatches;
    var q, n := w.quoteId, w.base.number;
    var current, u := t.versions[q][n - 1], Commit(t, w);
    VersionAtInv(t, q, n);
    SameNumber(w.base, w.updated);
    RewriteShape(t, w);
    RewriteEvolvesIff(t, w);
    StepEvolvesIff(w.base, current, w.updated);
    if current == w.updated && w.record.None? {
      assert u == t;
    } else if current.status == w.base.status {
      RewriteFitsMayBecome(t, w);
      RewriteKeepsInv(t, q, n, w);
    } else if VersionEvolves(current, w.updated) {
      assert current == w.updated && w.record.Some?;
      TwoRecordsAreBad(t, u, q, n, w.record.value);
    }
  }

  /** A late write is lawful if and only if it is safe: if one more look would have let it pass. */
  lemma CommitIsLawfulIff(t: Store, w: Write)
    requires Inv(t) && WellKeyed(t) && Fits(t, w)
    ensures Lawful(t, w, Commit(t, w)) <==> IsSafe(t, w)
  {
    hide Inv, Fits, Commit, IsSafe, Lawful, WellKeyed;
    match w
    case Rewrite(_, _, _, _) => RewriteIsLawfulIff(t, w);
    case Append(_, _) => AppendIsLawfulIff(t, w);
    case Insert(_, _) => InsertIsLawfulIff(t, w);
  }

  // ---------------------------------------------------------------- calls that nothing comes in between of

  lemma CreatesNextId(seen: Store, later: Store, c: Command, facts: Facts, now: string)
    requires WellKeyed(seen) && c.CreateQuote? && Prepare(seen, later, c, facts, now).Ok?
    ensures var w := Prepare(seen, later, c, facts, now).value; w.Insert? && w.quote.quoteId == QuoteId(seen.nextId)
  {
    hide QuoteId, ValidateCustomer;
  }

  lemma SupersedesLatest(seen: Store, later: Store, c: Command, facts: Facts, now: string)
    requires Inv(seen) && WellKeyed(seen) && c.CreateNextVersion?
    ensures Prepare(seen, later, c, facts, now).Ok? <==>
              c.quoteId in seen.versions && c.expectedLatest == c.priorVersion == |seen.versions[c.quoteId]|
    ensures Prepare(seen, later, c, facts, now).Ok? ==>
              Prepare(seen, later, c, facts, now).value
              == Append(c.quoteId, NextDraft(Last(seen.versions[c.quoteId]), c, now))
    ensures Prepare(seen, later, c, facts, now).Ok? ==>
              NextDraft(Last(seen.versions[c.quoteId]), c, now).number == c.expectedLatest + 1
    ensures c.quoteId in seen.versions && Prepare(seen, later, c, facts, now).Err? ==>
              Prepare(seen, later, c, facts, now) == Err(VersionConflict)
  {
    hide VersionInv, LogInv, IdsInv;
    if c.quoteId in seen.versions {
      assert HistoryInv(c.quoteId, seen.quotes[c.quoteId], seen.versions[c.quoteId]);
      LastNumber(c.quoteId, seen.quotes[c.quoteId], seen.versions[c.quoteId]);
    }
  }

  /** A call that writes at once what it has just prepared is always safe. */
  lemma ImmediateWriteIsSafe(s: Store, c: Command, facts: Facts, now: string)
    requires Inv(s) && WellKeyed(s) && Prepare(s, s, c, facts, now).Ok?
    ensures Fits(s, Prepare(s, s, c, facts, now).value) && IsSafe(s, Prepare(s, s, c, facts, now).value)
  {
    hide Prepare, Fits, Histories, LogInv, IdsInv, StoreEvolves, GetVersion;
    EvolvesToItself(s);
    PreparedFits(s, s, c, facts, now);
    if c.CreateQuote? {
      FreshId(s);
      CreatesNextId(s, s, c, facts, now);
    } else if c.CreateNextVersion? {
      SupersedesLatest(s, s, c, facts, now);
    } else {
      PreparedRewriteIs(s, s, c, facts, now);
      FoundIsFrozen(s, c.quoteId, c.version, Asked(c));
      VersionAtInv(s, c.quoteId, c.version);
    }
  }

  /** Every command that runs undisturbed, successful or refused, keeps the invariant and the history. */
  lemma ApplyEvolves(s: Store, c: Command, facts: Facts, now: string)
    requires Inv(s) && WellKeyed(s)
    ensures Inv(After(s, c, facts, now)) && WellKeyed(After(s, c, facts, now))
    ensures StoreEvolves(s, After(s, c, facts, now))
  {
    hide Inv, Prepare, Commit, StoreEvolves, Fits, IsSafe, WellKeyed;
    if Prepare(s, s, c, facts, now).Ok? {
      ImmediateWriteIsSafe(s, c, facts, now);
      CommitIsLawfulIff(s, Prepare(s, s, c, facts, now).value);
    } else {
      EvolvesToItself(s);
    }
    KeysAgree(After(s, c, facts, now));
  }

  lemma FoundIsFrozenInv(s: Store, q: string, number: int, status: Status)
    requires Inv(s) && VersionIn(s, q, number, status).Ok?
    ensures q in s.versions && 1 <= number <= |s.versions[q]|
    ensures VersionIn(s, q, number, status).value == s.versions[q][number - 1]
    ensures s.versions[q][number - 1].number == number && s.versions[q][number - 1].status == status
  {
    hide Histories, LogInv, IdsInv, VersionIn;
    FoundIsFrozen(s, q, number, status);
  }

  /** What a command on a version stores is what it prepared. */
  lemma RevisionIsStored(s: Store, c: Command, facts: Facts, now: string)
    requires Inv(s) && WellKeyed(s) && !c.CreateQuote? && !c.CreateNextVersion? && Prepare(s, s, c, facts, now).Ok?
    ensures Inv(After(s, c, facts, now)) && WellKeyed(After(s, c, facts, now))
    ensures GetVersion(After(s, c, facts, now), c.quoteId, c.version)
            == Some(Prepare(s, s, c, facts, now).value.updated)
  {
    hide Prepare, Commit, Inv, GetVersion, WellKeyed, StoreEvolves, VersionIn;
    var w := Prepare(s, s, c, facts, now).value;
    ApplyEvolves(s, c, facts, now);
    PreparedRewriteIs(s, s, c, facts, now);
    FoundIsFrozenInv(s, c.quoteId, c.version, Asked(c));
    RewriteShape(s, w);
    VersionAtInv(After(s, c, facts, now), c.quoteId, c.version);
  }

  /**
   An undisturbed supersede succeeds exactly when the caller knows how many versions there are.
   Then it adds one draft at the end, carrying over what was composed only if asked and nothing
   that was computed, and leaves everything else alone.
   */
  lemma SupersedeAppendsOneDraft(s: Store, c: Command, facts: Facts, now: string)
    requires Inv(s) && WellKeyed(s) && c.CreateNextVersion?
    ensures Reported(s, c, facts, now).Ok? <==>
              c.quoteId in s.versions && c.expectedLatest == c.priorVersion == |s.versions[c.quoteId]|
    ensures Reported(s, c, facts, now).Err? ==> After(s, c, facts, now) == s
    ensures Reported(s, c, facts, now).Ok? ==>
              var t := After(s, c, facts, now);
              var vs := s.versions[c.quoteId];
              && t.versions.Keys == s.versions.Keys
              && (forall q :: q in s.versions && q != c.quoteId ==> t.versions[q] == s.versions[q])
              && |t.versions[c.quoteId]| == |vs| + 1 && vs <= t.versions[c.quoteId]
              && var draft := t.versions[c.quoteId][|vs|];
                 && draft.status.Draft? && draft.outputs == NO_OUTPUTS
                 && draft.number == |vs| + 1 && draft.prior == Some(|vs|)
                 && draft.inputs == (if c.copyFromPrior then vs[|vs| - 1].inputs else NO_INPUTS)
  {
    hide VersionInv, LogInv, IdsInv, HistoryInv;
    SupersedesLatest(s, s, c, facts, now);
  }
}
