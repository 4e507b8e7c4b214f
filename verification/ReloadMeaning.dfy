/**
 What a reload leaves (mock_qms/store.py:105-166), in terms of the fixtures: their quotes and drafts, the
 next free id, and where and why it stops.
 */
module ReloadMeaning {
  import opened Base
  import opened Decimals
  import opened QuoteModel

  // ---------------------------------------------------------------- vocabulary

  /** Why a fixture cannot be loaded, if it cannot. */
  function Obstacle(e: Fixture, facts: Facts): Option<StoreError> {
    match facts.party(e.customerId)
    case NoRecord => Some(UnknownCustomer)
    case Unreachable => Some(ServiceFailure)
    case Found(_) => if e.versions <= 0 then Some(EmptyHistory) else None
  }

  /** The quote of a fixture, with its drafts one after the other, chained and with nothing composed. */
  predicate IsLoaded(s: Store, e: Fixture, now: string) {
    && e.quoteId in s.quotes && e.quoteId in s.versions
    && s.quotes[e.quoteId] == Quote(e.quoteId, e.rfqId, e.customerId, e.currency, e.versions, Draft, now)
    && |s.versions[e.quoteId]| == e.versions
    && forall k :: 0 <= k < |s.versions[e.quoteId]| ==>
         s.versions[e.quoteId][k]
         == Version(e.quoteId, k + 1, if k == 0 then None else Some(k), Draft, e.currency, now, None, None,
                    Inputs(None, None, [], None, None, None), Outputs(None, None, None, None, None, []))
  }

  /** The number in an id: after a `Q` and a hyphen, nothing but digits. */
  predicate HasNumber(id: string, n: int) {
    && |id| > 2 && id[0] == 'Q' && id[1] == '-' && (forall k :: 2 <= k < |id| ==> '0' <= id[k] <= '9')
    && AllDigits(id[2..]) && n == ValueOf(id[2..])
  }

  /** One more than the highest number of a fixture, and at least 1001. */
  ghost predicate IsNextId(entries: seq<Fixture>, next: int) {
    && next >= 1001
    && (forall k, n: int :: 0 <= k < |entries| && HasNumber(entries[k].quoteId, n) ==> n < next)
    && (next == 1001 || exists k :: 0 <= k < |entries| && HasNumber(entries[k].quoteId, next - 1))
  }

  predicate IsLastOfItsId(entries: seq<Fixture>, k: int) {
    0 <= k < |entries| && forall l :: k < l < |entries| ==> entries[l].quoteId != entries[k].quoteId
  }

  function Ids(entries: seq<Fixture>): set<string> {
    set k | 0 <= k < |entries| :: entries[k].quoteId
  }

  /** Exactly the fixtures, the last one of an id counting. */
  ghost predicate HoldsExactly(s: Store, entries: seq<Fixture>, now: string) {
    && s.decisions == map[] && IsNextId(entries, s.nextId)
    && s.quotes.Keys == Ids(entries) && s.versions.Keys == Ids(entries)
    && forall k :: 0 <= k < |entries| && IsLastOfItsId(entries, k) ==> IsLoaded(s, entries[k], now)
  }

  // ---------------------------------------------------------------- one fixture

  lemma NumberIs(id: string, n: nat)
    ensures IdNumber(id) == Some(n) <==> HasNumber(id, n)
  {
    hide ValueOf;
    if |id| > 2 {
      assert id[..2] == [id[0], id[1]];
      assert forall k :: 2 <= k < |id| ==> id[2..][k - 2] == id[k];
    }
  }

  lemma NumbersAreNatural(id: string, n: int)
    requires HasNumber(id, n)
    ensures n >= 0
  {
  }

  lemma NextAfter(entries: seq<Fixture>, next: nat, e: Fixture)
    requires IsNextId(entries, next)
    ensures IsNextId(entries + [e], match IdNumber(e.quoteId)
                                    case Some(n) => MaxInt(next, n + 1)
                                    case None => next)
  {
    hide HasNumber, IdNumber;
    var all, number := entries + [e], IdNumber(e.quoteId);
    assert all[|entries|] == e && forall k :: 0 <= k < |entries| ==> all[k] == entries[k];
    forall n: int | HasNumber(e.quoteId, n)
      ensures number == Some(n)
    {
      NumbersAreNatural(e.quoteId, n);
      NumberIs(e.quoteId, n);
    }
    if number.Some? {
      NumberIs(e.quoteId, number.value);
      assert HasNumber(all[|entries|].quoteId, number.value);
    }
    if next != 1001 {
      var k :| 0 <= k < |entries| && HasNumber(entries[k].quoteId, next - 1);
      assert HasNumber(all[k].quoteId, next - 1);
    }
  }

  lemma OneMoreId(entries: seq<Fixture>, e: Fixture)
    ensures Ids(entries + [e]) == Ids(entries) + {e.quoteId}
  {
    var all := entries + [e];
    assert all[|entries|] == e && forall k :: 0 <= k < |entries| ==> all[k] == entries[k];
  }

  lemma SeedLoads(s: Store, e: Fixture, now: string)
    requires e.versions >= 1
    ensures var t := Seed(s, e, now);
            && IsLoaded(t, e, now) && t.decisions == s.decisions
            && t.quotes.Keys == s.quotes.Keys + {e.quoteId} && t.versions.Keys == s.versions.Keys + {e.quoteId}
            && (forall q :: q in s.quotes && q != e.quoteId ==> t.quotes[q] == s.quotes[q])
            && (forall q :: q in s.versions && q != e.quoteId ==> t.versions[q] == s.versions[q])
            && t.nextId == match IdNumber(e.quoteId)
                           case Some(n) => MaxInt(s.nextId, n + 1)
                           case None => s.nextId
  {
    hide IdNumber;
  }

  lemma LoadedStays(s: Store, t: Store, e: Fixture, now: string)
    requires IsLoaded(s, e, now) && e.quoteId in t.quotes && e.quoteId in t.versions
    requires t.quotes[e.quoteId] == s.quotes[e.quoteId] && t.versions[e.quoteId] == s.versions[e.quoteId]
    ensures IsLoaded(t, e, now)
  {
  }

  lemma LastAmongAll(entries: seq<Fixture>, e: Fixture, k: int)
    requires IsLastOfItsId(entries + [e], k) && k < |entries|
    ensures IsLastOfItsId(entries, k) && entries[k].quoteId != e.quoteId
  {
    var all := entries + [e];
    assert all[|entries|] == e && forall l :: 0 <= l < |entries| ==> all[l] == entries[l];
  }

  lemma IdIsKnown(entries: seq<Fixture>, k: int)
    requires 0 <= k < |entries|
    ensures entries[k].quoteId in Ids(entries)
  {
  }

  lemma OneMoreFixture(s: Store, entries: seq<Fixture>, e: Fixture, now: string)
    requires HoldsExactly(s, entries, now) && e.versions >= 1
    ensures HoldsExactly(Seed(s, e, now), entries + [e], now)
  {
    hide Seed, IsNextId, IsLoaded, Ids, IsLastOfItsId;
    var t, all := Seed(s, e, now), entries + [e];
    SeedLoads(s, e, now);
    NextAfter(entries, s.nextId, e);
    OneMoreId(entries, e);
    forall k | 0 <= k < |all| && IsLastOfItsId(all, k)
      ensures IsLoaded(t, all[k], now)
    {
      if k < |entries| {
        LastAmongAll(entries, e, k);
        IdIsKnown(entries, k);
        LoadedStays(s, t, entries[k], now);
      }
    }
  }

  // ---------------------------------------------------------------- all fixtures

  lemma NothingLoaded(facts: Facts, now: string)
    ensures Reloaded([], facts, now) == (EMPTY, None) && HoldsExactly(EMPTY, [], now)
  {
  }

  lemma ReloadOneMore(entries: seq<Fixture>, facts: Facts, now: string)
    requires entries != []
    ensures var before, e := Reloaded(entries[..|entries| - 1], facts, now), Last(entries);
            && (before.1.Some? ==> Reloaded(entries, facts, now) == before)
            && (before.1.None? && Obstacle(e, facts).None? ==>
                  Reloaded(entries, facts, now) == (Seed(before.0, e, now), None))
            && (before.1.None? && Obstacle(e, facts).Some? ==> Reloaded(entries, facts, now).1 == Obstacle(e, facts))
            && (before.1.None? && Obstacle(e, facts).Some? && Obstacle(e, facts) != Some(EmptyHistory) ==>
                  Reloaded(entries, facts, now).0 == before.0)
  {
    hide Seed, PutQuote;
  }

  /**
   A reload that meets no obstacle stores exactly the fixtures, the last one of an id counting, with an
   empty log and the next free id.
   */
  lemma {:induction false} ReloadMeans(entries: seq<Fixture>, facts: Facts, now: string)
    requires forall k :: 0 <= k < |entries| ==> Obstacle(entries[k], facts).None?
    ensures Reloaded(entries, facts, now).1 == None && HoldsExactly(Reloaded(entries, facts, now).0, entries, now)
  {
    hide Seed, HoldsExactly, Reloaded;
    if entries == [] {
      NothingLoaded(facts, now);
    } else {
      var n := |entries| - 1;
      ReloadOneMore(entries, facts, now);
      ReloadMeans(entries[..n], facts, now);
      OneMoreFixture(Reloaded(entries[..n], facts, now).0, entries[..n], entries[n], now);
      assert entries == entries[..n] + [entries[n]];
    }
  }

  /** One that meets an obstacle keeps what it has loaded before, and fails with it. */
  lemma {:induction false} ReloadStopsAt(entries: seq<Fixture>, k: nat, facts: Facts, now: string)
    requires k < |entries| && Obstacle(entries[k], facts).Some?
    requires forall j :: 0 <= j < k ==> Obstacle(entries[j], facts).None?
    ensures Reloaded(entries, facts, now).1 == Obstacle(entries[k], facts)
    ensures Obstacle(entries[k], facts) != Some(EmptyHistory) ==>
              HoldsExactly(Reloaded(entries, facts, now).0, entries[..k], now)
    decreases |entries|
  {
    hide Seed, HoldsExactly, Reloaded, Obstacle;
    var n := |entries| - 1;
    ReloadOneMore(entries, facts, now);
    if k < n {
      ReloadStopsAt(entries[..n], k, facts, now);
      assert entries[..n][..k] == entries[..k];
    } else {
      assert entries[..n] == entries[..k];
      ReloadMeans(entries[..k], facts, now);
    }
  }
}
