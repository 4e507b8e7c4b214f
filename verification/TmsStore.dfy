/**
 The topology store (mock_tms/store.py): the edge pool, the routes, the two indexes and the
 availability overlay as fields that a reload replaces.
 */
module Tms {
  import opened Base
  import opened EdgeIndex
  import opened Topology

  datatype Availability = Availability(routeId: string, status: string)

  datatype LoadError = BadTopology(error: TopologyError) | BadAvailability

  datatype Leg = Leg(origin: string, destination: string, mode: Mode, days: Days)

  /** The pool as a dictionary; a repeated id would keep the last edge. */
  function ById(edges: seq<Edge>): Pool {
    if edges == [] then map[] else ById(edges[..|edges| - 1])[Last(edges).id := Last(edges)]
  }

  lemma {:induction false} ByIdFinds(edges: seq<Edge>)
    requires DistinctIds(edges)
    ensures forall id :: id in ById(edges) ==> ById(edges)[id].id == id && ById(edges)[id] in edges
    ensures forall i :: 0 <= i < |edges| ==> edges[i].id in ById(edges) && ById(edges)[edges[i].id] == edges[i]
  {
    if edges != [] {
      var before := edges[..|edges| - 1];
      ByIdFinds(before);
      assert edges == before + [Last(edges)];
      forall i | 0 <= i < |edges|
        ensures edges[i].id in ById(edges) && ById(edges)[edges[i].id] == edges[i]
      {
        assert i < |before| ==> before[i] == edges[i];
      }
    }
  }

  /** The overlay read from its file, unless an entry is malformed. */
  function Overlay(entries: seq<Option<Availability>>): Option<map<string, Availability>> {
    if entries == [] then Some(map[])
    else
      var before := Overlay(entries[..|entries| - 1]);
      if before.None? || Last(entries).None? then None
      else Some(before.value[Last(entries).value.routeId := Last(entries).value])
  }

  ghost predicate IsLastWord(entries: seq<Option<Availability>>, k: nat, id: string, a: Availability) {
    && k < |entries| && entries[k] == Some(a) && a.routeId == id
    && forall j :: k < j < |entries| && entries[j].Some? ==> entries[j].value.routeId != id
  }

  /** Nothing if any entry is malformed; otherwise, for every route named, the last entry that names it. */
  ghost predicate ReadsAs(entries: seq<Option<Availability>>, table: Option<map<string, Availability>>) {
    match table
    case None => None in entries
    case Some(t) =>
      && None !in entries
      && (forall e :: Some(e) in entries ==> e.routeId in t)
      && (forall id :: id in t ==> exists k: nat :: IsLastWord(entries, k, id, t[id]))
  }

  lemma {:induction false} OverlayReads(entries: seq<Option<Availability>>)
    ensures ReadsAs(entries, Overlay(entries))
  {
    if entries != [] {
      var n := |entries| - 1;
      var before := entries[..n];
      OverlayReads(before);
      assert entries == before + [entries[n]];
      if Overlay(entries).Some? {
        var t, a := Overlay(entries).value, entries[n].value;
        forall id | id in t
          ensures exists k: nat :: IsLastWord(entries, k, id, t[id])
        {
          if id == a.routeId {
            assert IsLastWord(entries, n, id, t[id]);
          } else {
            var k: nat :| IsLastWord(before, k, id, Overlay(before).value[id]);
            assert IsLastWord(entries, k, id, t[id]);
          }
        }
      }
    }
  }

  function TotalDays(refs: seq<EdgeRef>): nat {
    if refs == [] then 0 else TotalDays(refs[..|refs| - 1]) + Last(refs).days
  }

  /** The days are a sum: of one edge its own, of two stretches both. */
  lemma {:induction false} TotalDaysIsSum(a: seq<EdgeRef>, b: seq<EdgeRef>, r: EdgeRef)
    ensures TotalDays(a + b) == TotalDays(a) + TotalDays(b) && TotalDays([r]) == r.days
    decreases |b|
  {
    assert TotalDays([r]) == TotalDays([r][..0]) + r.days;
    if b == [] {
      assert a + b == a;
    } else {
      TotalDaysIsSum(a, b[..|b| - 1], r);
      assert (a + b)[..|a + b| - 1] == a + b[..|b| - 1];
    }
  }

  function LegDays(legs: seq<Leg>): nat {
    if legs == [] then 0 else LegDays(legs[..|legs| - 1]) + Last(legs).days
  }

  /** What the reload makes of its four files. */
  function TopologyFault(edges: seq<Edge>, routes: seq<Route>, compatibility: Compatibility): Option<TopologyError> {
    if PoolFault(edges, |edges|).Some? then PoolFault(edges, |edges|)
    else RoutesFault(routes, |routes|, ById(edges), compatibility)
  }

  /** What a complaint is about: the first edge or, all edges being sound, the first route that is not. */
  ghost predicate Explains(edges: seq<Edge>, routes: seq<Route>, compatibility: Compatibility, fault: TopologyError) {
    || (exists k: nat :: k < |edges| && IsPoolFault(edges, k, fault))
    || (IsSoundPool(edges)
        && exists k: nat :: k < |routes| && IsRoutesFault(routes, k, ById(edges), compatibility, fault))
  }

  predicate IsChain(legs: seq<Leg>) {
    forall i :: 0 < i < |legs| ==> legs[i - 1].destination == legs[i].origin
  }

  lemma {:induction false} LegDaysAddUp(legs: seq<Leg>, refs: seq<EdgeRef>)
    requires |legs| == |refs| && forall i :: 0 <= i < |legs| ==> legs[i].days == refs[i].days
    ensures LegDays(legs) == TotalDays(refs) >= |refs|
  {
    if legs != [] {
      LegDaysAddUp(legs[..|legs| - 1], refs[..|refs| - 1]);
    }
  }

  lemma {:induction false} OverlayStops(entries: seq<Option<Availability>>, k: nat)
    requires k <= |entries| && Overlay(entries[..k]).None?
    ensures Overlay(entries).None?
    decreases |entries|
  {
    if k == |entries| {
      assert entries[..k] == entries;
    } else {
      assert entries[..|entries| - 1][..k] == entries[..k];
      OverlayStops(entries[..|entries| - 1], k);
    }
  }

  class TmsStore {
    var edges: Pool
    var compatibility: Compatibility
    var byOrigin: Index
    var byDestination: Index
    var routes: seq<Route>
    var availability: map<string, Availability>
    ghost var pool: seq<Edge>

    /** The pool and the routes are sound, and both indexes agree with the pool. */
    ghost predicate Valid()
      reads this
    {
      && IsSoundPool(pool) && edges == ById(pool)
      && AreSoundRoutes(routes, edges, compatibility)
      && IndexAgrees(byOrigin, SortedById(pool), Origin)
      && IndexAgrees(byDestination, SortedById(pool), Destination)
    }

    constructor ()
      ensures Valid() && routes == [] && pool == []
    {
      edges, compatibility, byOrigin, byDestination := map[], map[], map[], map[];
      routes, availability, pool := [], map[], [];
    }

    method ReadOverlay(entries: seq<Option<Availability>>) returns (table: Option<map<string, Availability>>)
      ensures table == Overlay(entries) && ReadsAs(entries, table)
    {
      OverlayReads(entries);
      var read: map<string, Availability> := map[];
      for k := 0 to |entries|
        invariant Overlay(entries[..k]) == Some(read)
      {
        assert entries[..k + 1][..k] == entries[..k];
        if entries[k].None? {
          OverlayStops(entries, k + 1);
          return None;
        }
        read := read[entries[k].value.routeId := entries[k].value];
      }
      assert entries[..|entries|] == entries;
      return Some(read);
    }

    /**
     Everything about the topology is checked before anything is assigned; the overlay is read
     only after the topology has been replaced.
     */
    method Reload(newEdges: seq<Edge>, newRoutes: seq<Route>, newCompatibility: Compatibility,
                  overlay: seq<Option<Availability>>)
      returns (error: Option<LoadError>)
      requires Valid()
      modifies this
      ensures Valid()
      ensures error.Some? && error.value.BadTopology? <==>
                !(IsSoundPool(newEdges) && AreSoundRoutes(newRoutes, ById(newEdges), newCompatibility))
      ensures error.Some? && error.value.BadTopology? ==>
                Explains(newEdges, newRoutes, newCompatibility, error.value.error)
      ensures match TopologyFault(newEdges, newRoutes, newCompatibility)
              case Some(fault) =>
                && error == Some(BadTopology(fault))
                && unchanged(this)
              case None =>
                && pool == newEdges && edges == ById(newEdges) && routes == newRoutes
                && compatibility == newCompatibility
                && (match Overlay(overlay)
                    case Some(table) => error == None && availability == table
                    case None => error == Some(BadAvailability) && availability == old(availability))
    {
      hide IsSoundPool, AreSoundRoutes, SortedById, IndexAgrees, Overlay, IsPoolFault, IsRoutesFault, ReadsAs;
      var poolFault := ValidateEdgePool(newEdges);
      if poolFault.Some? {
        return Some(BadTopology(poolFault.value));
      }
      var edgesById := ById(newEdges);
      var routesFault := ValidateRoutes(newRoutes, edgesById, newCompatibility);
      if routesFault.Some? {
        return Some(BadTopology(routesFault.value));
      }
      edges := edgesById;
      compatibility := newCompatibility;
      byOrigin := IndexBy(newEdges, Origin);
      byDestination := IndexBy(newEdges, Destination);
      routes := newRoutes;
      pool := newEdges;
      var table := ReadOverlay(overlay);
      if table.None? {
        return Some(BadAvailability);
      }
      availability := table.value;
      return None;
    }

    /** The edges in id order, whatever order the dictionary gives them in. */
    method ListEdges() returns (listed: seq<Edge>)
      requires Valid()
      ensures listed == SortedById(pool) && IsSorted(listed) && multiset(listed) == multiset(pool)
    {
      hide SortedById, AreSoundRoutes, IndexAgrees, Less, IsSoundEdge;
      ByIdFinds(pool);
      SortingSorts(pool);
      listed := [];
      var rest := edges.Keys;
      while rest != {}
        invariant rest <= edges.Keys
        invariant IsSorted(listed)
        invariant forall e :: e in listed <==> e.id in edges && e.id !in rest && edges[e.id] == e
        decreases rest
      {
        var id :| id in rest;
        ghost var before := listed;
        forall e
          ensures e in Insert(edges[id], before) <==> e == edges[id] || e in before
        {
          InsertedOrOld(edges[id], before, e);
        }
        InsertKeepsOrder(edges[id], before);
        listed := Insert(edges[id], listed);
        rest := rest - {id};
      }
      forall e
        ensures e in listed <==> e in SortedById(pool)
      {
        assert e in SortedById(pool) <==> e in multiset(SortedById(pool));
      }
      SortedIsUnique(listed, SortedById(pool));
    }

    /** Adjacency, read from the index: the pool's edges out of a location, in id order. */
    method OutgoingEdges(location: string) returns (out: seq<Edge>)
      requires Valid()
      ensures out == Filter(SortedById(pool), Origin, location)
      ensures IsSorted(out) && forall e :: e in out <==> e in pool && e.origin == location
    {
      hide IsSorted, SortedById;
      BucketsPartition(byOrigin, pool, Origin, location);
      assert AgreesAt(byOrigin, SortedById(pool), Origin, location);
      return if location in byOrigin then byOrigin[location] else [];
    }

    method IncomingEdges(location: string) returns (into: seq<Edge>)
      requires Valid()
      ensures into == Filter(SortedById(pool), Destination, location)
      ensures IsSorted(into) && forall e :: e in into <==> e in pool && e.destination == location
    {
      hide IsSorted, SortedById;
      BucketsPartition(byDestination, pool, Destination, location);
      assert AgreesAt(byDestination, SortedById(pool), Destination, location);
      return if location in byDestination then byDestination[location] else [];
    }

    /** One leg per edge; a stored route always resolves, and its legs join up along its lane. */
    method ResolveLegs(route: Route) returns (legs: seq<Leg>)
      requires Valid() && (route in routes || AllKnown(route, edges))
      ensures |legs| == |route.edges|
      ensures LegDays(legs) == TotalDays(route.edges)
      ensures AllKnown(route, edges)
      ensures forall i :: 0 <= i < |legs| ==>
                var e := edges[route.edges[i].edgeId];
                legs[i] == Leg(e.origin, e.destination, e.mode, route.edges[i].days)
      ensures route in routes ==> legs != [] && IsChain(legs)
    {
      hide SortedById, IndexAgrees, ServesLane, IsDuplicateFree, IsSoundPool;
      if route in routes {
        var k :| 0 <= k < |routes| && routes[k] == route;
        assert IsSoundRoute(routes[k], edges, compatibility);
      }
      legs := [];
      for i := 0 to |route.edges|
        invariant |legs| == i
        invariant forall j :: 0 <= j < i ==>
                    var e := edges[route.edges[j].edgeId];
                    legs[j] == Leg(e.origin, e.destination, e.mode, route.edges[j].days)
      {
        var e := edges[route.edges[i].edgeId];
        legs := legs + [Leg(e.origin, e.destination, e.mode, route.edges[i].days)];
      }
      LegDaysAddUp(legs, route.edges);
    }

    method GetRoute(routeId: string) returns (r: Option<Route>)
      requires Valid()
      ensures r.Some? ==> r.value in routes && r.value.id == routeId
      ensures r.Some? ==> forall other :: other in routes && other.id == routeId ==> other == r.value
      ensures r.None? ==> forall other :: other in routes ==> other.id != routeId
    {
      hide IsSoundPool, IsSoundRoute, IndexAgrees, SortedById;
      for k := 0 to |routes|
        invariant forall i :: 0 <= i < k ==> routes[i].id != routeId
      {
        if routes[k].id == routeId {
          return Some(routes[k]);
        }
      }
      return None;
    }

    /** The days of the route of that id: at least one for each of its edges. */
    method TransitTime(routeId: string) returns (days: Option<nat>)
      requires Valid()
      ensures days.None? <==> forall r :: r in routes ==> r.id != routeId
      ensures days.Some? ==> forall r :: r in routes && r.id == routeId ==>
                                           days.value == TotalDays(r.edges) && days.value >= |r.edges| >= 1
    {
      hide IndexAgrees, SortedById, IsSoundPool, AllKnown, ServesLane;
      var found := GetRoute(routeId);
      if found.None? {
        return None;
      }
      var route := found.value;
      ghost var k :| 0 <= k < |routes| && routes[k] == route;
      assert IsSoundRoute(routes[k], edges, compatibility);
      var total := 0;
      for i := 0 to |route.edges|
        invariant total == TotalDays(route.edges[..i]) >= i
      {
        assert route.edges[..i + 1][..i] == route.edges[..i];
        total := total + route.edges[i].days;
      }
      assert route.edges[..|route.edges|] == route.edges;
      return Some(total);
    }

    method SetAvailability(routeId: string, a: Availability)
      requires Valid()
      modifies this`availability
      ensures Valid()
      ensures availability == old(availability)[routeId := a]
    {
      availability := availability[routeId := a];
    }
  }
}
