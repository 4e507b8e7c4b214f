/**
 Route topology and its load-time validation (mock_tms/store.py): what the validators check step
 by step, and the property of the pool and the routes that those steps amount to.
 */
module Topology {
  import opened Base

  datatype Mode = Ocean | Rail | Road | Air

  datatype Edge = Edge(id: string, origin: string, destination: string, mode: Mode)

  type Days = d: nat | d > 0 witness 1

  datatype EdgeRef = EdgeRef(edgeId: string, days: Days)

  datatype Route = Route(id: string, laneId: string, edges: seq<EdgeRef>)

  datatype TopologyError =
    | DuplicateEdge
    | SelfLoop
    | MismatchedId
    | DuplicateTopology
    | DuplicateRoute
    | NoEdges
    | UnknownEdge
    | Discontinuous
    | RepeatedLocation
    | MalformedLane
    | WrongOrigin
    | WrongDestination

  type Compatibility = map<string, seq<string>>

  // ---------------------------------------------------------------- lane ids

  /** The pieces of a text between occurrences of a separator. */
  function Pieces(s: string, separator: char): (ps: seq<string>)
    ensures ps != []
  {
    if s == "" then [""]
    else
      var rest := Pieces(s[1..], separator);
      if s[0] == separator then [""] + rest else [[s[0]] + rest[0]] + rest[1..]
  }

  function ParseLaneId(laneId: string): Option<(string, string)> {
    var parts := Pieces(laneId, '-');
    if |parts| != 2 then None else Some((parts[0], parts[1]))
  }

  lemma {:induction false} PiecesWithoutSeparator(s: string, separator: char)
    ensures |Pieces(s, separator)| == 1 <==> separator !in s
    ensures |Pieces(s, separator)| == 1 ==> Pieces(s, separator) == [s]
  {
    if s != "" {
      PiecesWithoutSeparator(s[1..], separator);
      assert s == [s[0]] + s[1..];
    }
  }

  lemma {:induction false} TwoPieces(s: string, separator: char)
    requires |Pieces(s, separator)| == 2
    ensures var ps := Pieces(s, separator);
            s == ps[0] + [separator] + ps[1] && separator !in ps[0] && separator !in ps[1]
  {
    var ps := Pieces(s, separator);
    var rest := Pieces(s[1..], separator);
    assert s == [s[0]] + s[1..];
    if s[0] == separator {
      PiecesWithoutSeparator(s[1..], separator);
      assert ps == ["", s[1..]];
    } else {
      TwoPieces(s[1..], separator);
      assert ps == [[s[0]] + rest[0], rest[1]];
    }
  }

  lemma {:induction false} PiecesOfPair(a: string, b: string, separator: char)
    requires separator !in a && separator !in b
    ensures Pieces(a + [separator] + b, separator) == [a, b]
  {
    var s := a + [separator] + b;
    if a == "" {
      assert s[1..] == b;
      PiecesWithoutSeparator(b, separator);
    } else {
      assert s[1..] == a[1..] + [separator] + b;
      PiecesOfPair(a[1..], b, separator);
      assert a == [a[0]] + a[1..];
    }
  }

  /** A lane id is accepted exactly if it is two hyphen-free codes around one hyphen. */
  lemma LaneIdParsesIff(laneId: string, origin: string, destination: string)
    ensures ParseLaneId(laneId) == Some((origin, destination)) <==>
              laneId == origin + "-" + destination && '-' !in origin && '-' !in destination
  {
    if |Pieces(laneId, '-')| == 2 {
      TwoPieces(laneId, '-');
    }
    if '-' !in origin && '-' !in destination {
      PiecesOfPair(origin, destination, '-');
    }
  }

  predicate Serves(location: string, endpoint: string, compatibility: Compatibility) {
    location == endpoint || (endpoint in compatibility && location in compatibility[endpoint])
  }

  // ---------------------------------------------------------------- the edge pool

  function ModeName(m: Mode): string {
    match m
    case Ocean => "OCEAN"
    case Rail => "RAIL"
    case Road => "ROAD"
    case Air => "AIR"
  }

  function ExpectedId(e: Edge): string {
    ModeName(e.mode) + "-" + e.origin + "-" + e.destination
  }

  function Triple(e: Edge): (string, string, Mode) {
    (e.origin, e.destination, e.mode)
  }

  /** What, if anything, is wrong with edge `k`, given the edges before it. */
  function EdgeFault(edges: seq<Edge>, k: nat): Option<TopologyError>
    requires k < |edges|
  {
    var e := edges[k];
    if exists i :: 0 <= i < k && edges[i].id == e.id then Some(DuplicateEdge)
    else if e.origin == e.destination then Some(SelfLoop)
    else if e.id != ExpectedId(e) then Some(MismatchedId)
    else if exists i :: 0 <= i < k && Triple(edges[i]) == Triple(e) then Some(DuplicateTopology)
    else None
  }

  /** The first fault among the first `n` edges. */
  function PoolFault(edges: seq<Edge>, n: nat): Option<TopologyError>
    requires n <= |edges|
  {
    if n == 0 then None
    else if PoolFault(edges, n - 1).Some? then PoolFault(edges, n - 1)
    else EdgeFault(edges, n - 1)
  }

  /** The id is the mode in capitals, the origin and the destination, with hyphens between them. */
  predicate IsSpelledOut(e: Edge) {
    match e.mode
    case Ocean => e.id == "OCEAN-" + e.origin + "-" + e.destination
    case Rail => e.id == "RAIL-" + e.origin + "-" + e.destination
    case Road => e.id == "ROAD-" + e.origin + "-" + e.destination
    case Air => e.id == "AIR-" + e.origin + "-" + e.destination
  }

  lemma SpelledOutIff(e: Edge)
    ensures e.id == ExpectedId(e) <==> IsSpelledOut(e)
  {
    assert ModeName(e.mode) + "-" == match e.mode
                                     case Ocean => "OCEAN-"
                                     case Rail => "RAIL-"
                                     case Road => "ROAD-"
                                     case Air => "AIR-";
  }

  predicate IsSoundEdge(e: Edge) {
    e.origin != e.destination && IsSpelledOut(e)
  }

  predicate DistinctIds(edges: seq<Edge>) {
    forall i, j :: 0 <= i < j < |edges| ==> edges[i].id != edges[j].id
  }

  /** Ids are unique and spell out their edge, and no edge is a loop. */
  predicate IsSoundPool(edges: seq<Edge>) {
    DistinctIds(edges) && forall k :: 0 <= k < |edges| ==> IsSoundEdge(edges[k])
  }

  lemma PrefixOfSoundPool(edges: seq<Edge>, before: seq<Edge>)
    requires before <= edges && !IsSoundPool(before)
    ensures !IsSoundPool(edges)
  {
    hide IsSoundEdge;
  }

  lemma SameTripleSameId(d: Edge, e: Edge)
    ensures Triple(d) == Triple(e) ==> ExpectedId(d) == ExpectedId(e)
  {
  }

  /** Two edges with the same fields have the same derived id, so the id check catches them first. */
  lemma LastEdge(edges: seq<Edge>, n: nat)
    requires 0 < n <= |edges| && IsSoundPool(edges[..n - 1])
    ensures EdgeFault(edges, n - 1).None? <==> IsSoundPool(edges[..n])
    ensures EdgeFault(edges, n - 1) != Some(DuplicateTopology)
  {
    hide ExpectedId, IsSpelledOut;
    var e := edges[n - 1];
    SpelledOutIff(e);
    forall i | 0 <= i < n - 1
      ensures edges[..n - 1][i] == edges[i] && edges[i].id == ExpectedId(edges[i])
      ensures Triple(edges[i]) == Triple(e) ==> ExpectedId(edges[i]) == ExpectedId(e)
    {
      assert IsSoundEdge(edges[..n - 1][i]);
      SpelledOutIff(edges[i]);
      SameTripleSameId(edges[i], e);
    }
    assert edges[..n] == edges[..n - 1] + [e];
  }

  lemma {:induction false} PoolIsAcceptedUpTo(edges: seq<Edge>, n: nat)
    requires n <= |edges|
    ensures PoolFault(edges, n).None? <==> IsSoundPool(edges[..n])
    ensures PoolFault(edges, n) != Some(DuplicateTopology)
  {
    hide ExpectedId, IsSpelledOut;
    if n > 0 {
      PoolIsAcceptedUpTo(edges, n - 1);
      assert edges[..n] == edges[..n - 1] + [edges[n - 1]];
      if PoolFault(edges, n - 1).None? {
        LastEdge(edges, n);
      } else {
        assert !IsSoundPool(edges[..n]) by {
          PrefixOfSoundPool(edges[..n], edges[..n - 1]);
        }
      }
    }
  }

  /** The validator accepts exactly the sound pools; its duplicate-topology branch is never taken. */
  lemma PoolIsAcceptedIff(edges: seq<Edge>)
    ensures PoolFault(edges, |edges|).None? <==> IsSoundPool(edges)
    ensures PoolFault(edges, |edges|) != Some(DuplicateTopology)
  {
    PoolIsAcceptedUpTo(edges, |edges|);
    assert edges[..|edges|] == edges;
  }

  /** What the validator says of an edge, all before it being sound: the first of three complaints that applies. */
  ghost predicate IsEdgeFault(before: seq<Edge>, e: Edge, fault: TopologyError) {
    match fault
    case DuplicateEdge => exists d :: d in before && d.id == e.id
    case SelfLoop => (forall d :: d in before ==> d.id != e.id) && e.origin == e.destination
    case MismatchedId =>
      (forall d :: d in before ==> d.id != e.id) && e.origin != e.destination && !IsSpelledOut(e)
    case _ => false
  }

  ghost predicate IsPoolFault(edges: seq<Edge>, k: nat, fault: TopologyError)
    requires k < |edges|
  {
    IsSoundPool(edges[..k]) && IsEdgeFault(edges[..k], edges[k], fault)
  }

  /** It complains about the first edge with which the pool is no longer sound. */
  lemma {:induction false} PoolFaultMeans(edges: seq<Edge>, n: nat)
    requires n <= |edges| && PoolFault(edges, n).Some?
    ensures exists k: nat :: k < n && IsPoolFault(edges, k, PoolFault(edges, n).value)
  {
    hide IsSoundPool, ExpectedId, IsSpelledOut;
    if PoolFault(edges, n - 1).Some? {
      PoolFaultMeans(edges, n - 1);
    } else {
      PoolIsAcceptedUpTo(edges, n - 1);
      LastEdge(edges, n);
      SpelledOutIff(edges[n - 1]);
      assert forall i :: 0 <= i < n - 1 ==> edges[..n - 1][i] == edges[i];
      assert IsPoolFault(edges, n - 1, PoolFault(edges, n).value);
    }
  }

  lemma {:induction false} PoolFaultStays(edges: seq<Edge>, k: nat, n: nat)
    requires k <= n <= |edges| && PoolFault(edges, k).Some?
    ensures PoolFault(edges, n) == PoolFault(edges, k)
  {
    if k < n {
      PoolFaultStays(edges, k, n - 1);
    }
  }

  method ValidateEdgePool(edges: seq<Edge>) returns (fault: Option<TopologyError>)
    ensures fault == PoolFault(edges, |edges|)
    ensures fault.None? <==> IsSoundPool(edges)
    ensures fault.Some? ==> exists k: nat :: k < |edges| && IsPoolFault(edges, k, fault.value)
  {
    hide IsSoundPool, ExpectedId, IsPoolFault;
    PoolIsAcceptedIff(edges);
    if PoolFault(edges, |edges|).Some? {
      PoolFaultMeans(edges, |edges|);
    }
    var seenIds: set<string> := {};
    var seenTriples: set<(string, string, Mode)> := {};
    for k := 0 to |edges|
      invariant PoolFault(edges, k).None?
      invariant forall id :: id in seenIds <==> exists i :: 0 <= i < k && edges[i].id == id
      invariant forall t :: t in seenTriples <==> exists i :: 0 <= i < k && Triple(edges[i]) == t
    {
      var e := edges[k];
      var problem: Option<TopologyError> := None;
      if e.id in seenIds {
        problem := Some(DuplicateEdge);
      } else if e.origin == e.destination {
        problem := Some(SelfLoop);
      } else if e.id != ExpectedId(e) {
        problem := Some(MismatchedId);
      } else if Triple(e) in seenTriples {
        problem := Some(DuplicateTopology);
      }
      if problem.Some? {
        PoolFaultStays(edges, k + 1, |edges|);
        return problem;
      }
      seenIds := seenIds + {e.id};
      seenTriples := seenTriples + {Triple(e)};
    }
    return None;
  }

  // ---------------------------------------------------------------- routes

  type Pool = map<string, Edge>

  predicate AllKnown(route: Route, pool: Pool) {
    forall i :: 0 <= i < |route.edges| ==> route.edges[i].edgeId in pool
  }

  function Resolved(route: Route, pool: Pool): (es: seq<Edge>)
    requires AllKnown(route, pool)
    ensures |es| == |route.edges| && forall i :: 0 <= i < |es| ==> es[i] == pool[route.edges[i].edgeId]
  {
    seq(|route.edges|, i requires 0 <= i < |route.edges| => pool[route.edges[i].edgeId])
  }

  predicate IsContinuous(es: seq<Edge>) {
    forall i :: 0 < i < |es| ==> es[i - 1].destination == es[i].origin
  }

  /** The origin, then every edge's destination. */
  function NodeSequence(es: seq<Edge>): (ns: seq<string>)
    requires es != []
    ensures |ns| == |es| + 1 && ns[0] == es[0].origin && forall i :: 0 < i < |ns| ==> ns[i] == es[i - 1].destination
  {
    [es[0].origin] + seq(|es|, i requires 0 <= i < |es| => es[i].destination)
  }

  function Elements<T>(s: seq<T>): set<T> {
    set x | x in s
  }

  predicate IsDuplicateFree<T(==)>(s: seq<T>) {
    forall i, j :: 0 <= i < j < |s| ==> s[i] != s[j]
  }

  /** Comparing the length of a list with the size of its set detects repetitions. */
  lemma {:induction false} SizesAgreeIff<T>(s: seq<T>)
    ensures |Elements(s)| <= |s|
    ensures |Elements(s)| == |s| <==> IsDuplicateFree(s)
  {
    if s != [] {
      var before, last := s[..|s| - 1], Last(s);
      SizesAgreeIff(before);
      assert s == before + [last];
      assert Elements(s) == Elements(before) + {last};
      if last in before {
        assert Elements(s) == Elements(before);
        var i :| 0 <= i < |before| && before[i] == last;
        assert s[i] == s[|s| - 1];
      } else {
        forall i, j | 0 <= i < j < |s|
          ensures s[i] != s[j] || !IsDuplicateFree(before)
        {
          if j < |s| - 1 {
            assert before[i] == s[i] && before[j] == s[j];
          } else {
            assert before[i] == s[i];
          }
        }
        assert IsDuplicateFree(s) ==> IsDuplicateFree(before) by {
          assert forall i :: 0 <= i < |before| ==> before[i] == s[i];
        }
      }
    }
  }

  function PathFault(route: Route, pool: Pool, compatibility: Compatibility): Option<TopologyError> {
    if route.edges == [] then Some(NoEdges)
    else if !AllKnown(route, pool) then Some(UnknownEdge)
    else
      var es := Resolved(route, pool);
      if !IsContinuous(es) then Some(Discontinuous)
      else if |NodeSequence(es)| != |Elements(NodeSequence(es))| then Some(RepeatedLocation)
      else
        match ParseLaneId(route.laneId)
        case None => Some(MalformedLane)
        case Some((origin, destination)) =>
          if !Serves(es[0].origin, origin, compatibility) then Some(WrongOrigin)
          else if !Serves(Last(es).destination, destination, compatibility) then Some(WrongDestination)
          else None
  }

  /** What, if anything, is wrong with route `k`, given the routes before it. */
  function RouteFault(routes: seq<Route>, k: nat, pool: Pool, compatibility: Compatibility): Option<TopologyError>
    requires k < |routes|
  {
    if exists i :: 0 <= i < k && routes[i].id == routes[k].id then Some(DuplicateRoute)
    else PathFault(routes[k], pool, compatibility)
  }

  function RoutesFault(routes: seq<Route>, n: nat, pool: Pool, compatibility: Compatibility): Option<TopologyError>
    requires n <= |routes|
  {
    if n == 0 then None
    else if RoutesFault(routes, n - 1, pool, compatibility).Some? then RoutesFault(routes, n - 1, pool, compatibility)
    else RouteFault(routes, n - 1, pool, compatibility)
  }

  /** The endpoint lists the location as compatible, if it is not the location itself. */
  ghost predicate IsServedBy(endpoint: string, location: string, compatibility: Compatibility) {
    location != endpoint ==> endpoint in compatibility && location in compatibility[endpoint]
  }

  /** The lane is a pair of codes; each end of the path is that code or declared compatible with it. */
  ghost predicate ServesLane(es: seq<Edge>, laneId: string, compatibility: Compatibility)
    requires es != []
  {
    exists origin: string, destination: string ::
      && laneId == origin + "-" + destination && '-' !in origin && '-' !in destination
      && IsServedBy(origin, es[0].origin, compatibility)
      && IsServedBy(destination, es[|es| - 1].destination, compatibility)
  }

  /** Every edge starts where the one before it ended, and no location is come to twice or returned to. */
  ghost predicate IsSimplePath(es: seq<Edge>) {
    && (forall i :: 0 < i < |es| ==> es[i - 1].destination == es[i].origin)
    && (forall i :: 0 <= i < |es| ==> es[i].destination != es[0].origin)
    && (forall i, j :: 0 <= i < j < |es| ==> es[i].destination != es[j].destination)
  }

  /** A non-empty, continuous, simple path of known edges that serves its lane. */
  ghost predicate IsSoundRoute(route: Route, pool: Pool, compatibility: Compatibility) {
    && route.edges != []
    && (forall i :: 0 <= i < |route.edges| ==> route.edges[i].edgeId in pool)
    && IsSimplePath(Resolved(route, pool))
    && ServesLane(Resolved(route, pool), route.laneId, compatibility)
  }

  predicate DistinctRoutes(routes: seq<Route>) {
    forall i, j :: 0 <= i < j < |routes| ==> routes[i].id != routes[j].id
  }

  ghost predicate AreSoundRoutes(routes: seq<Route>, pool: Pool, compatibility: Compatibility) {
    DistinctRoutes(routes) && forall k :: 0 <= k < |routes| ==> IsSoundRoute(routes[k], pool, compatibility)
  }

  lemma LaneIsServedIff(es: seq<Edge>, laneId: string, compatibility: Compatibility)
    requires es != []
    ensures ServesLane(es, laneId, compatibility) <==>
              && ParseLaneId(laneId).Some?
              && Serves(es[0].origin, ParseLaneId(laneId).value.0, compatibility)
              && Serves(Last(es).destination, ParseLaneId(laneId).value.1, compatibility)
  {
    hide ParseLaneId;
    if ParseLaneId(laneId).Some? {
      LaneIdParsesIff(laneId, ParseLaneId(laneId).value.0, ParseLaneId(laneId).value.1);
    }
    if ServesLane(es, laneId, compatibility) {
      var origin: string, destination: string :|
        && laneId == origin + "-" + destination && '-' !in origin && '-' !in destination
        && IsServedBy(origin, es[0].origin, compatibility)
        && IsServedBy(destination, es[|es| - 1].destination, compatibility);
      LaneIdParsesIff(laneId, origin, destination);
    }
  }

  lemma SimplePathIff(es: seq<Edge>)
    requires es != []
    ensures IsSimplePath(es) <==> IsContinuous(es) && IsDuplicateFree(NodeSequence(es))
  {
    var ns := NodeSequence(es);
    if IsDuplicateFree(ns) {
      forall i | 0 <= i < |es|
        ensures es[i].destination != es[0].origin
      {
        assert ns[0] != ns[i + 1];
      }
      forall i, j | 0 <= i < j < |es|
        ensures es[i].destination != es[j].destination
      {
        assert ns[i + 1] != ns[j + 1];
      }
    }
  }

  lemma PathIsAcceptedIff(route: Route, pool: Pool, compatibility: Compatibility)
    ensures PathFault(route, pool, compatibility).None? <==> IsSoundRoute(route, pool, compatibility)
  {
    hide ParseLaneId, Serves, IsContinuous, IsDuplicateFree, Elements, IsSimplePath, ServesLane;
    if route.edges != [] && AllKnown(route, pool) {
      var es := Resolved(route, pool);
      SimplePathIff(es);
      SizesAgreeIff(NodeSequence(es));
      LaneIsServedIff(es, route.laneId, compatibility);
    }
  }

  /** What the validator says of a route whose id is new: the first of seven complaints that applies. */
  ghost predicate IsPathFault(route: Route, pool: Pool, compatibility: Compatibility, fault: TopologyError) {
    if route.edges == [] then fault == NoEdges
    else if exists ref :: ref in route.edges && ref.edgeId !in pool then fault == UnknownEdge
    else
      var es := Resolved(route, pool);
      if exists i :: 0 < i < |es| && es[i - 1].destination != es[i].origin then fault == Discontinuous
      else if !IsSimplePath(es) then fault == RepeatedLocation
      else if forall o: string, d: string :: route.laneId == o + "-" + d ==> '-' in o || '-' in d
        then fault == MalformedLane
      else
        exists o: string, d: string :: route.laneId == o + "-" + d && '-' !in o && '-' !in d
          && if !IsServedBy(o, es[0].origin, compatibility) then fault == WrongOrigin
             else !IsServedBy(d, es[|es| - 1].destination, compatibility) && fault == WrongDestination
  }

  lemma PathFaultMeans(route: Route, pool: Pool, compatibility: Compatibility)
    requires PathFault(route, pool, compatibility).Some?
    ensures IsPathFault(route, pool, compatibility, PathFault(route, pool, compatibility).value)
  {
    hide ParseLaneId, Elements, IsDuplicateFree, IsSimplePath;
    if route.edges != [] && AllKnown(route, pool) {
      var es := Resolved(route, pool);
      SimplePathIff(es);
      SizesAgreeIff(NodeSequence(es));
      forall o: string, d: string
        ensures route.laneId == o + "-" + d && '-' !in o && '-' !in d <==> ParseLaneId(route.laneId) == Some((o, d))
      {
        LaneIdParsesIff(route.laneId, o, d);
      }
    }
  }

  ghost predicate IsRouteFault(before: seq<Route>, route: Route, pool: Pool, compatibility: Compatibility,
                               fault: TopologyError) {
    if exists r :: r in before && r.id == route.id then fault == DuplicateRoute
    else IsPathFault(route, pool, compatibility, fault)
  }

  ghost predicate IsRoutesFault(routes: seq<Route>, k: nat, pool: Pool, compatibility: Compatibility,
                                fault: TopologyError)
    requires k < |routes|
  {
    AreSoundRoutes(routes[..k], pool, compatibility) && IsRouteFault(routes[..k], routes[k], pool, compatibility, fault)
  }

  lemma {:induction false} RoutesAreAcceptedUpTo(routes: seq<Route>, n: nat, pool: Pool, compatibility: Compatibility)
    requires n <= |routes|
    ensures RoutesFault(routes, n, pool, compatibility).None? <==> AreSoundRoutes(routes[..n], pool, compatibility)
  {
    hide IsSoundRoute, PathFault;
    if n > 0 {
      RoutesAreAcceptedUpTo(routes, n - 1, pool, compatibility);
      PathIsAcceptedIff(routes[n - 1], pool, compatibility);
      var before, upTo := routes[..n - 1], routes[..n];
      assert upTo == before + [routes[n - 1]];
      assert forall i :: 0 <= i < n - 1 ==> before[i] == routes[i] == upTo[i];
      assert upTo[n - 1] == routes[n - 1];
    }
  }

  /** The validator accepts exactly the sound sets of routes. */
  lemma RoutesAreAcceptedIff(routes: seq<Route>, pool: Pool, compatibility: Compatibility)
    ensures RoutesFault(routes, |routes|, pool, compatibility).None? <==> AreSoundRoutes(routes, pool, compatibility)
  {
    RoutesAreAcceptedUpTo(routes, |routes|, pool, compatibility);
    assert routes[..|routes|] == routes;
  }

  /** It complains about the first route with which the routes are no longer sound. */
  lemma {:induction false} RoutesFaultMeans(routes: seq<Route>, n: nat, pool: Pool, compatibility: Compatibility)
    requires n <= |routes| && RoutesFault(routes, n, pool, compatibility).Some?
    ensures exists k: nat ::
              k < n && IsRoutesFault(routes, k, pool, compatibility, RoutesFault(routes, n, pool, compatibility).value)
  {
    hide AreSoundRoutes, PathFault, IsPathFault;
    if RoutesFault(routes, n - 1, pool, compatibility).Some? {
      RoutesFaultMeans(routes, n - 1, pool, compatibility);
    } else {
      RoutesAreAcceptedUpTo(routes, n - 1, pool, compatibility);
      assert forall i :: 0 <= i < n - 1 ==> routes[..n - 1][i] == routes[i];
      if PathFault(routes[n - 1], pool, compatibility).Some? {
        PathFaultMeans(routes[n - 1], pool, compatibility);
      }
      assert IsRoutesFault(routes, n - 1, pool, compatibility, RoutesFault(routes, n, pool, compatibility).value);
    }
  }

  lemma {:induction false} RoutesFaultStays(routes: seq<Route>, k: nat, n: nat, pool: Pool,
                                            compatibility: Compatibility)
    requires k <= n <= |routes| && RoutesFault(routes, k, pool, compatibility).Some?
    ensures RoutesFault(routes, n, pool, compatibility) == RoutesFault(routes, k, pool, compatibility)
  {
    if k < n {
      RoutesFaultStays(routes, k, n - 1, pool, compatibility);
    }
  }

  method ValidatePath(route: Route, pool: Pool, compatibility: Compatibility) returns (fault: Option<TopologyError>)
    ensures fault == PathFault(route, pool, compatibility)
  {
    hide ParseLaneId, Serves, Elements;
    if route.edges == [] {
      return Some(NoEdges);
    }
    var resolved: seq<Edge> := [];
    for i := 0 to |route.edges|
      invariant |resolved| == i
      invariant forall j :: 0 <= j < i ==> route.edges[j].edgeId in pool && resolved[j] == pool[route.edges[j].edgeId]
    {
      if route.edges[i].edgeId !in pool {
        return Some(UnknownEdge);
      }
      resolved := resolved + [pool[route.edges[i].edgeId]];
    }
    assert resolved == Resolved(route, pool);
    for i := 1 to |resolved|
      invariant forall j :: 0 < j < i ==> resolved[j - 1].destination == resolved[j].origin
    {
      if resolved[i - 1].destination != resolved[i].origin {
        return Some(Discontinuous);
      }
    }
    var nodes := NodeSequence(resolved);
    if |nodes| != |Elements(nodes)| {
      return Some(RepeatedLocation);
    }
    var lane := ParseLaneId(route.laneId);
    if lane.None? {
      return Some(MalformedLane);
    }
    if !Serves(resolved[0].origin, lane.value.0, compatibility) {
      return Some(WrongOrigin);
    }
    if !Serves(Last(resolved).destination, lane.value.1, compatibility) {
      return Some(WrongDestination);
    }
    return None;
  }

  method ValidateRoutes(routes: seq<Route>, pool: Pool, compatibility: Compatibility)
    returns (fault: Option<TopologyError>)
    ensures fault == RoutesFault(routes, |routes|, pool, compatibility)
    ensures fault.None? <==> AreSoundRoutes(routes, pool, compatibility)
    ensures fault.Some? ==>
              exists k: nat :: k < |routes| && IsRoutesFault(routes, k, pool, compatibility, fault.value)
  {
    hide AreSoundRoutes, PathFault, IsRoutesFault;
    RoutesAreAcceptedIff(routes, pool, compatibility);
    if RoutesFault(routes, |routes|, pool, compatibility).Some? {
      RoutesFaultMeans(routes, |routes|, pool, compatibility);
    }
    var seenIds: set<string> := {};
    for k := 0 to |routes|
      invariant RoutesFault(routes, k, pool, compatibility).None?
      invariant forall id :: id in seenIds <==> exists i :: 0 <= i < k && routes[i].id == id
    {
      var problem: Option<TopologyError> := None;
      if routes[k].id in seenIds {
        problem := Some(DuplicateRoute);
      } else {
        problem := ValidatePath(routes[k], pool, compatibility);
      }
      if problem.Some? {
        RoutesFaultStays(routes, k + 1, |routes|, pool, compatibility);
        return problem;
      }
      seenIds := seenIds + {routes[k].id};
    }
    return None;
  }
}
