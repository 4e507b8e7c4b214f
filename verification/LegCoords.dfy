/**
 A leg's polyline (routing.py): an ocean leg is the shortest waypoint path with every hop
 resolved on its own and the pieces stitched together.
 */
module LegCoords {
  import opened Base
  import opened BestFirstSearch
  import opened Geodesy
  import opened MaritimeGraphs
  import opened OceanPaths
  import opened OceanPathMeaning

  function GeodesicSegment(earth: Earth, a: Point, b: Point): (ps: seq<Point>)
    ensures ps != [] && ps[0] == a
    ensures earth.inverse(a, b) != 0.0 ==> |ps| >= 2 && Last(ps) == b
    ensures earth.inverse(a, b) == 0.0 ==> ps == [a]
  {
    if earth.inverse(a, b) == 0.0 then [a]
    else [a] + earth.between(a, b, MinInt(100, MaxInt(20, RoundHalfEven(earth.inverse(a, b) / 1000.0 / 300.0)))) + [b]
  }

  /** A single point if the two coincide; otherwise the ends and one point for every 300 km, twenty to a hundred. */
  ghost predicate IsGeodesic(earth: Earth, a: Point, b: Point, ps: seq<Point>) {
    if earth.inverse(a, b) == 0.0 then ps == [a]
    else
      && |ps| >= 2 && ps[0] == a && ps[|ps| - 1] == b && IsCount(|ps| - 2, earth.inverse(a, b))
      && ps[1..|ps| - 1] == earth.between(a, b, |ps| - 2)
  }

  lemma GeodesicSegmentIsGeodesic(earth: Earth, a: Point, b: Point)
    requires WellBehaved(earth)
    ensures IsGeodesic(earth, a, b, GeodesicSegment(earth, a, b))
  {
    hide RoundHalfEven, IsCount;
    BetweenCounts(earth);
    CountIs(earth.inverse(a, b));
    var n := MinInt(100, MaxInt(20, RoundHalfEven(earth.inverse(a, b) / 1000.0 / 300.0)));
    if earth.inverse(a, b) != 0.0 {
      assert GeodesicSegment(earth, a, b)[1..n + 1] == earth.between(a, b, n);
    }
  }

  // ---------------------------------------------------------------- stitching

  predicate AllNonEmpty(segs: seq<seq<Point>>) {
    forall k :: 0 <= k < |segs| ==> segs[k] != []
  }

  /** Pieces end to end, without repeating the point where two of them meet. */
  function Stitch(segs: seq<seq<Point>>): seq<Point>
    requires AllNonEmpty(segs)
  {
    if segs == [] then []
    else
      var coords := Stitch(segs[..|segs| - 1]);
      assert segs[|segs| - 1] != [];
      coords + (if coords == [] then Last(segs) else Last(segs)[1..])
  }

  /** Each piece runs from its node to the next one. */
  ghost predicate Connects(segs: seq<seq<Point>>, nodes: seq<Point>)
    requires AllNonEmpty(segs)
  {
    && |nodes| == |segs| + 1
    && (forall k :: 0 <= k < |segs| ==> segs[k][0] == nodes[k] && Last(segs[k]) == nodes[k + 1])
  }

  /** Where node `k` sits in the stitched line. */
  function Offset(segs: seq<seq<Point>>, k: nat): (n: nat)
    requires k <= |segs| && AllNonEmpty(segs)
  {
    if k == 0 then 0
    else
      assert segs[k - 1] != [];
      Offset(segs, k - 1) + |segs[k - 1]| - 1
  }

  lemma {:induction false} OffsetOfPrefix(segs: seq<seq<Point>>, k: nat, n: nat)
    requires k <= n <= |segs| && AllNonEmpty(segs)
    ensures Offset(segs[..n], k) == Offset(segs, k)
  {
    if k > 0 {
      OffsetOfPrefix(segs, k - 1, n);
    }
  }

  /** Piece `k` fills exactly the positions from node `k` to node `k + 1`. */
  ghost predicate Occupies(coords: seq<Point>, segs: seq<seq<Point>>, k: nat)
    requires k < |segs| && AllNonEmpty(segs)
  {
    && Offset(segs, k) <= Offset(segs, k + 1) < |coords|
    && coords[Offset(segs, k)..Offset(segs, k + 1) + 1] == segs[k]
  }

  /** After its first point, piece `k` fills the positions behind node `k`. */
  ghost predicate Follows(coords: seq<Point>, segs: seq<seq<Point>>, k: nat)
    requires k < |segs| && AllNonEmpty(segs)
  {
    && Offset(segs, k) <= Offset(segs, k + 1) < |coords|
    && coords[Offset(segs, k) + 1..Offset(segs, k + 1) + 1] == segs[k][1..]
  }

  lemma OldTailStays(segs: seq<seq<Point>>, before: seq<Point>, k: nat)
    requires AllNonEmpty(segs) && k < |segs| - 1 && Follows(before, segs[..|segs| - 1], k)
    ensures Follows(before + Last(segs)[1..], segs, k)
  {
    OffsetOfPrefix(segs, k, |segs| - 1);
    OffsetOfPrefix(segs, k + 1, |segs| - 1);
    var lo, hi := Offset(segs, k), Offset(segs, k + 1);
    assert (before + Last(segs)[1..])[lo + 1..hi + 1] == before[lo + 1..hi + 1];
  }

  lemma NewTailFits(segs: seq<seq<Point>>, before: seq<Point>)
    requires AllNonEmpty(segs) && segs != [] && |before| == Offset(segs, |segs| - 1) + 1
    ensures Follows(before + Last(segs)[1..], segs, |segs| - 1)
  {
    var piece := Last(segs);
    assert (before + piece[1..])[|before|..|before| + |piece| - 1] == piece[1..];
  }

  lemma OnePieceFollows(segs: seq<seq<Point>>)
    requires |segs| == 1 && AllNonEmpty(segs)
    ensures Stitch(segs) == segs[0] && Offset(segs, 1) == |segs[0]| - 1 && Follows(Stitch(segs), segs, 0)
  {
    assert Stitch(segs[..0]) == [] && Last(segs) == segs[0];
  }

  /** Joined up or not, the line is the first piece and then every other one without its first point. */
  lemma {:induction false} StitchKeepsPieces(segs: seq<seq<Point>>)
    requires segs != [] && AllNonEmpty(segs)
    ensures var coords := Stitch(segs);
            && |coords| == Offset(segs, |segs|) + 1 && coords[0] == segs[0][0]
            && (forall k :: 0 <= k < |segs| ==> Follows(coords, segs, k))
    decreases |segs|
  {
    hide Follows;
    var n := |segs| - 1;
    var front := segs[..n];
    if n == 0 {
      OnePieceFollows(segs);
    } else {
      StitchKeepsPieces(front);
      OffsetOfPrefix(segs, n, n);
      forall k | 0 <= k < |segs|
        ensures Follows(Stitch(segs), segs, k)
      {
        if k < n {
          OldTailStays(segs, Stitch(front), k);
        } else {
          NewTailFits(segs, Stitch(front));
        }
      }
    }
  }

  lemma PieceInPlace(coords: seq<Point>, segs: seq<seq<Point>>, k: nat)
    requires AllNonEmpty(segs) && k < |segs| && Follows(coords, segs, k) && coords[Offset(segs, k)] == segs[k][0]
    ensures Occupies(coords, segs, k)
  {
    var lo, hi := Offset(segs, k), Offset(segs, k + 1);
    assert coords[lo..hi + 1] == [coords[lo]] + coords[lo + 1..hi + 1];
  }

  /** Connected pieces put every node in its place. */
  lemma {:induction false} NodeIsInPlace(coords: seq<Point>, segs: seq<seq<Point>>, nodes: seq<Point>, k: nat)
    requires AllNonEmpty(segs) && Connects(segs, nodes) && k <= |segs|
    requires coords != [] && coords[0] == nodes[0] && forall j :: 0 <= j < |segs| ==> Follows(coords, segs, j)
    ensures Offset(segs, k) < |coords| && coords[Offset(segs, k)] == nodes[k]
  {
    if k > 0 {
      NodeIsInPlace(coords, segs, nodes, k - 1);
      assert Follows(coords, segs, k - 1);
      var piece, lo, hi := segs[k - 1], Offset(segs, k - 1), Offset(segs, k);
      assert |piece| > 1 ==> coords[lo + 1..hi + 1][hi - lo - 1] == Last(piece[1..]);
    }
  }

  /** From the first node to the last, piece after piece. */
  ghost predicate RunsThrough(coords: seq<Point>, segs: seq<seq<Point>>, nodes: seq<Point>)
    requires AllNonEmpty(segs)
  {
    && |coords| == Offset(segs, |segs|) + 1 && nodes != []
    && coords[0] == nodes[0] && Last(coords) == Last(nodes)
    && (forall k :: 0 <= k < |segs| ==> Occupies(coords, segs, k))
  }

  /**
   The stitched line starts and ends at the outer nodes and consists of the pieces one after
   the other, sharing their join points: every node is visited, in order, and every join point
   is there once.
   */
  lemma StitchVisitsEveryNode(segs: seq<seq<Point>>, nodes: seq<Point>)
    requires segs != [] && AllNonEmpty(segs) && Connects(segs, nodes)
    ensures RunsThrough(Stitch(segs), segs, nodes)
  {
    hide Stitch, Follows;
    var coords := Stitch(segs);
    StitchKeepsPieces(segs);
    NodeIsInPlace(coords, segs, nodes, |segs|);
    forall k | 0 <= k < |segs|
      ensures Occupies(coords, segs, k)
    {
      NodeIsInPlace(coords, segs, nodes, k);
      PieceInPlace(coords, segs, k);
    }
  }

  /** Every node, the last one included, is found at its place in the line. */
  ghost predicate VisitsInOrder(coords: seq<Point>, segs: seq<seq<Point>>, nodes: seq<Point>)
    requires AllNonEmpty(segs) && |nodes| == |segs| + 1
  {
    forall k :: 0 <= k <= |segs| ==> Offset(segs, k) < |coords| && coords[Offset(segs, k)] == nodes[k]
  }

  /** Connected pieces visit their nodes. */
  lemma ConnectedPiecesVisit(segs: seq<seq<Point>>, nodes: seq<Point>)
    requires segs != [] && AllNonEmpty(segs) && Connects(segs, nodes)
    ensures VisitsInOrder(Stitch(segs), segs, nodes)
  {
    hide Stitch, Offset, Follows;
    StitchKeepsPieces(segs);
    forall k | 0 <= k <= |segs|
      ensures Offset(segs, k) < |Stitch(segs)| && Stitch(segs)[Offset(segs, k)] == nodes[k]
    {
      NodeIsInPlace(Stitch(segs), segs, nodes, k);
    }
  }

  // ---------------------------------------------------------------- hops

  /** How one hop between two waypoints may come out. */
  ghost predicate IsHop(earth: Earth, graph: MaritimeGraph, a: string, b: string, seg: seq<Point>)
    requires WellBehaved(earth)
    requires a in graph.nodes && b in graph.nodes && {a, b} in graph.edgeKind
  {
    if graph.edgeKind[{a, b}] in {"canal", "segment"} then IsGeodesic(earth, graph.nodes[a], graph.nodes[b], seg)
    else IsOceanPath(earth, graph.nodes[a], graph.nodes[b], Some(seg))
  }

  /**
   A condition on the graph and the earth alone: a trusted hop leads some distance, any other one is
   not blocked or has separate entry cells.
   */
  ghost predicate HopExtends(earth: Earth, graph: MaritimeGraph, a: string, b: string)
    requires a in graph.nodes && b in graph.nodes && {a, b} in graph.edgeKind
  {
    if graph.edgeKind[{a, b}] in {"canal", "segment"} then earth.inverse(graph.nodes[a], graph.nodes[b]) != 0.0
    else !SharesEntry(earth, graph.nodes[a], graph.nodes[b])
  }

  /** The hop leads somewhere, or nowhere was asked for. */
  ghost predicate KeepsEnds(earth: Earth, graph: MaritimeGraph, a: string, b: string)
    requires a in graph.nodes && b in graph.nodes && {a, b} in graph.edgeKind
  {
    HopExtends(earth, graph, a, b) || graph.nodes[a] == graph.nodes[b]
  }

  /**
   Whatever a hop comes out as, it runs from waypoint to waypoint if and only if `KeepsEnds`
   holds, and has a second point if and only if `HopExtends` does.
   */
  lemma HopEnds(earth: Earth, graph: MaritimeGraph, a: string, b: string, seg: seq<Point>)
    requires WellBehaved(earth)
    requires a in graph.nodes && b in graph.nodes && {a, b} in graph.edgeKind
    requires IsHop(earth, graph, a, b, seg)
    ensures seg != []
    ensures seg[0] == graph.nodes[a] && Last(seg) == graph.nodes[b] <==> KeepsEnds(earth, graph, a, b)
    ensures |seg| >= 2 <==> HopExtends(earth, graph, a, b)
  {
    hide WellBehaved, IsOceanPath, SharesEntry;
    if graph.edgeKind[{a, b}] !in {"canal", "segment"} {
      EndsArePreservedIff(earth, graph.nodes[a], graph.nodes[b], Some(seg));
    }
  }

  /** The pieces of a routed ocean leg. */
  ghost predicate ArePieces(earth: Earth, graph: MaritimeGraph, path: seq<string>, segs: seq<seq<Point>>)
    requires WellBehaved(earth)
  {
    && |path| == |segs| + 1
    && (forall k :: 0 <= k < |path| ==> path[k] in graph.nodes)
    && (forall k :: 0 <= k < |segs| ==>
          && {path[k], path[k + 1]} in graph.edgeKind && segs[k] != []
          && IsHop(earth, graph, path[k], path[k + 1], segs[k]))
  }

  ghost predicate IsOceanLeg(earth: Earth, graph: MaritimeGraph, from: string, to: string, coords: seq<Point>,
                             path: seq<string>, segs: seq<seq<Point>>)
    requires WellBehaved(earth)
  {
    && IsShortestPath(graph, from, to, path) && ArePieces(earth, graph, path, segs)
    && AllNonEmpty(segs) && coords == Stitch(segs)
  }

  function Positions(graph: MaritimeGraph, path: seq<string>): (ps: seq<Point>)
    requires forall k :: 0 <= k < |path| ==> path[k] in graph.nodes
    ensures |ps| == |path| && forall k :: 0 <= k < |path| ==> ps[k] == graph.nodes[path[k]]
  {
    seq(|path|, k requires 0 <= k < |path| => graph.nodes[path[k]])
  }

  /** Every hop of a path keeps its ends: again a condition on the input alone. */
  ghost predicate EveryHopKeepsEnds(earth: Earth, graph: MaritimeGraph, path: seq<string>)
    requires forall k :: 0 <= k < |path| ==> path[k] in graph.nodes
    requires forall k :: 0 <= k < |path| - 1 ==> {path[k], path[k + 1]} in graph.edgeKind
  {
    forall k :: 0 <= k < |path| - 1 ==> KeepsEnds(earth, graph, path[k], path[k + 1])
  }

  /** The pieces join up at the waypoints if and only if every hop keeps its ends. */
  lemma PiecesConnectIff(earth: Earth, graph: MaritimeGraph, path: seq<string>, segs: seq<seq<Point>>)
    requires WellBehaved(earth) && ArePieces(earth, graph, path, segs) && AllNonEmpty(segs)
    ensures Connects(segs, Positions(graph, path)) <==> EveryHopKeepsEnds(earth, graph, path)
  {
    hide IsHop, WellBehaved, KeepsEnds;
    var nodes := Positions(graph, path);
    forall k | 0 <= k < |segs|
      ensures segs[k][0] == nodes[k] && Last(segs[k]) == nodes[k + 1] <==> KeepsEnds(earth, graph, path[k], path[k + 1])
    {
      HopEnds(earth, graph, path[k], path[k + 1], segs[k]);
    }
    if Connects(segs, nodes) {
      forall k | 0 <= k < |path| - 1
        ensures KeepsEnds(earth, graph, path[k], path[k + 1])
      {
        assert segs[k][0] == nodes[k] && Last(segs[k]) == nodes[k + 1];
      }
    }
    if EveryHopKeepsEnds(earth, graph, path) {
      forall k | 0 <= k < |segs|
        ensures segs[k][0] == nodes[k] && Last(segs[k]) == nodes[k + 1]
      {
        assert KeepsEnds(earth, graph, path[k], path[k + 1]);
      }
    }
  }

  /** If a hop does not keep its ends, its piece is a single point, which cannot be at both places. */
  lemma LostEndIsNotVisited(earth: Earth, graph: MaritimeGraph, path: seq<string>, segs: seq<seq<Point>>,
                            coords: seq<Point>, k: nat)
    requires WellBehaved(earth) && ArePieces(earth, graph, path, segs) && AllNonEmpty(segs) && k < |segs|
    requires VisitsInOrder(coords, segs, Positions(graph, path))
    ensures KeepsEnds(earth, graph, path[k], path[k + 1])
  {
    hide IsHop, WellBehaved, HopExtends;
    HopEnds(earth, graph, path[k], path[k + 1], segs[k]);
    var nodes := Positions(graph, path);
    assert |segs[k]| == 1 ==> Offset(segs, k + 1) == Offset(segs, k);
    assert coords[Offset(segs, k)] == nodes[k] && coords[Offset(segs, k + 1)] == nodes[k + 1];
  }

  /**
   An ocean leg visits every waypoint in its place, from the first to the last, if and only if every
   hop of the waypoint path keeps its ends.  It then consists of the pieces one after the other.
   */
  lemma OceanLegVisitsWaypoints(earth: Earth, graph: MaritimeGraph, from: string, to: string, coords: seq<Point>,
                                path: seq<string>, segs: seq<seq<Point>>)
    requires WellBehaved(earth) && IsOceanLeg(earth, graph, from, to, coords, path, segs)
    requires segs != []
    ensures VisitsInOrder(coords, segs, Positions(graph, path)) <==> EveryHopKeepsEnds(earth, graph, path)
    ensures EveryHopKeepsEnds(earth, graph, path) ==> RunsThrough(coords, segs, Positions(graph, path))
  {
    hide IsHop, WellBehaved, IsShortestPath, Stitch, RunsThrough, Connects, VisitsInOrder, KeepsEnds;
    var nodes := Positions(graph, path);
    PiecesConnectIff(earth, graph, path, segs);
    if EveryHopKeepsEnds(earth, graph, path) {
      StitchVisitsEveryNode(segs, nodes);
      ConnectedPiecesVisit(segs, nodes);
    }
    if VisitsInOrder(coords, segs, nodes) {
      forall k | 0 <= k < |path| - 1
        ensures KeepsEnds(earth, graph, path[k], path[k + 1])
      {
        LostEndIsNotVisited(earth, graph, path, segs, coords, k);
      }
    }
  }

  // ---------------------------------------------------------------- the leg

  lemma OceanPathHasPoints(earth: Earth, p1: Point, p2: Point, path: seq<Point>)
    requires WellBehaved(earth) && IsOceanPath(earth, p1, p2, Some(path))
    ensures path != []
  {
    hide WellBehaved, IsOceanPath, SharesEntry;
    EndsArePreservedIff(earth, p1, p2, Some(path));
  }

  method ResolveHop(graph: MaritimeGraph, a: string, b: string, earth: Earth)
    returns (r: Result<seq<Point>, RoutingError>)
    requires WellBehaved(earth)
    requires a in graph.nodes && b in graph.nodes && {a, b} in graph.edgeKind
    ensures r.Ok? ==> r.value != [] && IsHop(earth, graph, a, b, r.value)
    ensures r.Err? ==>
              && r.error == NoNavigablePath && graph.edgeKind[{a, b}] !in {"canal", "segment"}
              && IsOceanPath(earth, graph.nodes[a], graph.nodes[b], None)
  {
    hide WellBehaved, IsOceanPath, IsGeodesic;
    if graph.edgeKind[{a, b}] in {"canal", "segment"} {
      GeodesicSegmentIsGeodesic(earth, graph.nodes[a], graph.nodes[b]);
      return Ok(GeodesicSegment(earth, graph.nodes[a], graph.nodes[b]));
    }
    var route := OceanPath(earth, graph.nodes[a], graph.nodes[b]);
    if route.None? {
      return Err(NoNavigablePath);
    }
    OceanPathHasPoints(earth, graph.nodes[a], graph.nodes[b], route.value);
    return Ok(route.value);
  }

  ghost predicate IsLegSoFar(earth: Earth, graph: MaritimeGraph, path: seq<string>, segs: seq<seq<Point>>,
                             coords: seq<Point>)
    requires WellBehaved(earth)
  {
    && ArePieces(earth, graph, path, segs) && AllNonEmpty(segs)
    && coords == Stitch(segs) && (coords == [] <==> segs == [])
  }

  lemma LegStarts(earth: Earth, graph: MaritimeGraph, path: seq<string>)
    requires WellBehaved(earth) && |path| == 1 && path[0] in graph.nodes
    ensures IsLegSoFar(earth, graph, path, [], [])
  {
  }

  lemma PiecesOneMore(earth: Earth, graph: MaritimeGraph, path: seq<string>, segs: seq<seq<Point>>, b: string,
                      seg: seq<Point>)
    requires WellBehaved(earth) && ArePieces(earth, graph, path, segs)
    requires b in graph.nodes && {Last(path), b} in graph.edgeKind && seg != []
    requires IsHop(earth, graph, Last(path), b, seg)
    ensures ArePieces(earth, graph, path + [b], segs + [seg])
  {
    hide IsHop, WellBehaved;
    forall k | 0 <= k < |segs + [seg]|
      ensures && {(path + [b])[k], (path + [b])[k + 1]} in graph.edgeKind && (segs + [seg])[k] != []
              && IsHop(earth, graph, (path + [b])[k], (path + [b])[k + 1], (segs + [seg])[k])
    {
      if k < |segs| {
        assert (path + [b])[k + 1] == path[k + 1];
      }
    }
  }

  lemma LegGrows(earth: Earth, graph: MaritimeGraph, path: seq<string>, segs: seq<seq<Point>>, coords: seq<Point>,
                 b: string, seg: seq<Point>)
    requires WellBehaved(earth) && path != [] && IsLegSoFar(earth, graph, path, segs, coords)
    requires b in graph.nodes && {Last(path), b} in graph.edgeKind && seg != []
    requires Last(path) in graph.nodes && IsHop(earth, graph, Last(path), b, seg)
    ensures IsLegSoFar(earth, graph, path + [b], segs + [seg], coords + (if coords == [] then seg else seg[1..]))
  {
    hide IsHop, WellBehaved;
    PiecesOneMore(earth, graph, path, segs, b, seg);
    assert (segs + [seg])[..|segs + [seg]| - 1] == segs;
  }

  lemma LegIsComplete(earth: Earth, graph: MaritimeGraph, from: string, to: string, path: seq<string>,
                      segs: seq<seq<Point>>, coords: seq<Point>)
    requires WellBehaved(earth) && IsShortestPath(graph, from, to, path)
    requires IsLegSoFar(earth, graph, path, segs, coords)
    ensures IsOceanLeg(earth, graph, from, to, coords, path, segs)
    ensures |path| == 1 <==> coords == []
  {
  }

  lemma SoundIsSearchable(graph: MaritimeGraph)
    requires Sound(graph)
    ensures Searchable(graph)
  {
  }

  /** The hops of a shortest waypoint path up to one for which there is no navigable path. */
  ghost predicate BreaksOff(earth: Earth, graph: MaritimeGraph, from: string, to: string, path: seq<string>,
                            segs: seq<seq<Point>>)
    requires WellBehaved(earth)
  {
    && IsShortestPath(graph, from, to, path)
    && |segs| + 1 < |path| && ArePieces(earth, graph, path[..|segs| + 1], segs)
    && var a, b := path[|segs|], path[|segs| + 1];
       && a in graph.nodes && b in graph.nodes && {a, b} in graph.edgeKind
       && graph.edgeKind[{a, b}] !in {"canal", "segment"}
       && IsOceanPath(earth, graph.nodes[a], graph.nodes[b], None)
  }

  lemma SoundNodes(graph: MaritimeGraph)
    requires Sound(graph)
    ensures graph.adjacency.Keys == graph.nodes.Keys
  {
  }

  lemma LegBreaksOff(earth: Earth, graph: MaritimeGraph, from: string, to: string, path: seq<string>,
                     segs: seq<seq<Point>>, coords: seq<Point>, k: nat)
    requires WellBehaved(earth) && IsShortestPath(graph, from, to, path)
    requires k + 1 < |path| && IsLegSoFar(earth, graph, path[..k + 1], segs, coords)
    requires path[k] in graph.nodes && path[k + 1] in graph.nodes && {path[k], path[k + 1]} in graph.edgeKind
    requires graph.edgeKind[{path[k], path[k + 1]}] !in {"canal", "segment"}
    requires IsOceanPath(earth, graph.nodes[path[k]], graph.nodes[path[k + 1]], None)
    ensures BreaksOff(earth, graph, from, to, path, segs)
  {
    hide IsOceanPath, IsShortestPath, IsHop, WellBehaved;
  }

  /**
   The ocean branch: shortest waypoint path, then hop by hop.  It fails if an end is not in the graph, if
   there is no waypoint path, or at a hop of the path for which there is no navigable path.
   */
  method OceanLegCoords(from: string, to: string, graph: MaritimeGraph, earth: Earth)
    returns (r: Result<seq<Point>, RoutingError>)
    requires WellBehaved(earth) && Sound(graph)
    ensures r.Ok? ==> exists path, segs :: IsOceanLeg(earth, graph, from, to, r.value, path, segs)
    ensures r.Ok? ==> (r.value == [] <==> from == to)
    ensures r.Err? ==> r.error in {NoGraphNode, NoMaritimePath, NoNavigablePath}
    ensures r == Err(NoGraphNode) <==> from !in graph.nodes || to !in graph.nodes
    ensures r == Err(NoMaritimePath) <==>
              from in graph.nodes && to in graph.nodes && !Reachable(Arcs(graph), from, to)
    ensures r == Err(NoNavigablePath) ==> exists path, segs :: BreaksOff(earth, graph, from, to, path, segs)
  {
    hide WellBehaved, IsOceanPath, IsShortestPath, Sound, IsHop, IsLegSoFar, BreaksOff, Reachable, Arcs;
    SoundIsSearchable(graph);
    SoundNodes(graph);
    var found := Dijkstra(graph, from, to);
    if found.Err? {
      return Err(found.error);
    }
    var path := found.value;
    PathFollowsEdges(graph, from, to, path);
    var coords: seq<Point> := [];
    ghost var segs: seq<seq<Point>> := [];
    LegStarts(earth, graph, path[..1]);
    for k := 0 to |path| - 1
      invariant IsLegSoFar(earth, graph, path[..k + 1], segs, coords)
    {
      var piece := ResolveHop(graph, path[k], path[k + 1], earth);
      if piece.Err? {
        LegBreaksOff(earth, graph, from, to, path, segs, coords, k);
        return Err(piece.error);
      }
      var segment := piece.value;
      LegGrows(earth, graph, path[..k + 1], segs, coords, path[k + 1], segment);
      assert path[..k + 2] == path[..k + 1] + [path[k + 1]];
      coords := coords + (if coords == [] then segment else segment[1..]);
      segs := segs + [segment];
    }
    assert path[..|path|] == path;
    LegIsComplete(earth, graph, from, to, path, segs, coords);
    return Ok(coords);
  }

  method BuildLegCoords(mode: string, from: string, to: string, fromCoord: Point, toCoord: Point,
                        graph: Option<MaritimeGraph>, earth: Earth)
    returns (r: Result<seq<Point>, RoutingError>)
    requires WellBehaved(earth) && (graph.Some? ==> Sound(graph.value))
    ensures mode == "air" ==> r.Ok? && IsGeodesic(earth, fromCoord, toCoord, r.value)
    ensures mode == "ocean" && graph.None? ==> r == Err(NoGraph)
    ensures mode != "air" && mode != "ocean" ==> r == Ok([fromCoord, toCoord])
    ensures mode == "ocean" && graph.Some? && r.Ok? ==>
              exists path, segs :: IsOceanLeg(earth, graph.value, from, to, r.value, path, segs)
    ensures mode == "ocean" && graph.Some? && r.Ok? ==> (r.value == [] <==> from == to)
    ensures mode == "ocean" && graph.Some? ==>
              var g := graph.value;
              && (r == Err(NoGraphNode) <==> from !in g.nodes || to !in g.nodes)
              && (r == Err(NoMaritimePath) <==> from in g.nodes && to in g.nodes && !Reachable(Arcs(g), from, to))
              && (r.Err? ==> r.error in {NoGraphNode, NoMaritimePath, NoNavigablePath})
              && (r == Err(NoNavigablePath) ==> exists path, segs :: BreaksOff(earth, g, from, to, path, segs))
  {
    hide WellBehaved, IsOceanPath, IsOceanLeg, Sound, GeodesicSegment, IsGeodesic, BreaksOff, Reachable,
      Arcs;
    if mode == "air" {
      GeodesicSegmentIsGeodesic(earth, fromCoord, toCoord);
      return Ok(GeodesicSegment(earth, fromCoord, toCoord));
    }
    if mode == "ocean" {
      if graph.None? {
        return Err(NoGraph);
      }
      r := OceanLegCoords(from, to, graph.value, earth);
      return;
    }
    return Ok([fromCoord, toCoord]);
  }
}
