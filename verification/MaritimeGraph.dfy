/**
 The waypoint graph of routing.py: how it is loaded, and the shortest-path search over it.
 */
module MaritimeGraphs {
  import opened Base
  import opened Geodesy
  import opened BestFirstSearch

  datatype MaritimeGraph = MaritimeGraph(
    nodes: map<string, Point>,
    adjacency: map<string, seq<Arc<string>>>,
    edgeKind: map<set<string>, string>)

  /** An edge of the configuration file: a bare pair, or a pair with an optional kind. */
  datatype EdgeEntry = Bare(a: string, b: string) | Tagged(a: string, b: string, tag: Option<string>) {
    function Kind(): string {
      if Tagged? && tag.Some? then tag.value else "ocean"
    }

    function Ends(): set<string> {
      {a, b}
    }
  }

  datatype RoutingError = UnknownNode(node: string) | NoGraphNode | NoMaritimePath | NoGraph | NoNavigablePath

  // ---------------------------------------------------------------- loading

  function EdgeLength(nodes: map<string, Point>, earth: Earth, e: EdgeEntry): real
    requires e.a in nodes && e.b in nodes
  {
    earth.inverse(nodes[e.a], nodes[e.b])
  }

  ghost predicate EndsKnown(nodes: map<string, Point>, entries: seq<EdgeEntry>) {
    forall i :: 0 <= i < |entries| ==> entries[i].a in nodes && entries[i].b in nodes
  }

  /** `u` lists `v` at distance `w` because some entry joins the two, in either direction. */
  ghost predicate Joined(nodes: map<string, Point>, earth: Earth, entries: seq<EdgeEntry>, u: string, v: string,
                         w: real)
    requires EndsKnown(nodes, entries)
  {
    exists i :: 0 <= i < |entries| && w == earth.inverse(nodes[entries[i].a], nodes[entries[i].b])
             && ((entries[i].a == u && entries[i].b == v) || (entries[i].a == v && entries[i].b == u))
  }

  /** An entry that names no kind means an ocean edge. */
  ghost predicate Says(e: EdgeEntry, kind: string) {
    match e
    case Bare(_, _) => kind == "ocean"
    case Tagged(_, _, tag) => tag == Some(kind) || (tag == None && kind == "ocean")
  }

  /** The kind of a pair is what the last entry for it says. */
  ghost predicate KindOf(entries: seq<EdgeEntry>, pair: set<string>, kind: string) {
    exists i :: 0 <= i < |entries| && {entries[i].a, entries[i].b} == pair && Says(entries[i], kind)
             && forall j :: i < j < |entries| ==> {entries[j].a, entries[j].b} != pair
  }

  ghost predicate ListsNeighbours(adjacency: map<string, seq<Arc<string>>>, nodes: map<string, Point>, earth: Earth,
                                  entries: seq<EdgeEntry>)
    requires EndsKnown(nodes, entries)
  {
    && adjacency.Keys == nodes.Keys
    && (forall u, v, w :: u in nodes ==> (Arc(v, w) in adjacency[u] <==> Joined(nodes, earth, entries, u, v, w)))
  }

  ghost predicate ListsKinds(edgeKind: map<set<string>, string>, entries: seq<EdgeEntry>) {
    && (forall i :: 0 <= i < |entries| ==> {entries[i].a, entries[i].b} in edgeKind)
    && (forall pair :: pair in edgeKind ==> KindOf(entries, pair, edgeKind[pair]))
  }

  /** The graph says exactly what the configuration says. */
  ghost predicate Describes(graph: MaritimeGraph, nodes: map<string, Point>, earth: Earth, entries: seq<EdgeEntry>) {
    && EndsKnown(nodes, entries)
    && graph.nodes == nodes
    && ListsNeighbours(graph.adjacency, nodes, earth, entries)
    && ListsKinds(graph.edgeKind, entries)
  }

  lemma JoinedOneMore(nodes: map<string, Point>, earth: Earth, seen: seq<EdgeEntry>, e: EdgeEntry,
                      u: string, v: string, w: real)
    requires EndsKnown(nodes, seen) && e.a in nodes && e.b in nodes
    ensures EndsKnown(nodes, seen + [e])
    ensures Joined(nodes, earth, seen + [e], u, v, w) <==>
            || Joined(nodes, earth, seen, u, v, w)
            || (w == EdgeLength(nodes, earth, e) && ((e.a == u && e.b == v) || (e.a == v && e.b == u)))
  {
    var all := seen + [e];
    assert all[|seen|] == e;
    assert forall i :: 0 <= i < |seen| ==> all[i] == seen[i];
  }

  lemma NeighboursOneMore(adjacency: map<string, seq<Arc<string>>>, nodes: map<string, Point>, earth: Earth,
                          seen: seq<EdgeEntry>, e: EdgeEntry)
    requires EndsKnown(nodes, seen) && ListsNeighbours(adjacency, nodes, earth, seen)
    requires e.a in nodes && e.b in nodes
    ensures var d := EdgeLength(nodes, earth, e);
            var half := adjacency[e.a := adjacency[e.a] + [Arc(e.b, d)]];
            ListsNeighbours(half[e.b := half[e.b] + [Arc(e.a, d)]], nodes, earth, seen + [e])
  {
    hide Joined;
    forall u, v, w | u in nodes
      ensures Joined(nodes, earth, seen + [e], u, v, w) <==>
              || Joined(nodes, earth, seen, u, v, w)
              || (w == EdgeLength(nodes, earth, e) && ((e.a == u && e.b == v) || (e.a == v && e.b == u)))
    {
      JoinedOneMore(nodes, earth, seen, e, u, v, w);
    }
  }

  lemma KindsOneMore(edgeKind: map<set<string>, string>, seen: seq<EdgeEntry>, e: EdgeEntry)
    requires ListsKinds(edgeKind, seen)
    ensures ListsKinds(edgeKind[e.Ends() := e.Kind()], seen + [e])
  {
    var all := seen + [e];
    assert all[|seen|] == e;
    forall pair | pair in edgeKind && pair != e.Ends()
      ensures KindOf(all, pair, edgeKind[pair])
    {
      var i :| 0 <= i < |seen| && {seen[i].a, seen[i].b} == pair && Says(seen[i], edgeKind[pair])
               && forall j :: i < j < |seen| ==> {seen[j].a, seen[j].b} != pair;
      assert all[i] == seen[i];
    }
  }

  lemma NothingListed(nodes: map<string, Point>, earth: Earth)
    ensures ListsNeighbours(map n | n in nodes :: [], nodes, earth, [])
  {
  }

  /** Loading fails exactly when an edge names an unknown node (a KeyError in the program). */
  method LoadGraph(nodes: map<string, Point>, entries: seq<EdgeEntry>, earth: Earth)
    returns (r: Result<MaritimeGraph, RoutingError>)
    ensures r.Ok? <==> EndsKnown(nodes, entries)
    ensures r.Ok? ==> Describes(r.value, nodes, earth, entries)
  {
    hide KindOf, Joined;
    NothingListed(nodes, earth);
    var adjacency: map<string, seq<Arc<string>>> := map n | n in nodes :: [];
    var edgeKind: map<set<string>, string> := map[];
    for k := 0 to |entries|
      invariant EndsKnown(nodes, entries[..k])
      invariant Describes(MaritimeGraph(nodes, adjacency, edgeKind), nodes, earth, entries[..k])
    {
      var e := entries[k];
      if e.a !in nodes {
        return Err(UnknownNode(e.a));
      }
      if e.b !in nodes {
        return Err(UnknownNode(e.b));
      }
      var d := earth.inverse(nodes[e.a], nodes[e.b]);
      NeighboursOneMore(adjacency, nodes, earth, entries[..k], e);
      KindsOneMore(edgeKind, entries[..k], e);
      assert entries[..k + 1] == entries[..k] + [e];
      adjacency := adjacency[e.a := adjacency[e.a] + [Arc(e.b, d)]];
      adjacency := adjacency[e.b := adjacency[e.b] + [Arc(e.a, d)]];
      edgeKind := edgeKind[e.Ends() := e.Kind()];
    }
    assert entries[..|entries|] == entries;
    return Ok(MaritimeGraph(nodes, adjacency, edgeKind));
  }

  /** Adjacency is symmetric and every listed pair has a kind, so a route never lacks one. */
  lemma LoadedGraphIsSymmetric(graph: MaritimeGraph, nodes: map<string, Point>, earth: Earth, entries: seq<EdgeEntry>)
    requires Describes(graph, nodes, earth, entries)
    ensures forall u, v, w :: u in nodes && Arc(v, w) in graph.adjacency[u] ==>
              v in nodes && Arc(u, w) in graph.adjacency[v] && {u, v} in graph.edgeKind
  {
    hide KindOf;
    forall u, v, w | u in nodes && Arc(v, w) in graph.adjacency[u]
      ensures v in nodes && Arc(u, w) in graph.adjacency[v] && {u, v} in graph.edgeKind
    {
      var i :| 0 <= i < |entries| && w == EdgeLength(nodes, earth, entries[i])
               && ((entries[i].a == u && entries[i].b == v) || (entries[i].a == v && entries[i].b == u));
      assert entries[i].Ends() == {u, v};
      assert Joined(nodes, earth, entries, v, u, w);
    }
  }

  // ---------------------------------------------------------------- searching

  /** What a search relies on: every neighbour is a node, no distance is negative. */
  ghost predicate Searchable(graph: MaritimeGraph) {
    forall u, a :: u in graph.adjacency && a in graph.adjacency[u] ==> a.to in graph.adjacency && a.weight >= 0.0
  }

  lemma LoadedGraphIsSearchable(graph: MaritimeGraph, nodes: map<string, Point>, earth: Earth, entries: seq<EdgeEntry>)
    requires WellBehaved(earth) && Describes(graph, nodes, earth, entries)
    ensures Searchable(graph)
  {
    forall u, a | u in graph.adjacency && a in graph.adjacency[u]
      ensures a.to in graph.adjacency && a.weight >= 0.0
    {
      assert a == Arc(a.to, a.weight);
      assert Joined(nodes, earth, entries, u, a.to, a.weight);
    }
  }

  /** What loading guarantees to routing: a searchable graph with a position and a kind wherever one is asked for. */
  ghost predicate Sound(graph: MaritimeGraph) {
    && Searchable(graph)
    && graph.nodes.Keys == graph.adjacency.Keys
    && (forall u, a :: u in graph.adjacency && a in graph.adjacency[u] ==> {u, a.to} in graph.edgeKind)
  }

  lemma LoadedGraphIsSound(graph: MaritimeGraph, nodes: map<string, Point>, earth: Earth, entries: seq<EdgeEntry>)
    requires WellBehaved(earth) && Describes(graph, nodes, earth, entries)
    ensures Sound(graph)
  {
    LoadedGraphIsSearchable(graph, nodes, earth, entries);
    forall u, a | u in graph.adjacency && a in graph.adjacency[u]
      ensures {u, a.to} in graph.edgeKind
    {
      LoadedGraphIsSymmetric(graph, nodes, earth, entries);
      assert a == Arc(a.to, a.weight);
    }
  }

  ghost function Arcs(graph: MaritimeGraph): Graph<string> {
    map u | u in graph.adjacency :: set a | a in graph.adjacency[u]
  }

  ghost function NoEstimate(graph: MaritimeGraph): map<string, real> {
    map u | u in graph.adjacency :: 0.0
  }

  lemma ArcsAreWellFormed(graph: MaritimeGraph)
    requires Searchable(graph)
    ensures WellFormed(Arcs(graph)) && Consistent(Arcs(graph), NoEstimate(graph))
    ensures Arcs(graph).Keys == graph.adjacency.Keys
    ensures forall u :: u in NoEstimate(graph) ==> NoEstimate(graph)[u] == 0.0
    ensures forall u, a :: u in graph.adjacency ==> (a in Arcs(graph)[u] <==> a in graph.adjacency[u])
  {
  }

  /** A list of nodes that some choice of edges joins at least total distance. */
  ghost predicate IsShortestPath(graph: MaritimeGraph, start: string, end: string, path: seq<string>) {
    exists cost :: IsCheapest(Arcs(graph), path, cost, start, end)
  }

  /** Consecutive nodes of a shortest path are joined by an edge, so each pair has a kind. */
  lemma PathFollowsEdges(graph: MaritimeGraph, start: string, end: string, path: seq<string>)
    requires Sound(graph) && IsShortestPath(graph, start, end, path)
    ensures path != [] && path[0] == start && Last(path) == end
    ensures forall k :: 0 <= k < |path| ==> path[k] in graph.nodes
    ensures forall k :: 0 <= k < |path| - 1 ==> {path[k], path[k + 1]} in graph.edgeKind
  {
    var g := Arcs(graph);
    var cost :| IsCheapest(g, path, cost, start, end);
    var ws :| IsWalkBetween(g, path, ws, start, end) && Sum(ws) == cost;
    forall k | 0 <= k < |path| - 1
      ensures {path[k], path[k + 1]} in graph.edgeKind
    {
      assert Arc(path[k + 1], ws[k]) in g[path[k]];
    }
  }

  /** The inner loop: look along every edge out of the vertex that was just closed. */
  method RelaxNeighbours(graph: MaritimeGraph, ghost start: string, node: string, d: real, dist0: map<string, real>,
                         prev0: map<string, string>, queue0: multiset<Entry<string>>, ghost s0: Search<string>)
    returns (dist: map<string, real>, prev: map<string, string>, queue: multiset<Entry<string>>,
             ghost s: Search<string>)
    requires Searchable(graph)
    requires Expanding(Arcs(graph), NoEstimate(graph), start, s0, node, {})
    requires s0.cost == dist0 && s0.prev == prev0 && s0.heap == queue0
    requires node in dist0 && d == dist0[node]
    ensures Inv(Arcs(graph), NoEstimate(graph), start, s)
    ensures s.cost == dist && s.prev == prev && s.heap == queue && s.closed == s0.closed
  {
    hide Inv, Expanding, ParentsExplainCosts, ParentsCloseFirst, WellFormed, Arcs, NoEstimate, Searchable, Relax;
    ghost var g, h := Arcs(graph), NoEstimate(graph);
    ArcsAreWellFormed(graph);
    dist, prev, queue, s := dist0, prev0, queue0, s0;
    ghost var done: set<Arc<string>> := {};
    ExpandingFacts(g, h, start, s, node, done);
    for i := 0 to |graph.adjacency[node]|
      invariant Expanding(g, h, start, s, node, done)
      invariant forall j :: 0 <= j < i ==> graph.adjacency[node][j] in done
      invariant s.cost == dist && s.prev == prev && s.heap == queue && s.closed == s0.closed
      invariant node in dist && d == dist[node]
    {
      ExpandingFacts(g, h, start, s, node, done);
      var arc := graph.adjacency[node][i];
      var neighbor, nd := arc.to, d + arc.weight;
      RelaxKeepsExpanding(g, h, start, s, node, done, arc);
      RelaxIs(h, s, node, arc, nd, nd);
      s := Relax(h, s, node, arc);
      done := done + {arc};
      if neighbor !in dist || nd < dist[neighbor] {
        dist := dist[neighbor := nd];
        prev := prev[neighbor := node];
        queue := queue + multiset{Entry(nd, nd, neighbor)};
      }
    }
    ExpandedKeepsInv(g, h, start, s, node, done);
  }

  method Dijkstra(graph: MaritimeGraph, start: string, end: string) returns (r: Result<seq<string>, RoutingError>)
    requires Searchable(graph)
    ensures r == Err(NoGraphNode) <==> start !in graph.adjacency || end !in graph.adjacency
    ensures r.Err? ==> r.error in {NoGraphNode, NoMaritimePath}
    ensures r == Err(NoMaritimePath) <==>
              start in graph.adjacency && end in graph.adjacency && !Reachable(Arcs(graph), start, end)
    ensures r.Ok? ==> IsShortestPath(graph, start, end, r.value)
    ensures r.Ok? && start == end ==> r.value == [end]
  {
    hide Inv, Expanding, ParentsExplainCosts, ParentsCloseFirst, WellFormed, Consistent, IsWalk, IsWalkBetween, Arcs,
      NoEstimate, Searchable, Reachable, IsCheapest;
    if start !in graph.adjacency || end !in graph.adjacency {
      return Err(NoGraphNode);
    }
    ghost var g, h := Arcs(graph), NoEstimate(graph);
    var dist := map[start := 0.0];
    var prev: map<string, string> := map[];
    var queue := multiset{Entry(0.0, 0.0, start)};
    var visited: set<string> := {};
    ghost var s := Begin(start, 0.0);
    ArcsAreWellFormed(graph);
    BeginKeepsInv(g, h, start);
    while queue != multiset{}
      invariant Inv(g, h, start, s)
      invariant s.cost == dist && s.prev == prev && s.heap == queue && s.closed == visited
      invariant end !in visited
      decreases g.Keys - visited, |queue|
    {
      InvFacts(g, h, start, s);
      var least := PopLeast(queue);
      var d, node := least.cost, least.node;
      queue := queue - multiset{least};
      if node in visited {
        SkipKeepsInv(g, h, start, s, least);
        s := s.(heap := queue);
        continue;
      }
      visited := visited + {node};
      CloseStartsExpanding(g, h, start, s, least);
      s := Close(s, least);
      if node == end {
        break;
      }
      dist, prev, queue, s := RelaxNeighbours(graph, start, node, d, dist, prev, queue, s);
    }
    if end !in dist {
      EmptyHeapMeansExplored(g, h, start, s, end);
      return Err(NoMaritimePath);
    }
    if end !in visited {
      EmptyHeapMeansExplored(g, h, start, s, end);
      assert false;
    }
    ExpandingFacts(g, h, start, s, end, {});
    var path := WalkBack(g, h, start, end, prev, s);
    ClosedGoalIsCheapest(g, h, start, s, end, path);
    return Ok(path);
  }
}
