/**
 The part that the waypoint search (routing.py) and the grid search (ocean_astar.py)
 have in common: a best-first search with lazy deletion, a closed set that is never
 reopened, and a parent map that is walked back to the start.

 Both searches are methods of their own modules.  What is shared here is their
 invariant, the lemmas that say which step keeps it, and the two verdicts that follow
 from it when the goal is taken off the heap or the heap runs empty.  With a zero
 heuristic the invariant is Dijkstra's; with a consistent one it is A*'s.
 */
module BestFirstSearch {
  import opened Base

  /** A connection to `to` that costs `weight`. */
  datatype Arc<V> = Arc(to: V, weight: real)

  /** The outgoing arcs of every vertex.  Parallel arcs of different weight may exist. */
  type Graph<V> = map<V, set<Arc<V>>>

  /** Arcs stay inside the graph and none has a negative weight. */
  ghost predicate WellFormed<V(!new)>(g: Graph<V>) {
    forall u, a :: u in g && a in g[u] ==> a.to in g && a.weight >= 0.0
  }

  /** The vertices `p` are joined, in order, by arcs with the weights `ws`. */
  ghost predicate IsWalk<V>(g: Graph<V>, p: seq<V>, ws: seq<real>) {
    && |p| == |ws| + 1
    && (forall i :: 0 <= i < |p| ==> p[i] in g)
    && (forall i :: 0 <= i < |ws| ==> Arc(p[i + 1], ws[i]) in g[p[i]])
  }

  ghost function Sum(ws: seq<real>): real {
    if ws == [] then 0.0 else Sum(ws[..|ws| - 1]) + Last(ws)
  }

  ghost predicate IsWalkBetween<V>(g: Graph<V>, p: seq<V>, ws: seq<real>, start: V, end: V) {
    IsWalk(g, p, ws) && p[0] == start && Last(p) == end
  }

  ghost predicate Reachable<V(!new)>(g: Graph<V>, start: V, end: V) {
    exists p, ws :: IsWalkBetween(g, p, ws, start, end)
  }

  /** `p` can be walked for `cost`, and no walk between its ends costs less. */
  ghost predicate IsCheapest<V(!new)>(g: Graph<V>, p: seq<V>, cost: real, start: V, end: V) {
    && (exists ws :: IsWalkBetween(g, p, ws, start, end) && Sum(ws) == cost)
    && (forall q, vs :: IsWalkBetween(g, q, vs, start, end) ==> cost <= Sum(vs))
  }

  /** A heap entry: priority, path cost when it was pushed, vertex. */
  datatype Entry<V> = Entry(priority: real, cost: real, node: V)

  /**
   What a running search knows.  `rank` is the order in which the `count` closed vertices
   were closed and `level` the priority at which the last one was; these are for proofs only.
   */
  datatype Search<V> = Search(cost: map<V, real>, prev: map<V, V>, closed: set<V>,
                              heap: multiset<Entry<V>>, rank: map<V, nat>, count: nat, level: real)

  /** No arc lets the estimate drop by more than the arc's own weight. */
  ghost predicate Consistent<V(!new)>(g: Graph<V>, h: map<V, real>) {
    && h.Keys == g.Keys
    && (forall u, a :: u in g && a in g[u] && a.to in g ==> h[u] <= a.weight + h[a.to])
  }

  ghost predicate Relaxed<V>(s: Search<V>, u: V, a: Arc<V>) {
    u in s.cost && a.to in s.cost && s.cost[a.to] <= s.cost[u] + a.weight
  }

  /** The best known cost of every vertex is that of an arc from its closed parent. */
  ghost predicate ParentsExplainCosts<V(!new)>(g: Graph<V>, start: V, s: Search<V>) {
    && start in s.cost && s.cost[start] == 0.0
    && s.cost.Keys <= g.Keys
    && s.closed <= s.cost.Keys
    && s.prev.Keys == s.cost.Keys - {start}
    && (forall v :: v in s.cost ==> s.cost[v] >= 0.0)
    && (forall v {:trigger s.prev[v]} :: v in s.prev ==> s.prev[v] in s.closed)
    && (forall v {:trigger s.prev[v]} :: v in s.prev && s.prev[v] in s.cost ==>
          Arc(v, s.cost[v] - s.cost[s.prev[v]]) in g[s.prev[v]])
  }

  /** Closed vertices were closed after their parents. */
  ghost predicate ParentsCloseFirst<V(!new)>(s: Search<V>) {
    && s.rank.Keys == s.closed
    && (forall v :: v in s.rank ==> s.rank[v] < s.count)
    && (forall v {:trigger s.prev[v]} ::
          v in s.prev && v in s.rank && s.prev[v] in s.rank ==> s.rank[s.prev[v]] < s.rank[v])
  }

  /** Every open vertex has an up-to-date entry; no entry undercuts the best known cost. */
  ghost predicate HeapCovers<V(!new)>(h: map<V, real>, s: Search<V>) {
    && (forall v :: v in s.cost && v !in s.closed ==> v in h && Entry(s.cost[v] + h[v], s.cost[v], v) in s.heap)
    && (forall e :: e in s.heap ==>
          && e.node in s.cost && e.node in h
          && s.cost[e.node] <= e.cost
          && e.priority == e.cost + h[e.node])
  }

  /** Priorities come off the heap in order: `level` separates the closed vertices from the heap. */
  ghost predicate LevelSeparates<V(!new)>(h: map<V, real>, s: Search<V>) {
    && (forall u :: u in s.closed ==> u in s.cost && u in h && s.cost[u] + h[u] <= s.level)
    && (forall e :: e in s.heap ==> s.level <= e.priority)
  }

  /** The arcs out of closed vertices, except out of `skip`, have been looked along. */
  ghost predicate ArcsRelaxed<V(!new)>(g: Graph<V>, s: Search<V>, skip: Option<V>) {
    forall u, a :: u in s.closed && Some(u) != skip && u in g && a in g[u] ==> Relaxed(s, u, a)
  }

  /** Invariant between two rounds of the search. */
  ghost predicate Inv<V(!new)>(g: Graph<V>, h: map<V, real>, start: V, s: Search<V>) {
    && WellFormed(g) && Consistent(g, h)
    && ParentsExplainCosts(g, start, s) && ParentsCloseFirst(s)
    && HeapCovers(h, s) && LevelSeparates(h, s)
    && ArcsRelaxed(g, s, None)
  }

  /** Invariant while the arcs of the just closed vertex `n` are scanned; `done` are behind us. */
  ghost predicate Expanding<V(!new)>(g: Graph<V>, h: map<V, real>, start: V, s: Search<V>, n: V, done: set<Arc<V>>) {
    && WellFormed(g) && Consistent(g, h)
    && ParentsExplainCosts(g, start, s) && ParentsCloseFirst(s)
    && HeapCovers(h, s) && LevelSeparates(h, s)
    && n in s.closed && s.level == s.cost[n] + h[n]
    && ArcsRelaxed(g, s, Some(n))
    && (forall a :: a in done ==> Relaxed(s, n, a))
  }

  /** The part of the invariants that the search loops use directly. */
  lemma InvFacts<V(!new)>(g: Graph<V>, h: map<V, real>, start: V, s: Search<V>)
    requires Inv(g, h, start, s)
    ensures h.Keys == g.Keys && s.closed <= s.cost.Keys <= g.Keys
    ensures forall e :: e in s.heap ==> e.node in s.cost
  {
  }

  lemma ExpandingFacts<V(!new)>(g: Graph<V>, h: map<V, real>, start: V, s: Search<V>, n: V, done: set<Arc<V>>)
    requires Expanding(g, h, start, s, n, done)
    ensures WellFormed(g) && ParentsExplainCosts(g, start, s) && ParentsCloseFirst(s)
    ensures h.Keys == g.Keys && s.closed <= s.cost.Keys <= g.Keys
    ensures n in s.closed && forall a :: a in g[n] ==> a.to in g
  {
  }

  /** The first round starts from the start vertex alone. */
  function Begin<V>(start: V, estimate: real): Search<V> {
    Search(map[start := 0.0], map[], {}, multiset{Entry(estimate, 0.0, start)}, map[], 0, estimate)
  }

  lemma BeginKeepsInv<V(!new)>(g: Graph<V>, h: map<V, real>, start: V)
    requires WellFormed(g) && Consistent(g, h) && start in g
    ensures Inv(g, h, start, Begin(start, h[start]))
  {
  }

  /** Taking an entry off the heap uncovers no open vertex, provided its own vertex is closed. */
  lemma RemoveKeepsHeapCovers<V(!new)>(h: map<V, real>, s: Search<V>, e: Entry<V>, t: Search<V>)
    requires HeapCovers(h, s)
    requires t.cost == s.cost && t.heap == s.heap - multiset{e}
    requires s.closed <= t.closed && e.node in t.closed
    ensures HeapCovers(h, t)
    ensures forall x :: x in t.heap ==> x in s.heap
  {
    forall v | v in t.cost && v !in t.closed
      ensures v in h && Entry(t.cost[v] + h[v], t.cost[v], v) in t.heap
    {
      var x := Entry(s.cost[v] + h[v], s.cost[v], v);
      assert x in s.heap && x != e;
      assert t.heap[x] == s.heap[x];
    }
    forall x | x in t.heap
      ensures x in s.heap
    {
      assert t.heap[x] <= s.heap[x];
    }
  }

  /** Dropping an entry of an already closed vertex. */
  lemma SkipKeepsInv<V(!new)>(g: Graph<V>, h: map<V, real>, start: V, s: Search<V>, e: Entry<V>)
    requires Inv(g, h, start, s)
    requires e in s.heap && e.node in s.closed
    ensures Inv(g, h, start, s.(heap := s.heap - multiset{e}))
  {
    var t := s.(heap := s.heap - multiset{e});
    RemoveKeepsHeapCovers(h, s, e, t);
    assert ParentsExplainCosts(g, start, t) && ParentsCloseFirst(t) && ArcsRelaxed(g, t, None) by {
      hide HeapCovers, LevelSeparates, WellFormed, Consistent;
    }
  }

  /** Closing the vertex of a least entry. */
  function Close<V>(s: Search<V>, e: Entry<V>): Search<V> {
    s.(heap := s.heap - multiset{e}, closed := s.closed + {e.node}, rank := s.rank[e.node := s.count],
        count := s.count + 1, level := e.priority)
  }

  /** Of several entries for one open vertex, the least carries its best known cost. */
  lemma LeastEntryIsCurrent<V(!new)>(h: map<V, real>, s: Search<V>, e: Entry<V>)
    requires HeapCovers(h, s)
    requires e in s.heap && e.node !in s.closed
    requires forall x :: x in s.heap ==> e.priority <= x.priority
    ensures e.cost == s.cost[e.node]
  {
    assert Entry(s.cost[e.node] + h[e.node], s.cost[e.node], e.node) in s.heap;
  }

  lemma CloseKeepsParents<V(!new)>(g: Graph<V>, start: V, s: Search<V>, e: Entry<V>)
    requires ParentsExplainCosts(g, start, s) && ParentsCloseFirst(s)
    requires e.node in s.cost && e.node !in s.closed
    ensures ParentsExplainCosts(g, start, Close(s, e)) && ParentsCloseFirst(Close(s, e))
  {
  }

  lemma CloseKeepsLevel<V(!new)>(h: map<V, real>, s: Search<V>, e: Entry<V>)
    requires LevelSeparates(h, s) && e in s.heap
    requires e.node in s.cost && e.node in h && e.priority == s.cost[e.node] + h[e.node]
    requires forall x :: x in s.heap ==> e.priority <= x.priority
    ensures LevelSeparates(h, Close(s, e))
  {
    forall x | x in Close(s, e).heap
      ensures x in s.heap
    {
      assert Close(s, e).heap[x] <= s.heap[x];
    }
  }

  lemma CloseStartsExpanding<V(!new)>(g: Graph<V>, h: map<V, real>, start: V, s: Search<V>, e: Entry<V>)
    requires Inv(g, h, start, s)
    requires e in s.heap && e.node !in s.closed
    requires forall x :: x in s.heap ==> e.priority <= x.priority
    ensures e.cost == s.cost[e.node]
    ensures Expanding(g, h, start, Close(s, e), e.node, {})
  {
    LeastEntryIsCurrent(h, s, e);
    CloseKeepsParents(g, start, s, e);
    RemoveKeepsHeapCovers(h, s, e, Close(s, e));
    CloseKeepsLevel(h, s, e);
  }

  /** One inner step of both searches: look along arc `a` out of `n`. */
  function Relax<V>(h: map<V, real>, s: Search<V>, n: V, a: Arc<V>): Search<V>
    requires n in s.cost && a.to in h
  {
    var c := s.cost[n] + a.weight;
    if a.to in s.cost && s.cost[a.to] <= c then s
    else s.(cost := s.cost[a.to := c], prev := s.prev[a.to := n],
            heap := s.heap + multiset{Entry(c + h[a.to], c, a.to)})
  }

  /** What an inner step does, case by case, to a path cost `c` and a priority `f`. */
  lemma RelaxIs<V>(h: map<V, real>, s: Search<V>, n: V, a: Arc<V>, c: real, f: real)
    requires n in s.cost && a.to in h && c == s.cost[n] + a.weight && f == c + h[a.to]
    ensures var t := Relax(h, s, n, a);
            if a.to !in s.cost || c < s.cost[a.to] then
              && t.cost == s.cost[a.to := c] && t.prev == s.prev[a.to := n]
              && t.heap == s.heap + multiset{Entry(f, c, a.to)} && t.closed == s.closed
            else t == s
  {
  }

  lemma RelaxKeepsParents<V(!new)>(g: Graph<V>, h: map<V, real>, start: V, s: Search<V>, n: V, a: Arc<V>)
    requires WellFormed(g) && ParentsExplainCosts(g, start, s) && ParentsCloseFirst(s)
    requires n in s.closed && a in g[n] && a.to in h && a.to !in s.closed
    ensures ParentsExplainCosts(g, start, Relax(h, s, n, a))
    ensures ParentsCloseFirst(Relax(h, s, n, a))
  {
    var t := Relax(h, s, n, a);
    if t != s {
      assert a.to != start;
      assert t.cost[a.to] - t.cost[n] == a.weight;
      assert Arc(a.to, a.weight) == a;
    }
  }

  lemma RelaxKeepsHeapCovers<V(!new)>(h: map<V, real>, s: Search<V>, n: V, a: Arc<V>)
    requires HeapCovers(h, s) && n in s.cost && a.to in h
    ensures HeapCovers(h, Relax(h, s, n, a))
  {
  }

  /**
   An arc out of the vertex closed last cannot improve a closed vertex: this is what a consistent
   estimate buys, and why the searches need not reopen anything.
   */
  lemma ClosedIsNotImproved<V(!new)>(g: Graph<V>, h: map<V, real>, s: Search<V>, n: V, a: Arc<V>)
    requires WellFormed(g) && Consistent(g, h) && LevelSeparates(h, s)
    requires n in s.closed && n in g && s.level == s.cost[n] + h[n] && a in g[n] && a.to in h
    requires a.to in s.cost ==> s.cost[n] + a.weight < s.cost[a.to]
    ensures a.to !in s.closed
  {
  }

  lemma RelaxKeepsLevel<V(!new)>(g: Graph<V>, h: map<V, real>, s: Search<V>, n: V, a: Arc<V>)
    requires WellFormed(g) && Consistent(g, h) && LevelSeparates(h, s)
    requires n in s.closed && n in g && s.level == s.cost[n] + h[n] && a in g[n] && a.to in h
    requires a.to !in s.closed
    ensures LevelSeparates(h, Relax(h, s, n, a))
  {
  }

  lemma RelaxKeepsArcs<V(!new)>(g: Graph<V>, h: map<V, real>, s: Search<V>, n: V, a: Arc<V>, done: set<Arc<V>>)
    requires ArcsRelaxed(g, s, Some(n)) && n in s.closed && n in s.cost && a.to in h
    requires forall b :: b in done ==> Relaxed(s, n, b)
    requires a.to !in s.closed || Relax(h, s, n, a) == s
    ensures ArcsRelaxed(g, Relax(h, s, n, a), Some(n))
    ensures forall b :: b in done + {a} ==> Relaxed(Relax(h, s, n, a), n, b)
  {
    var t := Relax(h, s, n, a);
    forall u, b | u in s.closed && Relaxed(s, u, b)
      ensures Relaxed(t, u, b)
    {
    }
  }

  /** Looking along an arc keeps the invariant and leaves every closed vertex as it was. */
  lemma RelaxKeepsExpanding<V(!new)>(g: Graph<V>, h: map<V, real>, start: V, s: Search<V>, n: V,
                                     done: set<Arc<V>>, a: Arc<V>)
    requires Expanding(g, h, start, s, n, done)
    requires n in g && a in g[n]
    ensures Expanding(g, h, start, Relax(h, s, n, a), n, done + {a})
    ensures forall u :: u in s.closed ==> Relax(h, s, n, a).cost[u] == s.cost[u]
    ensures Relax(h, s, n, a).closed == s.closed
  {
    hide ParentsExplainCosts, ParentsCloseFirst, HeapCovers, LevelSeparates, ArcsRelaxed, WellFormed, Consistent,
      Relaxed;
    ExpandingFacts(g, h, start, s, n, done);
    var t := Relax(h, s, n, a);
    if t != s {
      ClosedIsNotImproved(g, h, s, n, a);
      RelaxKeepsParents(g, h, start, s, n, a);
      RelaxKeepsHeapCovers(h, s, n, a);
      RelaxKeepsLevel(g, h, s, n, a);
    }
    RelaxKeepsArcs(g, h, s, n, a, done);
  }

  lemma ExpandedKeepsInv<V(!new)>(g: Graph<V>, h: map<V, real>, start: V, s: Search<V>, n: V, done: set<Arc<V>>)
    requires Expanding(g, h, start, s, n, done)
    requires n in g && g[n] <= done
    ensures Inv(g, h, start, s)
  {
  }

  /**
   Potential argument behind both verdicts.  `bound` is a priority that every heap entry
   reaches; a walk that leaves the expanded part of the graph pays at least `bound`.
   */
  lemma {:induction false} WalksPay<V(!new)>(g: Graph<V>, h: map<V, real>, start: V, s: Search<V>, goal: V, bound: real,
                                             p: seq<V>, ws: seq<real>)
    requires WellFormed(g) && Consistent(g, h) && start in s.cost && s.cost[start] == 0.0
    requires s.cost.Keys <= g.Keys
    requires forall u :: u in s.cost && (u !in s.closed || u == goal) ==> bound <= s.cost[u] + h[u]
    requires ArcsRelaxed(g, s, Some(goal))
    requires IsWalk(g, p, ws) && p[0] == start
    ensures var x := Last(p);
            || (x in s.closed && x != goal && x in s.cost && s.cost[x] <= Sum(ws))
            || bound <= Sum(ws) + h[x]
    decreases |ws|
  {
    if ws == [] {
    } else {
      var k := |ws| - 1;
      WalksPay(g, h, start, s, goal, bound, p[..k + 1], ws[..k]);
      assert Arc(p[k + 1], ws[k]) in g[p[k]];
    }
  }

  /** Verdict one: the goal has just been closed, so a walk of its known cost is a cheapest one. */
  lemma ClosedGoalIsCheapest<V(!new)>(g: Graph<V>, h: map<V, real>, start: V, s: Search<V>, goal: V, path: seq<V>)
    requires Expanding(g, h, start, s, goal, {})
    requires exists ws :: IsWalkBetween(g, path, ws, start, goal) && Sum(ws) == s.cost[goal]
    ensures IsCheapest(g, path, s.cost[goal], start, goal)
    ensures Reachable(g, start, goal)
  {
    var bound := s.cost[goal] + h[goal];
    forall u | u in s.cost && (u !in s.closed || u == goal)
      ensures bound <= s.cost[u] + h[u]
    {
      if u != goal { assert Entry(s.cost[u] + h[u], s.cost[u], u) in s.heap; }
    }
    forall p, ws | IsWalkBetween(g, p, ws, start, goal)
      ensures s.cost[goal] <= Sum(ws)
    {
      WalksPay(g, h, start, s, goal, bound, p, ws);
    }
  }

  /** Verdict two: with an empty heap, exactly the closed vertices can be reached. */
  lemma EmptyHeapMeansExplored<V(!new)>(g: Graph<V>, h: map<V, real>, start: V, s: Search<V>, goal: V)
    requires Inv(g, h, start, s) && s.heap == multiset{}
    requires goal !in s.closed
    ensures goal !in s.cost
    ensures !Reachable(g, start, goal)
  {
    assert s.cost.Keys <= s.closed;
    forall p, ws | IsWalkBetween(g, p, ws, start, goal)
      ensures false
    {
      WalksPay(g, h, start, s, goal, Sum(ws) + h[goal] + 1.0, p, ws);
    }
  }

  /** The entry that `heappop` returns has least priority; ties may be broken in any way. */
  method PopLeast<V(==)>(heap: multiset<Entry<V>>) returns (least: Entry<V>)
    requires heap != multiset{}
    ensures least in heap
    ensures forall x :: x in heap ==> least.priority <= x.priority
  {
    least :| least in heap;
    var rest := heap - multiset{least};
    while rest != multiset{}
      invariant least in heap && rest <= heap
      invariant forall x :: x in heap && x !in rest ==> least.priority <= x.priority
      decreases |rest|
    {
      var e :| e in rest;
      if e.priority < least.priority {
        least := e;
      }
      rest := rest - multiset{e};
    }
  }

  lemma {:induction false} SumPrepend(w: real, ws: seq<real>)
    ensures Sum([w] + ws) == w + Sum(ws)
  {
    if ws == [] {
      assert [w] + ws == [w];
      assert [w][..0] == [];
    } else {
      var k := |ws| - 1;
      SumPrepend(w, ws[..k]);
      assert ([w] + ws)[..k + 1] == [w] + ws[..k];
    }
  }

  /** The parent chain of a closed vertex, walked back to the start and reversed. */
  method WalkBack<V(==,!new)>(ghost g: Graph<V>, ghost h: map<V, real>, start: V, goal: V, prev: map<V, V>,
                             ghost s: Search<V>)
    returns (path: seq<V>)
    requires WellFormed(g) && ParentsExplainCosts(g, start, s) && ParentsCloseFirst(s)
    requires prev == s.prev && goal in s.closed
    ensures path != [] && path[0] == start && Last(path) == goal
    ensures start == goal ==> path == [goal]
    ensures exists ws :: IsWalkBetween(g, path, ws, start, goal) && Sum(ws) == s.cost[goal]
  {
    path := [goal];
    ghost var ws := [];
    while path[0] != start
      invariant path != [] && path[0] in s.closed && Last(path) == goal
      invariant start == goal ==> path == [goal]
      invariant IsWalk(g, path, ws)
      invariant Sum(ws) == s.cost[goal] - s.cost[path[0]]
      decreases s.rank[path[0]]
    {
      var v := path[0];
      ghost var w := s.cost[v] - s.cost[prev[v]];
      SumPrepend(w, ws);
      path := [prev[v]] + path;
      ws := [w] + ws;
    }
  }
}
