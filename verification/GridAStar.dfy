/**
 The grid search of ocean_astar.py: A* over an 8-connected grid with a closed set that is
 never reopened.
 */
module GridAStar {
  import opened Base
  import opened Geodesy
  import opened BestFirstSearch

  /** Row `i` is a latitude, column `j` a longitude. */
  datatype Cell = Cell(i: int, j: int)

  datatype Grid = Grid(lons: seq<real>, lats: seq<real>, blocked: seq<seq<bool>>) {
    ghost predicate Valid() {
      |blocked| == |lats| && forall i :: 0 <= i < |blocked| ==> |blocked[i]| == |lons|
    }

    predicate Has(c: Cell) {
      0 <= c.i < |lats| && 0 <= c.j < |lons|
    }

    predicate IsOpen(c: Cell)
      requires Valid()
    {
      Has(c) && !blocked[c.i][c.j]
    }

    function At(c: Cell): Point
      requires Has(c)
    {
      Point(lons[c.j], lats[c.i])
    }
  }

  type Metric = (Point, Point) -> real

  // ---------------------------------------------------------------- what is to be found

  /** Rings around a cell: the larger of the row and the column offset. */
  function Chebyshev(a: Cell, b: Cell): (r: int)
    ensures -r <= a.i - b.i <= r && -r <= a.j - b.j <= r
    ensures r == a.i - b.i || r == b.i - a.i || r == a.j - b.j || r == b.j - a.j
  {
    var di, dj := if a.i < b.i then b.i - a.i else a.i - b.i, if a.j < b.j then b.j - a.j else a.j - b.j;
    MaxInt(di, dj)
  }

  /** A king's walk from `start` to `goal` that enters open cells only. */
  ghost predicate IsGridPath(grid: Grid, start: Cell, goal: Cell, p: seq<Cell>)
    requires grid.Valid()
  {
    && p != [] && p[0] == start && Last(p) == goal && grid.Has(start)
    && (forall k :: 0 < k < |p| ==> Chebyshev(p[k - 1], p[k]) == 1 && grid.IsOpen(p[k]))
  }

  ghost function Length(grid: Grid, d: Metric, p: seq<Cell>): real
    requires forall k :: 0 <= k < |p| ==> grid.Has(p[k])
  {
    if |p| <= 1 then 0.0
    else Length(grid, d, p[..|p| - 1]) + d(grid.At(p[|p| - 2]), grid.At(p[|p| - 1]))
  }

  // ---------------------------------------------------------------- the graph that is searched

  const NEIGHBORS: seq<Cell> := [
    Cell(-1, -1), Cell(-1, 0), Cell(-1, 1), Cell(0, -1), Cell(0, 1), Cell(1, -1), Cell(1, 0), Cell(1, 1)]

  function Shift(c: Cell, k: nat): Cell
    requires k < 8
  {
    Cell(c.i + NEIGHBORS[k].i, c.j + NEIGHBORS[k].j)
  }

  /** The eight offsets are exactly the cells one ring away. */
  lemma ShiftsAreOneRing(a: Cell, b: Cell)
    ensures Chebyshev(a, b) == 1 <==> exists k :: 0 <= k < 8 && Shift(a, k) == b
  {
    assert |NEIGHBORS| == 8;
    if Chebyshev(a, b) == 1 {
      var di, dj := b.i - a.i, b.j - a.j;
      var k := if di == -1 then dj + 1 else if di == 0 then (if dj == -1 then 3 else 4) else dj + 6;
      assert Shift(a, k) == b;
    }
  }

  ghost function Steps(grid: Grid, d: Metric, c: Cell): set<Arc<Cell>>
    requires grid.Valid() && grid.Has(c)
  {
    set k | 0 <= k < 8 && grid.IsOpen(Shift(c, k)) :: Arc(Shift(c, k), d(grid.At(c), grid.At(Shift(c, k))))
  }

  /** The arcs out of a cell, offset by offset, as the inner loop meets them. */
  ghost predicate Covers(grid: Grid, d: Metric, c: Cell, k: nat, done: set<Arc<Cell>>)
    requires grid.Valid() && grid.Has(c) && k <= 8
  {
    forall m :: 0 <= m < k && grid.IsOpen(Shift(c, m)) ==>
      Arc(Shift(c, m), d(grid.At(c), grid.At(Shift(c, m)))) in done
  }

  lemma CoveredNone(grid: Grid, d: Metric, c: Cell)
    requires grid.Valid() && grid.Has(c)
    ensures Covers(grid, d, c, 0, {})
  {
  }

  lemma CoveredOffsets(grid: Grid, d: Metric, c: Cell, k: nat, done: set<Arc<Cell>>)
    requires grid.Valid() && grid.Has(c) && k < 8 && Covers(grid, d, c, k, done)
    ensures !grid.IsOpen(Shift(c, k)) ==> Covers(grid, d, c, k + 1, done)
    ensures grid.IsOpen(Shift(c, k)) ==>
              var arc := Arc(Shift(c, k), d(grid.At(c), grid.At(Shift(c, k))));
              arc in Steps(grid, d, c) && Covers(grid, d, c, k + 1, done + {arc})
  {
  }

  lemma CoveredAll(grid: Grid, d: Metric, c: Cell, done: set<Arc<Cell>>)
    requires grid.Valid() && grid.Has(c) && Covers(grid, d, c, 8, done)
    ensures Steps(grid, d, c) <= done
  {
  }

  ghost function Cells(grid: Grid): set<Cell> {
    set i, j | 0 <= i < |grid.lats| && 0 <= j < |grid.lons| :: Cell(i, j)
  }

  ghost function Steps8(grid: Grid, d: Metric): Graph<Cell>
    requires grid.Valid()
  {
    map c | c in Cells(grid) :: Steps(grid, d, c)
  }

  ghost function Estimate(grid: Grid, d: Metric, goal: Cell): map<Cell, real>
    requires grid.Has(goal)
  {
    map c | c in Cells(grid) :: d(grid.At(c), grid.At(goal))
  }

  /** Distance to the goal never drops by more than the step: the triangle inequality. */
  lemma StraightLineIsConsistent(grid: Grid, d: Metric, goal: Cell)
    requires grid.Valid() && IsMetric(d) && grid.Has(goal)
    ensures WellFormed(Steps8(grid, d)) && Consistent(Steps8(grid, d), Estimate(grid, d, goal))
    ensures forall c :: c in Steps8(grid, d) <==> grid.Has(c)
    ensures forall c :: grid.Has(c) ==> Steps8(grid, d)[c] == Steps(grid, d, c)
    ensures forall c :: grid.Has(c) ==> Estimate(grid, d, goal)[c] == d(grid.At(c), grid.At(goal))
  {
    var g, h := Steps8(grid, d), Estimate(grid, d, goal);
    assert forall c :: c in Cells(grid) <==> c == Cell(c.i, c.j) && grid.Has(c);
    forall u, a: Arc<Cell> | u in g && a in g[u]
      ensures a.to in g && a.weight >= 0.0 && h[u] <= a.weight + h[a.to]
    {
      assert d(grid.At(u), grid.At(goal)) <= d(grid.At(u), grid.At(a.to)) + d(grid.At(a.to), grid.At(goal));
    }
  }

  // ---------------------------------------------------------------- walks and grid paths agree

  lemma {:induction false} WalkIsGridPath(grid: Grid, d: Metric, p: seq<Cell>, ws: seq<real>)
    requires grid.Valid() && IsWalk(Steps8(grid, d), p, ws)
    ensures IsGridPath(grid, p[0], Last(p), p)
    ensures forall k :: 0 <= k < |p| ==> grid.Has(p[k])
    ensures Length(grid, d, p) == Sum(ws)
  {
    if ws != [] {
      var k := |ws| - 1;
      WalkIsGridPath(grid, d, p[..k + 1], ws[..k]);
      assert Arc(p[k + 1], ws[k]) in Steps(grid, d, p[k]);
      ShiftsAreOneRing(p[k], p[k + 1]);
      assert p[..|p| - 1] == p[..k + 1];
      forall m | 0 < m < |p|
        ensures Chebyshev(p[m - 1], p[m]) == 1 && grid.IsOpen(p[m])
      {
        if m <= k {
          assert p[..k + 1][m] == p[m] && p[..k + 1][m - 1] == p[m - 1];
        }
      }
    }
  }

  lemma {:induction false} GridPathIsWalk(grid: Grid, d: Metric, p: seq<Cell>) returns (ws: seq<real>)
    requires grid.Valid() && p != [] && IsGridPath(grid, p[0], Last(p), p)
    ensures IsWalk(Steps8(grid, d), p, ws)
  {
    assert grid.Has(p[0]) && p[0] == Cell(p[0].i, p[0].j);
    if |p| == 1 {
      ws := [];
    } else {
      var k := |p| - 1;
      var q := p[..k];
      ws := GridPathIsWalk(grid, d, q);
      ShiftsAreOneRing(p[k - 1], p[k]);
      assert p[k] == Cell(p[k].i, p[k].j);
      var w := d(grid.At(p[k - 1]), grid.At(p[k]));
      assert Arc(p[k], w) in Steps(grid, d, p[k - 1]);
      ws := ws + [w];
      assert forall m :: 0 <= m < k ==> p[m] == q[m];
    }
  }

  /** No grid path between the ends of `p` is shorter. */
  ghost predicate IsShortestGridPath(grid: Grid, d: Metric, start: Cell, goal: Cell, p: seq<Cell>)
    requires grid.Valid()
  {
    && IsGridPath(grid, start, goal, p)
    && (forall k :: 0 <= k < |p| ==> grid.Has(p[k]))
    && (forall q :: IsGridPath(grid, start, goal, q) && (forall k :: 0 <= k < |q| ==> grid.Has(q[k])) ==>
          Length(grid, d, p) <= Length(grid, d, q))
  }

  lemma CheapestIsShortest(grid: Grid, d: Metric, start: Cell, goal: Cell, p: seq<Cell>, cost: real)
    requires grid.Valid() && IsCheapest(Steps8(grid, d), p, cost, start, goal)
    ensures IsShortestGridPath(grid, d, start, goal, p)
    ensures exists q :: IsGridPath(grid, start, goal, q)
  {
    var ws :| IsWalkBetween(Steps8(grid, d), p, ws, start, goal) && Sum(ws) == cost;
    WalkIsGridPath(grid, d, p, ws);
    forall q | IsGridPath(grid, start, goal, q) && (forall k :: 0 <= k < |q| ==> grid.Has(q[k]))
      ensures Length(grid, d, p) <= Length(grid, d, q)
    {
      var vs := GridPathIsWalk(grid, d, q);
      assert IsWalkBetween(Steps8(grid, d), q, vs, start, goal);
      WalkIsGridPath(grid, d, q, vs);
    }
  }

  lemma UnreachableMeansNoGridPath(grid: Grid, d: Metric, start: Cell, goal: Cell)
    requires grid.Valid() && !Reachable(Steps8(grid, d), start, goal)
    ensures !exists p :: IsGridPath(grid, start, goal, p)
  {
    forall p | IsGridPath(grid, start, goal, p)
      ensures false
    {
      var ws := GridPathIsWalk(grid, d, p);
      assert IsWalkBetween(Steps8(grid, d), p, ws, start, goal);
    }
  }

  // ---------------------------------------------------------------- the search

  /** The inner loop: look at the eight neighbours of the cell that was just closed. */
  method RelaxNeighbours(grid: Grid, d: Metric, ghost start: Cell, goal: Cell, node: Cell, g: real,
                         gScore0: map<Cell, real>, cameFrom0: map<Cell, Cell>, open0: multiset<Entry<Cell>>,
                         ghost s0: Search<Cell>)
    returns (gScore: map<Cell, real>, cameFrom: map<Cell, Cell>, open: multiset<Entry<Cell>>, ghost s: Search<Cell>)
    requires grid.Valid() && IsMetric(d) && grid.Has(goal) && grid.Has(node)
    requires Expanding(Steps8(grid, d), Estimate(grid, d, goal), start, s0, node, {})
    requires s0.cost == gScore0 && s0.prev == cameFrom0 && s0.heap == open0
    requires node in gScore0 && g == gScore0[node]
    ensures Inv(Steps8(grid, d), Estimate(grid, d, goal), start, s)
    ensures s.cost == gScore && s.prev == cameFrom && s.heap == open && s.closed == s0.closed
  {
    hide Inv, Expanding, ParentsExplainCosts, ParentsCloseFirst, WellFormed, Consistent, Steps8, Steps, Covers,
      Estimate, IsMetric, Shift, Relax;
    ghost var steps, h := Steps8(grid, d), Estimate(grid, d, goal);
    StraightLineIsConsistent(grid, d, goal);
    gScore, cameFrom, open, s := gScore0, cameFrom0, open0, s0;
    ghost var done: set<Arc<Cell>> := {};
    CoveredNone(grid, d, node);
    for k := 0 to 8
      invariant Expanding(steps, h, start, s, node, done)
      invariant Covers(grid, d, node, k, done)
      invariant s.cost == gScore && s.prev == cameFrom && s.heap == open && s.closed == s0.closed
      invariant node in gScore && g == gScore[node]
    {
      var neighbor := Shift(node, k);
      CoveredOffsets(grid, d, node, k, done);
      if !grid.Has(neighbor) || grid.blocked[neighbor.i][neighbor.j] {
        continue;
      }
      var step := d(grid.At(node), grid.At(neighbor));
      var ng := g + step;
      ghost var arc := Arc(neighbor, step);
      ExpandingFacts(steps, h, start, s, node, done);
      RelaxKeepsExpanding(steps, h, start, s, node, done, arc);
      var f := ng + d(grid.At(neighbor), grid.At(goal));
      RelaxIs(h, s, node, arc, ng, f);
      s := Relax(h, s, node, arc);
      done := done + {arc};
      if neighbor !in gScore || ng < gScore[neighbor] {
        gScore := gScore[neighbor := ng];
        cameFrom := cameFrom[neighbor := node];
        open := open + multiset{Entry(f, ng, neighbor)};
      }
    }
    CoveredAll(grid, d, node, done);
    ExpandedKeepsInv(steps, h, start, s, node, done);
  }

  /** Every vertex with a known cost other than the start has a parent: the test before the walk back. */
  lemma ParentsAreKeys(g: Graph<Cell>, h: map<Cell, real>, start: Cell, s: Search<Cell>, goal: Cell)
    requires Inv(g, h, start, s) || Expanding(g, h, start, s, goal, {})
    ensures start in s.cost && s.prev.Keys == s.cost.Keys - {start}
  {
  }

  /**
   Complete and optimal: fails exactly when the goal cannot be reached through open cells,
   and otherwise returns a shortest grid path.  Neither end need be open itself.
   */
  method AStarGrid(grid: Grid, d: Metric, start: Cell, goal: Cell) returns (path: Option<seq<Cell>>)
    requires grid.Valid() && IsMetric(d)
    requires grid.Has(start) && grid.Has(goal)
    ensures path.None? <==> !exists p :: IsGridPath(grid, start, goal, p)
    ensures path.Some? ==> IsShortestGridPath(grid, d, start, goal, path.value)
    ensures path.Some? && start == goal ==> path.value == [goal]
  {
    hide Inv, Expanding, ParentsExplainCosts, ParentsCloseFirst, WellFormed, Consistent, IsWalk, IsWalkBetween,
      Steps8, Estimate, Steps, Reachable, IsMetric, IsGridPath, IsShortestGridPath, IsCheapest, Sum;
    ghost var steps, h := Steps8(grid, d), Estimate(grid, d, goal);
    StraightLineIsConsistent(grid, d, goal);
    var open := multiset{Entry(d(grid.At(start), grid.At(goal)), 0.0, start)};
    var cameFrom: map<Cell, Cell> := map[];
    var gScore := map[start := 0.0];
    var visited: set<Cell> := {};
    ghost var s := Begin(start, h[start]);
    BeginKeepsInv(steps, h, start);
    while open != multiset{}
      invariant Inv(steps, h, start, s)
      invariant s.cost == gScore && s.prev == cameFrom && s.heap == open && s.closed == visited
      invariant goal !in visited
      decreases steps.Keys - visited, |open|
    {
      InvFacts(steps, h, start, s);
      var least := PopLeast(open);
      var g, node := least.cost, least.node;
      open := open - multiset{least};
      if node in visited {
        SkipKeepsInv(steps, h, start, s, least);
        s := s.(heap := open);
        continue;
      }
      visited := visited + {node};
      CloseStartsExpanding(steps, h, start, s, least);
      s := Close(s, least);
      if node == goal {
        break;
      }
      gScore, cameFrom, open, s := RelaxNeighbours(grid, d, start, goal, node, g, gScore, cameFrom, open, s);
    }
    if goal !in visited {
      EmptyHeapMeansExplored(steps, h, start, s, goal);
      UnreachableMeansNoGridPath(grid, d, start, goal);
    } else {
      ExpandingFacts(steps, h, start, s, goal, {});
    }
    ParentsAreKeys(steps, h, start, s, goal);
    if goal !in cameFrom && goal != start {
      return None;
    }
    var cells := WalkBack(steps, h, start, goal, cameFrom, s);
    ClosedGoalIsCheapest(steps, h, start, s, goal, cells);
    CheapestIsShortest(grid, d, start, goal, cells, s.cost[goal]);
    return Some(cells);
  }
}
