/**
 Around the grid search of ocean_astar.py: laying the grid, finding an entry cell, pulling the
 raw path straight.
 */
module OceanGrid {
  import opened Base
  import opened Geodesy
  import opened GridAStar

  // ---------------------------------------------------------------- laying the grid

  const MAX_CELLS_PER_AXIS := 400

  datatype Raster = Raster(grid: Grid, res: real)

  function CellsAlong(span: real, res: real): int
    requires res > 0.0
  {
    MaxInt(2, RoundHalfEven(span / res) + 1)
  }

  /** The resolution after coarsening. */
  function Resolution(lonSpan: real, latSpan: real, baseRes: real): (res: real)
    requires baseRes > 0.0
    ensures res >= baseRes
  {
    var n := MaxInt(CellsAlong(lonSpan, baseRes), CellsAlong(latSpan, baseRes));
    if n > MAX_CELLS_PER_AXIS then baseRes * (n as real / MAX_CELLS_PER_AXIS as real) else baseRes
  }

  function Ticks(low: real, res: real, n: nat): (ticks: seq<real>)
    ensures |ticks| == n && forall k :: 0 <= k < n ==> ticks[k] == low + k as real * res
  {
    seq(n, k => low + k as real * res)
  }

  function BuildGrid(earth: Earth, lonMin: real, lonMax: real, latMin: real, latMax: real, baseRes: real): (r: Raster)
    requires baseRes > 0.0
    ensures r.grid.Valid() && |r.grid.lons| >= 2 && |r.grid.lats| >= 2 && r.res > 0.0
    ensures forall c :: r.grid.Has(c) ==> (r.grid.IsOpen(c) <==> !earth.blockedAt(r.grid.At(c)))
  {
    var res := Resolution(lonMax - lonMin, latMax - latMin, baseRes);
    var lons := Ticks(lonMin, res, CellsAlong(lonMax - lonMin, res));
    var lats := Ticks(latMin, res, CellsAlong(latMax - latMin, res));
    var blocked := seq(|lats|, i requires 0 <= i < |lats| =>
                         seq(|lons|, j requires 0 <= j < |lons| => earth.blockedAt(Point(lons[j], lats[i]))));
    Raster(Grid(lons, lats, blocked), res)
  }

  lemma QuotientBelow(a: real, b: real, bound: real)
    requires b > 0.0
    ensures a / b < bound <==> a < bound * b
    ensures a / b >= 0.0 <==> a >= 0.0
  {
    var q := a / b;
    assert a == q * b;
    assert (bound - q) * b == bound * b - a;
  }

  lemma CoarsenedAxis(span: real, baseRes: real, n: int)
    requires baseRes > 0.0 && n >= CellsAlong(span, baseRes)
    ensures baseRes * (n as real / 400.0) > 0.0
    ensures CellsAlong(span, baseRes * (n as real / 400.0)) <= MAX_CELLS_PER_AXIS + 1
  {
    hide RoundHalfEven;
    var res := baseRes * (n as real / 400.0);
    RoundingBounds(span / baseRes, n);
    QuotientBelow(span, baseRes, n as real);
    QuotientBelow(span, res, 400.0);
    RoundingBounds(span / res, 400);
  }

  lemma AxisIsBounded(lonSpan: real, latSpan: real, baseRes: real, span: real)
    requires baseRes > 0.0 && (span == lonSpan || span == latSpan)
    ensures CellsAlong(span, Resolution(lonSpan, latSpan, baseRes)) <= MAX_CELLS_PER_AXIS + 1
  {
    var n := MaxInt(CellsAlong(lonSpan, baseRes), CellsAlong(latSpan, baseRes));
    if n > MAX_CELLS_PER_AXIS {
      assert Resolution(lonSpan, latSpan, baseRes) == baseRes * (n as real / 400.0);
      CoarsenedAxis(span, baseRes, n);
    }
  }

  /** Coarsening leaves at most one cell more than the advertised maximum on either axis. */
  lemma GridIsBounded(lonSpan: real, latSpan: real, baseRes: real)
    requires baseRes > 0.0
    ensures var res := Resolution(lonSpan, latSpan, baseRes);
            && CellsAlong(lonSpan, res) <= MAX_CELLS_PER_AXIS + 1
            && CellsAlong(latSpan, res) <= MAX_CELLS_PER_AXIS + 1
  {
    AxisIsBounded(lonSpan, latSpan, baseRes, lonSpan);
    AxisIsBounded(lonSpan, latSpan, baseRes, latSpan);
  }

  lemma RoundsBelowMaximum(x: real)
    ensures RoundHalfEven(x) + 1 <= MAX_CELLS_PER_AXIS <==> x < 399.5
  {
  }

  lemma AxisFitsIff(span: real, res: real)
    requires res > 0.0
    ensures CellsAlong(span, res) <= MAX_CELLS_PER_AXIS <==> span < 399.5 * res
  {
    hide RoundHalfEven;
    RoundsBelowMaximum(span / res);
    QuotientBelow(span, res, 399.5);
  }

  /**
   The advertised maximum is kept exactly when the base resolution is fine enough as it is, or both
   spans stay short of 399.5 cells of the coarsened one.
   */
  lemma GridFitsIff(lonSpan: real, latSpan: real, baseRes: real)
    requires baseRes > 0.0
    ensures var n := MaxInt(CellsAlong(lonSpan, baseRes), CellsAlong(latSpan, baseRes));
            var coarse, res := baseRes * (n as real / 400.0), Resolution(lonSpan, latSpan, baseRes);
            (CellsAlong(lonSpan, res) <= MAX_CELLS_PER_AXIS && CellsAlong(latSpan, res) <= MAX_CELLS_PER_AXIS) <==>
              n <= MAX_CELLS_PER_AXIS || (lonSpan < 399.5 * coarse && latSpan < 399.5 * coarse)
  {
    hide CellsAlong;
    var n := MaxInt(CellsAlong(lonSpan, baseRes), CellsAlong(latSpan, baseRes));
    if n > MAX_CELLS_PER_AXIS {
      var coarse := baseRes * (n as real / 400.0);
      assert coarse > 0.0 && Resolution(lonSpan, latSpan, baseRes) == coarse;
      AxisFitsIff(lonSpan, coarse);
      AxisFitsIff(latSpan, coarse);
    }
  }

  /** The bound is reached: the second rounding can give 401 cells, one past the advertised maximum. */
  lemma GridCanExceedAdvertisedMaximum()
    ensures CellsAlong(400.5, Resolution(400.5, 0.0, 1.0)) == MAX_CELLS_PER_AXIS + 1
  {
    RoundHalfEvenIsUnique(400.5, 400);
    RoundHalfEvenIsUnique(0.0, 0);
    var res := 401.0 / 400.0;
    var q := 400.5 / res;
    assert q * res == 400.5;
    assert 399.5 < q < 400.5;
    RoundHalfEvenIsUnique(q, 400);
  }

  lemma QuotientAbove(a: real, b: real, bound: real)
    requires b > 0.0
    ensures a / b <= bound <==> a <= bound * b
  {
    var q := a / b;
    assert a == q * b;
    assert (bound - q) * b == bound * b - a;
  }

  lemma OffBy(span: real, q: real, res: real, n: real)
    requires res > 0.0 && q == span / res && -0.5 <= q - n <= 0.5
    ensures -0.5 * res <= span - n * res <= 0.5 * res
  {
    QuotientAbove(span, res, n + 0.5);
    QuotientBelow(span, res, n - 0.5);
    assert (n + 0.5) * res == n * res + 0.5 * res;
    assert (n - 0.5) * res == n * res - 0.5 * res;
  }

  /**
   The last grid line meets the requested edge to within half a cell exactly when the axis
   spans at least half a cell; a thinner box is overshot because two lines are always laid.
   */
  lemma LastLineMeetsEdge(low: real, high: real, res: real)
    requires res > 0.0 && low <= high
    ensures var last := low + (CellsAlong(high - low, res) - 1) as real * res;
            Abs(high - last) <= res / 2.0 <==> high - low >= res / 2.0
  {
    hide RoundHalfEven;
    var span := high - low;
    var q := span / res;
    var n := RoundHalfEven(q);
    QuotientBelow(span, res, 0.5);
    RoundingBounds(q, n);
    RoundingBounds(q, 0);
    RoundingBounds(q, 1);
    if n >= 1 {
      OffBy(span, q, res, n as real);
      assert high - (low + n as real * res) == span - n as real * res;
    } else {
      assert n == 0;
      assert high - (low + 1.0 * res) == span - res;
      QuotientAbove(span, res, 0.5);
    }
  }

  /** One axis of a grid: evenly spaced lines from the requested edge, the last one where it should be. */
  ghost predicate IsAxis(ticks: seq<real>, low: real, high: real, res: real) {
    && 2 <= |ticks| <= MAX_CELLS_PER_AXIS + 1 && ticks[0] == low
    && (forall k :: 0 < k < |ticks| ==> ticks[k] - ticks[k - 1] == res)
    && (Abs(high - Last(ticks)) <= res / 2.0 <==> high - low >= res / 2.0)
  }

  lemma AtLeastTwoCells(span: real, res: real)
    requires res > 0.0
    ensures CellsAlong(span, res) >= 2
  {
    hide RoundHalfEven;
  }

  lemma OneTickFurther(low: real, k: int, res: real)
    ensures (low + k as real * res) - (low + (k - 1) as real * res) == res
  {
    assert (k - 1) as real * res == k as real * res - res;
  }

  lemma TicksAreEven(low: real, res: real, n: nat)
    requires n >= 2
    ensures var ticks := Ticks(low, res, n);
            && ticks[0] == low && Last(ticks) == low + (n - 1) as real * res
            && forall k :: 0 < k < n ==> ticks[k] - ticks[k - 1] == res
  {
    var ticks := Ticks(low, res, n);
    assert ticks[0] == low + 0 as real * res;
    forall k | 0 < k < n
      ensures ticks[k] - ticks[k - 1] == res
    {
      OneTickFurther(low, k, res);
    }
  }

  lemma TicksAreAnAxis(low: real, high: real, res: real)
    requires res > 0.0 && low <= high && CellsAlong(high - low, res) <= MAX_CELLS_PER_AXIS + 1
    ensures IsAxis(Ticks(low, res, CellsAlong(high - low, res)), low, high, res)
  {
    hide CellsAlong;
    var n := CellsAlong(high - low, res);
    AtLeastTwoCells(high - low, res);
    LastLineMeetsEdge(low, high, res);
    TicksAreEven(low, res, n);
  }

  /** Both axes are laid out at the same resolution, coarsened at most as far as the bound asks. */
  lemma GridIsLaidOut(earth: Earth, lonMin: real, lonMax: real, latMin: real, latMax: real, baseRes: real)
    requires baseRes > 0.0 && lonMin <= lonMax && latMin <= latMax
    ensures var r := BuildGrid(earth, lonMin, lonMax, latMin, latMax, baseRes);
            && r.res >= baseRes && IsAxis(r.grid.lons, lonMin, lonMax, r.res)
            && IsAxis(r.grid.lats, latMin, latMax, r.res)
  {
    hide CellsAlong, Resolution, Ticks, IsAxis;
    GridIsBounded(lonMax - lonMin, latMax - latMin, baseRes);
    var res := Resolution(lonMax - lonMin, latMax - latMin, baseRes);
    TicksAreAnAxis(lonMin, lonMax, res);
    TicksAreAnAxis(latMin, latMax, res);
  }

  // ---------------------------------------------------------------- chords

  /** Points of the true geodesic, ends included: at most 302, one per hundred kilometres. */
  function GeodesicPoints(earth: Earth, a: Point, b: Point): (ps: seq<Point>)
    ensures |ps| >= 2 && ps[0] == a && Last(ps) == b
  {
    var npts := MinInt(300, MaxInt(0, RoundHalfEven(earth.haversine(a, b) / 1000.0 / 100.0) - 1));
    if npts <= 0 then [a, b] else [a] + earth.between(a, b, npts) + [b]
  }

  /**
   A chord in numbers: its ends with the points of the geodesic between them, one for every hundred
   kilometres but the last, to the nearest; never more than 300 between.
   */
  ghost predicate IsChord(earth: Earth, a: Point, b: Point, ps: seq<Point>) {
    && 2 <= |ps| <= 302 && ps[0] == a && ps[|ps| - 1] == b
    && (|ps| > 2 ==> ps[1..|ps| - 1] == earth.between(a, b, |ps| - 2))
    && (|ps| == 2 ==> earth.haversine(a, b) <= 150_000.0)
    && (2 < |ps| < 302 ==> -50_000.0 <= earth.haversine(a, b) - 100_000.0 * (|ps| - 1) as real <= 50_000.0)
    && (|ps| == 302 ==> earth.haversine(a, b) >= 30_050_000.0)
  }

  lemma GeodesicPointsAreChord(earth: Earth, a: Point, b: Point)
    requires forall p, q, n :: |earth.between(p, q, n)| == n
    ensures IsChord(earth, a, b, GeodesicPoints(earth, a, b))
  {
    var x := earth.haversine(a, b) / 1000.0 / 100.0;
    var n := RoundHalfEven(x);
    RoundingBounds(x, n);
    var ps := GeodesicPoints(earth, a, b);
    if |ps| > 2 {
      assert ps[1..|ps| - 1] == earth.between(a, b, |ps| - 2);
    }
  }

  predicate ClearOfBlocked(earth: Earth, a: Point, b: Point) {
    !earth.crossesBlocked(GeodesicPoints(earth, a, b))
  }

  predicate ClearOfLand(earth: Earth, a: Point, b: Point) {
    !earth.crossesLand(GeodesicPoints(earth, a, b))
  }

  // ---------------------------------------------------------------- the entry cell

  const MAX_RING := 60

  function RingLimit(grid: Grid): int {
    MinInt(MaxInt(|grid.lons|, |grid.lats|), MAX_RING)
  }

  function Clamp(grid: Grid, i: int, j: int): (c: Cell)
    requires |grid.lons| > 0 && |grid.lats| > 0
    ensures grid.Has(c)
  {
    Cell(MinInt(MaxInt(i, 0), |grid.lats| - 1), MinInt(MaxInt(j, 0), |grid.lons| - 1))
  }

  predicate Navigable(earth: Earth, grid: Grid, target: Point, c: Cell)
    requires grid.Valid()
  {
    grid.IsOpen(c) && !earth.crossesBlocked(GeodesicPoints(earth, grid.At(c), target))
  }

  /** Scan order: ring by ring, row by row, column by column. */
  predicate ScannedBefore(home: Cell, c: Cell, r: int, i: int, j: int) {
    var ring := Chebyshev(home, c);
    ring < r || (ring == r && (c.i < i || (c.i == i && c.j < j)))
  }

  /** `c` is navigable, within the ring limit, and nothing scanned before it is navigable. */
  ghost predicate IsEntry(earth: Earth, grid: Grid, home: Cell, target: Point, c: Cell)
    requires grid.Valid()
  {
    && Navigable(earth, grid, target, c)
    && Chebyshev(home, c) < RingLimit(grid)
    && (forall x :: Navigable(earth, grid, target, x) ==> !ScannedBefore(home, x, Chebyshev(home, c), c.i, c.j))
  }

  ghost predicate NoEntry(earth: Earth, grid: Grid, home: Cell, target: Point)
    requires grid.Valid()
  {
    forall x :: Navigable(earth, grid, target, x) ==> Chebyshev(home, x) >= RingLimit(grid)
  }

  lemma RingLimitIsPositive(grid: Grid)
    requires |grid.lons| > 0 && |grid.lats| > 0
    ensures RingLimit(grid) > 0
  {
  }

  method NearestNavigable(earth: Earth, grid: Grid, i: int, j: int, target: Point) returns (entry: Option<Cell>)
    requires grid.Valid() && |grid.lons| > 0 && |grid.lats| > 0
    ensures entry.None? <==> NoEntry(earth, grid, Clamp(grid, i, j), target)
    ensures entry.Some? ==> IsEntry(earth, grid, Clamp(grid, i, j), target, entry.value)
  {
    hide GeodesicPoints, RingLimit;
    var home := Clamp(grid, i, j);
    var maxRing := RingLimit(grid);
    assert maxRing >= 0 by { RingLimitIsPositive(grid); }
    for r := 0 to maxRing
      invariant forall x :: Navigable(earth, grid, target, x) ==> !ScannedBefore(home, x, r, home.i - r, home.j - r)
    {
      for di := -r to r + 1
        invariant forall x :: Navigable(earth, grid, target, x) ==> !ScannedBefore(home, x, r, home.i + di, home.j - r)
      {
        for dj := -r to r + 1
          invariant forall x ::
                      Navigable(earth, grid, target, x) ==> !ScannedBefore(home, x, r, home.i + di, home.j + dj)
        {
          if r > 0 && (di != r && di != -r) && (dj != r && dj != -r) {
            continue;
          }
          var c := Cell(home.i + di, home.j + dj);
          if grid.Has(c) && !grid.blocked[c.i][c.j] && ClearOfBlocked(earth, grid.At(c), target) {
            assert Chebyshev(home, c) == r;
            assert Navigable(earth, grid, target, c);
            return Some(c);
          }
        }
      }
    }
    assert forall x :: Navigable(earth, grid, target, x) ==> Chebyshev(home, x) >= maxRing;
    return None;
  }

  /** The scan determines the cell, and no navigable cell is fewer rings away. */
  lemma EntryIsNearestAndUnique(earth: Earth, grid: Grid, home: Cell, target: Point, c: Cell, x: Cell)
    requires grid.Valid() && IsEntry(earth, grid, home, target, c)
    ensures Navigable(earth, grid, target, x) ==> Chebyshev(home, c) <= Chebyshev(home, x)
    ensures IsEntry(earth, grid, home, target, x) ==> x == c
  {
  }

  lemma SafeHomeIsEntry(earth: Earth, grid: Grid, home: Cell, target: Point)
    requires grid.Valid() && |grid.lons| > 0 && |grid.lats| > 0 && Navigable(earth, grid, target, home)
    ensures IsEntry(earth, grid, home, target, home) && !NoEntry(earth, grid, home, target)
  {
    hide Navigable;
    RingLimitIsPositive(grid);
  }

  /** On a grid of at most sixty cells per axis the ring limit loses nothing. */
  lemma SmallGridsAreSearchedWhole(earth: Earth, grid: Grid, home: Cell, target: Point)
    requires grid.Valid() && grid.Has(home)
    requires |grid.lons| <= MAX_RING && |grid.lats| <= MAX_RING
    ensures NoEntry(earth, grid, home, target) <==> forall x :: !Navigable(earth, grid, target, x)
  {
    forall x | grid.Has(x)
      ensures Chebyshev(home, x) < RingLimit(grid)
    {
    }
  }

  // ---------------------------------------------------------------- pulling the path straight

  /** The farthest point after `i`, at or before `j`, that `i` sees; its successor if it sees none. */
  function FarthestSeen(earth: Earth, points: seq<Point>, i: nat, j: nat): (k: nat)
    requires i < j < |points|
    ensures i < k <= j
  {
    if j > i + 1 && !ClearOfBlocked(earth, points[i], points[j])
    then FarthestSeen(earth, points, i, j - 1) else j
  }

  lemma LookNearer(earth: Earth, points: seq<Point>, i: nat, j: nat)
    requires i < j < |points|
    ensures FarthestSeen(earth, points, i, j) ==
            if j > i + 1 && !ClearOfBlocked(earth, points[i], points[j]) then FarthestSeen(earth, points, i, j - 1)
            else j
  {
  }

  lemma {:induction false} FarthestSeenIsFarthest(earth: Earth, points: seq<Point>, i: nat, j: nat)
    requires i < j < |points|
    ensures var k := FarthestSeen(earth, points, i, j);
            && (k == i + 1 || ClearOfBlocked(earth, points[i], points[k]))
            && (forall m :: k < m <= j ==> !ClearOfBlocked(earth, points[i], points[m]))
  {
    hide ClearOfBlocked;
    if j > i + 1 && !ClearOfBlocked(earth, points[i], points[j]) {
      FarthestSeenIsFarthest(earth, points, i, j - 1);
    }
  }

  predicate InRange(points: seq<Point>, ks: seq<nat>) {
    forall n :: 0 <= n < |ks| ==> ks[n] < |points|
  }

  /** The positions that the greedy pass keeps, from `i` on. */
  function Kept(earth: Earth, points: seq<Point>, i: nat): (ks: seq<nat>)
    requires i < |points|
    ensures ks != [] && ks[0] == i && Last(ks) == |points| - 1
    ensures InRange(points, ks)
    decreases |points| - i
  {
    if i == |points| - 1 then [i]
    else [i] + Kept(earth, points, FarthestSeen(earth, points, i, |points| - 1))
  }

  function Pick(points: seq<Point>, ks: seq<nat>): (ps: seq<Point>)
    requires InRange(points, ks)
    ensures |ps| == |ks| && forall n :: 0 <= n < |ks| ==> ps[n] == points[ks[n]]
  {
    seq(|ks|, n requires 0 <= n < |ks| => points[ks[n]])
  }

  function Simplified(earth: Earth, points: seq<Point>): seq<Point> {
    if |points| <= 2 then points else Pick(points, Kept(earth, points, 0))
  }

  lemma KeepFinished(earth: Earth, points: seq<Point>, kept: seq<nat>)
    requires points != [] && kept != [] && Last(kept) == |points| - 1
    ensures kept[..|kept| - 1] + Kept(earth, points, |points| - 1) == kept
  {
  }

  lemma KeepOneMore(earth: Earth, points: seq<Point>, kept: seq<nat>, i: nat, j: nat)
    requires i < j < |points| && j == FarthestSeen(earth, points, i, |points| - 1)
    requires kept != [] && Last(kept) == i && InRange(points, kept)
    ensures InRange(points, kept + [j]) && Pick(points, kept + [j]) == Pick(points, kept) + [points[j]]
    ensures kept[..|kept| - 1] + Kept(earth, points, i) ==
            (kept + [j])[..|kept + [j]| - 1] + Kept(earth, points, j)
  {
    hide ClearOfBlocked, Pick;
    assert kept == kept[..|kept| - 1] + [i];
    assert (kept + [j])[..|kept + [j]| - 1] == kept;
  }

  method LineOfSightSimplify(earth: Earth, points: seq<Point>) returns (result: seq<Point>)
    ensures result == Simplified(earth, points)
  {
    hide ClearOfBlocked, Kept, FarthestSeen, Pick;
    if |points| <= 2 {
      return points;
    }
    result := [points[0]];
    var i, n := 0, |points|;
    ghost var kept: seq<nat> := [0];
    while i < n - 1
      invariant 0 <= i < n && kept != [] && Last(kept) == i
      invariant InRange(points, kept) && result == Pick(points, kept)
      invariant kept[..|kept| - 1] + Kept(earth, points, i) == Kept(earth, points, 0)
      decreases n - i
    {
      var j := n - 1;
      while j > i + 1 && !ClearOfBlocked(earth, points[i], points[j])
        invariant i < j < n
        invariant FarthestSeen(earth, points, i, j) == FarthestSeen(earth, points, i, n - 1)
      {
        LookNearer(earth, points, i, j);
        j := j - 1;
      }
      LookNearer(earth, points, i, j);
      KeepOneMore(earth, points, kept, i, j);
      result := result + [points[j]];
      kept := kept + [j];
      i := j;
    }
    KeepFinished(earth, points, kept);
    assert kept == Kept(earth, points, 0);
  }

  /** A hop joins neighbours or is clear of the blocked mask, and nothing farther is in sight. */
  ghost predicate IsGreedyHop(earth: Earth, points: seq<Point>, a: nat, b: nat)
    requires b < |points|
  {
    && a < b && (b == a + 1 || !earth.crossesBlocked(GeodesicPoints(earth, points[a], points[b])))
    && (forall m :: b < m < |points| ==> earth.crossesBlocked(GeodesicPoints(earth, points[a], points[m])))
  }

  /**
   What straightening guarantees, without its own definition: the kept positions run up to the
   last point in greedy hops.
   */
  ghost predicate GreedyHops(earth: Earth, points: seq<Point>, ks: seq<nat>) {
    && ks != [] && Last(ks) == |points| - 1
    && InRange(points, ks)
    && (forall n :: 0 <= n < |ks| - 1 ==> IsGreedyHop(earth, points, ks[n], ks[n + 1]))
  }

  lemma {:induction false} KeptIsGreedy(earth: Earth, points: seq<Point>, i: nat)
    requires i < |points|
    ensures GreedyHops(earth, points, Kept(earth, points, i))
    decreases |points| - i
  {
    hide GeodesicPoints;
    var ks := Kept(earth, points, i);
    if i < |points| - 1 {
      var rest := Kept(earth, points, FarthestSeen(earth, points, i, |points| - 1));
      FarthestSeenIsFarthest(earth, points, i, |points| - 1);
      KeptIsGreedy(earth, points, rest[0]);
      assert ks == [i] + rest;
      forall n | 0 <= n < |ks| - 1
        ensures IsGreedyHop(earth, points, ks[n], ks[n + 1])
      {
        if n > 0 {
          assert IsGreedyHop(earth, points, rest[n - 1], rest[n - 1 + 1]);
        }
      }
    }
  }

  /** The greedy hops from a position are unique: the definition above says everything. */
  lemma {:induction false} GreedyHopsAreKept(earth: Earth, points: seq<Point>, ks: seq<nat>)
    requires GreedyHops(earth, points, ks)
    ensures ks[0] < |points| && ks == Kept(earth, points, ks[0])
    decreases |ks|
  {
    hide GeodesicPoints;
    if |ks| > 1 {
      var rest := ks[1..];
      forall n | 0 <= n < |rest| - 1
        ensures IsGreedyHop(earth, points, rest[n], rest[n + 1])
      {
        assert IsGreedyHop(earth, points, ks[n + 1], ks[n + 1 + 1]);
      }
      GreedyHopsAreKept(earth, points, rest);
      assert IsGreedyHop(earth, points, ks[0], ks[0 + 1]);
      FarthestSeenIsFarthest(earth, points, ks[0], |points| - 1);
      assert ks[1] == FarthestSeen(earth, points, ks[0], |points| - 1);
    }
  }
}
