/**
 `ocean_path` of ocean_astar.py as a whole: the direct chord, the escalating retries, the
 straightening with its safety net, and what becomes of the two end points.
 */
module OceanPaths {
  import opened Base
  import opened Geodesy
  import opened GridAStar
  import opened OceanGrid

  // ---------------------------------------------------------------- longitudes

  /** Whole turns to be taken off a longitude. */
  function Turns(lon: real): int {
    ((lon + 180.0) / 360.0).Floor
  }

  /** That many whole turns lead from `b` to `a`. */
  predicate AreTurns(k: int, a: real, b: real) {
    a - b == 360.0 * k as real
  }

  /** The same meridian, whatever the number of turns. */
  ghost predicate SameMeridian(a: real, b: real) {
    exists k :: AreTurns(k, a, b)
  }

  lemma TurnsAreUnique(lon: real, k: int)
    requires -180.0 <= lon - 360.0 * k as real < 180.0
    ensures forall x :: -180.0 <= x < 180.0 && SameMeridian(lon, x) ==> x == lon - 360.0 * k as real
  {
    forall x | -180.0 <= x < 180.0 && SameMeridian(lon, x)
      ensures x == lon - 360.0 * k as real
    {
      var j :| AreTurns(j, lon, x);
      assert -1.0 < (j - k) as real < 1.0;
    }
  }

  /** Back to [-180, 180): the one longitude there that is whole turns away. */
  function Wrap(lon: real): (w: real)
    ensures -180.0 <= w < 180.0 && SameMeridian(lon, w)
    ensures forall x :: -180.0 <= x < 180.0 && SameMeridian(lon, x) ==> x == w
  {
    var k := Turns(lon);
    assert k as real * 360.0 <= lon + 180.0 < (k as real + 1.0) * 360.0;
    assert AreTurns(k, lon, lon - 360.0 * k as real);
    TurnsAreUnique(lon, k);
    lon - 360.0 * k as real
  }

  function WrapAll(ps: seq<Point>): (ws: seq<Point>)
    ensures |ws| == |ps|
  {
    seq(|ps|, k requires 0 <= k < |ps| => Point(Wrap(ps[k].lon), ps[k].lat))
  }

  /** The result with its ends overwritten: first the first by `p1`, then the last by `p2`. */
  function Anchored(ps: seq<Point>, p1: Point, p2: Point): seq<Point>
    requires ps != []
  {
    WrapAll(ps)[0 := p1][|ps| - 1 := p2]
  }

  /** The ends in a frame in which they are at most half a turn apart. */
  datatype Frame = Frame(a: Point, b: Point)

  function Unwrapped(p1: Point, p2: Point): Frame {
    if Abs(p1.lon - p2.lon) > 180.0 then
      if p1.lon < 0.0 then Frame(Point(p1.lon + 360.0, p1.lat), p2)
      else Frame(p1, Point(p2.lon + 360.0, p2.lat))
    else Frame(p1, p2)
  }

  lemma UnwrappedEndsAreClose(p1: Point, p2: Point)
    requires -180.0 <= p1.lon <= 180.0 && -180.0 <= p2.lon <= 180.0
    ensures Abs(Unwrapped(p1, p2).a.lon - Unwrapped(p1, p2).b.lon) <= 180.0
  {
  }

  // ---------------------------------------------------------------- the direct chord

  function DirectChord(earth: Earth, f: Frame): (ps: seq<Point>)
    requires forall a, b, n :: |earth.between(a, b, n)| == n
    ensures |ps| >= 2 && ps[0] == f.a && Last(ps) == f.b
  {
    var geodesic := GeodesicPoints(earth, f.a, f.b);
    var npts := MinInt(100, MaxInt(20, RoundHalfEven(earth.haversine(f.a, f.b) / 1000.0 / 300.0)));
    if npts <= |geodesic| then geodesic else [f.a] + earth.between(f.a, f.b, npts - 2) + [f.b]
  }

  // ---------------------------------------------------------------- one attempt

  const PAD_MULTIPLIERS: seq<real> := [1.0, 2.0, 4.0, 8.0, 16.0]

  function BaseResolution(f: Frame): (res: real)
    ensures 0.02 <= res <= 1.0
  {
    var span := MaxReal(Abs(f.a.lon - f.b.lon), Abs(f.a.lat - f.b.lat));
    MinReal(1.0, MaxReal(0.02, span / 160.0))
  }

  /** The padded box around both ends, clipped short of the poles. */
  datatype Box = Box(lonMin: real, lonMax: real, latMin: real, latMax: real)

  function Padded(f: Frame, multiplier: real): Box {
    var padLon := MaxReal(2.0, Abs(f.a.lon - f.b.lon) * 0.15) * multiplier;
    var padLat := MaxReal(2.0, Abs(f.a.lat - f.b.lat) * 0.15) * multiplier;
    Box(MinReal(f.a.lon, f.b.lon) - padLon, MaxReal(f.a.lon, f.b.lon) + padLon,
        MaxReal(-89.0, MinReal(f.a.lat, f.b.lat) - padLat), MinReal(89.0, MaxReal(f.a.lat, f.b.lat) + padLat))
  }

  function RasterFor(earth: Earth, f: Frame, multiplier: real): (r: Raster)
    ensures r.grid.Valid() && |r.grid.lons| >= 2 && |r.grid.lats| >= 2 && r.res > 0.0
  {
    var box := Padded(f, multiplier);
    BuildGrid(earth, box.lonMin, box.lonMax, box.latMin, box.latMax, BaseResolution(f))
  }

  /** The grid position nearest to an end point. */
  function Home(earth: Earth, f: Frame, multiplier: real, p: Point): (c: Cell) {
    var box, r := Padded(f, multiplier), RasterFor(earth, f, multiplier);
    Clamp(r.grid, RoundHalfEven((p.lat - box.latMin) / r.res), RoundHalfEven((p.lon - box.lonMin) / r.res))
  }

  ghost predicate Enters(earth: Earth, f: Frame, multiplier: real, p: Point, c: Cell) {
    IsEntry(earth, RasterFor(earth, f, multiplier).grid, Home(earth, f, multiplier, p), p, c)
  }

  ghost predicate CannotEnter(earth: Earth, f: Frame, multiplier: real, p: Point) {
    NoEntry(earth, RasterFor(earth, f, multiplier).grid, Home(earth, f, multiplier, p), p)
  }

  /** An end has no safe entry cell, or the two entry cells are not connected. */
  ghost predicate AttemptFails(earth: Earth, f: Frame, multiplier: real) {
    || CannotEnter(earth, f, multiplier, f.a)
    || CannotEnter(earth, f, multiplier, f.b)
    || (exists start, goal :: Enters(earth, f, multiplier, f.a, start) && Enters(earth, f, multiplier, f.b, goal)
          && !exists p :: IsGridPath(RasterFor(earth, f, multiplier).grid, start, goal, p))
  }

  ghost predicate AttemptYields(earth: Earth, f: Frame, multiplier: real, start: Cell, goal: Cell, cells: seq<Cell>) {
    && Enters(earth, f, multiplier, f.a, start) && Enters(earth, f, multiplier, f.b, goal)
    && IsShortestGridPath(RasterFor(earth, f, multiplier).grid, earth.haversine, start, goal, cells)
    && (start == goal ==> cells == [goal])
  }

  /** An attempt cannot both fail and yield: the two outcomes are told apart by the input alone. */
  lemma OutcomesExclude(earth: Earth, f: Frame, m: real, start: Cell, goal: Cell, cells: seq<Cell>)
    requires AttemptYields(earth, f, m, start, goal, cells)
    ensures !AttemptFails(earth, f, m)
  {
    var grid := RasterFor(earth, f, m).grid;
    forall s, g | Enters(earth, f, m, f.a, s) && Enters(earth, f, m, f.b, g)
      ensures exists p :: IsGridPath(grid, s, g, p)
    {
      EntryIsNearestAndUnique(earth, grid, Home(earth, f, m, f.a), f.a, start, s);
      EntryIsNearestAndUnique(earth, grid, Home(earth, f, m, f.b), f.b, goal, g);
      assert IsGridPath(grid, s, g, cells);
    }
  }

  // ---------------------------------------------------------------- from cells to points

  /** The raw path: cell centres, with the two real end points in place of the entry cells. */
  function RawPoints(grid: Grid, cells: seq<Cell>, f: Frame): (ps: seq<Point>)
    requires cells != [] && forall k :: 0 <= k < |cells| ==> grid.Has(cells[k])
    ensures |ps| == |cells|
    ensures Last(ps) == f.b && (|cells| >= 2 ==> ps[0] == f.a)
    ensures forall k :: 0 < k < |cells| - 1 ==> ps[k] == grid.At(cells[k])
  {
    seq(|cells|, k requires 0 <= k < |cells| => grid.At(cells[k]))[0 := f.a][|cells| - 1 := f.b]
  }

  predicate ClearThroughout(earth: Earth, ps: seq<Point>) {
    forall k :: 0 <= k < |ps| - 1 ==> ClearOfLand(earth, ps[k], ps[k + 1])
  }

  /** The straightened path if all of it is clear of raw land, else the raw path, unchecked. */
  function Straightened(earth: Earth, raw: seq<Point>): seq<Point> {
    if ClearThroughout(earth, Simplified(earth, raw)) then Simplified(earth, raw) else raw
  }

  lemma StraightenedKeepsEnds(earth: Earth, raw: seq<Point>)
    requires raw != []
    ensures var s := Straightened(earth, raw);
            && s != [] && s[0] == raw[0] && Last(s) == Last(raw) && (|s| == 1 <==> |raw| == 1)
  {
    hide ClearOfBlocked, ClearOfLand, Pick, FarthestSeen;
    if |raw| > 2 {
      var ks := Kept(earth, raw, 0);
      assert ks[0] == 0 && Last(ks) == |raw| - 1;
      assert |ks| >= 2;
    }
  }

  predicate AreCells(grid: Grid, cells: seq<Cell>) {
    cells != [] && forall n :: 0 <= n < |cells| ==> grid.Has(cells[n])
  }

  /**
   Attempt `k` is the first that succeeds, and `raw` its path: a shortest grid path between the entry
   cells, with the real end points in their place.
   */
  ghost predicate IsRawPath(earth: Earth, f: Frame, k: nat, start: Cell, goal: Cell, cells: seq<Cell>,
                            raw: seq<Point>) {
    && k < |PAD_MULTIPLIERS|
    && (forall j :: 0 <= j < k ==> AttemptFails(earth, f, PAD_MULTIPLIERS[j]))
    && AttemptYields(earth, f, PAD_MULTIPLIERS[k], start, goal, cells)
    && AreCells(RasterFor(earth, f, PAD_MULTIPLIERS[k]).grid, cells)
    && raw == RawPoints(RasterFor(earth, f, PAD_MULTIPLIERS[k]).grid, cells, f)
  }

  /** And `path` is what it leads to. */
  ghost predicate RoutedBy(earth: Earth, p1: Point, p2: Point, k: nat, start: Cell, goal: Cell, cells: seq<Cell>,
                           raw: seq<Point>, path: seq<Point>)
  {
    && IsRawPath(earth, Unwrapped(p1, p2), k, start, goal, cells, raw)
    && Straightened(earth, raw) != [] && path == Anchored(Straightened(earth, raw), p1, p2)
  }

  /** What a call may return; `None` stands for the RuntimeError. */
  ghost predicate IsOceanPath(earth: Earth, p1: Point, p2: Point, out: Option<seq<Point>>)
    requires WellBehaved(earth)
  {
    var f := Unwrapped(p1, p2);
    if ClearOfBlocked(earth, f.a, f.b) then out == Some(Anchored(DirectChord(earth, f), p1, p2))
    else match out
      case None => forall k :: 0 <= k < |PAD_MULTIPLIERS| ==> AttemptFails(earth, f, PAD_MULTIPLIERS[k])
      case Some(path) => exists k, start, goal, cells, raw :: RoutedBy(earth, p1, p2, k, start, goal, cells, raw, path)
  }

  lemma HomeIsClamped(earth: Earth, f: Frame, multiplier: real, p: Point)
    ensures var box, r := Padded(f, multiplier), RasterFor(earth, f, multiplier);
            Home(earth, f, multiplier, p) ==
            Clamp(r.grid, RoundHalfEven((p.lat - box.latMin) / r.res), RoundHalfEven((p.lon - box.lonMin) / r.res))
  {
  }

  lemma EntryIsInGrid(earth: Earth, grid: Grid, home: Cell, target: Point, c: Cell)
    requires grid.Valid() && IsEntry(earth, grid, home, target, c)
    ensures grid.Has(c)
  {
  }

  method Attempt(earth: Earth, f: Frame, multiplier: real)
    returns (cells: Option<seq<Cell>>, ghost start: Cell, ghost goal: Cell)
    requires WellBehaved(earth)
    ensures cells.None? <==> AttemptFails(earth, f, multiplier)
    ensures cells.Some? ==> AttemptYields(earth, f, multiplier, start, goal, cells.value)
  {
    hide IsEntry, NoEntry, IsGridPath, IsShortestGridPath, RasterFor, Home, Clamp;
    start, goal := Cell(0, 0), Cell(0, 0);
    var box, r := Padded(f, multiplier), RasterFor(earth, f, multiplier);
    var i1, j1 := RoundHalfEven((f.a.lat - box.latMin) / r.res), RoundHalfEven((f.a.lon - box.lonMin) / r.res);
    var i2, j2 := RoundHalfEven((f.b.lat - box.latMin) / r.res), RoundHalfEven((f.b.lon - box.lonMin) / r.res);
    HomeIsClamped(earth, f, multiplier, f.a);
    HomeIsClamped(earth, f, multiplier, f.b);
    var entry1 := NearestNavigable(earth, r.grid, i1, j1, f.a);
    if entry1.None? {
      return None, start, goal;
    }
    var entry2 := NearestNavigable(earth, r.grid, i2, j2, f.b);
    if entry2.None? {
      return None, start, goal;
    }
    start, goal := entry1.value, entry2.value;
    EntryIsInGrid(earth, r.grid, Home(earth, f, multiplier, f.a), f.a, start);
    EntryIsInGrid(earth, r.grid, Home(earth, f, multiplier, f.b), f.b, goal);
    var path := AStarGrid(r.grid, earth.haversine, entry1.value, entry2.value);
    cells := path;
    assert Enters(earth, f, multiplier, f.a, start) && Enters(earth, f, multiplier, f.b, goal);
    if path.Some? {
      OutcomesExclude(earth, f, multiplier, start, goal, path.value);
    }
  }

  /** Straighten, then fall back to the raw path at the first chord that clips land. */
  method StraightenChecked(earth: Earth, raw: seq<Point>) returns (simplified: seq<Point>)
    ensures simplified == Straightened(earth, raw)
  {
    hide ClearOfLand, Simplified;
    simplified := LineOfSightSimplify(earth, raw);
    var i := 0;
    while i < |simplified| - 1
      invariant 0 <= i
      invariant simplified == Simplified(earth, raw)
      invariant forall n :: 0 <= n < i && n < |simplified| - 1 ==> ClearOfLand(earth, simplified[n], simplified[n + 1])
    {
      if !ClearOfLand(earth, simplified[i], simplified[i + 1]) {
        return raw;
      }
      i := i + 1;
    }
  }

  lemma BetweenCounts(earth: Earth)
    requires WellBehaved(earth)
    ensures forall a, b, n :: |earth.between(a, b, n)| == n
  {
  }

  lemma YieldedCellsAreInGrid(earth: Earth, f: Frame, m: real, start: Cell, goal: Cell, cells: seq<Cell>)
    requires AttemptYields(earth, f, m, start, goal, cells)
    ensures cells != [] && cells[0] == start && Last(cells) == goal
    ensures forall k :: 0 <= k < |cells| ==> RasterFor(earth, f, m).grid.Has(cells[k])
  {
  }

  method OceanPath(earth: Earth, p1: Point, p2: Point) returns (out: Option<seq<Point>>)
    requires WellBehaved(earth)
    ensures IsOceanPath(earth, p1, p2, out)
  {
    hide AttemptFails, AttemptYields, RasterFor, ClearOfBlocked, WellBehaved, Straightened, Unwrapped, RawPoints;
    var f := Unwrapped(p1, p2);
    if ClearOfBlocked(earth, f.a, f.b) {
      BetweenCounts(earth);
      return Some(Anchored(DirectChord(earth, f), p1, p2));
    }
    for k := 0 to |PAD_MULTIPLIERS|
      invariant forall j :: 0 <= j < k ==> AttemptFails(earth, f, PAD_MULTIPLIERS[j])
    {
      var cells, start, goal := Attempt(earth, f, PAD_MULTIPLIERS[k]);
      if cells.None? {
        continue;
      }
      YieldedCellsAreInGrid(earth, f, PAD_MULTIPLIERS[k], start, goal, cells.value);
      var raw := RawPoints(RasterFor(earth, f, PAD_MULTIPLIERS[k]).grid, cells.value, f);
      var simplified := StraightenChecked(earth, raw);
      StraightenedKeepsEnds(earth, raw);
      var path := Anchored(simplified, p1, p2);
      assert IsRawPath(earth, f, k, start, goal, cells.value, raw);
      assert RoutedBy(earth, p1, p2, k, start, goal, cells.value, raw, path);
      return Some(path);
    }
    return None;
  }

  // ---------------------------------------------------------------- what a caller can rely on

  /** What the two overwrites leave of a searched path's ends. */
  lemma RoutedEnds(earth: Earth, p1: Point, p2: Point, k: nat, start: Cell, goal: Cell, cells: seq<Cell>,
                   raw: seq<Point>, path: seq<Point>)
    requires RoutedBy(earth, p1, p2, k, start, goal, cells, raw, path)
    ensures path != [] && Last(path) == p2
    ensures path[0] == p1 <==> start != goal || p1 == p2
    ensures |path| >= 2 <==> start != goal
  {
    hide RasterFor, AttemptFails, Simplified, IsEntry, Straightened;
    var f := Unwrapped(p1, p2);
    YieldedCellsAreInGrid(earth, f, PAD_MULTIPLIERS[k], start, goal, cells);
    StraightenedKeepsEnds(earth, raw);
  }

  lemma DirectChordPreservesEnds(earth: Earth, p1: Point, p2: Point, out: Option<seq<Point>>)
    requires WellBehaved(earth) && IsOceanPath(earth, p1, p2, out)
    requires ClearOfBlocked(earth, Unwrapped(p1, p2).a, Unwrapped(p1, p2).b)
    ensures out.Some? && |out.value| >= 2 && out.value[0] == p1 && Last(out.value) == p2
  {
    hide ClearOfBlocked, WellBehaved;
    BetweenCounts(earth);
  }

  /** At the first padding that does not fail both ends are entered through one cell. */
  ghost predicate SharesEntryAt(earth: Earth, f: Frame, k: nat, c: Cell) {
    && k < |PAD_MULTIPLIERS|
    && (forall j :: 0 <= j < k ==> AttemptFails(earth, f, PAD_MULTIPLIERS[j]))
    && Enters(earth, f, PAD_MULTIPLIERS[k], f.a, c) && Enters(earth, f, PAD_MULTIPLIERS[k], f.b, c)
  }

  /** A condition on the two ends alone: the chord is blocked and the ends share their entry cell. */
  ghost predicate SharesEntry(earth: Earth, p1: Point, p2: Point) {
    var f := Unwrapped(p1, p2);
    !ClearOfBlocked(earth, f.a, f.b) && exists k, c :: SharesEntryAt(earth, f, k, c)
  }

  lemma {:induction false} LengthIsNotNegative(grid: Grid, d: Metric, q: seq<Cell>)
    requires IsMetric(d) && forall k :: 0 <= k < |q| ==> grid.Has(q[k])
    ensures Length(grid, d, q) >= 0.0
  {
    if |q| > 1 {
      LengthIsNotNegative(grid, d, q[..|q| - 1]);
    }
  }

  lemma StayingIsShortest(grid: Grid, d: Metric, c: Cell)
    requires grid.Valid() && IsMetric(d) && grid.Has(c)
    ensures IsShortestGridPath(grid, d, c, c, [c])
  {
    forall q | IsGridPath(grid, c, c, q) && (forall k :: 0 <= k < |q| ==> grid.Has(q[k]))
      ensures Length(grid, d, [c]) <= Length(grid, d, q)
    {
      LengthIsNotNegative(grid, d, q);
    }
  }

  /** With a shared entry cell the attempt succeeds at once. */
  lemma SharedEntrySucceeds(earth: Earth, f: Frame, m: real, c: Cell)
    requires IsMetric(earth.haversine) && Enters(earth, f, m, f.a, c) && Enters(earth, f, m, f.b, c)
    ensures AttemptYields(earth, f, m, c, c, [c]) && !AttemptFails(earth, f, m)
  {
    hide RasterFor, Home, IsEntry;
    var grid := RasterFor(earth, f, m).grid;
    EntryIsInGrid(earth, grid, Home(earth, f, m, f.a), f.a, c);
    StayingIsShortest(grid, earth.haversine, c);
    OutcomesExclude(earth, f, m, c, c, [c]);
  }

  lemma SamePadding(earth: Earth, f: Frame, k: nat, start: Cell, goal: Cell, cells: seq<Cell>, n: nat, c: Cell)
    requires WellBehaved(earth) && SharesEntryAt(earth, f, n, c) && k < |PAD_MULTIPLIERS|
    requires forall j :: 0 <= j < k ==> AttemptFails(earth, f, PAD_MULTIPLIERS[j])
    requires AttemptYields(earth, f, PAD_MULTIPLIERS[k], start, goal, cells)
    ensures n == k
  {
    hide AttemptFails, AttemptYields, Enters;
    SharedEntrySucceeds(earth, f, PAD_MULTIPLIERS[n], c);
    OutcomesExclude(earth, f, PAD_MULTIPLIERS[k], start, goal, cells);
  }

  lemma EntryIsUnique(earth: Earth, f: Frame, m: real, p: Point, c: Cell, x: Cell)
    requires Enters(earth, f, m, p, c) && Enters(earth, f, m, p, x)
    ensures x == c
  {
    hide RasterFor, Home, IsEntry;
    EntryIsNearestAndUnique(earth, RasterFor(earth, f, m).grid, Home(earth, f, m, p), p, c, x);
  }

  /** The entry cells of a run are one exactly if the ends share their entry. */
  lemma SameCellIff(earth: Earth, f: Frame, k: nat, start: Cell, goal: Cell, cells: seq<Cell>, raw: seq<Point>)
    requires WellBehaved(earth) && IsRawPath(earth, f, k, start, goal, cells, raw)
    ensures start == goal <==> exists n, c :: SharesEntryAt(earth, f, n, c)
  {
    hide RasterFor, Home, IsEntry, AttemptFails, IsShortestGridPath, WellBehaved, Enters, RawPoints;
    if start == goal {
      assert SharesEntryAt(earth, f, k, start);
    }
    forall n: nat, c: Cell | SharesEntryAt(earth, f, n, c)
      ensures start == goal
    {
      SamePadding(earth, f, k, start, goal, cells, n, c);
      EntryIsUnique(earth, f, PAD_MULTIPLIERS[k], f.a, start, c);
      EntryIsUnique(earth, f, PAD_MULTIPLIERS[k], f.b, goal, c);
    }
  }

  lemma WasRouted(earth: Earth, p1: Point, p2: Point, k: nat, start: Cell, goal: Cell, cells: seq<Cell>,
                  raw: seq<Point>, path: seq<Point>)
    requires RoutedBy(earth, p1, p2, k, start, goal, cells, raw, path)
    ensures IsRawPath(earth, Unwrapped(p1, p2), k, start, goal, cells, raw)
    ensures Straightened(earth, raw) != [] && path == Anchored(Straightened(earth, raw), p1, p2)
  {
    hide IsRawPath, Straightened, Anchored, Unwrapped;
  }

  /**
   The documented promise is that both end points are preserved exactly.  The destination always is.
   Whatever the call returns, it starts at the origin if and only if the two ends do not share their
   entry cell, or are the same point; and it has a second point exactly if they do not.
   */
  lemma EndsArePreservedIff(earth: Earth, p1: Point, p2: Point, out: Option<seq<Point>>)
    requires WellBehaved(earth) && IsOceanPath(earth, p1, p2, out) && out.Some?
    ensures out.value != [] && Last(out.value) == p2
    ensures out.value[0] == p1 <==> !SharesEntry(earth, p1, p2) || p1 == p2
    ensures |out.value| >= 2 <==> !SharesEntry(earth, p1, p2)
  {
    hide ClearOfBlocked, WellBehaved, RoutedBy, AttemptFails, SharesEntryAt, Unwrapped;
    var f := Unwrapped(p1, p2);
    if ClearOfBlocked(earth, f.a, f.b) {
      DirectChordPreservesEnds(earth, p1, p2, out);
    } else {
      var k, start, goal, cells, raw :| RoutedBy(earth, p1, p2, k, start, goal, cells, raw, out.value);
      RoutedEnds(earth, p1, p2, k, start, goal, cells, raw, out.value);
      WasRouted(earth, p1, p2, k, start, goal, cells, raw, out.value);
      SameCellIff(earth, f, k, start, goal, cells, raw);
    }
  }

  /** The run through a shared entry cell. */
  lemma SharedEntryRun(earth: Earth, p1: Point, p2: Point, k: nat, c: Cell)
    requires WellBehaved(earth) && SharesEntryAt(earth, Unwrapped(p1, p2), k, c)
    ensures exists raw :: RoutedBy(earth, p1, p2, k, c, c, [c], raw, [p2])
    ensures !AttemptFails(earth, Unwrapped(p1, p2), PAD_MULTIPLIERS[k])
  {
    hide AttemptFails, Unwrapped, RasterFor, Enters, Simplified, ClearThroughout, IsShortestGridPath;
    var f := Unwrapped(p1, p2);
    SharedEntrySucceeds(earth, f, PAD_MULTIPLIERS[k], c);
    YieldedCellsAreInGrid(earth, f, PAD_MULTIPLIERS[k], c, c, [c]);
    var raw := RawPoints(RasterFor(earth, f, PAD_MULTIPLIERS[k]).grid, [c], f);
    assert IsRawPath(earth, f, k, c, c, [c], raw);
    StraightenedKeepsEnds(earth, raw);
    assert Anchored(Straightened(earth, raw), p1, p2) == [p2];
    assert RoutedBy(earth, p1, p2, k, c, c, [c], raw, [p2]);
  }

  lemma WithinPaddings(earth: Earth, f: Frame, k: nat, c: Cell)
    requires SharesEntryAt(earth, f, k, c)
    ensures k < |PAD_MULTIPLIERS|
  {
    hide AttemptFails, Enters;
  }

  /** And with a shared entry cell the call does return, the destination alone. */
  lemma SharedEntryLosesTheOrigin(earth: Earth, p1: Point, p2: Point)
    requires WellBehaved(earth) && SharesEntry(earth, p1, p2)
    ensures IsOceanPath(earth, p1, p2, Some([p2]))
    ensures forall out :: IsOceanPath(earth, p1, p2, out) ==> out == Some([p2])
  {
    hide ClearOfBlocked, AttemptFails, Unwrapped, RoutedBy, SharesEntryAt, WellBehaved;
    var k: nat, c :| SharesEntryAt(earth, Unwrapped(p1, p2), k, c);
    WithinPaddings(earth, Unwrapped(p1, p2), k, c);
    SharedEntryRun(earth, p1, p2, k, c);
    forall out | IsOceanPath(earth, p1, p2, out)
      ensures out == Some([p2])
    {
      if out.Some? {
        EndsArePreservedIff(earth, p1, p2, out);
        assert out.value == [p2];
      }
    }
  }

  // ---------------------------------------------------------------- what a searched path consists of

  /** Positions of a raw path, from its first to its last point, in greedy hops all clear of raw land. */
  ghost predicate IsStraight(earth: Earth, raw: seq<Point>, ks: seq<nat>) {
    GreedyHops(earth, raw, ks) && ks[0] == 0 && InRange(raw, ks) && ClearThroughout(earth, Pick(raw, ks))
  }

  /** Straightening leaves greedy hops that are clear of raw land, or else the raw path itself. */
  lemma StraightOrRaw(earth: Earth, raw: seq<Point>)
    requires raw != []
    ensures || (exists ks :: IsStraight(earth, raw, ks) && Straightened(earth, raw) == Pick(raw, ks))
            || (Straightened(earth, raw) == raw && !ClearThroughout(earth, Simplified(earth, raw)))
  {
    hide ClearOfBlocked, ClearOfLand;
    var ks := Kept(earth, raw, 0);
    KeptIsGreedy(earth, raw, 0);
    if |raw| <= 2 {
      assert Pick(raw, ks) == raw;
    }
    if ClearThroughout(earth, Simplified(earth, raw)) {
      assert IsStraight(earth, raw, ks);
    }
  }

  lemma RawPathHasPoints(earth: Earth, f: Frame, k: nat, start: Cell, goal: Cell, cells: seq<Cell>, raw: seq<Point>)
    requires IsRawPath(earth, f, k, start, goal, cells, raw)
    ensures raw != []
  {
    hide AttemptFails, AttemptYields, RasterFor;
  }

  /**
   Whatever a call returns when the chord is blocked: the raw path of the first padding that succeeds,
   reduced to greedy hops all clear of raw land, or else all of it, of which nothing is checked -- with
   both ends overwritten.
   */
  lemma SearchedPathIsStraightOrRaw(earth: Earth, p1: Point, p2: Point, out: Option<seq<Point>>)
    requires WellBehaved(earth) && IsOceanPath(earth, p1, p2, out) && out.Some?
    requires !ClearOfBlocked(earth, Unwrapped(p1, p2).a, Unwrapped(p1, p2).b)
    ensures exists k, start, goal, cells, raw ::
              && IsRawPath(earth, Unwrapped(p1, p2), k, start, goal, cells, raw)
              && (|| (exists ks :: IsStraight(earth, raw, ks) && Pick(raw, ks) != []
                                   && out.value == Anchored(Pick(raw, ks), p1, p2))
                  || (raw != [] && !ClearThroughout(earth, Simplified(earth, raw))
                      && out.value == Anchored(raw, p1, p2)))
  {
    hide ClearOfBlocked, ClearOfLand, IsRawPath, RoutedBy, Unwrapped, Straightened, IsStraight, WellBehaved,
      Simplified, Anchored, Pick;
    var k, start, goal, cells, raw :| RoutedBy(earth, p1, p2, k, start, goal, cells, raw, out.value);
    WasRouted(earth, p1, p2, k, start, goal, cells, raw, out.value);
    RawPathHasPoints(earth, Unwrapped(p1, p2), k, start, goal, cells, raw);
    StraightOrRaw(earth, raw);
  }

  /** Every point of a result is back in the standard range, provided the ends are. */
  lemma LongitudesAreWrapped(ps: seq<Point>, p1: Point, p2: Point)
    requires ps != [] && -180.0 <= p1.lon <= 180.0 && -180.0 <= p2.lon <= 180.0
    ensures forall k :: 0 <= k < |ps| ==> -180.0 <= Anchored(ps, p1, p2)[k].lon <= 180.0
  {
  }

  // ---------------------------------------------------------------- the promise does fail

  const PORT := Point(0.0, 0.001)
  const BERTH := Point(0.001, 0.0)

  /** Distance along the meridians and parallels of a chart, in metres. */
  function ChartDistance(a: Point, b: Point): real {
    111_000.0 * (Abs(a.lon - b.lon) + Abs(a.lat - b.lat))
  }

  lemma ChartDistanceIsMetric()
    ensures IsMetric(ChartDistance)
  {
    forall a, b, c
      ensures ChartDistance(a, c) <= ChartDistance(a, b) + ChartDistance(b, c)
    {
      assert Abs(a.lon - c.lon) <= Abs(a.lon - b.lon) + Abs(b.lon - c.lon);
      assert Abs(a.lat - c.lat) <= Abs(a.lat - b.lat) + Abs(b.lat - c.lat);
    }
  }

  /** Open water everywhere except for one obstacle between two very close points. */
  function ObstructedHarbour(): Earth {
    Earth(ChartDistance, ChartDistance, (a, b, n: nat) => seq(n, k => a), p => false,
          ps => ps == [PORT, BERTH], ps => false)
  }

  lemma HarbourFrame()
    ensures Unwrapped(PORT, BERTH) == Frame(PORT, BERTH) && PAD_MULTIPLIERS[0] == 1.0
  {
  }

  lemma HarbourGrid()
    ensures var f := Unwrapped(PORT, BERTH);
            var r := RasterFor(ObstructedHarbour(), f, 1.0);
            && f == Frame(PORT, BERTH)
            && Padded(f, 1.0) == Box(-2.0, 2.001, -2.0, 2.001) && r.res == 0.02
            && |r.grid.lons| == 201 && |r.grid.lats| == 201
            && (forall k :: 0 <= k < 201 ==> r.grid.lons[k] == -2.0 + k as real * 0.02)
            && (forall k :: 0 <= k < 201 ==> r.grid.lats[k] == -2.0 + k as real * 0.02)
  {
    var span := 2.001 - -2.0;
    assert span / 0.02 == 200.05;
    RoundHalfEvenIsUnique(200.05, 200);
    assert CellsAlong(span, 0.02) == 201;
  }

  lemma HarbourHome(p: Point)
    requires p == PORT || p == BERTH
    ensures Home(ObstructedHarbour(), Unwrapped(PORT, BERTH), 1.0, p) == Cell(100, 100)
  {
    hide RasterFor, Padded, Unwrapped, ObstructedHarbour, RoundHalfEven;
    HarbourGrid();
    assert 2.0 / 0.02 == 100.0 && 2.001 / 0.02 == 100.05;
    RoundHalfEvenIsUnique(100.0, 100);
    RoundHalfEvenIsUnique(100.05, 100);
  }

  /** Nothing lies between the shared cell and either end. */
  lemma HarbourConnector(p: Point)
    requires p == PORT || p == BERTH
    ensures ClearOfBlocked(ObstructedHarbour(), Point(0.0, 0.0), p)
    ensures !ClearOfBlocked(ObstructedHarbour(), PORT, BERTH)
  {
    var earth := ObstructedHarbour();
    assert ChartDistance(Point(0.0, 0.0), p) == 111.0 && ChartDistance(PORT, BERTH) == 222.0;
    RoundHalfEvenIsUnique(0.00111, 0);
    RoundHalfEvenIsUnique(0.00222, 0);
    assert GeodesicPoints(earth, Point(0.0, 0.0), p) == [Point(0.0, 0.0), p];
    assert GeodesicPoints(earth, PORT, BERTH) == [PORT, BERTH];
    assert [Point(0.0, 0.0), p][0] != [PORT, BERTH][0];
  }

  lemma HarbourIsOpen(c: Cell)
    requires RasterFor(ObstructedHarbour(), Unwrapped(PORT, BERTH), 1.0).grid.Has(c)
    ensures RasterFor(ObstructedHarbour(), Unwrapped(PORT, BERTH), 1.0).grid.IsOpen(c)
  {
  }

  lemma HarbourCellIsSafe(p: Point)
    requires p == PORT || p == BERTH
    ensures var grid := RasterFor(ObstructedHarbour(), Unwrapped(PORT, BERTH), 1.0).grid;
            |grid.lons| > 0 && |grid.lats| > 0 && Navigable(ObstructedHarbour(), grid, p, Cell(100, 100))
  {
    hide RasterFor, Padded, ObstructedHarbour, GeodesicPoints, Unwrapped;
    HarbourGrid();
    HarbourIsOpen(Cell(100, 100));
    HarbourConnector(p);
    assert RasterFor(ObstructedHarbour(), Unwrapped(PORT, BERTH), 1.0).grid.At(Cell(100, 100)) == Point(0.0, 0.0);
  }

  lemma HarbourEntry(p: Point)
    requires p == PORT || p == BERTH
    ensures Enters(ObstructedHarbour(), Unwrapped(PORT, BERTH), 1.0, p, Cell(100, 100))
    ensures !CannotEnter(ObstructedHarbour(), Unwrapped(PORT, BERTH), 1.0, p)
  {
    hide RasterFor, Padded, Home, ObstructedHarbour, Unwrapped, IsEntry, NoEntry, Navigable;
    HarbourHome(p);
    HarbourCellIsSafe(p);
    SafeHomeIsEntry(ObstructedHarbour(), RasterFor(ObstructedHarbour(), Unwrapped(PORT, BERTH), 1.0).grid,
                    Cell(100, 100), p);
  }

  lemma ObstructedHarbourIsWellBehaved()
    ensures WellBehaved(ObstructedHarbour())
  {
    ChartDistanceIsMetric();
  }

  lemma HarbourIsShared()
    ensures SharesEntry(ObstructedHarbour(), PORT, BERTH)
  {
    hide RasterFor, Padded, AttemptFails, Enters, ClearOfBlocked, ObstructedHarbour, Unwrapped, GeodesicPoints,
      CannotEnter;
    HarbourFrame();
    HarbourConnector(PORT);
    HarbourEntry(PORT);
    HarbourEntry(BERTH);
    assert SharesEntryAt(ObstructedHarbour(), Unwrapped(PORT, BERTH), 0, Cell(100, 100));
  }

  /** For a well-behaved earth: two distinct points whose path comes back as the single point `BERTH`. */
  lemma SharedEntryCellLosesTheOrigin()
    ensures WellBehaved(ObstructedHarbour()) && PORT != BERTH
    ensures IsOceanPath(ObstructedHarbour(), PORT, BERTH, Some([BERTH]))
    ensures forall out :: IsOceanPath(ObstructedHarbour(), PORT, BERTH, out) ==> out == Some([BERTH])
  {
    hide ObstructedHarbour, WellBehaved, IsOceanPath, SharesEntry;
    ObstructedHarbourIsWellBehaved();
    HarbourIsShared();
    SharedEntryLosesTheOrigin(ObstructedHarbour(), PORT, BERTH);
  }
}
