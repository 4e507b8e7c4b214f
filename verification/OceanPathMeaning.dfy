/**
 What `ocean_path` returns, in terms of the two points it is given, of the distances and masks it asks
 for, and of the figures of ocean_astar.py: where the search grids lie, how the ends enter them, which
 line the result retraces, and that nothing but whole turns is taken off its longitudes.
 */
module OceanPathMeaning {
  import opened Base
  import opened Geodesy
  import opened GridAStar
  import opened OceanGrid
  import opened OceanPaths

  // ---------------------------------------------------------------- the result and its line

  ghost predicate IsSamePlace(p: Point, q: Point) {
    p.lat == q.lat && SameMeridian(p.lon, q.lon)
  }

  /** The points of `line`, perhaps whole turns away and then in the standard range; the ends are the given ones. */
  ghost predicate Retraces(path: seq<Point>, line: seq<Point>, p1: Point, p2: Point) {
    && |path| == |line| > 0
    && path[|path| - 1] == p2 && (|path| > 1 ==> path[0] == p1)
    && forall k :: 0 < k < |path| - 1 ==> IsSamePlace(path[k], line[k]) && -180.0 <= path[k].lon < 180.0
  }

  lemma TurnsBack(k: int, a: real, b: real)
    requires AreTurns(k, a, b)
    ensures AreTurns(-k, b, a)
  {
  }

  lemma AnchoredRetraces(line: seq<Point>, p1: Point, p2: Point)
    requires line != []
    ensures Retraces(Anchored(line, p1, p2), line, p1, p2)
  {
    hide Wrap;
    var path := Anchored(line, p1, p2);
    forall k | 0 < k < |path| - 1
      ensures IsSamePlace(path[k], line[k]) && -180.0 <= path[k].lon < 180.0
    {
      assert path[k] == Point(Wrap(line[k].lon), line[k].lat);
      var n :| AreTurns(n, line[k].lon, path[k].lon);
      TurnsBack(n, line[k].lon, path[k].lon);
    }
  }

  /** The given points, one of them a turn further east if they are more than half a turn apart: a western one. */
  predicate AreEnds(p1: Point, p2: Point, a: Point, b: Point) {
    var far := p1.lon - p2.lon > 180.0 || p2.lon - p1.lon > 180.0;
    && a == Point(if far && p1.lon < 0.0 then p1.lon + 360.0 else p1.lon, p1.lat)
    && b == Point(if far && p1.lon >= 0.0 then p2.lon + 360.0 else p2.lon, p2.lat)
  }

  // ---------------------------------------------------------------- the direct chord

  /** One for every 300 km, to the nearest, but at least twenty and at most a hundred. */
  predicate IsCount(n: int, metres: real) {
    && 20 <= n <= 100
    && (n < 100 ==> metres <= 300_000.0 * n as real + 150_000.0)
    && (n > 20 ==> metres >= 300_000.0 * n as real - 150_000.0)
  }

  /** Of the chord and a line with one point for every 300 km, twenty to a hundred of them, the longer one. */
  ghost predicate IsDirect(earth: Earth, a: Point, b: Point, line: seq<Point>) {
    && |line| >= 2 && line[0] == a && line[|line| - 1] == b
    && (|line| > 2 ==> line[1..|line| - 1] == earth.between(a, b, |line| - 2))
    && exists chord, n :: IsChord(earth, a, b, chord) && IsCount(n, earth.haversine(a, b))
                          && |line| == if n > |chord| then n else |chord|
  }

  lemma CountIs(metres: real)
    ensures IsCount(MinInt(100, MaxInt(20, RoundHalfEven(metres / 1000.0 / 300.0))), metres)
  {
    var x := metres / 1000.0 / 300.0;
    RoundingBounds(x, RoundHalfEven(x));
  }

  lemma LongerIsDirect(earth: Earth, a: Point, b: Point, chord: seq<Point>, n: int)
    requires IsChord(earth, a, b, chord) && IsCount(n, earth.haversine(a, b))
    requires |earth.between(a, b, n - 2)| == n - 2
    ensures IsDirect(earth, a, b, if n <= |chord| then chord else [a] + earth.between(a, b, n - 2) + [b])
  {
    if n > |chord| {
      assert ([a] + earth.between(a, b, n - 2) + [b])[1..n - 1] == earth.between(a, b, n - 2);
    }
  }

  lemma DirectChordIsDirect(earth: Earth, f: Frame)
    requires WellBehaved(earth)
    ensures IsDirect(earth, f.a, f.b, DirectChord(earth, f))
  {
    hide IsChord, IsCount, RoundHalfEven, GeodesicPoints, IsDirect;
    BetweenCounts(earth);
    CountIs(earth.haversine(f.a, f.b));
    GeodesicPointsAreChord(earth, f.a, f.b);
    var n := MinInt(100, MaxInt(20, RoundHalfEven(earth.haversine(f.a, f.b) / 1000.0 / 300.0)));
    LongerIsDirect(earth, f.a, f.b, GeodesicPoints(earth, f.a, f.b), n);
  }

  // ---------------------------------------------------------------- the search grid

  /** Lines from the lower edge on, and as many as the span asks for: two, or the last within half a step. */
  ghost predicate IsSpaced(ticks: seq<real>, low: real, high: real, res: real) {
    && |ticks| >= 2 && (forall k :: 0 <= k < |ticks| ==> ticks[k] == low + k as real * res)
    && (if |ticks| == 2 then high - low <= 1.5 * res
        else -0.5 * res <= high - ticks[|ticks| - 1] <= 0.5 * res)
  }

  /** The base resolution, unless the longer span needs more than 400 lines; then so coarse that it needs about 400. */
  predicate IsResolution(lonSpan: real, latSpan: real, base: real, res: real) {
    var span := if lonSpan < latSpan then latSpan else lonSpan;
    if span < 399.5 * base then res == base else -0.5 * base <= 400.0 * res - base - span <= 0.5 * base
  }

  ghost predicate IsLaidOut(earth: Earth, lonMin: real, lonMax: real, latMin: real, latMax: real, base: real,
                            grid: Grid, res: real) {
    && res > 0.0 && IsResolution(lonMax - lonMin, latMax - latMin, base, res)
    && IsSpaced(grid.lons, lonMin, lonMax, res) && IsSpaced(grid.lats, latMin, latMax, res)
    && grid.Valid()
    && forall i, j :: 0 <= i < |grid.lats| && 0 <= j < |grid.lons| ==>
         grid.blocked[i][j] == earth.blockedAt(Point(grid.lons[j], grid.lats[i]))
  }

  /**
   A grid of 160 lines or so along the longer distance between the ends, no finer than a fiftieth of a degree
   and no coarser than a degree; around the ends, on every side, `m` times fifteen percent of their distance
   or two degrees, whichever is more; cut off a degree short of the poles.
   */
  ghost predicate IsPaddedGrid(earth: Earth, a: Point, b: Point, m: real, grid: Grid, res: real) {
    var west, east := if a.lon < b.lon then a.lon else b.lon, if a.lon < b.lon then b.lon else a.lon;
    var south, north := if a.lat < b.lat then a.lat else b.lat, if a.lat < b.lat then b.lat else a.lat;
    var padLon := m * (if 0.15 * (east - west) > 2.0 then 0.15 * (east - west) else 2.0);
    var padLat := m * (if 0.15 * (north - south) > 2.0 then 0.15 * (north - south) else 2.0);
    var span := if east - west < north - south then north - south else east - west;
    var base := if span < 3.2 then 0.02 else if span > 160.0 then 1.0 else span / 160.0;
    IsLaidOut(earth, west - padLon, east + padLon, if south - padLat < -89.0 then -89.0 else south - padLat,
              if north + padLat > 89.0 then 89.0 else north + padLat, base, grid, res)
  }

  lemma SpacedIs(low: real, high: real, res: real)
    requires res > 0.0
    ensures IsSpaced(Ticks(low, res, CellsAlong(high - low, res)), low, high, res)
  {
    hide RoundHalfEven;
    var span := high - low;
    var n, q := CellsAlong(span, res), span / res;
    AtLeastTwoCells(span, res);
    RoundingBounds(q, n - 1);
    if n == 2 {
      RoundingBounds(q, 1);
      QuotientAbove(span, res, 1.5);
    } else {
      OffBy(span, q, res, (n - 1) as real);
    }
  }

  lemma CoarsenedIs(span: real, base: real, n: int, res: real)
    requires base > 0.0 && n == RoundHalfEven(span / base) + 1 && res == base * (n as real / 400.0)
    ensures -0.5 * base <= 400.0 * res - base - span <= 0.5 * base
  {
    hide RoundHalfEven;
    RoundingBounds(span / base, n - 1);
    OffBy(span, span / base, base, (n - 1) as real);
    assert 400.0 * res == base * n as real;
    assert (n - 1) as real * base == base * n as real - base;
  }

  lemma RoundingIsMonotone(x: real, y: real)
    requires x <= y
    ensures RoundHalfEven(x) <= RoundHalfEven(y)
  {
  }

  lemma LongerSpanHasMoreCells(s: real, t: real, base: real)
    requires base > 0.0 && s <= t
    ensures CellsAlong(s, base) <= CellsAlong(t, base)
  {
    hide RoundHalfEven;
    QuotientAbove(s, base, t / base);
    assert t / base * base == t;
    RoundingIsMonotone(s / base, t / base);
  }

  lemma CellsAre(span: real, res: real)
    requires res > 0.0 && CellsAlong(span, res) > 2
    ensures CellsAlong(span, res) == RoundHalfEven(span / res) + 1
  {
  }

  lemma ResolutionIs(lonSpan: real, latSpan: real, base: real)
    requires base > 0.0
    ensures IsResolution(lonSpan, latSpan, base, Resolution(lonSpan, latSpan, base))
  {
    hide RoundHalfEven, CellsAlong;
    var span := if lonSpan < latSpan then latSpan else lonSpan;
    LongerSpanHasMoreCells(if lonSpan < latSpan then lonSpan else latSpan, span, base);
    AxisFitsIff(span, base);
    if CellsAlong(span, base) > 400 {
      CellsAre(span, base);
      CoarsenedIs(span, base, CellsAlong(span, base), Resolution(lonSpan, latSpan, base));
    }
  }

  lemma BuiltIsLaidOut(earth: Earth, lonMin: real, lonMax: real, latMin: real, latMax: real, base: real)
    requires base > 0.0
    ensures var r := BuildGrid(earth, lonMin, lonMax, latMin, latMax, base);
            IsLaidOut(earth, lonMin, lonMax, latMin, latMax, base, r.grid, r.res)
  {
    hide CellsAlong, Resolution, IsSpaced, IsResolution, Ticks;
    var res := Resolution(lonMax - lonMin, latMax - latMin, base);
    ResolutionIs(lonMax - lonMin, latMax - latMin, base);
    SpacedIs(lonMin, lonMax, res);
    SpacedIs(latMin, latMax, res);
  }

  lemma BaseIs(f: Frame)
    ensures var dLon, dLat := if f.a.lon < f.b.lon then f.b.lon - f.a.lon else f.a.lon - f.b.lon,
                              if f.a.lat < f.b.lat then f.b.lat - f.a.lat else f.a.lat - f.b.lat;
            var span := if dLon < dLat then dLat else dLon;
            BaseResolution(f) == if span < 3.2 then 0.02 else if span > 160.0 then 1.0 else span / 160.0
  {
  }

  lemma PadIs(d: real, m: real)
    ensures MaxReal(2.0, d * 0.15) * m == m * (if 0.15 * d > 2.0 then 0.15 * d else 2.0)
  {
  }

  lemma BoxIs(f: Frame, m: real)
    ensures var west, east := if f.a.lon < f.b.lon then f.a.lon else f.b.lon,
                              if f.a.lon < f.b.lon then f.b.lon else f.a.lon;
            var south, north := if f.a.lat < f.b.lat then f.a.lat else f.b.lat,
                                if f.a.lat < f.b.lat then f.b.lat else f.a.lat;
            var padLon := m * (if 0.15 * (east - west) > 2.0 then 0.15 * (east - west) else 2.0);
            var padLat := m * (if 0.15 * (north - south) > 2.0 then 0.15 * (north - south) else 2.0);
            Padded(f, m) == Box(west - padLon, east + padLon, if south - padLat < -89.0 then -89.0 else south - padLat,
                                if north + padLat > 89.0 then 89.0 else north + padLat)
  {
    PadIs(Abs(f.a.lon - f.b.lon), m);
    PadIs(Abs(f.a.lat - f.b.lat), m);
  }

  lemma RasterIsPadded(earth: Earth, f: Frame, m: real)
    ensures IsPaddedGrid(earth, f.a, f.b, m, RasterFor(earth, f, m).grid, RasterFor(earth, f, m).res)
  {
    hide BuildGrid, IsLaidOut, BaseResolution, Padded;
    var box := Padded(f, m);
    BaseIs(f);
    BoxIs(f, m);
    BuiltIsLaidOut(earth, box.lonMin, box.lonMax, box.latMin, box.latMax, BaseResolution(f));
  }

  // ---------------------------------------------------------------- entering the grid

  /** No row and no column of the grid is closer to the point than this cell's. */
  ghost predicate IsNearest(grid: Grid, p: Point, home: Cell) {
    && grid.Has(home)
    && (forall i :: 0 <= i < |grid.lats| ==> Abs(p.lat - grid.lats[home.i]) <= Abs(p.lat - grid.lats[i]))
    && (forall j :: 0 <= j < |grid.lons| ==> Abs(p.lon - grid.lons[home.j]) <= Abs(p.lon - grid.lons[j]))
  }

  /** The cell is open, and the chord from its centre to the point clear of the blocked mask. */
  predicate IsSafe(earth: Earth, grid: Grid, p: Point, c: Cell)
    requires grid.Valid()
  {
    && 0 <= c.i < |grid.lats| && 0 <= c.j < |grid.lons| && !grid.blocked[c.i][c.j]
    && !earth.crossesBlocked(GeodesicPoints(earth, Point(grid.lons[c.j], grid.lats[c.i]), p))
  }

  /** Fewer than sixty rings around, and fewer than the grid has rows or columns. */
  predicate IsWithinReach(grid: Grid, home: Cell, c: Cell) {
    Chebyshev(home, c) < 60 && (Chebyshev(home, c) < |grid.lats| || Chebyshev(home, c) < |grid.lons|)
  }

  /** Of the safe cells within reach, the first one ring by ring, row by row, column by column. */
  ghost predicate IsEntryCell(earth: Earth, grid: Grid, p: Point, home: Cell, c: Cell)
    requires grid.Valid()
  {
    && IsNearest(grid, p, home) && IsSafe(earth, grid, p, c) && IsWithinReach(grid, home, c)
    && forall x :: IsSafe(earth, grid, p, x) ==>
         || Chebyshev(home, c) < Chebyshev(home, x)
         || (Chebyshev(home, c) == Chebyshev(home, x) && (c.i < x.i || (c.i == x.i && c.j <= x.j)))
  }

  ghost predicate HasNoEntry(earth: Earth, grid: Grid, p: Point, home: Cell)
    requires grid.Valid()
  {
    IsNearest(grid, p, home) && forall x :: IsSafe(earth, grid, p, x) ==> !IsWithinReach(grid, home, x)
  }

  lemma NearestNumber(x: real, n: nat, k: int, i: int)
    requires n > 0 && k == MinInt(MaxInt(RoundHalfEven(x), 0), n - 1) && 0 <= i < n
    ensures Abs(x - k as real) <= Abs(x - i as real)
  {
    hide RoundHalfEven;
    var r := RoundHalfEven(x);
    assert r as real - 0.5 <= x <= r as real + 0.5;
    if i > k {
      assert k >= r && x <= k as real + 0.5 <= i as real - 0.5;
    } else if i < k {
      assert k <= r && x >= k as real - 0.5 >= i as real + 0.5;
    }
  }

  lemma ScaledDistance(at: real, low: real, res: real, x: real, k: int)
    requires res > 0.0 && x == (at - low) / res
    ensures Abs(at - (low + k as real * res)) == Abs(x - k as real) * res
  {
    assert x * res == at - low;
    assert (x - k as real) * res == at - low - k as real * res;
    var d := x - k as real;
    assert d >= 0.0 ==> d * res >= 0.0;
    assert d < 0.0 ==> d * res < 0.0;
  }

  lemma ScaledOrder(a: real, b: real, res: real)
    requires a <= b && res > 0.0
    ensures a * res <= b * res
  {
    assert (b - a) * res >= 0.0;
  }

  lemma NearestLine(ticks: seq<real>, at: real, low: real, res: real, k: int)
    requires res > 0.0 && ticks != [] && forall i :: 0 <= i < |ticks| ==> ticks[i] == low + i as real * res
    requires k == MinInt(MaxInt(RoundHalfEven((at - low) / res), 0), |ticks| - 1)
    ensures 0 <= k < |ticks| && forall i :: 0 <= i < |ticks| ==> Abs(at - ticks[k]) <= Abs(at - ticks[i])
  {
    hide RoundHalfEven, Abs;
    var x := (at - low) / res;
    forall i | 0 <= i < |ticks|
      ensures Abs(at - ticks[k]) <= Abs(at - ticks[i])
    {
      NearestNumber(x, |ticks|, k, i);
      assert ticks[k] == low + k as real * res && ticks[i] == low + i as real * res;
      ScaledDistance(at, low, res, x, k);
      ScaledDistance(at, low, res, x, i);
      ScaledOrder(Abs(x - k as real), Abs(x - i as real), res);
    }
  }

  lemma TicksOf(earth: Earth, f: Frame, m: real)
    ensures var r, box := RasterFor(earth, f, m), Padded(f, m);
            && (forall j :: 0 <= j < |r.grid.lons| ==> r.grid.lons[j] == box.lonMin + j as real * r.res)
            && (forall i :: 0 <= i < |r.grid.lats| ==> r.grid.lats[i] == box.latMin + i as real * r.res)
  {
    hide Padded, BaseResolution, CellsAlong, Resolution;
  }

  lemma HomeIsNearest(earth: Earth, f: Frame, m: real, p: Point)
    ensures IsNearest(RasterFor(earth, f, m).grid, p, Home(earth, f, m, p))
  {
    hide RoundHalfEven, RasterFor, Padded;
    var r, box := RasterFor(earth, f, m), Padded(f, m);
    TicksOf(earth, f, m);
    var home := Home(earth, f, m, p);
    NearestLine(r.grid.lats, p.lat, box.latMin, r.res, home.i);
    NearestLine(r.grid.lons, p.lon, box.lonMin, r.res, home.j);
  }

  lemma SafeIffNavigable(earth: Earth, grid: Grid, p: Point, c: Cell)
    requires grid.Valid()
    ensures IsSafe(earth, grid, p, c) <==> Navigable(earth, grid, p, c)
  {
    hide GeodesicPoints;
  }

  lemma WithinReachIff(grid: Grid, home: Cell, c: Cell)
    ensures IsWithinReach(grid, home, c) <==> Chebyshev(home, c) < RingLimit(grid)
  {
    hide Chebyshev;
  }

  lemma EntryMeans(earth: Earth, f: Frame, m: real, p: Point, c: Cell)
    requires Enters(earth, f, m, p, c)
    ensures IsEntryCell(earth, RasterFor(earth, f, m).grid, p, Home(earth, f, m, p), c)
  {
    hide RasterFor, Home, Navigable, IsSafe, Chebyshev, RingLimit, IsNearest, IsWithinReach;
    var grid, home := RasterFor(earth, f, m).grid, Home(earth, f, m, p);
    HomeIsNearest(earth, f, m, p);
    SafeIffNavigable(earth, grid, p, c);
    WithinReachIff(grid, home, c);
    forall x | IsSafe(earth, grid, p, x)
      ensures || Chebyshev(home, c) < Chebyshev(home, x)
              || (Chebyshev(home, c) == Chebyshev(home, x) && (c.i < x.i || (c.i == x.i && c.j <= x.j)))
    {
      SafeIffNavigable(earth, grid, p, x);
    }
  }

  lemma NoEntryMeans(earth: Earth, f: Frame, m: real, p: Point)
    requires CannotEnter(earth, f, m, p)
    ensures HasNoEntry(earth, RasterFor(earth, f, m).grid, p, Home(earth, f, m, p))
  {
    hide RasterFor, Home, Navigable, IsSafe, Chebyshev, RingLimit, IsNearest, IsWithinReach;
    var grid, home := RasterFor(earth, f, m).grid, Home(earth, f, m, p);
    HomeIsNearest(earth, f, m, p);
    forall x | IsSafe(earth, grid, p, x)
      ensures !IsWithinReach(grid, home, x)
    {
      SafeIffNavigable(earth, grid, p, x);
      WithinReachIff(grid, home, x);
    }
  }

  // ---------------------------------------------------------------- the searched line

  /** The centres of the cells, with the two ends in place of the first and, after that, the last one. */
  predicate IsLineThrough(grid: Grid, cells: seq<Cell>, a: Point, b: Point, raw: seq<Point>)
    requires forall k :: 0 <= k < |cells| ==> grid.Has(cells[k])
  {
    && |raw| == |cells| > 0 && raw[|raw| - 1] == b && (|raw| > 1 ==> raw[0] == a)
    && forall k :: 0 < k < |raw| - 1 ==>
         grid.Has(cells[k]) && raw[k] == Point(grid.lons[cells[k].j], grid.lats[cells[k].i])
  }

  /**
   Pulled straight along some of its positions: from each to the farthest that is in sight, or to the next.
   If every chord of that is clear of raw land it is the result; otherwise the line is left as it was.
   */
  ghost predicate IsPulledStraight(earth: Earth, raw: seq<Point>, ks: seq<nat>, line: seq<Point>) {
    && GreedyHops(earth, raw, ks) && ks[0] == 0 && InRange(raw, ks)
    && if forall n :: 0 <= n < |ks| - 1 ==> !earth.crossesLand(GeodesicPoints(earth, raw[ks[n]], raw[ks[n + 1]]))
       then |line| == |ks| && forall n :: 0 <= n < |ks| ==> line[n] == raw[ks[n]]
       else line == raw
  }

  lemma LandClearIff(earth: Earth, raw: seq<Point>, ks: seq<nat>)
    requires InRange(raw, ks)
    ensures ClearThroughout(earth, Pick(raw, ks)) <==>
              forall n :: 0 <= n < |ks| - 1 ==> !earth.crossesLand(GeodesicPoints(earth, raw[ks[n]], raw[ks[n + 1]]))
  {
    hide GeodesicPoints;
    var ps := Pick(raw, ks);
    forall n | 0 <= n < |ks| - 1
      ensures ClearOfLand(earth, ps[n], ps[n + 1])
              <==> !earth.crossesLand(GeodesicPoints(earth, raw[ks[n]], raw[ks[n + 1]]))
    {
    }
  }

  lemma SimplifiedIsPicked(earth: Earth, raw: seq<Point>)
    requires raw != []
    ensures Simplified(earth, raw) == Pick(raw, Kept(earth, raw, 0))
  {
    hide ClearOfBlocked;
    if |raw| <= 2 {
      assert Kept(earth, raw, 0) == if |raw| == 1 then [0] else [0, 1];
      assert Pick(raw, Kept(earth, raw, 0)) == raw;
    }
  }

  lemma StraightenedIsPulled(earth: Earth, raw: seq<Point>)
    requires raw != []
    ensures IsPulledStraight(earth, raw, Kept(earth, raw, 0), Straightened(earth, raw))
  {
    hide GeodesicPoints, GreedyHops, Kept, ClearThroughout, ClearOfLand, Simplified;
    KeptIsGreedy(earth, raw, 0);
    SimplifiedIsPicked(earth, raw);
    LandClearIff(earth, raw, Kept(earth, raw, 0));
  }

  // ---------------------------------------------------------------- one padding

  /** An end has no safe cell within reach, or the two entry cells are not connected. */
  ghost predicate Fails(earth: Earth, a: Point, b: Point, m: real) {
    exists grid, res, homeA, homeB ::
      && IsPaddedGrid(earth, a, b, m, grid, res) && IsNearest(grid, a, homeA) && IsNearest(grid, b, homeB)
      && grid.Valid()
      && (|| HasNoEntry(earth, grid, a, homeA) || HasNoEntry(earth, grid, b, homeB)
          || exists start, goal ::
               && IsEntryCell(earth, grid, a, homeA, start) && IsEntryCell(earth, grid, b, homeB, goal)
               && !exists p :: IsGridPath(grid, start, goal, p))
  }

  /** A shortest path of open cells between the entry cells, pulled straight. */
  ghost predicate IsSearched(earth: Earth, a: Point, b: Point, m: real, grid: Grid, res: real, homeA: Cell, homeB: Cell,
                             cells: seq<Cell>, raw: seq<Point>, ks: seq<nat>, line: seq<Point>) {
    && IsPaddedGrid(earth, a, b, m, grid, res) && grid.Valid() && cells != []
    && IsEntryCell(earth, grid, a, homeA, cells[0]) && IsEntryCell(earth, grid, b, homeB, cells[|cells| - 1])
    && IsShortestGridPath(grid, earth.haversine, cells[0], cells[|cells| - 1], cells)
    && IsLineThrough(grid, cells, a, b, raw)
    && IsPulledStraight(earth, raw, ks, line)
  }

  /** What a call may return. */
  ghost predicate IsRoute(earth: Earth, p1: Point, p2: Point, a: Point, b: Point, out: Option<seq<Point>>) {
    && AreEnds(p1, p2, a, b)
    && if !earth.crossesBlocked(GeodesicPoints(earth, a, b)) then
         out.Some? && exists line :: IsDirect(earth, a, b, line) && Retraces(out.value, line, p1, p2)
       else match out
         case None => forall m :: m in [1.0, 2.0, 4.0, 8.0, 16.0] ==> Fails(earth, a, b, m)
         case Some(path) =>
           exists m, grid, res, homeA, homeB, cells, raw, ks, line ::
             && m in [1.0, 2.0, 4.0, 8.0, 16.0]
             && (forall n :: n in [1.0, 2.0, 4.0, 8.0, 16.0] && n < m ==> Fails(earth, a, b, n))
             && IsSearched(earth, a, b, m, grid, res, homeA, homeB, cells, raw, ks, line)
             && Retraces(path, line, p1, p2)
  }

  lemma FailureMeans(earth: Earth, f: Frame, m: real)
    requires AttemptFails(earth, f, m)
    ensures Fails(earth, f.a, f.b, m)
  {
    hide RasterFor, Home, IsPaddedGrid, Enters, CannotEnter, HasNoEntry, IsEntryCell, IsNearest;
    var grid, res := RasterFor(earth, f, m).grid, RasterFor(earth, f, m).res;
    var homeA, homeB := Home(earth, f, m, f.a), Home(earth, f, m, f.b);
    RasterIsPadded(earth, f, m);
    HomeIsNearest(earth, f, m, f.a);
    HomeIsNearest(earth, f, m, f.b);
    if CannotEnter(earth, f, m, f.a) {
      NoEntryMeans(earth, f, m, f.a);
    } else if CannotEnter(earth, f, m, f.b) {
      NoEntryMeans(earth, f, m, f.b);
    } else {
      var start, goal :| Enters(earth, f, m, f.a, start) && Enters(earth, f, m, f.b, goal)
                         && !exists p :: IsGridPath(grid, start, goal, p);
      EntryMeans(earth, f, m, f.a, start);
      EntryMeans(earth, f, m, f.b, goal);
    }
  }

  lemma SearchMeans(earth: Earth, f: Frame, k: nat, start: Cell, goal: Cell, cells: seq<Cell>, raw: seq<Point>)
    requires IsRawPath(earth, f, k, start, goal, cells, raw)
    ensures raw != []
    ensures var m, r := PAD_MULTIPLIERS[k], RasterFor(earth, f, PAD_MULTIPLIERS[k]);
            IsSearched(earth, f.a, f.b, m, r.grid, r.res, Home(earth, f, m, f.a), Home(earth, f, m, f.b), cells, raw,
                       Kept(earth, raw, 0), Straightened(earth, raw))
  {
    hide RasterFor, Home, IsPaddedGrid, Enters, AttemptFails, IsEntryCell, IsNearest, IsPulledStraight, Kept,
      Straightened;
    var m := PAD_MULTIPLIERS[k];
    RasterIsPadded(earth, f, m);
    YieldedCellsAreInGrid(earth, f, m, start, goal, cells);
    EntryMeans(earth, f, m, f.a, start);
    EntryMeans(earth, f, m, f.b, goal);
    StraightenedIsPulled(earth, raw);
  }

  lemma PaddingsAre(k: nat)
    requires k < |PAD_MULTIPLIERS|
    ensures PAD_MULTIPLIERS == [1.0, 2.0, 4.0, 8.0, 16.0]
    ensures forall n :: n in [1.0, 2.0, 4.0, 8.0, 16.0] && n < PAD_MULTIPLIERS[k] ==>
              exists j :: 0 <= j < k && PAD_MULTIPLIERS[j] == n
  {
  }

  lemma EndsAre(p1: Point, p2: Point)
    ensures AreEnds(p1, p2, Unwrapped(p1, p2).a, Unwrapped(p1, p2).b)
  {
  }

  lemma EarlierFail(earth: Earth, f: Frame, k: nat)
    requires k < |PAD_MULTIPLIERS| && forall j :: 0 <= j < k ==> AttemptFails(earth, f, PAD_MULTIPLIERS[j])
    ensures forall n :: n in [1.0, 2.0, 4.0, 8.0, 16.0] && n < PAD_MULTIPLIERS[k] ==> Fails(earth, f.a, f.b, n)
  {
    hide AttemptFails, Fails;
    PaddingsAre(k);
    forall n | n in [1.0, 2.0, 4.0, 8.0, 16.0] && n < PAD_MULTIPLIERS[k]
      ensures Fails(earth, f.a, f.b, n)
    {
      var j :| 0 <= j < k && PAD_MULTIPLIERS[j] == n;
      FailureMeans(earth, f, PAD_MULTIPLIERS[j]);
    }
  }

  lemma AllFail(earth: Earth, f: Frame)
    requires forall k :: 0 <= k < |PAD_MULTIPLIERS| ==> AttemptFails(earth, f, PAD_MULTIPLIERS[k])
    ensures forall m :: m in [1.0, 2.0, 4.0, 8.0, 16.0] ==> Fails(earth, f.a, f.b, m)
  {
    hide AttemptFails, Fails;
    PaddingsAre(0);
    for k := 0 to |PAD_MULTIPLIERS|
      invariant forall j :: 0 <= j < k ==> Fails(earth, f.a, f.b, PAD_MULTIPLIERS[j])
    {
      FailureMeans(earth, f, PAD_MULTIPLIERS[k]);
    }
  }

  lemma SearchedRouteMeans(earth: Earth, p1: Point, p2: Point, k: nat, start: Cell, goal: Cell, cells: seq<Cell>,
                           raw: seq<Point>, path: seq<Point>)
    requires RoutedBy(earth, p1, p2, k, start, goal, cells, raw, path)
    ensures var a, b := Unwrapped(p1, p2).a, Unwrapped(p1, p2).b;
            exists m, grid, res, homeA, homeB, cells, raw, ks, line ::
              && m in [1.0, 2.0, 4.0, 8.0, 16.0]
              && (forall n :: n in [1.0, 2.0, 4.0, 8.0, 16.0] && n < m ==> Fails(earth, a, b, n))
              && IsSearched(earth, a, b, m, grid, res, homeA, homeB, cells, raw, ks, line)
              && Retraces(path, line, p1, p2)
  {
    hide AttemptFails, AttemptYields, RasterFor, Home, Fails, IsSearched, Unwrapped, Retraces, Kept, Straightened,
      Anchored;
    var f, m := Unwrapped(p1, p2), PAD_MULTIPLIERS[k];
    var line := Straightened(earth, raw);
    PaddingsAre(k);
    EarlierFail(earth, f, k);
    SearchMeans(earth, f, k, start, goal, cells, raw);
    StraightenedKeepsEnds(earth, raw);
    AnchoredRetraces(line, p1, p2);
    var r := RasterFor(earth, f, m);
    assert IsSearched(earth, f.a, f.b, m, r.grid, r.res, Home(earth, f, m, f.a), Home(earth, f, m, f.b), cells, raw,
                      Kept(earth, raw, 0), line);
  }

  /**
   Whatever a call returns for two points: a direct chord between them if that is clear, and otherwise the
   straightened shortest path over the grid of the first padding that does not fail; every point of it at
   its own latitude and on its own meridian.  It fails only if all five paddings do.
   */
  lemma RouteMeans(earth: Earth, p1: Point, p2: Point, out: Option<seq<Point>>)
    requires WellBehaved(earth) && IsOceanPath(earth, p1, p2, out)
    ensures IsRoute(earth, p1, p2, Unwrapped(p1, p2).a, Unwrapped(p1, p2).b, out)
  {
    hide WellBehaved, AttemptFails, RoutedBy, Fails, IsSearched, Unwrapped, IsDirect, Retraces, AreEnds, GeodesicPoints,
      DirectChord;
    var f := Unwrapped(p1, p2);
    EndsAre(p1, p2);
    if ClearOfBlocked(earth, f.a, f.b) {
      BetweenCounts(earth);
      DirectChordIsDirect(earth, f);
      AnchoredRetraces(DirectChord(earth, f), p1, p2);
    } else if out.None? {
      AllFail(earth, f);
    } else {
      var k, start, goal, cells, raw :| RoutedBy(earth, p1, p2, k, start, goal, cells, raw, out.value);
      SearchedRouteMeans(earth, p1, p2, k, start, goal, cells, raw, out.value);
    }
  }
}
