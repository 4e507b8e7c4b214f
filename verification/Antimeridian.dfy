/**
 Cutting a polyline where it crosses longitude +-180: `split_antimeridian` of routing.py, and the
 independent splitter inside `_line_test` of landmask.py.  (Section 3.1.9 of RFC 7946 asks for
 geometries to be cut there.)
 */
module Antimeridian {
  import opened Base
  import opened Geodesy
  import opened OceanPaths

  type Line = seq<Point>

  predicate InRange(p: Point) {
    -180.0 <= p.lon <= 180.0
  }

  /** Going from `p` to `q` the long way round on the map means crossing the antimeridian. */
  predicate Crosses(p: Point, q: Point) {
    Abs(q.lon - p.lon) > 180.0
  }

  // ---------------------------------------------------------------- the two ways to cut

  /** Both longitudes in the frame in which the hop crosses +180. */
  function UnwrappedStart(p: Point): real {
    if p.lon < 0.0 then p.lon + 360.0 else p.lon
  }

  function UnwrappedEnd(p: Point, q: Point): real {
    if p.lon < 0.0 then q.lon else q.lon + 360.0
  }

  /** How far along the hop the antimeridian lies. */
  function CutParameter(p: Point, q: Point): real {
    var span := UnwrappedEnd(p, q) - UnwrappedStart(p);
    if span != 0.0 then (180.0 - UnwrappedStart(p)) / span else 0.5
  }

  function LatitudeAt(p: Point, q: Point, t: real): real {
    p.lat + t * (q.lat - p.lat)
  }

  /** routing.py picks the side by the sign of the first longitude. */
  function RoutingCut(p: Point, q: Point): Point {
    Point(if p.lon > 0.0 then 180.0 else -180.0, LatitudeAt(p, q, CutParameter(p, q)))
  }

  /** landmask.py picks the side in the branch that unwraps. */
  function LandmaskCut(p: Point, q: Point): Point {
    Point(if p.lon < 0.0 then -180.0 else 180.0, LatitudeAt(p, q, CutParameter(p, q)))
  }

  function Opposite(cut: Point): Point {
    Point(-cut.lon, cut.lat)
  }

  type Cutter = (Point, Point) -> Point

  // ---------------------------------------------------------------- splitting

  /** Take one more hop, from `p` to `q`. */
  function Extend(cut: Cutter, segs: seq<Line>, p: Point, q: Point): (r: seq<Line>)
    requires segs != []
    ensures r != []
  {
    var n := |segs| - 1;
    if Crosses(p, q)
    then segs[n := segs[n] + [cut(p, q)]] + [[Opposite(cut(p, q)), q]]
    else segs[n := segs[n] + [q]]
  }

  function Split(cut: Cutter, coords: Line): (segs: seq<Line>)
    requires coords != []
    ensures segs != []
    decreases |coords|
  {
    if |coords| == 1 then [coords]
    else
      var n := |coords| - 1;
      Extend(cut, Split(cut, coords[..n]), coords[n - 1], coords[n])
  }

  lemma SplitOne(cut: Cutter, p: Point)
    ensures Split(cut, [p]) == [[p]]
  {
  }

  lemma CutIs(p: Point, q: Point, t: real)
    requires var lon1, lon2 := if p.lon < 0.0 then p.lon + 360.0 else p.lon,
                               if p.lon < 0.0 then q.lon else q.lon + 360.0;
             t == if lon2 - lon1 != 0.0 then (180.0 - lon1) / (lon2 - lon1) else 0.5
    ensures RoutingCut(p, q) == Point(if p.lon > 0.0 then 180.0 else -180.0, LatitudeAt(p, q, t))
    ensures LandmaskCut(p, q) == Point(if p.lon < 0.0 then -180.0 else 180.0, LatitudeAt(p, q, t))
  {
    hide LatitudeAt;
    assert CutParameter(p, q) == t;
  }

  lemma SplitOneMore(cut: Cutter, coords: Line, k: nat)
    requires 0 < k < |coords|
    ensures Split(cut, coords[..k + 1]) == Extend(cut, Split(cut, coords[..k]), coords[k - 1], coords[k])
  {
    assert coords[..k + 1][..k] == coords[..k];
  }

  /** Closing a segment, opening the next and adding the point, one after the other. */
  lemma CutInSteps(segs: seq<Line>, cut: Point, q: Point)
    requires segs != []
    ensures var n := |segs| - 1;
            var started := segs[n := segs[n] + [cut]] + [[Opposite(cut)]];
            started[n + 1 := started[n + 1] + [q]] == segs[n := segs[n] + [cut]] + [[Opposite(cut), q]]
  {
    assert [Opposite(cut)] + [q] == [Opposite(cut), q];
  }

  // ---------------------------------------------------------------- one cut

  lemma SignOfFactor(t: real, span: real)
    requires span != 0.0 && (span > 0.0 ==> t * span >= 0.0) && (span < 0.0 ==> t * span <= 0.0)
    ensures t >= 0.0
  {
  }

  lemma FractionInUnit(span: real, part: real)
    requires span != 0.0 && (0.0 <= part <= span || span <= part <= 0.0)
    ensures 0.0 <= part / span <= 1.0 && part / span * span == part
  {
    var t := part / span;
    assert t * span == part;
    assert (1.0 - t) * span == span - part;
    SignOfFactor(t, span);
    SignOfFactor(1.0 - t, span);
  }

  lemma Portion(t: real, d: real, x: real)
    requires 0.0 <= t <= 1.0 && d >= 0.0 && x == t * d
    ensures 0.0 <= x <= d
  {
    assert t * d >= 0.0 && (1.0 - t) * d >= 0.0;
    assert (1.0 - t) * d == d - x;
  }

  lemma BetweenEnds(a: real, b: real, t: real)
    requires 0.0 <= t <= 1.0
    ensures MinReal(a, b) <= a + t * (b - a) <= MaxReal(a, b)
  {
    var x := t * (b - a);
    if a <= b {
      Portion(t, b - a, x);
    } else {
      assert -x == t * (a - b);
      Portion(t, a - b, -x);
    }
  }

  /**
   The cut lies on the hop: its parameter is in [0, 1] and, unless the hop runs along the
   antimeridian itself, the unwrapped longitude there is exactly half a turn.
   */
  lemma CutLiesOnHop(p: Point, q: Point)
    requires InRange(p) && InRange(q) && Crosses(p, q)
    ensures var t, lon1, lon2 := CutParameter(p, q), UnwrappedStart(p), UnwrappedEnd(p, q);
            0.0 <= t <= 1.0 && (lon1 != lon2 ==> lon1 + t * (lon2 - lon1) == 180.0)
    ensures MinReal(p.lat, q.lat) <= RoutingCut(p, q).lat <= MaxReal(p.lat, q.lat)
  {
    var span := UnwrappedEnd(p, q) - UnwrappedStart(p);
    if span != 0.0 {
      FractionInUnit(span, 180.0 - UnwrappedStart(p));
    }
    BetweenEnds(p.lat, q.lat, CutParameter(p, q));
  }

  /** Both splitters put the cut on the same side, within half a turn of either end. */
  lemma CutSides(p: Point, q: Point)
    requires InRange(p) && InRange(q) && Crosses(p, q)
    ensures RoutingCut(p, q) == LandmaskCut(p, q)
    ensures Abs(RoutingCut(p, q).lon - p.lon) <= 180.0 && Abs(q.lon - Opposite(RoutingCut(p, q)).lon) <= 180.0
  {
    hide CutParameter;
  }

  lemma SharedFactor(t: real, span: real, part: real, d: real)
    requires t * span == part
    ensures t * d * span == part * d
  {
    assert t * d * span == t * span * d;
  }

  /**
   Where the straight line from `p` to `q` meets the antimeridian: counted in the frame in which it does
   not jump, the latitude has changed there in proportion to the longitude.  A line that runs along the
   antimeridian is met half way.
   */
  ghost predicate IsOnHop(p: Point, q: Point, lat: real) {
    var lon1, lon2 := if p.lon < 0.0 then p.lon + 360.0 else p.lon, if p.lon < 0.0 then q.lon else q.lon + 360.0;
    if lon1 != lon2 then (lat - p.lat) * (lon2 - lon1) == (180.0 - lon1) * (q.lat - p.lat)
    else lat == (p.lat + q.lat) / 2.0
  }

  /** The cut is on the hop. */
  lemma CutIsOnHop(p: Point, q: Point)
    ensures IsOnHop(p, q, RoutingCut(p, q).lat) && IsOnHop(p, q, LandmaskCut(p, q).lat)
  {
    var lon1, lon2 := if p.lon < 0.0 then p.lon + 360.0 else p.lon, if p.lon < 0.0 then q.lon else q.lon + 360.0;
    if lon1 != lon2 {
      var t := (180.0 - lon1) / (lon2 - lon1);
      assert t * (lon2 - lon1) == 180.0 - lon1;
      SharedFactor(t, lon2 - lon1, 180.0 - lon1, q.lat - p.lat);
    }
  }

  lemma CutIsOnAntimeridian(p: Point, q: Point)
    ensures RoutingCut(p, q).lon == 180.0 || RoutingCut(p, q).lon == -180.0
  {
    hide CutParameter;
  }

  // ---------------------------------------------------------------- the whole split

  /** Consecutive points of one segment are at most half a turn apart. */
  ghost predicate NoJump(seg: Line) {
    forall k :: 0 <= k < |seg| - 1 ==> Abs(seg[k + 1].lon - seg[k].lon) <= 180.0
  }

  /**
   Two neighbouring segments: the hop between the point before the cut and the point after it jumps by
   more than half a turn, and both segments end where it meets the antimeridian, each on its own side.
   */
  ghost predicate MeetAtCut(left: Line, right: Line) {
    && |left| >= 2 && |right| >= 2
    && var p, q := left[|left| - 2], right[1];
       && (q.lon - p.lon > 180.0 || p.lon - q.lon > 180.0)
       && (Last(left).lon == 180.0 || Last(left).lon == -180.0)
       && right[0] == Point(-Last(left).lon, Last(left).lat)
       && IsOnHop(p, q, Last(left).lat)
  }

  ghost predicate WellSplit(segs: seq<Line>) {
    && (forall i :: 0 <= i < |segs| ==> segs[i] != [] && NoJump(segs[i]))
    && (forall i :: 0 <= i < |segs| - 1 ==> MeetAtCut(segs[i], segs[i + 1]))
  }

  ghost function Crossings(coords: Line): nat {
    if |coords| <= 1 then 0
    else
      var n := |coords| - 1;
      Crossings(coords[..n]) + (if Abs(coords[n].lon - coords[n - 1].lon) > 180.0 then 1 else 0)
  }

  /** Undo a split: at every boundary drop the two inserted points. */
  ghost function Rejoin(segs: seq<Line>): Line
    requires segs != [] && forall i :: 0 <= i < |segs| ==> segs[i] != []
    decreases |segs|
  {
    if |segs| == 1 then segs[0]
    else
      var front := Rejoin(segs[..|segs| - 1]);
      assert segs[|segs| - 1] != [];
      (if front == [] then [] else front[..|front| - 1]) + segs[|segs| - 1][1..]
  }

  /** In range, the two ways of cutting are one. */
  ghost predicate CutsLikeRouting(cut: Cutter) {
    forall p, q :: InRange(p) && InRange(q) && Crosses(p, q) ==> cut(p, q) == RoutingCut(p, q)
  }

  lemma BothCutLikeRouting()
    ensures CutsLikeRouting(RoutingCut) && CutsLikeRouting(LandmaskCut)
  {
    hide RoutingCut, LandmaskCut;
    forall p, q | InRange(p) && InRange(q) && Crosses(p, q)
      ensures LandmaskCut(p, q) == RoutingCut(p, q)
    {
      CutSides(p, q);
    }
  }

  lemma NewCutMeets(cut: Cutter, last: Line, p: Point, q: Point)
    requires CutsLikeRouting(cut) && last != [] && Last(last) == p && InRange(p) && InRange(q) && Crosses(p, q)
    ensures MeetAtCut(last + [cut(p, q)], [Opposite(cut(p, q)), q])
  {
    hide RoutingCut, IsOnHop;
    CutIsOnAntimeridian(p, q);
    CutIsOnHop(p, q);
  }

  lemma MeetStill(left: Line, right: Line, more: Line)
    requires MeetAtCut(left, right)
    ensures MeetAtCut(left, right + more)
  {
    hide IsOnHop;
    assert (right + more)[0] == right[0] && (right + more)[1] == right[1];
  }

  lemma ExtendKeepsSplit(cut: Cutter, segs: seq<Line>, p: Point, q: Point)
    requires CutsLikeRouting(cut) && segs != [] && WellSplit(segs) && Last(Last(segs)) == p
    requires |segs| > 1 ==> |Last(segs)| >= 2
    requires InRange(p) && InRange(q)
    ensures WellSplit(Extend(cut, segs, p, q))
    ensures Last(Last(Extend(cut, segs, p, q))) == q
    ensures |Last(Extend(cut, segs, p, q))| >= 2
  {
    hide RoutingCut, MeetAtCut;
    var n, r := |segs| - 1, Extend(cut, segs, p, q);
    if Crosses(p, q) {
      CutIsOnAntimeridian(p, q);
      CutSides(p, q);
      NewCutMeets(cut, segs[n], p, q);
    }
    if n > 0 {
      MeetStill(segs[n - 1], segs[n], if Crosses(p, q) then [cut(p, q)] else [q]);
    }
    forall i | 0 <= i < |r| - 1
      ensures MeetAtCut(r[i], r[i + 1])
    {
      assert i < n ==> MeetAtCut(segs[i], segs[i + 1]);
    }
    forall i | 0 <= i < |r|
      ensures r[i] != [] && NoJump(r[i])
    {
      if i <= n { assert NoJump(segs[i]); }
    }
  }

  lemma {:induction false} RejoinExtended(cut: Cutter, segs: seq<Line>, p: Point, q: Point)
    requires segs != [] && (forall i :: 0 <= i < |segs| ==> segs[i] != [])
    ensures forall i :: 0 <= i < |Extend(cut, segs, p, q)| ==> Extend(cut, segs, p, q)[i] != []
    ensures Rejoin(Extend(cut, segs, p, q)) == Rejoin(segs) + [q]
  {
    var n, r := |segs| - 1, Extend(cut, segs, p, q);
    var last := segs[n];
    var x := if Crosses(p, q) then cut(p, q) else q;
    var grown := segs[n := last + [x]];
    assert grown[..n] == segs[..n];
    assert (last + [x])[1..] == last[1..] + [x];
    assert Rejoin(grown) == Rejoin(segs) + [x];
    if Crosses(p, q) {
      assert r == grown + [[Opposite(x), q]];
      assert r[..n + 1] == grown;
      assert (Rejoin(segs) + [x])[..|Rejoin(segs)|] == Rejoin(segs);
    }
  }

  lemma SplitBase(coords: Line)
    requires coords != []
    ensures WellSplit([coords]) <==> NoJump(coords)
    ensures Rejoin([coords]) == coords
    ensures |coords| == 1 ==> NoJump(coords)
  {
    assert [coords][0] == coords;
  }

  lemma ExtendCounts(cut: Cutter, segs: seq<Line>, p: Point, q: Point)
    requires segs != []
    ensures |Extend(cut, segs, p, q)| == |segs| + (if Crosses(p, q) then 1 else 0)
  {
  }

  /** Either splitter keeps its whole input. */
  lemma {:induction false} SplitKeepsPoints(cut: Cutter, coords: Line)
    requires coords != []
    ensures forall i :: 0 <= i < |Split(cut, coords)| ==> Split(cut, coords)[i] != []
    ensures Rejoin(Split(cut, coords)) == coords
    decreases |coords|
  {
    hide Extend, Rejoin;
    SplitBase(coords);
    if |coords| > 1 {
      var n := |coords| - 1;
      SplitKeepsPoints(cut, coords[..n]);
      RejoinExtended(cut, Split(cut, coords[..n]), coords[n - 1], coords[n]);
      assert coords == coords[..n] + [coords[n]];
    }
  }

  /**
   The segments of a line, whatever cut it: no segment jumps, there is one more of them than hops that jump
   by more than half a turn, neighbouring segments end where such a hop meets the antimeridian, and
   deleting the two points inserted there gives the line back.
   */
  ghost predicate IsFaithful(coords: Line, segs: seq<Line>) {
    WellSplit(segs) && segs != [] && |segs| == 1 + Crossings(coords) && Rejoin(segs) == coords
  }

  /** For coordinates in the standard range either splitter is faithful. */
  lemma {:induction false} SplitIsFaithful(cut: Cutter, coords: Line)
    requires CutsLikeRouting(cut) && coords != [] && forall k :: 0 <= k < |coords| ==> InRange(coords[k])
    ensures var segs := Split(cut, coords);
            && IsFaithful(coords, segs)
            && Last(Last(segs)) == Last(coords) && (|segs| > 1 ==> |Last(segs)| >= 2)
    decreases |coords|
  {
    hide RoutingCut, NoJump, MeetAtCut, Extend, Rejoin, CutsLikeRouting;
    SplitBase(coords);
    SplitKeepsPoints(cut, coords);
    if |coords| > 1 {
      var n := |coords| - 1;
      SplitIsFaithful(cut, coords[..n]);
      var before := Split(cut, coords[..n]);
      ExtendKeepsSplit(cut, before, coords[n - 1], coords[n]);
      ExtendCounts(cut, before, coords[n - 1], coords[n]);
    }
  }

  // ---------------------------------------------------------------- the two loops

  method SplitAntimeridian(coords: Line) returns (segments: seq<Line>)
    requires coords != []
    ensures segments == Split(RoutingCut, coords)
    ensures (forall k :: 0 <= k < |coords| ==> -180.0 <= coords[k].lon <= 180.0) ==> IsFaithful(coords, segments)
  {
    hide Split, CutParameter, RoutingCut, LatitudeAt, IsFaithful;
    BothCutLikeRouting();
    SplitOne(RoutingCut, coords[0]);
    segments := [[coords[0]]];
    assert coords[..1] == [coords[0]];
    for k := 1 to |coords|
      invariant segments == Split(RoutingCut, coords[..k])
    {
      var p, q := coords[k - 1], coords[k];
      SplitOneMore(RoutingCut, coords, k);
      var n := |segments| - 1;
      if Abs(q.lon - p.lon) > 180.0 {
        var lon1, lon2 := p.lon, q.lon;
        if p.lon < 0.0 {
          lon1 := p.lon + 360.0;
        } else {
          lon2 := q.lon + 360.0;
        }
        var span := lon2 - lon1;
        var t := if span != 0.0 then (180.0 - lon1) / span else 0.5;
        var crossLat := LatitudeAt(p, q, t);
        var crossLon := if p.lon > 0.0 then 180.0 else -180.0;
        CutIs(p, q, t);
        CutInSteps(segments, Point(crossLon, crossLat), q);
        segments := segments[n := segments[n] + [Point(crossLon, crossLat)]];
        segments := segments + [[Point(-crossLon, crossLat)]];
        n := n + 1;
      }
      segments := segments[n := segments[n] + [q]];
    }
    assert coords[..|coords|] == coords;
    if forall k :: 0 <= k < |coords| ==> -180.0 <= coords[k].lon <= 180.0 {
      SplitIsFaithful(RoutingCut, coords);
    }
  }

  /** The same points with their longitudes in the standard range. */
  ghost predicate IsWrapped(points: Line, wrapped: Line) {
    && |wrapped| == |points|
    && forall k :: 0 <= k < |points| ==>
         && wrapped[k].lat == points[k].lat && SameMeridian(points[k].lon, wrapped[k].lon)
         && -180.0 <= wrapped[k].lon < 180.0
  }

  lemma WrapAllWraps(points: Line)
    ensures IsWrapped(points, WrapAll(points))
  {
    hide SameMeridian;
  }

  /** The splitting loop of `_line_test`, over points that it first wraps. */
  method LineParts(points: Line) returns (parts: seq<Line>)
    requires points != []
    ensures parts == Split(LandmaskCut, WrapAll(points))
    ensures exists wrapped :: IsWrapped(points, wrapped) && IsFaithful(wrapped, parts)
  {
    hide Split, CutParameter, LandmaskCut, WrapAll, LatitudeAt, IsFaithful, CutsLikeRouting;
    var wrapped := WrapAll(points);
    WrapAllWraps(points);
    BothCutLikeRouting();
    SplitOne(LandmaskCut, wrapped[0]);
    parts := [[wrapped[0]]];
    assert wrapped[..1] == [wrapped[0]];
    for k := 1 to |wrapped|
      invariant parts == Split(LandmaskCut, wrapped[..k])
    {
      var p, q := wrapped[k - 1], wrapped[k];
      SplitOneMore(LandmaskCut, wrapped, k);
      var n := |parts| - 1;
      if Abs(q.lon - p.lon) > 180.0 {
        var lon1, lon2, crossLon := p.lon, q.lon + 360.0, 180.0;
        if p.lon < 0.0 {
          lon1, lon2, crossLon := p.lon + 360.0, q.lon, -180.0;
        }
        var span := lon2 - lon1;
        var t := if span != 0.0 then (180.0 - lon1) / span else 0.5;
        var crossLat := LatitudeAt(p, q, t);
        CutIs(p, q, t);
        CutInSteps(parts, Point(crossLon, crossLat), q);
        parts := parts[n := parts[n] + [Point(crossLon, crossLat)]];
        parts := parts + [[Point(-crossLon, crossLat)]];
        n := n + 1;
      }
      parts := parts[n := parts[n] + [q]];
    }
    assert wrapped[..|wrapped|] == wrapped;
    SplitIsFaithful(LandmaskCut, wrapped);
  }

  // ---------------------------------------------------------------- the two splitters compared

  lemma CutsAgreeIff(p: Point, q: Point)
    ensures RoutingCut(p, q) == LandmaskCut(p, q) <==> p.lon != 0.0
  {
    hide CutParameter, LatitudeAt;
  }

  /** What a hop was added to, and where it was cut, can be read off the result. */
  lemma ExtendIsInjective(cut: Cutter, cut': Cutter, segs: seq<Line>, segs': seq<Line>, p: Point, q: Point)
    requires segs != [] && segs' != [] && Extend(cut, segs, p, q) == Extend(cut', segs', p, q)
    ensures segs == segs' && (Crosses(p, q) ==> cut(p, q) == cut'(p, q))
  {
    var r, n := Extend(cut, segs, p, q), |segs| - 1;
    assert |segs| == |segs'|;
    var x, x' := if Crosses(p, q) then cut(p, q) else q, if Crosses(p, q) then cut'(p, q) else q;
    assert r[n] == segs[n] + [x] == segs'[n] + [x'];
    assert Last(r[n]) == x == x' && r[n][..|r[n]| - 1] == segs[n] == segs'[n];
    forall i | 0 <= i < n
      ensures segs[i] == segs'[i]
    {
      assert r[i] == segs[i] == segs'[i];
    }
  }

  /**
   Whatever the coordinates, the two ways of cutting give the same segments if and only if no crossing
   hop starts at longitude zero.
   */
  lemma {:induction false} SplittersAgreeIff(coords: Line)
    requires coords != []
    ensures Split(RoutingCut, coords) == Split(LandmaskCut, coords) <==>
            forall k :: 0 <= k < |coords| - 1 && Crosses(coords[k], coords[k + 1]) ==> coords[k].lon != 0.0
    decreases |coords|
  {
    hide RoutingCut, LandmaskCut, Crosses;
    if |coords| > 1 {
      var n := |coords| - 1;
      SplittersAgreeIff(coords[..n]);
      CutsAgreeIff(coords[n - 1], coords[n]);
      var s, s' := Split(RoutingCut, coords[..n]), Split(LandmaskCut, coords[..n]);
      if Extend(RoutingCut, s, coords[n - 1], coords[n]) == Extend(LandmaskCut, s', coords[n - 1], coords[n]) {
        ExtendIsInjective(RoutingCut, LandmaskCut, s, s', coords[n - 1], coords[n]);
      }
    }
  }

  lemma InRangeNeverCrossesFromZero(coords: Line)
    requires forall k :: 0 <= k < |coords| ==> InRange(coords[k])
    ensures forall k :: 0 <= k < |coords| - 1 && Crosses(coords[k], coords[k + 1]) ==> coords[k].lon != 0.0
  {
  }

  /**
   The land test and the published geometry use the same segments of a line if and only if all its
   longitudes lie in [-180, 180): a longitude of exactly 180, which is in range, is wrapped to -180 for
   the test but published as it is.
   */
  lemma TestedPartsArePublishedIff(coords: Line)
    requires coords != []
    ensures Split(RoutingCut, coords) == Split(LandmaskCut, WrapAll(coords)) <==>
            forall k :: 0 <= k < |coords| ==> -180.0 <= coords[k].lon < 180.0
  {
    hide Split, Crosses, Rejoin;
    var wrapped := WrapAll(coords);
    SplitKeepsPoints(RoutingCut, coords);
    SplitKeepsPoints(LandmaskCut, wrapped);
    assert forall k :: 0 <= k < |coords| ==> wrapped[k] == Point(Wrap(coords[k].lon), coords[k].lat);
    if Split(RoutingCut, coords) == Split(LandmaskCut, wrapped) {
      assert coords == wrapped;
    }
    if forall k :: 0 <= k < |coords| ==> -180.0 <= coords[k].lon < 180.0 {
      assert coords == wrapped;
      SplittersAgreeIff(coords);
      InRangeNeverCrossesFromZero(coords);
    }
  }
}
