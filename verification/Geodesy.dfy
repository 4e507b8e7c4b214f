/**
 What the routing code takes from the geodesy and coastline libraries.  These are
 parameters of the model: everything proved about routing holds for any of them that is
 well behaved in the sense below.  Coordinates and distances are exact reals.
 */
module Geodesy {

  datatype Point = Point(lon: real, lat: real)

  datatype Earth = Earth(
    /** Great-circle distance in metres, the search metric. */
    haversine: (Point, Point) -> real,
    /** Ellipsoidal distance in metres. */
    inverse: (Point, Point) -> real,
    /** That many points strictly between two ends of a geodesic. */
    between: (Point, Point, nat) -> seq<Point>,
    /** Is this grid point inside the blocked mask? */
    blockedAt: Point -> bool,
    /** Does this polyline touch the blocked mask? */
    crossesBlocked: seq<Point> -> bool,
    /** Does this polyline touch raw land? */
    crossesLand: seq<Point> -> bool)

  /** Non-negative, zero on the diagonal, symmetric, triangle inequality. */
  ghost predicate IsMetric(d: (Point, Point) -> real) {
    && (forall a, b :: d(a, b) >= 0.0)
    && (forall a :: d(a, a) == 0.0)
    && (forall a, b :: d(a, b) == d(b, a))
    && (forall a, b, c :: d(a, c) <= d(a, b) + d(b, c))
  }

  ghost predicate WellBehaved(earth: Earth) {
    && IsMetric(earth.haversine)
    && (forall a, b :: earth.inverse(a, b) >= 0.0)
    && (forall a, b, n :: |earth.between(a, b, n)| == n)
  }
}
