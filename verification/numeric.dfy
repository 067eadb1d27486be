/** Real-valued counterparts of the engine's float helpers (Mathf) and of the
    vector arithmetic the game uses. Radii are modelled with `real`, so there is
    no float rounding here. */
module Numeric {

  /** Mathf.Max of two values. */
  function Max(a: real, b: real): (r: real)
    ensures r >= a && r >= b
    ensures r == a || r == b
  {
    if a >= b then a else b
  }

  /** Mathf.Min of two values. */
  function Min(a: real, b: real): (r: real)
    ensures r <= a && r <= b
    ensures r == a || r == b
  {
    if a <= b then a else b
  }

  /** Mathf.Min over three values. */
  function Min3(a: real, b: real, c: real): (r: real)
    ensures r <= a && r <= b && r <= c
    ensures r == a || r == b || r == c
  {
    Min(Min(a, b), c)
  }

  /** Mathf.Clamp: a value below `lo` becomes `lo`, otherwise a value above
      `hi` becomes `hi`; the lower bound is tested first, so with `lo > hi`
      a small value still yields `lo`. */
  function Clamp(v: real, lo: real, hi: real): (r: real)
    ensures lo <= hi ==> lo <= r <= hi
    ensures lo <= v <= hi ==> r == v
    ensures v < lo ==> r == lo
  {
    if v < lo then lo else if v > hi then hi else v
  }

  /** Absolute value. */
  function Abs(a: real): (r: real)
    ensures r >= 0.0 && (r == a || r == -a)
  {
    if a < 0.0 then -a else a
  }
}

/** Points in world space and the distance tests the game performs on them.
    Distances are compared squared, so no square root is needed. */
module Geometry {

  datatype Point = Point(x: real, y: real, z: real)

  const Origin := Point(0.0, 0.0, 0.0)

  function Add(a: Point, b: Point): Point {
    Point(a.x + b.x, a.y + b.y, a.z + b.z)
  }

  /** Squared Euclidean distance in three dimensions. */
  function Dist2(a: Point, b: Point): (d: real)
    ensures d >= 0.0
  {
    (a.x - b.x) * (a.x - b.x) + (a.y - b.y) * (a.y - b.y) + (a.z - b.z) * (a.z - b.z)
  }

  /** Squared distance of the projections onto the ground (XZ) plane. */
  function Dist2XZ(a: Point, b: Point): (d: real)
    ensures d >= 0.0
  {
    (a.x - b.x) * (a.x - b.x) + (a.z - b.z) * (a.z - b.z)
  }

  /** Whether the closed sphere of radius `r` around `c` meets a sphere
      collider of radius `e` centred at `q`: the centres are at most `r + e`
      apart. This is the test a sphere query performs against a collider
      that reaches `e` out from its centre; a point-sized collider has
      `e == 0`. */
  predicate Overlaps(c: Point, r: real, q: Point, e: real) {
    r >= 0.0 && e >= 0.0 && Dist2(c, q) <= (r + e) * (r + e)
  }

  /** A unit sphere query at the origin misses the point 1.5 away but meets
      a collider of radius 0.5 centred there. */
  lemma ColliderWidensQuery()
    ensures !Overlaps(Origin, 1.0, Point(1.5, 0.0, 0.0), 0.0)
    ensures Overlaps(Origin, 1.0, Point(1.5, 0.0, 0.0), 0.5)
  {
  }

  /** The ground-plane distance between `a` and `b` is strictly less than
      `d`; stated without a square root, which is exact because distances are
      never negative. */
  predicate CloserXZ(a: Point, b: Point, d: real) {
    d > 0.0 && Dist2XZ(a, b) < d * d
  }
}
