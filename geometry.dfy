/**
 * Planar geometry used by the central node: points, squared distances, the
 * field-of-view test and the collision test. The node compares
 * `sqrt(dx*dx + dy*dy)` with a radius; here the same comparisons are made on
 * squared distances, and the square root itself is a caller-supplied function
 * (see IsEuclidean) that is only needed where distances are summed.
 */
module Geometry {

  /** A position in the plane; the z coordinate of the messages is ignored. */
  datatype Point = Point(x: real, y: real)

  function SqDist(a: Point, b: Point): real
  {
    (a.x - b.x) * (a.x - b.x) + (a.y - b.y) * (a.y - b.y)
  }

  /** `sqrt(SqDist(a, b)) <= fov`, written without a square root. */
  predicate WithinFov(a: Point, b: Point, fov: real)
  {
    fov >= 0.0 && SqDist(a, b) <= fov * fov
  }

  /** The hard-coded safety radius 0.2, squared. */
  const SafetySq: real := 0.04

  /** `sqrt(SqDist(obj, p)) < 0.2`: the primitive at `p` would collide with `obj`. */
  predicate TooClose(p: Point, obj: Point)
  {
    SqDist(obj, p) < SafetySq
  }

  /** `dist` is the Euclidean distance: non-negative, and its square is SqDist. */
  ghost predicate IsEuclidean(dist: (Point, Point) -> real)
  {
    forall a, b :: dist(a, b) >= 0.0 && dist(a, b) * dist(a, b) == SqDist(a, b)
  }

  lemma SqDistProperties(a: Point, b: Point)
    ensures SqDist(a, b) == SqDist(b, a)
    ensures SqDist(a, b) >= 0.0
  {
    assert (a.x - b.x) * (a.x - b.x) >= 0.0;
    assert (a.y - b.y) * (a.y - b.y) >= 0.0;
  }

  lemma PositiveProduct(u: real, v: real)
    requires u > 0.0 && v > 0.0
    ensures u * v > 0.0
  {
  }

  /** Squaring is strictly monotone on the non-negative reals. */
  lemma SquareMonotone(u: real, v: real)
    requires 0.0 <= u < v
    ensures u * u < v * v
  {
    assert v * v - u * u == (v - u) * (v + u);
    PositiveProduct(v - u, v + u);
  }

  /** The squared test agrees with comparing the true distance against the radius. */
  lemma EuclideanWithinFov(dist: (Point, Point) -> real, a: Point, b: Point, fov: real)
    requires IsEuclidean(dist)
    ensures WithinFov(a, b, fov) <==> dist(a, b) <= fov
  {
    var d := dist(a, b);
    assert d >= 0.0 && d * d == SqDist(a, b);
    if fov >= 0.0 {
      if d < fov {
        SquareMonotone(d, fov);
      } else if fov < d {
        SquareMonotone(fov, d);
      }
    }
  }

  /** Likewise for the collision radius 0.2. */
  lemma EuclideanTooClose(dist: (Point, Point) -> real, p: Point, obj: Point)
    requires IsEuclidean(dist)
    ensures TooClose(p, obj) <==> dist(obj, p) < 0.2
  {
    var d := dist(obj, p);
    assert d >= 0.0 && d * d == SqDist(obj, p);
    if d < 0.2 {
      SquareMonotone(d, 0.2);
    } else if 0.2 < d {
      SquareMonotone(0.2, d);
    }
  }
}
