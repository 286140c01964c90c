/** Rays and the record of one ray tested against one shape. */
module Intersections {
  import opened Options
  import opened Numerics
  import opened Vectors
  import S = Shapes

  /** A ray: its start point and its direction. */
  datatype Ray = Ray(start: Vec3, direction: Vec3)

  /** The ray constructor: from `start` towards `end`, the direction being the
      normalized difference. */
  function MakeRay(nm: MathLib, start: Vec3, end: Vec3): (r: Ray)
    ensures r.start == start
    ensures exists k: real :: r.direction == Scale(Sub(end, start), k)
  {
    NormalizeIsScaling(nm, Sub(end, start));
    Ray(start, Normalize(nm, Sub(end, start)))
  }

  /** A ray between two distinct points has a unit direction. */
  lemma MakeRayUnit(nm: MathLib, start: Vec3, end: Vec3)
    requires Valid(nm) && end != start
    ensures Dot(MakeRay(nm, start, end).direction, MakeRay(nm, start, end).direction) == 1.0
  {
    assert Sub(end, start) != Zero;
    DotSelfPositive(Sub(end, start));
    NormalizeUnit(nm, Sub(end, start));
  }

  /** The outcome of testing `ray` against `shape`, the shape at position
      `shapeId` of the scene's list (its identity). The point and normal are the
      shape's fields right after the test; `None` stands for a field the test did
      not write. */
  datatype Intersection = Intersection(
    ray: Ray,
    shape: S.Shape,
    shapeId: nat,
    distance: real,
    point: Option<Vec3>,
    normal: Option<Vec3>,
    hit: bool)

  /** The `Intersection` constructor: runs the shape's test once and records it. */
  function MakeIntersection(nm: MathLib, ray: Ray, shape: S.Shape, shapeId: nat): (i: Intersection)
    ensures i.ray == ray && i.shape == shape && i.shapeId == shapeId
    ensures i.hit <==> i.distance > 0.0
    ensures i.hit ==> i.point.Some? && i.normal.Some?
  {
    var h := S.Intersect(nm, shape, ray.start, ray.direction);
    Intersection(ray, shape, shapeId, h.distance, h.point, h.normal, h.distance > 0.0)
  }

  /** The recorded distance, point and normal are exactly the shape test's, and a
      hit always comes with a written point and a normal. */
  lemma IntersectionRecordsTest(nm: MathLib, ray: Ray, shape: S.Shape, shapeId: nat)
    ensures var i := MakeIntersection(nm, ray, shape, shapeId);
            var h := S.Intersect(nm, shape, ray.start, ray.direction);
            && i.distance == h.distance && i.point == h.point && i.normal == h.normal
            && (i.hit ==> i.point.Some? && i.normal.Some?)
  {
    var h := S.Intersect(nm, shape, ray.start, ray.direction);
    if h.distance > 0.0 {
      S.HitWritesFields(nm, shape, ray.start, ray.direction);
    }
  }
}
