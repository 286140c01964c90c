/** The shapes a scene holds and their ray tests. In the source `intersect`
    returns a distance and, as a side effect, overwrites the shape's
    `pointOfIntersection` and `normal` fields; here it is a pure function whose
    result also says what the call wrote into those fields. A field the call
    leaves alone is `None` (the source keeps whatever an earlier call left there). */
module Shapes {
  import opened Options
  import opened Numerics
  import opened Vectors
  import M = Materials

  datatype Shape =
    | Sphere(location: Vec3, radius: real, material: M.Material)
    | Plane(location: Vec3, normal: Vec3, material: M.Material)
    | Square(location: Vec3, normal: Vec3, size: real, material: M.Material)

  /** The distance `intersect` returns, and the point and normal fields after the call. */
  datatype ShapeHit = ShapeHit(distance: real, point: Option<Vec3>, normal: Option<Vec3>)

  /** The plane constructor normalizes the normal it is given. */
  function MakePlane(nm: MathLib, location: Vec3, normal: Vec3, material: M.Material): (s: Shape)
    ensures s.Plane? && s.location == location && s.material == material
    ensures exists k: real :: s.normal == Scale(normal, k)
  {
    NormalizeIsScaling(nm, normal);
    Plane(location, Normalize(nm, normal), material)
  }

  /** A non-zero normal given to the constructor is stored with unit length. */
  lemma MakePlaneUnitNormal(nm: MathLib, location: Vec3, normal: Vec3, material: M.Material)
    requires Valid(nm) && Dot(normal, normal) > 0.0
    ensures var n := MakePlane(nm, location, normal, material).normal; Dot(n, n) == 1.0
  {
    NormalizeUnit(nm, normal);
  }

  /** A square is a plane with a side length; its normal is normalized the same way. */
  function MakeSquare(nm: MathLib, location: Vec3, normal: Vec3, size: real, material: M.Material): (s: Shape)
    ensures s.Square? && s.location == location && s.size == size && s.material == material
    ensures s.normal == MakePlane(nm, location, normal, material).normal
  {
    Square(location, Normalize(nm, normal), size, material)
  }

  /** `calculatePointOfIntersection`: the point at parameter t along start + t * direction. */
  function PointAt(start: Vec3, direction: Vec3, t: real): Vec3
  {
    Add(start, Scale(direction, t))
  }

  /** The ray formula starts at the start point and is affine in the parameter. */
  lemma PointAtAffine(start: Vec3, direction: Vec3, t1: real, t2: real)
    ensures PointAt(start, direction, 0.0) == start
    ensures Sub(PointAt(start, direction, t1), PointAt(start, direction, t2)) == Scale(direction, t1 - t2)
  {
    assert direction.x * t1 - direction.x * t2 == direction.x * (t1 - t2);
    assert direction.y * t1 - direction.y * t2 == direction.y * (t1 - t2);
    assert direction.z * t1 - direction.z * t2 == direction.z * (t1 - t2);
  }

  /** The distance from the start to the point at parameter t: |t| times the direction's length. */
  lemma TravelledDistance(nm: MathLib, start: Vec3, direction: Vec3, t: real)
    requires Valid(nm)
    ensures Length(nm, Sub(start, PointAt(start, direction, t))) >= 0.0
    ensures Length(nm, Sub(start, PointAt(start, direction, t)))
        * Length(nm, Sub(start, PointAt(start, direction, t)))
         == t * t * Dot(direction, direction)
  {
    var back := Sub(start, PointAt(start, direction, t));
    assert back == Scale(direction, -t);
    DotScale(direction, Scale(direction, -t), -t);
    DotScale(direction, direction, -t);
    assert Dot(back, back) == -t * (-t * Dot(direction, direction));
    LengthLaw(nm, back);
  }

  // ---------------------------------------------------------------- sphere

  /** b of t^2 + b t + c = 0 for the start point relative to the centre. */
  function SphereB(local: Vec3, direction: Vec3): real
  {
    2.0 * Dot(local, direction)
  }

  /** c of t^2 + b t + c = 0. */
  function SphereC(local: Vec3, radius: real): real
  {
    Dot(local, local) - radius * radius
  }

  /** `calculateDiscriminant`. */
  function Discriminant(b: real, c: real): real
  {
    b * b - 4.0 * c
  }

  /** The two roots (-b - sqrt d) / 2 and (-b + sqrt d) / 2. */
  function Roots(nm: MathLib, b: real, d: real): (real, real)
  {
    ((-b - nm.sqrt(d)) / 2.0, (-b + nm.sqrt(d)) / 2.0)
  }

  /** The root-selection policy of `calculateDistance`: if either root is
      non-negative, the smaller one, even when it is negative; otherwise the
      larger one when exactly one root lies on each side of 0.01, and none at all
      (the distance is 0 and nothing is written) when neither does. */
  function SelectRoot(t0: real, t1: real): Option<real>
  {
    if t0 >= 0.0 || t1 >= 0.0 then Some(if t0 < t1 then t0 else t1)
    else if (t0 < 0.01 && t1 > 0.01) || (t0 > 0.01 && t1 < 0.01) then Some(if t0 > t1 then t0 else t1)
    else None
  }

  /** `calculateDistance`: the distance from the start to the chosen point, and that
      point (relative to the centre) if one was chosen. */
  function CalculateDistance(nm: MathLib, b: real, d: real, local: Vec3, direction: Vec3): (real,
                             Option<Vec3>)
  {
    var (t0, t1) := Roots(nm, b, d);
    match SelectRoot(t0, t1)
    case None => (0.0, None)
    case Some(t) =>
      var p := PointAt(local, direction, t);
      (Length(nm, Sub(local, p)), Some(p))
  }

  /** Sphere `intersect`: on a positive discriminant, the point found is moved back
      by the centre and the normal points from the centre through it. */
  function SphereIntersect(nm: MathLib, center: Vec3, radius: real, start: Vec3, direction: Vec3): ShapeHit
  {
    var local := Sub(start, center);
    var b := SphereB(local, direction);
    var d := Discriminant(b, SphereC(local, radius));
    if d > 0.0 then
      var (distance, p) := CalculateDistance(nm, b, d, local, direction);
      match p
      case None => ShapeHit(distance, None, None)
      case Some(q) =>
        var world := Add(q, center);
        ShapeHit(distance, Some(world), Some(Normalize(nm, Sub(world, center))))
    else ShapeHit(0.0, None, None)
  }

  /** A ray whose quadratic has no two distinct roots misses and writes nothing. */
  lemma SphereMiss(nm: MathLib, center: Vec3, radius: real, start: Vec3, direction: Vec3)
    requires Discriminant(SphereB(Sub(start, center), direction), SphereC(Sub(start, center), radius)) <= 0.0
    ensures SphereIntersect(nm, center, radius, start, direction) == ShapeHit(0.0, None, None)
  {
  }

  /** Vieta's formulas for the two roots: ordered, summing to -b, multiplying to c. */
  lemma Vieta(nm: MathLib, b: real, c: real)
    requires Valid(nm) && Discriminant(b, c) > 0.0
    ensures Roots(nm, b, Discriminant(b, c)).0 <= Roots(nm, b, Discriminant(b, c)).1
    ensures Roots(nm, b, Discriminant(b, c)).0 + Roots(nm, b, Discriminant(b, c)).1 == -b
    ensures Roots(nm, b, Discriminant(b, c)).0 * Roots(nm, b, Discriminant(b, c)).1 == c
  {
    var d := Discriminant(b, c);
    var s := nm.sqrt(d);
    SqrtLaw(nm, d);
    assert (-b - s) * (-b + s) == b * b - s * s;
    assert ((-b - s) / 2.0) * ((-b + s) / 2.0) == (b * b - s * s) / 4.0;
  }

  /** Each root solves t^2 + b t + c = 0. */
  lemma RootsSolve(nm: MathLib, b: real, c: real)
    requires Valid(nm) && Discriminant(b, c) > 0.0
    ensures var t := Roots(nm, b, Discriminant(b, c)).0; t * t + b * t + c == 0.0
    ensures var t := Roots(nm, b, Discriminant(b, c)).1; t * t + b * t + c == 0.0
  {
    var d := Discriminant(b, c);
    var s := nm.sqrt(d);
    SqrtLaw(nm, d);
    var t0 := (-b - s) / 2.0;
    var t1 := (-b + s) / 2.0;
    assert t0 * t0 + b * t0 == (t0 + b / 2.0) * (t0 + b / 2.0) - b * b / 4.0;
    assert t0 + b / 2.0 == -s / 2.0;
    assert (-s / 2.0) * (-s / 2.0) == s * s / 4.0;
    assert t1 * t1 + b * t1 == (t1 + b / 2.0) * (t1 + b / 2.0) - b * b / 4.0;
    assert t1 + b / 2.0 == s / 2.0;
    assert (s / 2.0) * (s / 2.0) == s * s / 4.0;
  }

  /** When either root is non-negative the smaller root is chosen, even if it is
      negative (the start lies inside the sphere). */
  lemma SmallerRootChosen(nm: MathLib, b: real, d: real)
    requires Valid(nm) && d > 0.0
    requires Roots(nm, b, d).0 >= 0.0 || Roots(nm, b, d).1 >= 0.0
    ensures SelectRoot(Roots(nm, b, d).0, Roots(nm, b, d).1) == Some(Roots(nm, b, d).0)
  {
    SqrtLaw(nm, d);
  }

  /** When both roots are negative the 0.01 test cannot pass: the result is always
      "no root", so that branch never chooses anything. */
  lemma BothNegativeNoRoot(t0: real, t1: real)
    requires t0 < 0.0 && t1 < 0.0
    ensures SelectRoot(t0, t1) == None
  {
  }

  /** With a unit direction, the chosen point lies on the sphere, |O + t D|^2 = radius^2. */
  lemma SphereHitOnSurface(nm: MathLib, center: Vec3, radius: real, start: Vec3, direction: Vec3)
    requires Valid(nm) && Dot(direction, direction) == 1.0
    requires SphereIntersect(nm, center, radius, start, direction).point.Some?
    ensures var p := SphereIntersect(nm, center, radius, start, direction).point.value;
            Dot(Sub(p, center), Sub(p, center)) == radius * radius
  {
    var local := Sub(start, center);
    var b := SphereB(local, direction);
    var c := SphereC(local, radius);
    var d := Discriminant(b, c);
    var (t0, t1) := Roots(nm, b, d);
    RootsSolve(nm, b, c);
    var t := SelectRoot(t0, t1).value;
    assert t == t0 || t == t1;
    assert t * t + b * t + c == 0.0;
    var q := PointAt(local, direction, t);
    assert Sub(Add(q, center), center) == q;
    OnSurfaceAt(local, direction, t, radius);
  }

  /** A root of the sphere's quadratic, for a unit direction, lies on the sphere:
      the point t along the ray from `local` is at distance `radius` from the
      centre. */
  lemma OnSurfaceAt(local: Vec3, direction: Vec3, t: real, radius: real)
    requires Dot(direction, direction) == 1.0
    requires t * t + SphereB(local, direction) * t + SphereC(local, radius) == 0.0
    ensures Dot(PointAt(local, direction, t), PointAt(local, direction, t)) == radius * radius
  {
    var q := PointAt(local, direction, t);
    var e := Scale(direction, t);
    DotScale(direction, e, t);
    DotScale(direction, direction, t);
    DotScale(local, direction, t);
    assert Dot(e, e) == t * t;
    assert Dot(local, e) == t * Dot(local, direction);
    assert Dot(q, q) == Dot(local, local) + 2.0 * Dot(local, e) + Dot(e, e);
  }

  /** The distance returned is never negative, and its square is t^2 |D|^2 for the chosen t. */
  lemma SphereDistance(nm: MathLib, b: real, d: real, local: Vec3, direction: Vec3)
    requires Valid(nm)
    ensures CalculateDistance(nm, b, d, local, direction).0 >= 0.0
    ensures var t := SelectRoot(Roots(nm, b, d).0, Roots(nm, b, d).1);
            var r := CalculateDistance(nm, b, d, local, direction).0;
            t.Some? ==> r * r == t.value * t.value * Dot(direction, direction)
  {
    var t := SelectRoot(Roots(nm, b, d).0, Roots(nm, b, d).1);
    if t.Some? {
      TravelledDistance(nm, local, direction, t.value);
    }
  }

  /** A start inside the sphere (one root on each side of zero) yields the point
      behind it, at a positive distance when the direction is non-zero. */
  lemma InsideHitBehind(nm: MathLib, b: real, d: real, local: Vec3, direction: Vec3)
    requires Valid(nm) && d > 0.0 && Dot(direction, direction) > 0.0
    requires Roots(nm, b, d).0 < 0.0 <= Roots(nm, b, d).1
    ensures CalculateDistance(nm, b, d, local, direction).1
        == Some(PointAt(local, direction, Roots(nm, b, d).0))
    ensures CalculateDistance(nm, b, d, local, direction).0 > 0.0
  {
    var t0 := Roots(nm, b, d).0;
    SmallerRootChosen(nm, b, d);
    SphereDistance(nm, b, d, local, direction);
    ScaledSquareSign(t0, Dot(direction, direction), CalculateDistance(nm, b, d, local, direction).0);
  }

  /** On a sphere hit both fields are written: the point is the local point moved
      back by the centre, and the normal is the normalized offset from the centre. */
  lemma SphereHitFields(nm: MathLib, center: Vec3, radius: real, start: Vec3, direction: Vec3)
    requires SphereIntersect(nm, center, radius, start, direction).distance > 0.0
    ensures var h := SphereIntersect(nm, center, radius, start, direction);
            h.point.Some? && h.normal == Some(Normalize(nm, Sub(h.point.value, center)))
  {
  }

  // ----------------------------------------------------------------- plane

  /** The cosine between the plane normal and the normalized ray direction. */
  function PlaneCosine(nm: MathLib, normal: Vec3, direction: Vec3): real
  {
    Dot(normal, Normalize(nm, direction))
  }

  /** The parameter t at which the ray meets the plane. */
  function PlaneParameter(normal: Vec3, local: Vec3, cosine: real): real
    requires cosine != 0.0
  {
    (Dot(normal, local) / cosine) * -1.0
  }

  /** Plane `intersect`: rays that are not against the normal are culled; otherwise
      the point at parameter t is written back in world coordinates. The normal
      field is the constructor's and no call changes it. */
  function PlaneIntersect(nm: MathLib, location: Vec3, normal: Vec3, start: Vec3,
                          direction: Vec3): (h: ShapeHit)
    ensures h.normal == Some(normal)
  {
    var local := Sub(start, location);
    var cosine := PlaneCosine(nm, normal, direction);
    if cosine < 0.0 then
      var t := PlaneParameter(normal, local, cosine);
      var p := PointAt(local, direction, t);
      ShapeHit(Length(nm, Sub(local, p)), Some(Add(p, location)), Some(normal))
    else ShapeHit(0.0, None, Some(normal))
  }

  /** A ray parallel to the plane or along its normal misses and leaves the point alone. */
  lemma PlaneCull(nm: MathLib, location: Vec3, normal: Vec3, start: Vec3, direction: Vec3)
    requires PlaneCosine(nm, normal, direction) >= 0.0
    ensures PlaneIntersect(nm, location, normal, start, direction) == ShapeHit(0.0, None, Some(normal))
  {
  }

  /** With a unit direction, the point found lies on the plane through `location`. */
  lemma PlaneHitOnPlane(nm: MathLib, location: Vec3, normal: Vec3, start: Vec3, direction: Vec3)
    requires Valid(nm) && Dot(direction, direction) == 1.0
    requires PlaneCosine(nm, normal, direction) < 0.0
    ensures var p := PlaneIntersect(nm, location, normal, start, direction).point;
            p.Some? && Dot(normal, Sub(p.value, location)) == 0.0
  {
    NormalizeUnitFixed(nm, direction);
    var local := Sub(start, location);
    var cosine := Dot(normal, direction);
    var t := PlaneParameter(normal, local, cosine);
    var q := PointAt(local, direction, t);
    assert Sub(Add(q, location), location) == q;
    DotScale(normal, direction, t);
    assert Dot(normal, q) == Dot(normal, local) + t * cosine;
    assert t * cosine == -Dot(normal, local);
  }

  /** Against the normal, the parameter is positive exactly when the start is on
      the normal's side of the plane; a start behind the plane gets a negative one. */
  lemma PlaneParameterSign(normal: Vec3, local: Vec3, cosine: real)
    requires cosine < 0.0
    ensures PlaneParameter(normal, local, cosine) > 0.0 <==> Dot(normal, local) > 0.0
    ensures PlaneParameter(normal, local, cosine) == 0.0 <==> Dot(normal, local) == 0.0
  {
    var n := Dot(normal, local);
    if n > 0.0 {
      assert n / cosine < 0.0;
    } else if n < 0.0 {
      assert n / cosine > 0.0;
    }
  }

  /** The plane distance is |t| times the direction's length, never negative, and
      zero exactly when the start lies on the plane. */
  lemma PlaneDistance(nm: MathLib, location: Vec3, normal: Vec3, start: Vec3, direction: Vec3)
    requires Valid(nm) && PlaneCosine(nm, normal, direction) < 0.0
    ensures var h := PlaneIntersect(nm, location, normal, start, direction);
            var t := PlaneParameter(normal, Sub(start, location), PlaneCosine(nm, normal, direction));
            && h.distance >= 0.0
            && h.distance * h.distance == t * t * Dot(direction, direction)
            && (h.distance == 0.0 <==> Dot(normal, Sub(start, location)) == 0.0)
  {
    var local := Sub(start, location);
    var cosine := PlaneCosine(nm, normal, direction);
    var t := PlaneParameter(normal, local, cosine);
    TravelledDistance(nm, local, direction, t);
    PlaneParameterSign(normal, local, cosine);
    NormalizeZero(nm, direction);
    DotSelfPositive(direction);
    ScaledSquareSign(t, Dot(direction, direction),
      PlaneIntersect(nm, location, normal, start, direction).distance);
  }

  // ---------------------------------------------------------------- square

  /** `isInSquare`: the offset from the centre lies strictly inside (-size/2, size/2)
      on each of the three world axes. */
  predicate InSquare(location: Vec3, size: real, p: Vec3)
  {
    var o := Sub(p, location);
    && -size / 2.0 < o.x < size / 2.0
    && -size / 2.0 < o.y < size / 2.0
    && -size / 2.0 < o.z < size / 2.0
  }

  /** Square `intersect`: the plane's distance when the plane wrote a point inside
      the square, 0 otherwise; the point the plane wrote stays written either way. */
  function SquareIntersect(nm: MathLib, location: Vec3, normal: Vec3, size: real, start: Vec3,
                           direction: Vec3): ShapeHit
  {
    var h := PlaneIntersect(nm, location, normal, start, direction);
    if h.point.Some? && InSquare(location, size, h.point.value) then h
    else ShapeHit(0.0, h.point, h.normal)
  }

  /** The square reports 0 or exactly the plane's distance; anything non-zero comes
      from a point strictly inside the square (so never at offset +-size/2); a
      square of size 0 or less never hits, and neither does a plane miss. */
  lemma SquareResult(nm: MathLib, location: Vec3, normal: Vec3, size: real, start: Vec3, direction: Vec3)
    ensures var h := PlaneIntersect(nm, location, normal, start, direction);
            var r := SquareIntersect(nm, location, normal, size, start, direction);
            && r.point == h.point && r.normal == h.normal
            && (r.distance == 0.0 || r.distance == h.distance)
            && (r.distance != 0.0 ==> InSquare(location, size, h.point.value))
            && (size <= 0.0 ==> r.distance == 0.0)
            && (h.distance == 0.0 ==> r.distance == 0.0)
  {
  }

  /** A point at offset exactly size/2 or -size/2 on some axis is outside the square. */
  lemma SquareBorderExcluded(location: Vec3, size: real, p: Vec3)
    requires var o := Sub(p, location);
             || o.x == size / 2.0 || o.x == -size / 2.0
             || o.y == size / 2.0 || o.y == -size / 2.0
             || o.z == size / 2.0 || o.z == -size / 2.0
    ensures !InSquare(location, size, p)
  {
  }

  // ----------------------------------------------------------------- shape

  /** `intersect`, dispatched on the kind of shape. */
  function Intersect(nm: MathLib, s: Shape, start: Vec3, direction: Vec3): ShapeHit
  {
    match s
    case Sphere(c, r, _) => SphereIntersect(nm, c, r, start, direction)
    case Plane(l, n, _) => PlaneIntersect(nm, l, n, start, direction)
    case Square(l, n, size, _) => SquareIntersect(nm, l, n, size, start, direction)
  }

  /** A shape that reports a positive distance wrote its point and has a normal. */
  lemma HitWritesFields(nm: MathLib, s: Shape, start: Vec3, direction: Vec3)
    requires Intersect(nm, s, start, direction).distance > 0.0
    ensures Intersect(nm, s, start, direction).point.Some?
    ensures Intersect(nm, s, start, direction).normal.Some?
  {
  }

  /** The shape's flags are its material's. */
  predicate IsReflective(s: Shape) { M.IsReflective(s.material) }

  predicate IsTransmittive(s: Shape) { M.IsTransmittive(s.material) }

  function RefractionIndex(s: Shape): real { M.RefractionIndex(s.material) }
}
