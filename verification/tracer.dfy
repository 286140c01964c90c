/** The ray tracer's work for one ray: the scan for the closest hit, the choice
    between following a reflected ray, following a refracted ray and stopping,
    the refraction set-up, and the shadow test that decides which lights a
    surface point sees. */
module Tracer {
  import opened Options
  import opened Numerics
  import opened Vectors
  import C = Colors
  import M = Materials
  import S = Shapes
  import I = Intersections
  import Cameras

  /** The distance the scan starts from: a hit this far away or farther is ignored. */
  const FarAway: real := 99999.0

  // ------------------------------------------------------------ closest hit

  /** The ray tested against every shape of the list, in list order. */
  function Tests(nm: MathLib, ray: I.Ray, shapes: seq<S.Shape>): (ts: seq<I.Intersection>)
    ensures |ts| == |shapes|
    ensures forall j :: 0 <= j < |shapes| ==> ts[j] == I.MakeIntersection(nm, ray, shapes[j], j)
  {
    seq(|shapes|, j requires 0 <= j < |shapes| => I.MakeIntersection(nm, ray, shapes[j], j))
  }

  /** The distance a test has to beat, given the position of the best hit so far. */
  function Bound(ts: seq<I.Intersection>, best: Option<nat>): real
    requires best.Some? ==> best.value < |ts|
  {
    if best.None? then FarAway else ts[best.value].distance
  }

  /** The scan of `primaryRay`: the position of the test that wins, where a hit
      replaces the best one so far only when it is strictly closer. */
  function Closest(ts: seq<I.Intersection>): (r: Option<nat>)
    ensures r.Some? ==> r.value < |ts| && ts[r.value].hit
    decreases |ts|
  {
    if |ts| == 0 then None
    else
      var best := Closest(ts[..|ts| - 1]);
      var t := ts[|ts| - 1];
      if t.hit && t.distance < Bound(ts, best) then Some(|ts| - 1) else best
  }

  /** Test k is a hit closer than `FarAway`, no hit is closer, and every hit
      before it is strictly farther: the first of the closest hits. */
  predicate FirstClosest(ts: seq<I.Intersection>, k: int)
  {
    && 0 <= k < |ts| && ts[k].hit && ts[k].distance < FarAway
    && (forall j :: 0 <= j < |ts| && ts[j].hit ==> ts[k].distance <= ts[j].distance)
    && (forall j :: 0 <= j < k && ts[j].hit ==> ts[k].distance < ts[j].distance)
  }

  /** The scan finds the first of the closest hits, and finds nothing exactly
      when no test hits closer than `FarAway`. */
  lemma {:induction false} ClosestIsFirstMinimum(ts: seq<I.Intersection>)
    ensures Closest(ts).Some? ==> FirstClosest(ts, Closest(ts).value)
    ensures Closest(ts).None? <==> forall j :: 0 <= j < |ts| && ts[j].hit ==> ts[j].distance >= FarAway
    decreases |ts|
  {
    if |ts| > 0 {
      var ts' := ts[..|ts| - 1];
      assert forall j :: 0 <= j < |ts'| ==> ts'[j] == ts[j];
      ClosestIsFirstMinimum(ts');
    }
  }

  /** Only one test can be the first of the closest hits, so it is the one the scan returns. */
  lemma FirstClosestUnique(ts: seq<I.Intersection>, k: int)
    requires FirstClosest(ts, k)
    ensures Closest(ts) == Some(k)
  {
    ClosestIsFirstMinimum(ts);
    assert ts[k].hit && ts[k].distance < FarAway;
    var c := Closest(ts).value;
    assert !(c < k) && !(k < c);
  }

  /** The closest hit of a ray among the shapes, as an intersection. */
  function ClosestHit(nm: MathLib, ray: I.Ray, shapes: seq<S.Shape>): (r: Option<I.Intersection>)
    ensures r.Some? ==> r.value.hit && r.value.point.Some? && r.value.normal.Some?
    ensures r.Some? ==> r.value.shapeId < |shapes| && r.value.shape == shapes[r.value.shapeId]
  {
    var ts := Tests(nm, ray, shapes);
    var k := Closest(ts);
    if k.Some? then Some(ts[k.value]) else None
  }

  // ------------------------------------------------------------- dispatch

  /** An intersection whose point and normal were written by its test. */
  predicate Recorded(i: I.Intersection)
  {
    i.point.Some? && i.normal.Some?
  }

  /** What `primaryRay` does once the scan is over. */
  datatype Next =
    | Reflect(ray: I.Ray)
    | Refract(ray: I.Ray)
    | Stop

  /** The direction of the mirrored ray: the unit incoming direction, reversed,
      reflected about the unit normal. */
  function ReflectedDirection(nm: MathLib, ray: I.Ray, normal: Vec3): Vec3
  {
    var l := Scale(Normalize(nm, ray.direction), -1.0);
    M.MirrorOf(Normalize(nm, normal), l)
  }

  /** The mirrored ray starts one reflected direction away from the hit point, to
      avoid hitting the same surface again, and heads one more direction on. */
  function ReflectedRay(nm: MathLib, ray: I.Ray, hit: I.Intersection): I.Ray
    requires Recorded(hit)
  {
    var direction := ReflectedDirection(nm, ray, hit.normal.value);
    var start := Add(hit.point.value, direction);
    I.MakeRay(nm, start, Add(start, direction))
  }

  /** For a unit incoming direction and a non-zero normal, the reflected
      direction makes the opposite angle with the unit normal and keeps unit
      length: the angle of reflection equals the angle of incidence. The new ray
      starts one such direction away from the hit point and points along it. */
  lemma ReflectionLaw(nm: MathLib, ray: I.Ray, hit: I.Intersection)
    requires Valid(nm) && Recorded(hit) && hit.normal.value != Zero
        && Dot(ray.direction, ray.direction) == 1.0
    ensures var n := Normalize(nm, hit.normal.value);
            var d := ReflectedDirection(nm, ray, hit.normal.value);
            && Dot(d, n) == -Dot(ray.direction, n)
            && Dot(d, d) == 1.0
            && ReflectedRay(nm, ray, hit).start == Add(hit.point.value, d)
            && exists k: real :: ReflectedRay(nm, ray, hit).direction == Scale(d, k)
  {
    var n := Normalize(nm, hit.normal.value);
    DotSelfPositive(hit.normal.value);
    NormalizeUnit(nm, hit.normal.value);
    NormalizeUnitFixed(nm, ray.direction);
    var l := Scale(ray.direction, -1.0);
    M.MirrorReflects(n, l);
    DotScale(ray.direction, n, -1.0);
    DotScale(ray.direction, l, -1.0);
    DotScale(ray.direction, ray.direction, -1.0);
    var d := ReflectedDirection(nm, ray, hit.normal.value);
    var start := Add(hit.point.value, d);
    assert Sub(Add(start, d), start) == d;
  }

  /** The refraction set-up: the normal on the incident side, the cosine of the
      angle of incidence, and the indices of the medium left and the medium entered. */
  datatype Refraction = Refraction(normal: Vec3, cosine: real, n1: real, n2: real)

  /** From outside (the incident vector on the normal's side) the ray goes from
      air (index 1) into the shape's medium; from inside, the normal is flipped,
      the indices swap and the cosine changes sign. */
  function Setup(nm: MathLib, incident: Vec3, normal: Vec3, ior: real): Refraction
  {
    var cosine := Dot(incident, normal);
    if cosine < 0.0 then Refraction(Normalize(nm, Negate(normal)), cosine * -1.0, ior, 1.0)
    else Refraction(normal, cosine, 1.0, ior)
  }

  /** After the sign fix the cosine is non-negative, and it is the cosine with
      the chosen normal: for unit vectors, the normal faces the incident side.
      Entering, the index ratio n1 / n2 is 1 / ior; leaving, it is ior. */
  lemma SetupFacesIncident(nm: MathLib, incident: Vec3, normal: Vec3, ior: real)
    requires ior != 0.0
    ensures var r := Setup(nm, incident, normal, ior);
            && r.cosine >= 0.0
            && r.cosine == Abs(Dot(incident, normal))
            && (Dot(incident, normal) >= 0.0 ==> r.normal == normal && r.n1 / r.n2 == 1.0 / ior)
            && (Dot(incident, normal) < 0.0 ==> r.n1 / r.n2 == ior)
            && (Valid(nm) && Dot(normal, normal) == 1.0 ==> Dot(incident, r.normal) == r.cosine)
  {
    var cosine := Dot(incident, normal);
    if cosine < 0.0 && Valid(nm) && Dot(normal, normal) == 1.0 {
      assert Dot(Negate(normal), Negate(normal)) == Dot(normal, normal);
      NormalizeUnitFixed(nm, Negate(normal));
      assert Dot(incident, Negate(normal)) == -cosine;
    }
  }

  /** 1 - (n1/n2)^2 (1 - cos^2): the squared cosine of the refraction angle,
      negative under total internal reflection. */
  function SinT(r: Refraction): real
    requires r.n2 != 0.0
  {
    var ratio := r.n1 / r.n2;
    1.0 - Mul(Mul(ratio, ratio), 1.0 - Mul(r.cosine, r.cosine))
  }

  /** Entering a medium at least as dense as air there is no total internal
      reflection: the root's argument is not negative. */
  lemma EnteringHasRoot(nm: MathLib, incident: Vec3, normal: Vec3, ior: real)
    requires Dot(incident, incident) == 1.0 && Dot(normal, normal) == 1.0
    requires ior >= 1.0 && Dot(incident, normal) >= 0.0
    ensures SinT(Setup(nm, incident, normal, ior)) >= 0.0
  {
    var r := Setup(nm, incident, normal, ior);
    UnitCosineBounded(incident, normal);
    var ratio := 1.0 / ior;
    assert 0.0 < ratio <= 1.0;
    assert r.n1 / r.n2 == ratio;
    MulUnit(ratio, ratio);
    MulUnit(r.cosine, r.cosine);
    MulUnit(Mul(ratio, ratio), 1.0 - Mul(r.cosine, r.cosine));
  }

  /** Total internal reflection at a transmittive hit: the root's argument is
      negative. The source's square root is then NaN, the refracted ray it
      builds has NaN coordinates, and no sphere, plane or square reports a hit
      on such a ray, since each of their hit tests is a comparison NaN fails. */
  predicate TotalInternalReflection(nm: MathLib, ray: I.Ray, hit: I.Intersection)
    requires Recorded(hit) && S.IsTransmittive(hit.shape)
  {
    M.MaterialFlags(hit.shape.material);
    var incident := Normalize(nm, Negate(ray.direction));
    SinT(Setup(nm, incident, Normalize(nm, hit.normal.value), S.RefractionIndex(hit.shape))) < 0.0
  }

  /** The refracted ray of the source. It starts 100 units along the
      incident-side normal from the hit point, back toward the ray's origin,
      and is built from the start point and the transmitted direction, which
      the ray constructor takes for an end point. It is followed only when
      there is no total internal reflection, the only case where the square
      root is a number. */
  function RefractedRay(nm: MathLib, ray: I.Ray, hit: I.Intersection): I.Ray
    requires Recorded(hit) && S.IsTransmittive(hit.shape)
  {
    M.MaterialFlags(hit.shape.material);
    var incident := Normalize(nm, Negate(ray.direction));
    var r := Setup(nm, incident, Normalize(nm, hit.normal.value), S.RefractionIndex(hit.shape));
    var ratio := r.n1 / r.n2;
    var cosBeta := nm.sqrt(SinT(r));
    var firstHalf := Scale(Sub(Scale(r.normal, r.cosine), incident), ratio);
    var transmitted := Normalize(nm, Sub(firstHalf, Scale(r.normal, cosBeta)));
    I.MakeRay(nm, Add(hit.point.value, Scale(r.normal, 100.0)), transmitted)
  }

  /** The refracted ray starts 100 units along the incident-side normal from
      the hit point, back toward the ray's origin, and heads from there towards
      the transmitted direction read as a point, not along it. */
  lemma RefractedRayAimsAtDirection(nm: MathLib, ray: I.Ray, hit: I.Intersection)
    requires Recorded(hit) && S.IsTransmittive(hit.shape)
    ensures var incident := Normalize(nm, Negate(ray.direction));
            var r := Setup(nm, incident, Normalize(nm, hit.normal.value), S.RefractionIndex(hit.shape));
            var start := Add(hit.point.value, Scale(r.normal, 100.0));
            var ratio := r.n1 / r.n2;
            var firstHalf := Scale(Sub(Scale(r.normal, r.cosine), incident), ratio);
            var transmitted := Normalize(nm, Sub(firstHalf, Scale(r.normal, nm.sqrt(SinT(r)))));
            && RefractedRay(nm, ray, hit).start == start
            && exists k: real :: RefractedRay(nm, ray, hit).direction == Scale(Sub(transmitted, start), k)
  {
    M.MaterialFlags(hit.shape.material);
  }

  /** The decision after the scan: a reflective hit within the depth budget
      reflects; otherwise a transmittive hit refracts (also a reflective one
      whose budget is spent); otherwise the scan's result is returned. */
  function Dispatch(nm: MathLib, ray: I.Ray, hit: Option<I.Intersection>, depth: int,
                    maxDepth: int): (r: Next)
    requires hit.Some? ==> Recorded(hit.value)
    ensures r.Reflect? ==> hit.Some? && S.IsReflective(hit.value.shape) && depth < maxDepth
    ensures r.Refract? ==> hit.Some? && S.IsTransmittive(hit.value.shape)
    ensures r.Stop? <==> hit.None? || (!S.IsTransmittive(hit.value.shape)
                                       && !(S.IsReflective(hit.value.shape) && depth < maxDepth))
    ensures hit.Some? && S.IsReflective(hit.value.shape) && depth < maxDepth
            ==> r == Reflect(ReflectedRay(nm, ray, hit.value))
    ensures (hit.Some? && S.IsTransmittive(hit.value.shape)
             && !(S.IsReflective(hit.value.shape) && depth < maxDepth))
            ==> r == Refract(RefractedRay(nm, ray, hit.value))
  {
    var reflective := hit.Some? && S.IsReflective(hit.value.shape);
    var transmittive := hit.Some? && S.IsTransmittive(hit.value.shape);
    if reflective && depth < maxDepth then Reflect(ReflectedRay(nm, ray, hit.value))
    else if transmittive then Refract(RefractedRay(nm, ray, hit.value))
    else Stop
  }

  /** The outcome of `primaryRay`: the intersection returned (None for null),
      the recursion depth reached, and whether the ray settled within the fuel. */
  datatype Trace = Trace(hit: Option<I.Intersection>, depth: int, complete: bool)

  /** `primaryRay`: scan, then follow reflected rays one level deeper and
      refracted rays at the same level. Under total internal reflection the
      source's nested call scans a NaN ray, hits nothing and returns null, so
      the trace ends there with no hit. The source recurses without bound on
      refraction; `fuel` bounds the number of rays followed, and running out
      of it gives an incomplete trace. The depth only grows, and never beyond
      the budget when it starts within it. */
  function PrimaryRay(nm: MathLib, shapes: seq<S.Shape>, ray: I.Ray, depth: int, maxDepth: int,
                      fuel: nat): (t: Trace)
    ensures t.depth >= depth
    ensures depth <= maxDepth ==> t.depth <= maxDepth
    ensures t.hit.Some? ==> t.hit.value.hit && Recorded(t.hit.value)
    ensures t.hit.Some? ==> t.hit.value.shapeId < |shapes| && t.hit.value.shape == shapes[t.hit.value.shapeId]
    ensures !t.complete ==> t.hit.None?
    decreases fuel
  {
    var hit := ClosestHit(nm, ray, shapes);
    match Dispatch(nm, ray, hit, depth, maxDepth)
    case Stop => Trace(hit, depth, true)
    case Reflect(next) =>
      if fuel == 0 then Trace(None, depth, false)
      else PrimaryRay(nm, shapes, next, depth + 1, maxDepth, fuel - 1)
    case Refract(next) =>
      if TotalInternalReflection(nm, ray, hit.value) then Trace(None, depth, true)
      else if fuel == 0 then Trace(None, depth, false)
      else PrimaryRay(nm, shapes, next, depth, maxDepth, fuel - 1)
  }

  /** One ray followed: with fuel left, a reflection continues one level deeper,
      a refraction continues at the same level unless it is a total internal
      reflection, which ends the trace with no hit, and a stop returns the
      scan's hit at the current depth. */
  lemma FollowStep(nm: MathLib, shapes: seq<S.Shape>, ray: I.Ray, depth: int, maxDepth: int, fuel: nat)
    requires fuel > 0
    ensures var hit := ClosestHit(nm, ray, shapes);
            var next := Dispatch(nm, ray, hit, depth, maxDepth);
            var t := PrimaryRay(nm, shapes, ray, depth, maxDepth, fuel);
            && (next.Reflect? ==> t == PrimaryRay(nm, shapes, next.ray, depth + 1, maxDepth, fuel - 1))
            && (next.Refract? ==>
                  if TotalInternalReflection(nm, ray, hit.value) then t == Trace(None, depth, true)
                  else t == PrimaryRay(nm, shapes, next.ray, depth, maxDepth, fuel - 1))
            && (next.Stop? ==> t == Trace(hit, depth, true))
  {
  }

  /** Refraction never changes the depth: among shapes that do not reflect,
      however many refracted rays are followed, the trace ends at the depth it
      started from. */
  lemma {:induction false} RefractionKeepsDepth(nm: MathLib, shapes: seq<S.Shape>, ray: I.Ray, depth: int,
                                                maxDepth: int, fuel: nat)
    requires forall j :: 0 <= j < |shapes| ==> !S.IsReflective(shapes[j])
    ensures PrimaryRay(nm, shapes, ray, depth, maxDepth, fuel).depth == depth
    decreases fuel
  {
    var hit := ClosestHit(nm, ray, shapes);
    var next := Dispatch(nm, ray, hit, depth, maxDepth);
    if next.Refract? && fuel > 0 {
      RefractionKeepsDepth(nm, shapes, next.ray, depth, maxDepth, fuel - 1);
    }
  }

  /** Each reflection followed adds exactly one level: when the scan hits a
      reflective shape within the budget, the trace reaches one level more than
      the trace of the mirrored ray started at this depth would. */
  lemma ReflectionAddsOne(nm: MathLib, shapes: seq<S.Shape>, ray: I.Ray, depth: int, maxDepth: int, fuel: nat)
    requires fuel > 0 && depth < maxDepth
    requires var hit := ClosestHit(nm, ray, shapes); hit.Some? && S.IsReflective(hit.value.shape)
    ensures var hit := ClosestHit(nm, ray, shapes);
            var next := ReflectedRay(nm, ray, hit.value);
            PrimaryRay(nm, shapes, ray, depth, maxDepth, fuel)
            == PrimaryRay(nm, shapes, next, depth + 1, maxDepth, fuel - 1)
  {
  }

  /** Among shapes that neither reflect nor transmit, `primaryRay` returns the
      scan's result at once: the first of the closest hits, or null. */
  lemma PlainShapesNoRecursion(nm: MathLib, shapes: seq<S.Shape>, ray: I.Ray, depth: int, maxDepth: int,
                               fuel: nat)
    requires forall j :: 0 <= j < |shapes| ==> !S.IsReflective(shapes[j]) && !S.IsTransmittive(shapes[j])
    ensures var t := PrimaryRay(nm, shapes, ray, depth, maxDepth, fuel);
            var ts := Tests(nm, ray, shapes);
            && t.complete && t.depth == depth
            && (t.hit.Some? ==>
                  FirstClosest(ts, t.hit.value.shapeId) && t.hit.value == ts[t.hit.value.shapeId])
            && (t.hit.None? <==> forall j :: 0 <= j < |ts| && ts[j].hit ==> ts[j].distance >= FarAway)
  {
    var ts := Tests(nm, ray, shapes);
    ClosestIsFirstMinimum(ts);
  }

  /** With a depth budget of 0, a reflective hit is not followed: a shape that
      only reflects is returned as the hit. */
  lemma NoBudgetNoReflection(nm: MathLib, shapes: seq<S.Shape>, ray: I.Ray, maxDepth: int, fuel: nat)
    requires maxDepth <= 0
    requires forall j :: 0 <= j < |shapes| ==> !S.IsTransmittive(shapes[j])
    ensures var t := PrimaryRay(nm, shapes, ray, 0, maxDepth, fuel);
            t.complete && t.depth == 0 && t.hit == ClosestHit(nm, ray, shapes)
  {
  }

  /** Among shapes that do not transmit, a budget of fuel maxDepth - depth is
      always enough: every reflection followed uses one level of the budget, so
      at most maxDepth - depth + 1 rays are traced and the trace completes. */
  lemma {:induction false} MirrorsFinish(nm: MathLib, shapes: seq<S.Shape>, ray: I.Ray, depth: int,
                                         maxDepth: int, fuel: nat)
    requires forall j :: 0 <= j < |shapes| ==> !S.IsTransmittive(shapes[j])
    requires 0 <= depth <= maxDepth && fuel >= maxDepth - depth
    ensures PrimaryRay(nm, shapes, ray, depth, maxDepth, fuel).complete
    decreases fuel
  {
    var next := Dispatch(nm, ray, ClosestHit(nm, ray, shapes), depth, maxDepth);
    MirrorStep(nm, shapes, ray, depth, maxDepth, fuel);
    if next.Reflect? {
      MirrorsFinish(nm, shapes, next.ray, depth + 1, maxDepth, fuel - 1);
    }
  }

  /** One step among shapes that do not transmit: the scan either settles, or
      reflects within the budget and hands the rest to the mirrored ray. */
  lemma MirrorStep(nm: MathLib, shapes: seq<S.Shape>, ray: I.Ray, depth: int, maxDepth: int, fuel: nat)
    requires forall j :: 0 <= j < |shapes| ==> !S.IsTransmittive(shapes[j])
    requires fuel >= maxDepth - depth
    ensures var next := Dispatch(nm, ray, ClosestHit(nm, ray, shapes), depth, maxDepth);
            var t := PrimaryRay(nm, shapes, ray, depth, maxDepth, fuel);
            || (next.Stop? && t.complete)
            || (next.Reflect? && depth < maxDepth && fuel > 0
                && t == PrimaryRay(nm, shapes, next.ray, depth + 1, maxDepth, fuel - 1))
  {
    var hit := ClosestHit(nm, ray, shapes);
    if hit.Some? {
      assert !S.IsTransmittive(shapes[hit.value.shapeId]);
    }
  }

  /** A transmittive hit that is not reflected and meets total internal
      reflection ends the trace: complete, at the same depth, with no hit, so
      the sample shows the background. */
  lemma TotalReflectionLosesRay(nm: MathLib, shapes: seq<S.Shape>, ray: I.Ray, depth: int, maxDepth: int,
                                fuel: nat)
    requires var hit := ClosestHit(nm, ray, shapes);
             && hit.Some? && S.IsTransmittive(hit.value.shape)
             && !(S.IsReflective(hit.value.shape) && depth < maxDepth)
             && TotalInternalReflection(nm, ray, hit.value)
    ensures PrimaryRay(nm, shapes, ray, depth, maxDepth, fuel) == Trace(None, depth, true)
  {
  }

  // -------------------------------------------------------------- shadows

  /** Shape j, other than the lit shape `self`, reports a hit on the ray from
      the point towards the light closer than the light is. */
  predicate Blocks(nm: MathLib, shapes: seq<S.Shape>, self: nat, point: Vec3, light: M.Light, j: int)
    requires 0 <= j < |shapes|
  {
    var test := I.MakeIntersection(nm, I.MakeRay(nm, point, light.location), shapes[j], j);
    j != self && test.hit && Length(nm, Sub(point, light.location)) > test.distance
  }

  /** Some shape stands between the point and the light. */
  predicate Occluded(nm: MathLib, shapes: seq<S.Shape>, self: nat, point: Vec3, light: M.Light)
  {
    exists j :: 0 <= j < |shapes| && Blocks(nm, shapes, self, point, light, j)
  }

  /** The light list of `secondaryRays`: the scene's lights that no other shape
      hides from the point, in scene order. */
  function VisibleLights(nm: MathLib, shapes: seq<S.Shape>, self: nat, point: Vec3,
                         lights: seq<M.Light>): seq<M.Light>
    decreases |lights|
  {
    if |lights| == 0 then []
    else
      var visible := VisibleLights(nm, shapes, self, point, lights[..|lights| - 1]);
      var light := lights[|lights| - 1];
      if Occluded(nm, shapes, self, point, light) then visible else visible + [light]
  }

  /** The visible lights keep the scene's order, and a light is among them
      exactly when it is one of the scene's lights and nothing hides it. */
  lemma {:induction false} VisibleLightsFilter(nm: MathLib, shapes: seq<S.Shape>, self: nat, point: Vec3,
                                               lights: seq<M.Light>)
    ensures IsSubsequence(VisibleLights(nm, shapes, self, point, lights), lights)
    ensures forall l :: l in VisibleLights(nm, shapes, self, point, lights)
                        <==> l in lights && !Occluded(nm, shapes, self, point, l)
    decreases |lights|
  {
    if |lights| > 0 {
      var lights' := lights[..|lights| - 1];
      var light := lights[|lights| - 1];
      var visible := VisibleLights(nm, shapes, self, point, lights');
      VisibleLightsFilter(nm, shapes, self, point, lights');
      assert lights == lights' + [light];
      if Occluded(nm, shapes, self, point, light) {
        if |visible| > 0 && visible[|visible| - 1] == light {
          SubsequenceDropLast(visible, lights');
        }
      } else {
        assert (visible + [light])[..|visible|] == visible;
      }
    }
  }

  /** `secondaryRays`: the colour of the hit point under its material, lit by
      the lights it sees and viewed from the camera position. */
  function SecondaryRays(nm: MathLib, shapes: seq<S.Shape>, lights: seq<M.Light>, eye: Vec3,
                         hit: I.Intersection): C.Rgb
    requires Recorded(hit)
  {
    var point := hit.point.value;
    var visible := VisibleLights(nm, shapes, hit.shapeId, point, lights);
    M.GetColor(nm, hit.shape.material, point, hit.normal.value, visible, Normalize(nm, Sub(eye, point)))
  }

  /** Shadows only darken: the colour is at most what the material shows under
      all the scene's lights, and it is in range for a well-formed material. */
  lemma ShadowsOnlyDarken(nm: MathLib, shapes: seq<S.Shape>, lights: seq<M.Light>, eye: Vec3,
                          hit: I.Intersection)
    requires Recorded(hit)
    ensures var point := hit.point.value;
            C.Below(SecondaryRays(nm, shapes, lights, eye, hit),
                    M.GetColor(nm, hit.shape.material, point, hit.normal.value, lights,
                               Normalize(nm, Sub(eye, point))))
    ensures M.WellFormed(hit.shape.material) ==> C.InRange(SecondaryRays(nm, shapes, lights, eye, hit))
  {
    var point := hit.point.value;
    VisibleLightsFilter(nm, shapes, hit.shapeId, point, lights);
    M.FewerLightsDarker(nm, hit.shape.material, point, hit.normal.value,
                        VisibleLights(nm, shapes, hit.shapeId, point, lights),
                        lights, Normalize(nm, Sub(eye, point)));
    if M.WellFormed(hit.shape.material) {
      M.GetColorInRange(nm, hit.shape.material, point, hit.normal.value,
                        VisibleLights(nm, shapes, hit.shapeId, point, lights),
                        Normalize(nm, Sub(eye, point)));
    }
  }

  /** Nothing hides a light from an Unlit surface's colour: it is its colour. */
  lemma UnlitIgnoresShadows(nm: MathLib, shapes: seq<S.Shape>, lights: seq<M.Light>, eye: Vec3,
                            hit: I.Intersection)
    requires Recorded(hit) && hit.shape.material.Unlit?
    ensures SecondaryRays(nm, shapes, lights, eye, hit) == hit.shape.material.diffusion
  {
  }

  // ---------------------------------------------------------------- pixel

  /** `sendRayThroughPixel` followed by the colouring of `renderScene`: the ray
      from the camera through viewplane point (u, v), traced from depth 0; the
      hit's colour, or the background when there is none (or the fuel ran out). */
  function TracePixel(nm: MathLib, shapes: seq<S.Shape>, lights: seq<M.Light>, camera: Cameras.Camera,
                      background: C.Rgb, maxDepth: int, fuel: nat, u: real, v: real): (c: C.Rgb)
    ensures var t := PrimaryRay(nm, shapes,
                                I.MakeRay(nm, camera.position, Cameras.DestinationPoint(camera, u, v)),
                                0, maxDepth, fuel);
            (t.hit.None? ==> c == background)
            && (t.hit.Some? ==> c == SecondaryRays(nm, shapes, lights, camera.position, t.hit.value))
    ensures |shapes| == 0 ==> c == background
  {
    var ray := I.MakeRay(nm, camera.position, Cameras.DestinationPoint(camera, u, v));
    var t := PrimaryRay(nm, shapes, ray, 0, maxDepth, fuel);
    if t.hit.Some? then SecondaryRays(nm, shapes, lights, camera.position, t.hit.value) else background
  }

  /** A traced pixel is in range when the background and every shape's material are. */
  lemma TracePixelInRange(nm: MathLib, shapes: seq<S.Shape>, lights: seq<M.Light>, camera: Cameras.Camera,
                          background: C.Rgb, maxDepth: int, fuel: nat, u: real, v: real)
    requires C.InRange(background)
    requires forall j :: 0 <= j < |shapes| ==> M.WellFormed(shapes[j].material)
    ensures C.InRange(TracePixel(nm, shapes, lights, camera, background, maxDepth, fuel, u, v))
  {
    var ray := I.MakeRay(nm, camera.position, Cameras.DestinationPoint(camera, u, v));
    var t := PrimaryRay(nm, shapes, ray, 0, maxDepth, fuel);
    if t.hit.Some? {
      ShadowsOnlyDarken(nm, shapes, lights, camera.position, t.hit.value);
    }
  }
}
