/** Point lights and the three lighting models a shape's material can follow:
    Lambert (ambient plus diffuse), Phong (ambient plus diffuse plus specular,
    with the reflection and refraction flags the tracer reads) and Unlit (one
    fixed colour). */
module Materials {
  import opened Options
  import opened Numerics
  import opened Vectors
  import C = Colors

  /** A point light: its colour and its position. */
  datatype Light = Light(color: C.Rgb, location: Vec3)

  datatype Material =
    | Lambert(diffusion: C.Rgb, ambient: C.Rgb)
    | Phong(diffusion: C.Rgb, specular: C.Rgb, shininess: real, ambient: C.Rgb,
            reflectivity: real, refractionIndex: real)
    | Unlit(diffusion: C.Rgb)

  /** Every colour a material holds was built by the colour constructor, so it is in range. */
  predicate WellFormed(m: Material)
  {
    match m
    case Lambert(d, a) => C.InRange(d) && C.InRange(a)
    case Phong(d, s, _, a, _, _) => C.InRange(d) && C.InRange(s) && C.InRange(a)
    case Unlit(d) => C.InRange(d)
  }

  /** Every light colour was built by the colour constructor. */
  predicate LightsInRange(lights: seq<Light>)
  {
    forall i :: 0 <= i < |lights| ==> C.InRange(lights[i].color)
  }

  /** The reflection flag: only Phong sets it, when its reflectivity is non-zero. */
  predicate IsReflective(m: Material)
  {
    m.Phong? && m.reflectivity != 0.0
  }

  /** The transmission flag: only Phong sets it, when its refraction index is positive. */
  predicate IsTransmittive(m: Material)
  {
    m.Phong? && m.refractionIndex > 0.0
  }

  /** The refraction index: Phong's own, the default 0 for the others. */
  function RefractionIndex(m: Material): real
  {
    if m.Phong? then m.refractionIndex else 0.0
  }

  /** The flags as the constructors set them: Lambert and Unlit keep the defaults
      (not reflective, not transmittive, index 0); Phong is reflective exactly when
      its reflectivity is non-zero, negative values included, and transmittive
      exactly when the index it returns is positive. */
  lemma MaterialFlags(m: Material)
    ensures !m.Phong? ==> !IsReflective(m) && !IsTransmittive(m) && RefractionIndex(m) == 0.0
    ensures m.Phong? ==> (IsReflective(m) <==> m.reflectivity != 0.0)
    ensures m.Phong? ==> RefractionIndex(m) == m.refractionIndex
    ensures IsTransmittive(m) <==> RefractionIndex(m) > 0.0
  {
  }

  /** x, or 0 when x is negative: how the lighting models drop angles beyond 90 degrees. */
  function Positive(x: real): (r: real)
    ensures r >= 0.0
    ensures r == x || r == 0.0
    ensures x <= 0.0 ==> r == 0.0
  {
    if x < 0.0 then 0.0 else x
  }

  /** The unit vector from the surface point towards the light. */
  function LightVector(nm: MathLib, point: Vec3, light: Light): Vec3
  {
    Normalize(nm, Sub(light.location, point))
  }

  /** 2 (n . l) n - l, before normalizing: with the raw, unclamped cosine. */
  function MirrorOf(n: Vec3, l: Vec3): Vec3
  {
    Sub(Scale(n, Dot(n, l) * 2.0), l)
  }

  /** Phong's reflection vector R. */
  function Reflection(nm: MathLib, n: Vec3, l: Vec3): Vec3
  {
    Normalize(nm, MirrorOf(n, l))
  }

  /** About a unit normal, the mirror image keeps the normal component of the
      light vector and its length: it is the reflection of l. */
  lemma MirrorReflects(n: Vec3, l: Vec3)
    requires Dot(n, n) == 1.0
    ensures Dot(MirrorOf(n, l), n) == Dot(l, n)
    ensures Dot(MirrorOf(n, l), MirrorOf(n, l)) == Dot(l, l)
  {
    var s := Dot(n, l);
    var m := MirrorOf(n, l);
    assert Dot(Scale(n, s * 2.0), n) == s * 2.0 * Dot(n, n);
    assert Dot(m, n) == s * 2.0 - Dot(l, n);
    assert Dot(Scale(n, s * 2.0), Scale(n, s * 2.0)) == (s * 2.0) * (s * 2.0) * Dot(n, n);
    assert Dot(Scale(n, s * 2.0), l) == s * 2.0 * s;
    assert Dot(m, m) == (s * 2.0) * (s * 2.0) - 2.0 * (s * 2.0 * s) + Dot(l, l);
  }

  /** Phong's reflection vector is a rescaling of that mirror image. */
  lemma ReflectionIsMirror(nm: MathLib, n: Vec3, l: Vec3)
    ensures exists k: real :: Reflection(nm, n, l) == Scale(MirrorOf(n, l), k)
  {
    NormalizeIsScaling(nm, MirrorOf(n, l));
  }

  /** What one light adds under Lambert's model. */
  function LambertTerm(nm: MathLib, diffusion: C.Rgb, n: Vec3, point: Vec3, light: Light): C.Rgb
  {
    var cosine := Positive(Dot(n, LightVector(nm, point, light)));
    C.MultRgb(C.MultScalar(diffusion, cosine), light.color)
  }

  /** What one light adds under Phong's model: the diffuse part uses the clamped
      cosine, the reflection vector the raw one, and `pow` receives the clamped
      specular cosine. */
  function PhongTerm(nm: MathLib, m: Material, n: Vec3, point: Vec3, view: Vec3, light: Light): C.Rgb
    requires m.Phong?
  {
    var l := LightVector(nm, point, light);
    var cosine := Dot(n, l);
    var specular := Positive(Dot(view, Reflection(nm, n, l)));
    var diffuseAmount := C.MultScalar(m.diffusion, Positive(cosine));
    var specularAmount := C.MultScalar(m.specular, nm.pow(specular, m.shininess));
    C.MultRgb(C.Add(diffuseAmount, specularAmount), light.color)
  }

  /** The light one light adds; Unlit ignores lights. */
  function Term(nm: MathLib, m: Material, n: Vec3, point: Vec3, view: Vec3, light: Light): (r: C.Rgb)
    ensures C.InRange(r)
  {
    match m
    case Lambert(d, _) => LambertTerm(nm, d, n, point, light)
    case Phong(_, _, _, _, _, _) => PhongTerm(nm, m, n, point, view, light)
    case Unlit(_) => C.Black
  }

  /** The direct light: the terms of all lights added up in list order, from black. */
  function Direct(nm: MathLib, m: Material, n: Vec3, point: Vec3, view: Vec3, lights: seq<Light>): (r: C.Rgb)
    ensures C.InRange(r)
  {
    if |lights| == 0 then C.Black
    else C.Add(Direct(nm, m, n, point, view, lights[..|lights| - 1]),
               Term(nm, m, n, point, view, lights[|lights| - 1]))
  }

  /** `getColor`: the colour of the surface point lit by `lights` and seen along `view`. */
  function GetColor(nm: MathLib, m: Material, point: Vec3, normal: Vec3, lights: seq<Light>,
                    view: Vec3): C.Rgb
  {
    match m
    case Unlit(d) => d
    case _ =>
      C.Add(C.MultRgb(m.ambient, m.diffusion), Direct(nm, m, Normalize(nm, normal), point, view, lights))
  }

  /** The output of a well-formed material is in range. */
  lemma GetColorInRange(nm: MathLib, m: Material, point: Vec3, normal: Vec3, lights: seq<Light>, view: Vec3)
    requires WellFormed(m)
    ensures C.InRange(GetColor(nm, m, point, normal, lights, view))
  {
  }

  /** Without lights, Lambert and Phong show only the ambient part, ambient times diffusion colour. */
  lemma NoLightsAmbientOnly(nm: MathLib, m: Material, point: Vec3, normal: Vec3, view: Vec3)
    requires !m.Unlit? && WellFormed(m)
    ensures GetColor(nm, m, point, normal, [], view) == C.MultRgb(m.ambient, m.diffusion)
  {
    C.AddBlack(C.MultRgb(m.ambient, m.diffusion));
  }

  /** The direct light of a longer list is the shorter list's plus the new light's term. */
  lemma DirectAppend(nm: MathLib, m: Material, n: Vec3, point: Vec3, view: Vec3, lights: seq<Light>,
                     light: Light)
    ensures Direct(nm, m, n, point, view, lights + [light])
         == C.Add(Direct(nm, m, n, point, view, lights), Term(nm, m, n, point, view, light))
  {
    assert (lights + [light])[..|lights|] == lights;
  }

  /** Appending a light never darkens any channel of the output. */
  lemma AppendLightBrightens(nm: MathLib, m: Material, point: Vec3, normal: Vec3, lights: seq<Light>,
                             light: Light, view: Vec3)
    ensures C.Below(GetColor(nm, m, point, normal, lights, view),
                    GetColor(nm, m, point, normal, lights + [light], view))
  {
    if !m.Unlit? {
      var n := Normalize(nm, normal);
      var d := Direct(nm, m, n, point, view, lights);
      var d' := Direct(nm, m, n, point, view, lights + [light]);
      var a := C.MultRgb(m.ambient, m.diffusion);
      DirectAppend(nm, m, n, point, view, lights, light);
      C.AddGrows(d, Term(nm, m, n, point, view, light));
      C.AddMonotone(d, d', a);
      C.AddCommutative(d, a);
      C.AddCommutative(d', a);
    }
  }

  /** A light that the Lambert surface faces away from (n . l <= 0) adds nothing. */
  lemma LambertBackLight(nm: MathLib, m: Material, point: Vec3, normal: Vec3, lights: seq<Light>,
                         light: Light, view: Vec3)
    requires m.Lambert? && WellFormed(m) && C.InRange(light.color)
    requires Dot(Normalize(nm, normal), LightVector(nm, point, light)) <= 0.0
    ensures GetColor(nm, m, point, normal, lights + [light], view)
        == GetColor(nm, m, point, normal, lights, view)
  {
    var n := Normalize(nm, normal);
    C.MultScalarNonPositive(m.diffusion, 0.0);
    C.MultRgbBlack(light.color);
    assert Term(nm, m, n, point, view, light) == C.Black;
    DirectAppend(nm, m, n, point, view, lights, light);
    C.AddBlack(Direct(nm, m, n, point, view, lights));
  }

  /** Lambert's output does not depend on the view vector. */
  lemma {:induction false} LambertViewIndependent(nm: MathLib, m: Material, point: Vec3, normal: Vec3,
                                                  lights: seq<Light>, view: Vec3, view': Vec3)
    requires m.Lambert?
    ensures GetColor(nm, m, point, normal, lights, view) == GetColor(nm, m, point, normal, lights, view')
  {
    DirectViewIndependent(nm, m, Normalize(nm, normal), point, lights, view, view');
  }

  lemma {:induction false} DirectViewIndependent(nm: MathLib, m: Material, n: Vec3, point: Vec3,
                                                 lights: seq<Light>, view: Vec3, view': Vec3)
    requires m.Lambert?
    ensures Direct(nm, m, n, point, view, lights) == Direct(nm, m, n, point, view', lights)
    decreases |lights|
  {
    if |lights| > 0 {
      DirectViewIndependent(nm, m, n, point, lights[..|lights| - 1], view, view');
    }
  }

  /** Under Phong, a light behind the surface loses its diffuse part but keeps
      the specular part computed from the reflection about the raw cosine. */
  lemma PhongBackLight(nm: MathLib, m: Material, n: Vec3, point: Vec3, view: Vec3, light: Light)
    requires m.Phong? && WellFormed(m)
    requires Dot(n, LightVector(nm, point, light)) <= 0.0
    ensures Term(nm, m, n, point, view, light)
         == C.MultRgb(C.MultScalar(m.specular,
                                   nm.pow(Positive(Dot(view,
                                                       Reflection(nm, n, LightVector(nm, point, light)))),
                                          m.shininess)),
                      light.color)
  {
    var l := LightVector(nm, point, light);
    var spec := C.MultScalar(m.specular, nm.pow(Positive(Dot(view, Reflection(nm, n, l))), m.shininess));
    C.MultScalarNonPositive(m.diffusion, 0.0);
    C.AddBlack(spec);
  }

  /** Unlit returns its colour whatever the point, normal, lights and view, so
      filtering its lights never changes it. */
  lemma UnlitConstant(nm: MathLib, m: Material, point: Vec3, normal: Vec3, lights: seq<Light>, view: Vec3,
                      point': Vec3, normal': Vec3, lights': seq<Light>, view': Vec3)
    requires m.Unlit?
    ensures GetColor(nm, m, point, normal, lights, view) == m.diffusion
    ensures GetColor(nm, m, point, normal, lights, view) == GetColor(nm, m, point', normal', lights', view')
  {
  }

  /** The direct light of a sub-list of the lights is at most that of the whole list. */
  lemma {:induction false} DirectSubsequence(nm: MathLib, m: Material, n: Vec3, point: Vec3, view: Vec3,
                                             some: seq<Light>, all: seq<Light>)
    requires IsSubsequence(some, all)
    ensures C.Below(Direct(nm, m, n, point, view, some), Direct(nm, m, n, point, view, all))
    decreases |all|
  {
    if |all| > 0 {
      var all' := all[..|all| - 1];
      var last := all[|all| - 1];
      var t := Term(nm, m, n, point, view, last);
      if |some| > 0 && some[|some| - 1] == last {
        var some' := some[..|some| - 1];
        DirectSubsequence(nm, m, n, point, view, some', all');
        C.AddMonotone(Direct(nm, m, n, point, view, some'), Direct(nm, m, n, point, view, all'), t);
      } else {
        DirectSubsequence(nm, m, n, point, view, some, all');
        C.AddGrows(Direct(nm, m, n, point, view, all'), t);
      }
    }
  }

  /** Lighting a point by a sub-list of the lights never makes it brighter than
      lighting it by all of them. */
  lemma FewerLightsDarker(nm: MathLib, m: Material, point: Vec3, normal: Vec3, some: seq<Light>,
                          all: seq<Light>, view: Vec3)
    requires IsSubsequence(some, all)
    ensures C.Below(GetColor(nm, m, point, normal, some, view), GetColor(nm, m, point, normal, all, view))
  {
    if !m.Unlit? {
      var n := Normalize(nm, normal);
      var d := Direct(nm, m, n, point, view, some);
      var d' := Direct(nm, m, n, point, view, all);
      var a := C.MultRgb(m.ambient, m.diffusion);
      DirectSubsequence(nm, m, n, point, view, some, all);
      C.AddMonotone(d, d', a);
      C.AddCommutative(d, a);
      C.AddCommutative(d', a);
    }
  }
}
