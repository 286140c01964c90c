/** The scene: an append-only list of shapes, an append-only list of point
    lights and at most one camera, the latest one created. */
module Scenes {
  import opened Options
  import opened Numerics
  import opened Vectors
  import C = Colors
  import M = Materials
  import S = Shapes
  import Cameras

  datatype Scene = Scene(shapes: seq<S.Shape>, lights: seq<M.Light>, camera: Option<Cameras.Camera>)

  /** A new scene has no shapes, no lights and no camera yet. */
  function NewScene(): (s: Scene)
    ensures |s.shapes| == 0 && |s.lights| == 0 && s.camera.None?
  {
    Scene([], [], None)
  }

  /** `b` extends `a` by exactly the shapes `more`, keeping lights and camera. */
  predicate AddsShapes(a: Scene, b: Scene, more: seq<S.Shape>)
  {
    b.shapes == a.shapes + more && b.lights == a.lights && b.camera == a.camera
  }

  function CreateSphere(s: Scene, x: real, y: real, z: real, radius: real, material: M.Material): (r: Scene)
    ensures AddsShapes(s, r, [S.Sphere(Vec3(x, y, z), radius, material)])
  {
    s.(shapes := s.shapes + [S.Sphere(Vec3(x, y, z), radius, material)])
  }

  function CreatePlane(nm: MathLib, s: Scene, location: Vec3, normal: Vec3, material: M.Material): (r: Scene)
    ensures AddsShapes(s, r, [S.MakePlane(nm, location, normal, material)])
  {
    s.(shapes := s.shapes + [S.MakePlane(nm, location, normal, material)])
  }

  function CreateSquare(nm: MathLib, s: Scene, location: Vec3, normal: Vec3, material: M.Material,
                        size: real): (r: Scene)
    ensures AddsShapes(s, r, [S.MakeSquare(nm, location, normal, size, material)])
  {
    s.(shapes := s.shapes + [S.MakeSquare(nm, location, normal, size, material)])
  }

  /** Creating a camera replaces any earlier one and touches nothing else. */
  function CreatePerspCamera(nm: MathLib, s: Scene, position: Vec3, centerOfInterest: Vec3, userUp: Vec3,
                             viewAngle: real, focalLength: real): (r: Scene)
    ensures AddsShapes(s, r.(camera := s.camera), [])
    ensures r.camera == Some(
        Cameras.MakeCamera(nm, position, centerOfInterest, userUp, viewAngle, focalLength))
  {
    s.(camera := Some(Cameras.MakeCamera(nm, position, centerOfInterest, userUp, viewAngle, focalLength)))
  }

  /** Appends one point light and leaves the shapes and the camera alone. */
  function CreatePointlight(s: Scene, color: C.Rgb, location: Vec3): (r: Scene)
    ensures r.shapes == s.shapes && r.camera == s.camera
    ensures r.lights == s.lights + [M.Light(color, location)]
  {
    s.(lights := s.lights + [M.Light(color, location)])
  }

  /** One call of the scene's `create` operations for spheres, planes, squares,
      cameras and point lights; area lights are built by the AreaLights module. */
  datatype Command =
    | SphereCmd(x: real, y: real, z: real, radius: real, material: M.Material)
    | PlaneCmd(location: Vec3, normal: Vec3, material: M.Material)
    | SquareCmd(location: Vec3, normal: Vec3, material: M.Material, size: real)
    | CameraCmd(position: Vec3, centerOfInterest: Vec3, userUp: Vec3, viewAngle: real, focalLength: real)
    | PointlightCmd(color: C.Rgb, location: Vec3)

  function Apply(nm: MathLib, s: Scene, c: Command): Scene
  {
    match c
    case SphereCmd(x, y, z, radius, material) => CreateSphere(s, x, y, z, radius, material)
    case PlaneCmd(location, normal, material) => CreatePlane(nm, s, location, normal, material)
    case SquareCmd(location, normal, material, size) => CreateSquare(nm, s, location, normal, material, size)
    case CameraCmd(position, coi, up, angle, focal) =>
        CreatePerspCamera(nm, s, position, coi, up, angle, focal)
    case PointlightCmd(color, location) => CreatePointlight(s, color, location)
  }

  /** The scene after the calls `cs`, in order. */
  function Run(nm: MathLib, s: Scene, cs: seq<Command>): Scene
    decreases |cs|
  {
    if |cs| == 0 then s else Apply(nm, Run(nm, s, cs[..|cs| - 1]), cs[|cs| - 1])
  }

  /** The camera `getCamera` returns after the calls `cs`: the last one created,
      or the one before the calls if none was. */
  function LastCamera(nm: MathLib, before: Option<Cameras.Camera>, cs: seq<Command>): Option<Cameras.Camera>
    decreases |cs|
  {
    if |cs| == 0 then before
    else match cs[|cs| - 1]
      case CameraCmd(p, coi, up, angle, focal) => Some(Cameras.MakeCamera(nm, p, coi, up, angle, focal))
      case _ => LastCamera(nm, before, cs[..|cs| - 1])
  }

  /** Any sequence of create calls only appends: earlier shapes and lights keep
      their positions, the lists never shrink, and `getCamera` returns the
      camera created last. */
  lemma {:induction false} CreatesAppendOnly(nm: MathLib, s: Scene, cs: seq<Command>)
    ensures var t := Run(nm, s, cs);
            && |s.shapes| <= |t.shapes| && t.shapes[..|s.shapes|] == s.shapes
            && |s.lights| <= |t.lights| && t.lights[..|s.lights|] == s.lights
            && t.camera == LastCamera(nm, s.camera, cs)
    decreases |cs|
  {
    if |cs| > 0 {
      var u := Run(nm, s, cs[..|cs| - 1]);
      CreatesAppendOnly(nm, s, cs[..|cs| - 1]);
      var t := Apply(nm, u, cs[|cs| - 1]);
      assert t.shapes[..|u.shapes|] == u.shapes;
      assert t.lights[..|u.lights|] == u.lights;
      assert t.shapes[..|s.shapes|] == u.shapes[..|s.shapes|];
      assert t.lights[..|s.lights|] == u.lights[..|s.lights|];
    }
  }
}
