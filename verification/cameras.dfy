/** The perspective camera: an orthogonal basis (view, side, up) built from the
    position, the centre of interest and the user's up vector, a focal point in
    front of the position, and the map from viewplane coordinates to world points. */
module Cameras {
  import opened Numerics
  import opened Vectors

  datatype Camera = Camera(
    position: Vec3,
    centerOfInterest: Vec3,
    userUp: Vec3,
    viewAngle: real,
    focalLength: real,
    view: Vec3,
    side: Vec3,
    up: Vec3,
    focalPoint: Vec3)

  /** The camera constructor. */
  function MakeCamera(nm: MathLib, position: Vec3, centerOfInterest: Vec3, userUp: Vec3,
                      viewAngle: real, focalLength: real): (c: Camera)
    ensures c.position == position && c.centerOfInterest == centerOfInterest
    ensures c.viewAngle == viewAngle && c.focalLength == focalLength
  {
    var u := Normalize(nm, userUp);
    var view := Normalize(nm, Sub(centerOfInterest, position));
    var side := Normalize(nm, Cross(view, u));
    var up := Normalize(nm, Cross(side, view));
    Camera(position, centerOfInterest, u, viewAngle, focalLength, view, side, up,
           Add(position, Scale(view, focalLength)))
  }

  /** The view vector points from the position towards the centre of interest
      (up to the scaling normalize applies); side is orthogonal to view, and up
      to both, whatever scaling normalize applies; the focal point lies
      focal-length view vectors in front of the position. */
  lemma CameraBasis(nm: MathLib, position: Vec3, centerOfInterest: Vec3, userUp: Vec3,
                    viewAngle: real, focalLength: real)
    ensures var c := MakeCamera(nm, position, centerOfInterest, userUp, viewAngle, focalLength);
            && (exists k: real :: c.view == Scale(Sub(centerOfInterest, position), k))
            && Dot(c.side, c.view) == 0.0
            && Dot(c.up, c.side) == 0.0
            && Dot(c.up, c.view) == 0.0
            && c.focalPoint == Add(position, Scale(c.view, focalLength))
  {
    var c := MakeCamera(nm, position, centerOfInterest, userUp, viewAngle, focalLength);
    NormalizeIsScaling(nm, Sub(centerOfInterest, position));
    NormalizeIsScaling(nm, Cross(c.view, c.userUp));
    var ks :| c.side == Scale(Cross(c.view, c.userUp), ks);
    CrossOrthogonal(c.view, c.userUp, ks);
    NormalizeIsScaling(nm, Cross(c.side, c.view));
    var ku :| c.up == Scale(Cross(c.side, c.view), ku);
    CrossOrthogonal(c.side, c.view, ku);
  }

  /** `calculateDestinationPoint`: the world point of viewplane coordinates (x, y). */
  function DestinationPoint(c: Camera, x: real, y: real): Vec3
  {
    Add(Add(c.focalPoint, Scale(c.side, x)), Scale(c.up, y))
  }

  /** The viewplane origin is the focal point, and the map is affine: moving by
      (dx, dy) on the viewplane moves dx sides and dy ups in the world. */
  lemma DestinationAffine(c: Camera, x1: real, y1: real, x2: real, y2: real)
    ensures DestinationPoint(c, 0.0, 0.0) == c.focalPoint
    ensures Sub(DestinationPoint(c, x1, y1), DestinationPoint(c, x2, y2))
         == Add(Scale(c.side, x1 - x2), Scale(c.up, y1 - y2))
  {
    assert c.side.x * x1 - c.side.x * x2 == c.side.x * (x1 - x2);
    assert c.side.y * x1 - c.side.y * x2 == c.side.y * (x1 - x2);
    assert c.side.z * x1 - c.side.z * x2 == c.side.z * (x1 - x2);
    assert c.up.x * y1 - c.up.x * y2 == c.up.x * (y1 - y2);
    assert c.up.y * y1 - c.up.y * y2 == c.up.y * (y1 - y2);
    assert c.up.z * y1 - c.up.z * y2 == c.up.z * (y1 - y2);
  }
}
