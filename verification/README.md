# A verified model of the VCG ray tracer's core

The ray tracer renders a scene of spheres, planes and squares. Each shape
carries a material: Lambert, Phong or Unlit. Point lights light the scene, and
area lights are expanded into many point lights. A perspective camera looks at
the scene.

For every pixel the renderer:

- sends an n x n grid of jittered rays through the viewplane (anti-aliasing);
- finds the closest shape each ray hits;
- follows mirrored rays on reflective shapes, up to a depth budget, and refracted rays on transmittive ones;
- shades the final hit point with the lights that no other shape hides from it (shadows);
- adds the samples' colours up, each divided by n².

This project models that core in Dafny:

| Module | File | Contents |
|---|---|---|
| `Colors` | `colors.dfy` | `RgbColor`, the clamped colour type |
| `Shapes` | `shapes.dfy` | The shapes and their ray tests; a test's side effect on the shape's point and normal fields is part of its result |
| `Intersections` | `intersections.dfy` | `Ray`, and `Intersection`, the record of one test |
| `Materials` | `materials.dfy` | Point lights and the three lighting models |
| `Cameras` | `cameras.dfy` | The perspective camera |
| `Scenes` | `scenes.dfy` | The append-only scene |
| `AreaLights` | `arealights.dfy` | The spiral expansion of an area light into point lights |
| `Tracer` | `tracer.dfy` | The closest-hit scan, reflection and refraction, the shadow test, and one pixel's colour |
| `Rendering` | `sampling.dfy` | The viewplane, the pixel-to-viewplane map, the Gaussian lists and arrays, and the per-pixel anti-aliasing loop |

Helper modules:

- `Options`: an `Option` type and sub-sequences.
- `Numerics`: the math library and products of reals.
- `Vectors`: 3-vectors, dot and cross products, length and normalize.

Numbers are mathematical reals. `Math.sqrt`, `Math.exp`, `Math.tan`, `Math.pow` and
`Math.PI` are fields of a `MathLib` value that each operation receives. Where a
proof needs it, `Numerics.Valid` states that `sqrt` is the non-negative
square root.

A few behaviours of the code are kept as written:

- The refracted ray is built from a start point and the transmitted direction. The `Ray` constructor takes that direction for an end point.
- A refracted ray is traced at the same recursion depth.
- A reflective shape whose depth budget is spent still refracts when it is transmittive, because the check for transmission is a separate `if`.
- A sphere takes the smaller root as soon as either root is non-negative, even when the smaller root is negative. Its 0.01 branch never selects a root.
- A negative Phong reflectivity counts as reflective.
- The x jitter accumulator of the sample loop is never reset, so every row of samples drifts by the whole list's sum.
- The area light moves its own location vector along the spiral.

In the renderer, the colour of a hit is computed from the shape's point and
normal fields. Those are the fields the winning test wrote, because:

- the returned intersection comes from the last scan;
- the shadow rays skip the shape itself.

The model therefore reads them from the intersection.

## Model

| member | source | states |
|---|---|---|
| Colors.Clamp | VCG_Raytracer/src/utils/RgbColor.java:83-91 | The result lies in [0, 1], and a value already in [0, 1] is kept unchanged |
| Colors.ClampNearest | VCG_Raytracer/src/utils/RgbColor.java:83-91 | Clamping picks the point of [0, 1] nearest to its argument |
| Colors.ClampMonotone | VCG_Raytracer/src/utils/RgbColor.java:83-91 | Clamping preserves order |
| Colors.Make | VCG_Raytracer/src/utils/RgbColor.java:29-33 | Every constructed colour is in range, and an in-range triple is stored exactly |
| Colors.Add | VCG_Raytracer/src/utils/RgbColor.java:61-63 | The sum of two colours satisfies the colour invariant (every channel in [0, 1]) |
| Colors.Sub | VCG_Raytracer/src/utils/RgbColor.java:57-59 | The difference of two colours satisfies the colour invariant |
| Colors.AddChannels | VCG_Raytracer/src/utils/RgbColor.java:41-47 | After the in-place add the receiver is still in range |
| Colors.SubChannels | VCG_Raytracer/src/utils/RgbColor.java:49-55 | After the in-place sub the receiver is still in range |
| Colors.MultRgb | VCG_Raytracer/src/utils/RgbColor.java:65-69 | The channel-wise product is in range |
| Colors.MultScalar | VCG_Raytracer/src/utils/RgbColor.java:71-73 | A scaled colour is in range |
| Colors.Divide | VCG_Raytracer/src/utils/RgbColor.java:102-108 | Dividing by a non-zero count gives an in-range colour |
| Colors.Square | VCG_Raytracer/src/utils/RgbColor.java:79-81 | The squared colour is in range |
| Colors.Equals | VCG_Raytracer/src/utils/RgbColor.java:98-100 | `equals` holds exactly when the two colours are the same colour |
| Colors.ByteOf | VCG_Raytracer/src/utils/RgbColor.java:75-77 | An in-range channel becomes floor(255 x), a value in [0, 255] |
| Colors.Unpack | VCG_Raytracer/src/utils/RgbColor.java:75-77 | The packing 0xRRGGBB is invertible: the bytes can be read back |
| Colors.GetRgbDecodes | VCG_Raytracer/src/utils/RgbColor.java:75-77 | `getRGB` of an in-range colour is a 24-bit value whose three bytes decode to floor(255 x) of red, green and blue |
| Colors.AddCommutative | VCG_Raytracer/src/utils/RgbColor.java:61-63 | Addition of colours is commutative |
| Colors.AddBlack | VCG_Raytracer/src/utils/RgbColor.java:61-63 | Black is neutral for addition on in-range colours |
| Colors.SubUndoesAdd | VCG_Raytracer/src/utils/RgbColor.java:57-63 | `sub` undoes `add` when the sum was not clamped |
| Colors.ChannelsAgree | VCG_Raytracer/src/utils/RgbColor.java:41-63 | The in-place add and sub agree with the colour-valued add and sub |
| Colors.AddGrows | VCG_Raytracer/src/utils/RgbColor.java:61-63 | Adding an in-range colour never darkens any channel |
| Colors.AddMonotone | VCG_Raytracer/src/utils/RgbColor.java:61-63 | Addition is monotone channel-wise |
| Colors.MultRgbBounded | VCG_Raytracer/src/utils/RgbColor.java:65-69 | Filtering one in-range colour by another brightens neither |
| Colors.MultRgbBlack | VCG_Raytracer/src/utils/RgbColor.java:65-69 | Black filtered by any in-range colour stays black |
| Colors.MultScalarNonPositive | VCG_Raytracer/src/utils/RgbColor.java:71-73 | A factor of zero or less gives black |
| Colors.DivideExact | VCG_Raytracer/src/utils/RgbColor.java:102-108 | Dividing an in-range colour by n >= 1 clamps nothing and never brightens |
| Colors.MultScalarReciprocal | VCG_Raytracer/src/utils/RgbColor.java:71-73 | Scaling by 1/n equals dividing by n |
| Colors.SquareDarkens | VCG_Raytracer/src/utils/RgbColor.java:79-81 | Squaring never brightens an in-range colour |
| Colors.EqualsReflexiveSymmetric | VCG_Raytracer/src/utils/RgbColor.java:98-100 | `equals` is reflexive and symmetric |
| Colors.SumShares | VCG_Raytracer/src/utils/RgbColor.java:102-108 | Adding k copies of a/n from black gives exactly k/n of a; no partial sum is clamped |
| Colors.SharesAddUp | VCG_Raytracer/src/utils/RgbColor.java:102-108 | n copies of a/n add up exactly to a |
| Intersections.MakeRay | VCG_Raytracer/src/raytracer/Ray.java:18-21 | The ray starts at the start point, and its direction is a scaling of end - start |
| Intersections.MakeRayUnit | VCG_Raytracer/src/raytracer/Ray.java:18-21 | A ray between two distinct points has a unit direction |
| Intersections.MakeIntersection | VCG_Raytracer/src/raytracer/Intersection.java:25-35 | It is a hit exactly when the distance is positive; a hit always has a written point and normal |
| Intersections.IntersectionRecordsTest | VCG_Raytracer/src/raytracer/Intersection.java:25-35 | The distance, point and normal recorded are those of the shape's single test |
| Shapes.MakePlane | VCG_Raytracer/src/scene/Plane.java:16-20 | The plane keeps its location and material, and its normal is a rescaling of the given one |
| Shapes.MakePlaneUnitNormal | VCG_Raytracer/src/scene/Plane.java:16-20 | A non-zero normal is stored with unit length |
| Shapes.MakeSquare | VCG_Raytracer/src/scene/Square.java:21-24 | A square keeps location, size and material, and normalizes its normal as a plane does |
| Shapes.PointAtAffine | VCG_Raytracer/src/scene/Shape.java:45-47 | The ray formula starts at the start point and is affine in the parameter |
| Shapes.TravelledDistance | VCG_Raytracer/src/scene/Shape.java:45-47 | The distance to the point at parameter t squares to t² \|D\|² |
| Shapes.SphereMiss | VCG_Raytracer/src/scene/Sphere.java:49-61 | With a non-positive discriminant the sphere reports 0 and writes neither field |
| Shapes.Vieta | VCG_Raytracer/src/scene/Sphere.java:88-89 | The two roots are ordered, sum to -b and multiply to c |
| Shapes.RootsSolve | VCG_Raytracer/src/scene/Sphere.java:88-89 | Each root solves t² + b t + c = 0 |
| Shapes.SmallerRootChosen | VCG_Raytracer/src/scene/Sphere.java:91-94 | If either root is non-negative, the smaller root is chosen, even a negative one |
| Shapes.BothNegativeNoRoot | VCG_Raytracer/src/scene/Sphere.java:95-102 | With both roots negative, the 0.01 test never selects a root |
| Shapes.SphereHitOnSurface | VCG_Raytracer/src/scene/Sphere.java:38-62 | For a unit direction, the written point lies on the sphere's surface |
| Shapes.OnSurfaceAt | VCG_Raytracer/src/scene/Sphere.java:47-48 | A root of the quadratic puts the point at distance radius from the centre |
| Shapes.SphereDistance | VCG_Raytracer/src/scene/Sphere.java:87-107 | The reported distance is non-negative, and its square is t² \|D\|² for the chosen t |
| Shapes.InsideHitBehind | VCG_Raytracer/src/scene/Sphere.java:87-107 | From inside the sphere, the point behind the start is chosen, at a positive distance |
| Shapes.SphereHitFields | VCG_Raytracer/src/scene/Sphere.java:54-59 | On a sphere hit, the point is written and the normal is the normalized offset from the centre |
| Shapes.PlaneIntersect | VCG_Raytracer/src/scene/Plane.java:29-49 | The plane's normal field is never changed by a test |
| Shapes.PlaneCull | VCG_Raytracer/src/scene/Plane.java:35-39 | A ray that is not against the normal misses and writes no point |
| Shapes.PlaneHitOnPlane | VCG_Raytracer/src/scene/Plane.java:39-46 | For a unit direction against the normal, the point written lies on the plane |
| Shapes.PlaneParameterSign | VCG_Raytracer/src/scene/Plane.java:41 | The parameter is positive exactly when the start is on the normal's side, and zero exactly on the plane |
| Shapes.PlaneDistance | VCG_Raytracer/src/scene/Plane.java:41-44 | The distance is \|t\| times the direction's length, and zero exactly when the start lies on the plane |
| Shapes.SquareResult | VCG_Raytracer/src/scene/Square.java:27-54 | A square reports 0 or exactly the plane's distance. A non-zero result needs a point strictly inside. A size <= 0 or a plane miss gives 0. The plane's point stays written either way |
| Shapes.SquareBorderExcluded | VCG_Raytracer/src/scene/Square.java:42-54 | Points at offset exactly ±size/2 are outside the square |
| Shapes.HitWritesFields | VCG_Raytracer/src/scene/Shape.java:23 | Any shape that reports a positive distance has written its point and has a normal |
| Materials.MaterialFlags | VCG_Raytracer/src/scene/Phong.java:26-29 | Lambert and Unlit keep the defaults. Phong is reflective exactly when its reflectivity is non-zero, negative included. A material is transmittive exactly when its index is positive |
| Materials.Positive | VCG_Raytracer/src/scene/Lambert.java:51-53 | A clamped cosine is non-negative, equal to the cosine or 0, and 0 for angles past 90 degrees |
| Materials.MirrorReflects | VCG_Raytracer/src/scene/Phong.java:55 | About a unit normal, 2(n.l)n - l keeps the normal component and the length of l |
| Materials.ReflectionIsMirror | VCG_Raytracer/src/scene/Phong.java:55-56 | Phong's reflection vector is a rescaling of that mirror image |
| Materials.Term | VCG_Raytracer/src/scene/Phong.java:45-79 | One light's contribution is an in-range colour |
| Materials.Direct | VCG_Raytracer/src/scene/Lambert.java:42-60 | The accumulated direct light is in range |
| Materials.GetColorInRange | VCG_Raytracer/src/scene/Phong.java:34-86 | A material whose colours are in range shades in range |
| Materials.NoLightsAmbientOnly | VCG_Raytracer/src/scene/Lambert.java:31-66 | Without lights, Lambert and Phong show ambient times diffusion colour |
| Materials.DirectAppend | VCG_Raytracer/src/scene/Phong.java:79 | The lights are accumulated in list order: one more light adds its term |
| Materials.AppendLightBrightens | VCG_Raytracer/src/scene/Phong.java:34-86 | Adding a light never darkens any channel |
| Materials.LambertBackLight | VCG_Raytracer/src/scene/Lambert.java:48-59 | A light behind a Lambert surface changes nothing |
| Materials.LambertViewIndependent | VCG_Raytracer/src/scene/Lambert.java:31-66 | Lambert's output does not depend on the view vector |
| Materials.DirectViewIndependent | VCG_Raytracer/src/scene/Lambert.java:42-60 | Lambert's direct light does not depend on the view vector |
| Materials.PhongBackLight | VCG_Raytracer/src/scene/Phong.java:51-79 | A light behind a Phong surface loses its diffuse part but keeps the specular part, computed from the unclamped cosine |
| Materials.UnlitConstant | VCG_Raytracer/src/scene/Unlit.java:22-24 | Unlit shows its colour whatever the point, normal, lights and view |
| Materials.DirectSubsequence | VCG_Raytracer/src/scene/Lambert.java:42-60 | The direct light of a sub-list of the lights is at most that of the whole list |
| Materials.FewerLightsDarker | VCG_Raytracer/src/scene/Phong.java:34-86 | Shading with a sub-list of the lights is never brighter than shading with all of them |
| Cameras.MakeCamera | VCG_Raytracer/src/raytracer/Camera.java:31-46 | The camera keeps its position, centre of interest, view angle and focal length |
| Cameras.CameraBasis | VCG_Raytracer/src/raytracer/Camera.java:38-45 | The view vector points at the centre of interest. Side is orthogonal to view, and up to both. The focal point is focal-length views in front |
| Cameras.DestinationAffine | VCG_Raytracer/src/raytracer/Camera.java:54-61 | Viewplane (0, 0) is the focal point, and the map is affine along side and up |
| Scenes.NewScene | VCG_Raytracer/src/scene/Scene.java:27-31 | A new scene has no shapes, no lights and no camera |
| Scenes.CreateSphere | VCG_Raytracer/src/scene/Scene.java:49-51 | Exactly the new sphere is appended; lights and camera are untouched |
| Scenes.CreatePlane | VCG_Raytracer/src/scene/Scene.java:59-61 | Exactly the new plane is appended; lights and camera are untouched |
| Scenes.CreateSquare | VCG_Raytracer/src/scene/Scene.java:70-72 | Exactly the new square is appended; lights and camera are untouched |
| Scenes.CreatePerspCamera | VCG_Raytracer/src/scene/Scene.java:82-92 | The camera is replaced; shapes and lights are untouched |
| Scenes.CreatePointlight | VCG_Raytracer/src/scene/Scene.java:99-101 | Exactly one light is appended; shapes and camera are untouched |
| Scenes.CreatesAppendOnly | VCG_Raytracer/src/scene/Scene.java:49-101 | For any sequence of the create calls of Scene.java:49-101 (sphere, plane, square, camera, point light), the shape and light lists only grow, earlier entries keep their positions, and `getCamera` returns the camera created last (or the earlier one if none was created); `createArealight` is covered by AreaLights.CreateArealight |
| AreaLights.LegStep | VCG_Raytracer/src/scene/AreaLight.java:57-60 | Each step of a spiral leg moves one cell in the direction the counter selects |
| AreaLights.LegsJoin | VCG_Raytracer/src/scene/AreaLight.java:49-67 | Each leg ends where the next begins, and the light numbers continue across legs and rings |
| AreaLights.IndexOfLeg | VCG_Raytracer/src/scene/AreaLight.java:47-68 | Every cell the walk reaches carries the number of the light placed there: the spiral is injective |
| AreaLights.MoveIsStep | VCG_Raytracer/src/scene/AreaLight.java:57-60 | The four-way move of the location is one grid step of 0.3 |
| AreaLights.LayoutExtends | VCG_Raytracer/src/scene/AreaLight.java:62 | A light on the next, adjacent cell extends the spiral layout |
| AreaLights.ShapeExtends | VCG_Raytracer/src/scene/AreaLight.java:62 | A light k steps into a leg keeps the walk's shape |
| AreaLights.LayoutStep | VCG_Raytracer/src/scene/AreaLight.java:52-62 | Each step of a leg lands on the next cell of the leg and keeps the layout |
| AreaLights.WalkStep | VCG_Raytracer/src/scene/AreaLight.java:54-62 | An emitted light keeps the loop's state: count, layout and the moved location |
| AreaLights.WalkOvershoot | VCG_Raytracer/src/scene/AreaLight.java:54-55 | Counting past `samples` emits nothing and keeps the state |
| AreaLights.NextLeg | VCG_Raytracer/src/scene/AreaLight.java:49-65 | After a leg, or after the break, the walk continues at the next leg |
| AreaLights.NextRing | VCG_Raytracer/src/scene/AreaLight.java:47-67 | After two legs the radius grows and the next ring begins |
| AreaLights.PlaceDistinct | VCG_Raytracer/src/scene/AreaLight.java:57-60 | Different cells are at different world positions |
| AreaLights.SpiralDistinct | VCG_Raytracer/src/scene/AreaLight.java:47-68 | No two lights of the expansion share a position |
| AreaLights.SpiralSteps | VCG_Raytracer/src/scene/AreaLight.java:57-62 | Consecutive lights are 0.3 apart along x or z |
| AreaLights.WalkLeg | VCG_Raytracer/src/scene/AreaLight.java:52-64 | One leg emits lights until the leg ends or `samples` is reached, keeping the loop's state |
| AreaLights.WalkRing | VCG_Raytracer/src/scene/AreaLight.java:49-67 | One ring walks two legs, turning a quarter after each, and always advances the count |
| AreaLights.WalkDone | VCG_Raytracer/src/scene/AreaLight.java:45-68 | When the loop ends, max(1, samples) lights of the sample colour have been appended, on distinct cells of the spiral at the start's height |
| AreaLights.CreateLights | VCG_Raytracer/src/scene/AreaLight.java:36-69 | Appends max(1, samples) lights coloured color/samples and keeps everything else. The first light is at the location, all at its height, pairwise distinct, stepping 0.3 around the spiral. The location ends at the last light |
| AreaLights.SampleColorsAddUp | VCG_Raytracer/src/scene/AreaLight.java:38 | For an in-range colour, the samples' colours add up exactly to the area light's colour |
| AreaLights.CreateArealight | VCG_Raytracer/src/scene/Scene.java:109 | The area light adds only its point lights, and does not join the scene itself. Their colours add up to its colour. The first light stands at the caller's location, and that location vector ends at the last light |
| Tracer.Closest | VCG_Raytracer/src/raytracer/Raytracer.java:240-262 | The scan's choice is a hit of the list |
| Tracer.ClosestIsFirstMinimum | VCG_Raytracer/src/raytracer/Raytracer.java:240-262 | The scan returns the first of the closest hits, and returns nothing exactly when no hit is nearer than 99999 |
| Tracer.FirstClosestUnique | VCG_Raytracer/src/raytracer/Raytracer.java:253-260 | The strict `<` makes the first closest hit the unique winner |
| Tracer.ClosestHit | VCG_Raytracer/src/raytracer/Raytracer.java:240-262 | The winning intersection is a hit with written fields, on a shape of the scene |
| Tracer.ReflectionLaw | VCG_Raytracer/src/raytracer/Raytracer.java:265-273 | The angle of reflection equals the angle of incidence, and the direction is unit. The new ray starts one direction off the point and heads along it |
| Tracer.SetupFacesIncident | VCG_Raytracer/src/raytracer/Raytracer.java:280-297 | After the sign fix the cosine is \|I.n\| >= 0 and the normal faces the incident side. Entering, n1/n2 = 1/ior; leaving, n1/n2 = ior |
| Tracer.EnteringHasRoot | VCG_Raytracer/src/raytracer/Raytracer.java:299-302 | Entering a medium of index >= 1 gives no total internal reflection: the root's argument is non-negative |
| Tracer.RefractedRayAimsAtDirection | VCG_Raytracer/src/raytracer/Raytracer.java:305-309 | The refracted ray starts 100 units along the incident-side normal from the hit, back toward the ray's origin, and aims at the transmitted direction read as a point |
| Tracer.Dispatch | VCG_Raytracer/src/raytracer/Raytracer.java:265-312 | A reflective hit within budget always reflects along the mirrored ray, even when it is also transmittive. Otherwise a transmittive hit refracts along the refracted ray. It stops exactly when there is no hit or neither case applies |
| Tracer.PrimaryRay | VCG_Raytracer/src/raytracer/Raytracer.java:236-313 | The depth never decreases, and never passes the budget when it starts within it. A returned hit is a written hit on a scene shape. An unfinished trace returns nothing |
| Tracer.FollowStep | VCG_Raytracer/src/raytracer/Raytracer.java:264-312 | With fuel left, a reflection continues one level deeper, a refraction continues at the same level unless it is a total internal reflection (which ends the trace with no hit), and a stop returns the scan's hit at the current depth |
| Tracer.RefractionKeepsDepth | VCG_Raytracer/src/raytracer/Raytracer.java:274-309 | Among shapes that do not reflect, any number of refractions leaves the depth where it started |
| Tracer.ReflectionAddsOne | VCG_Raytracer/src/raytracer/Raytracer.java:265-273 | A reflective hit within budget is traced on as the mirrored ray one level deeper |
| Tracer.PlainShapesNoRecursion | VCG_Raytracer/src/raytracer/Raytracer.java:240-262 | Without reflective or transmittive shapes, one scan decides: the first closest hit, or null exactly when nothing is nearer than 99999 |
| Tracer.NoBudgetNoReflection | VCG_Raytracer/src/raytracer/Raytracer.java:265 | With a budget of 0 and no transmittive shapes, a reflective hit is returned as it is |
| Tracer.MirrorsFinish | VCG_Raytracer/src/raytracer/Raytracer.java:265-273 | Without transmittive shapes, fuel maxDepth - depth always suffices: the trace completes after at most maxDepth - depth + 1 primary-ray evaluations, so the recursion bound holds even for mirrors facing each other |
| Tracer.MirrorStep | VCG_Raytracer/src/raytracer/Raytracer.java:264-273 | Among shapes that do not transmit, with fuel covering the remaining budget, one step either settles with a complete trace or reflects within the budget, with fuel left, into the mirrored ray's trace one level deeper |
| Tracer.TotalReflectionLosesRay | VCG_Raytracer/src/raytracer/Raytracer.java:298-309 | A refraction with a negative root argument (total internal reflection) ends the trace complete, at the same depth, with no hit, so the sample shows the background |
| Tracer.VisibleLightsFilter | VCG_Raytracer/src/raytracer/Raytracer.java:330-353 | The visible lights keep the scene's order, and a light is visible exactly when no other shape hits nearer than it |
| Tracer.ShadowsOnlyDarken | VCG_Raytracer/src/raytracer/Raytracer.java:320-361 | Shadows never brighten, and a well-formed material's shaded colour is in range |
| Tracer.UnlitIgnoresShadows | VCG_Raytracer/src/raytracer/Raytracer.java:356-358 | An Unlit surface shows its colour whatever hides the lights |
| Tracer.TracePixel | VCG_Raytracer/src/raytracer/Raytracer.java:133-139 | The sample's colour is the background when nothing is hit, and otherwise the shaded hit; a scene without shapes shows only the background |
| Tracer.TracePixelInRange | VCG_Raytracer/src/raytracer/Raytracer.java:133-139 | An in-range background and well-formed materials give an in-range sample |
| Rendering.ViewplaneAspect | VCG_Raytracer/src/raytracer/Raytracer.java:112-114 | The viewplane has the window's aspect ratio |
| Rendering.PixelCentre | VCG_Raytracer/src/raytracer/Raytracer.java:370-375 | The window's centre maps to the viewplane's centre |
| Rendering.PixelMonotone | VCG_Raytracer/src/raytracer/Raytracer.java:370-375 | Right in the window is right on the viewplane, and down in the window is down on the viewplane |
| Rendering.PixelRange | VCG_Raytracer/src/raytracer/Raytracer.java:370-375 | The window's pixel span covers exactly [-w/2, w/2] of the viewplane |
| Rendering.GaussEven | VCG_Raytracer/src/raytracer/Raytracer.java:201-206 | The density is symmetric about 0 |
| Rendering.PositionsSpan | VCG_Raytracer/src/raytracer/Raytracer.java:185-194 | The sample positions run from -3 to 3, stay within, and are symmetric |
| Rendering.GaussList | VCG_Raytracer/src/raytracer/Raytracer.java:185-194 | For n >= 0, entry i is the density at -3 + 6i/(n-1), for all n entries |
| Rendering.GaussListSymmetric | VCG_Raytracer/src/raytracer/Raytracer.java:185-194 | The list reads the same from both ends |
| Rendering.RingsCover | VCG_Raytracer/src/raytracer/Raytracer.java:161 | The n/2 rounds cover every cell except the centre of an odd array |
| Rendering.RingSides | VCG_Raytracer/src/raytracer/Raytracer.java:163-174 | A cell lies on ring i exactly when it lies on one of the four sides round i walks |
| Rendering.PaintBottom | VCG_Raytracer/src/raytracer/Raytracer.java:163-165 | The bottom loop writes ring i's weight along the bottom side and nothing else |
| Rendering.PaintRight | VCG_Raytracer/src/raytracer/Raytracer.java:166-168 | The right loop writes ring i's weight along the right side and nothing else |
| Rendering.PaintTop | VCG_Raytracer/src/raytracer/Raytracer.java:169-171 | The top loop writes ring i's weight along the top side and nothing else |
| Rendering.PaintLeft | VCG_Raytracer/src/raytracer/Raytracer.java:172-174 | The left loop completes ring i |
| Rendering.GaussArray | VCG_Raytracer/src/raytracer/Raytracer.java:158-178 | Each cell holds the weight gl[ring] of its ring, for rings below n/2, and 0 at an odd array's centre |
| Rendering.XRowDrift | VCG_Raytracer/src/raytracer/Raytracer.java:127-131 | Row r of samples is shifted right by r times the jitter list's sum |
| Rendering.RowPoints | VCG_Raytracer/src/raytracer/Raytracer.java:129-131 | One row's n sample positions, with the x accumulator advanced by the list's sum |
| Rendering.AddSamples | VCG_Raytracer/src/raytracer/Raytracer.java:133-146 | The colour accumulated is the clamped running sum of the samples' contributions in order |
| Rendering.SamplePoints | VCG_Raytracer/src/raytracer/Raytracer.java:123-131 | The n x n sample positions of a pixel, row r at y + gl[0..r], with the x jitter running on |
| Rendering.RenderPixel | VCG_Raytracer/src/raytracer/Raytracer.java:123-146 | The pixel's colour is the clamped sum, in row order, of each sample's colour divided by n² |
| Rendering.ConstantPixel | VCG_Raytracer/src/raytracer/Raytracer.java:141-146 | If all samples show the same in-range colour, so does the pixel: n² contributions of c/n² add up to c |
| Rendering.EmptySceneShowsBackground | VCG_Raytracer/src/raytracer/Raytracer.java:133-146 | In a scene without shapes and with an in-range background colour, every pixel's sum of n² sample contributions is exactly the background colour, wherever the samples fall |

## Left out

- Window output: `setPixel`, `exportRendering`, timing and logging are not modelled. The `System.out.println` of AreaLight.java:63 is not modelled either. None of these affects a computed value.
- `Main.java` is not part of this model. It only builds a demo scene.
- The outer loops over all pixels (Raytracer.java:120-121) are not modelled. `Rendering.RenderPixel` models the work for one pixel.
- `PerspCam` is folded into `Cameras.Camera`, because it adds nothing to the constructor.
- The camera getters are plain fields.
- `Ray.calculateRayAt` returns null and is never called.
- `Shape.getColor` is not modelled separately. It forwards the shape's own point and normal to the material, and those are the intersection's (see above).
- `Vec3`, `Vec2` and `Matrix4x4` are not part of this model. Vectors are real triples. A translation matrix and its inverse become adding and subtracting the location.
- `Vectors.Normalize` of the zero vector returns the zero vector, which stands in for Java's NaN.
- Float rounding is not modelled: every number is a real. `Math.pow(x, 2)` is written x·x.
- `Math.sqrt`, `Math.exp`, `Math.tan`, `Math.pow` and `Math.PI` are parameters. Only the law of `sqrt` is assumed where it is needed. The exact Gaussian values are therefore not computed.
- The sphere re-transforms a stale point left by an earlier call when the current call wrote none. `Shapes.SphereIntersect` reports that field as `None`, "not written by this call". Stale values from earlier tests are not tracked.
- `Tracer.PrimaryRay`: a `fuel` bound is added. The source's refraction is a real nested call (`return primaryRay(...)`, Raytracer.java:309) with no depth bound, and the JVM does not eliminate tail calls. An unbounded chain of refractions therefore ends in a StackOverflowError, which nothing catches, so the whole render aborts and no image is written. The model instead reports a trace that runs out of fuel as incomplete, and that sample renders as the background. The difference is: background for that sample instead of a StackOverflowError. The nested call that scans the NaN ray after a total internal reflection is not charged to the fuel, because it always returns at once.
- The `closestShape != null` test in `secondaryRays` is always true for a hit, so only that branch is modelled.
- `AreaLights.CreateLights` and `AreaLights.CreateArealight` require `samples != 0`. With 0 the source's float division `1f/samples` gives +Infinity and throws nothing. The walk still appends one light. Its colour comes from `multScalar`, whose constructor clamps each channel (RgbColor.java:35-39, 83-91): a channel above 0 times +Infinity clamps to 1, and a channel of 0 times +Infinity is NaN, which passes neither clamp test and stays NaN. Reals cannot represent NaN.
- `Rendering.NormalizePixel` and `Rendering.ViewplaneSize` require a window of at least one pixel in each direction. The source divides by the width and height as floats; with 0 it produces Infinity or NaN coordinates instead of failing, and reals cannot represent those.
- `Rendering.GaussList` and `Rendering.GaussArray` require n >= 0. For a negative sample count the source throws NegativeArraySizeException at `new float[size]` and `new float[n][n]` (Raytracer.java:160, 186), before any pixel is rendered; the model has no such error path.
- `Rendering.GaussList` uses n both for the length and for the step 6/(n - 1). The source takes the step from the field `mAntiAliasingSamples` rather than its `size` parameter (Raytracer.java:188). Both call sites pass that field, so the two agree.
- `Rendering.GaussList` with n == 1: the source's step 6/0 is infinite but never used; the single entry is the density at -3.
- The array `getGaussArray` builds is not used by the render loop, whose weighting is commented out. It is modelled on its own.
- `Rendering.RenderPixel` computes the sample positions first and then adds the colours in the same order. The source interleaves the two. The result is the same, because a sample's colour depends only on its position.
- `Tracer.NoBudgetNoReflection` only covers a depth budget of 0 or less. With a larger budget, `Tracer.FollowStep` and `Tracer.ReflectionAddsOne` state how each reflection is followed one level deeper, and `Tracer.RefractionKeepsDepth` states that refractions keep the depth.
- `Materials.Term` and `Materials.Direct` only state that the colour is in range. How the terms combine is stated by `Materials.DirectAppend`, `Materials.PhongBackLight` and `Materials.LambertBackLight`.
