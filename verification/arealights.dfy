/** The area light: expanded into point lights laid out on a square spiral
    in the horizontal plane through its location, 0.3 apart, each carrying an
    equal share of its colour. The area light itself never joins the scene. */
module AreaLights {
  import opened Numerics
  import opened Vectors
  import C = Colors
  import M = Materials
  import Scenes

  /** The spacing of the spiral. */
  const Spacing: real := 0.3

  /** A grid cell (x, z) of the spiral, counted in spacings from the start. */
  type Cell = (int, int)

  /** The world position of a cell: the start moved along x and z, height kept. */
  function Place(base: Vec3, c: Cell): Vec3
  {
    Vec3(base.x + Spacing * (c.0 as real), base.y, base.z + Spacing * (c.1 as real))
  }

  /** Two cells one step apart along x or along z. */
  predicate Adjacent(a: Cell, b: Cell)
  {
    (a.1 == b.1 && (b.0 == a.0 + 1 || b.0 == a.0 - 1)) || (a.0 == b.0 && (b.1 == a.1 + 1 || b.1 == a.1 - 1))
  }

  /** The number of lights placed before ring r (ring r has two legs of r steps). */
  function RingStart(r: int): int
    decreases r
  {
    if r <= 1 then 0 else RingStart(r - 1) + 2 * (r - 1)
  }

  /** The light number reached after k steps of leg `leg` (0 or 1) of ring r;
      leg 2 of ring r is leg 0 of ring r + 1. */
  function LegIndex(r: int, leg: int, k: int): int
  {
    RingStart(r) + (if leg == 0 then 0 else if leg == 1 then r else 2 * r) + k
  }

  /** The cell reached after k steps of leg `leg` of ring r. Odd rings walk +x then
      +z, even rings -x then -z; leg 2 of ring r is leg 0 of ring r + 1. */
  function LegPoint(r: int, leg: int, k: int): Cell
  {
    var r' := if leg == 2 then r + 1 else r;
    var leg' := if leg == 2 then 0 else leg;
    var q := r' / 2;
    if r' % 2 == 1 then (if leg' == 0 then (-q + k, -q) else (q + 1, -q + k))
    else (if leg' == 0 then (q - k, q) else (-q, q - k))
  }

  /** The step direction counter of leg `leg` in ring r, as the source keeps it. */
  function Direction(r: int, leg: int): int { 2 * r - 1 + leg }

  /** The cell after one step in the direction the counter selects:
      1 is +x, 2 is +z, 3 is -x, 0 is -z (modulo 4). */
  function Step(c: Cell, direction: int): Cell
  {
    if direction % 4 == 1 then (c.0 + 1, c.1)
    else if direction % 4 == 2 then (c.0, c.1 + 1)
    else if direction % 4 == 3 then (c.0 - 1, c.1)
    else (c.0, c.1 - 1)
  }

  /** One step along a leg is one step in the leg's direction. */
  lemma LegStep(r: int, leg: int, k: int)
    requires r >= 1 && 0 <= leg <= 1
    ensures LegPoint(r, leg, k + 1) == Step(LegPoint(r, leg, k), Direction(r, leg))
  {
    var q := r / 2;
    var d := Direction(r, leg);
    var c := LegPoint(r, leg, k);
    if r % 2 == 1 {
      assert d == 4 * q + 1 + leg;
      if leg == 0 {
        assert d % 4 == 1;
        assert c == (-q + k, -q) && LegPoint(r, leg, k + 1) == (-q + k + 1, -q);
      } else {
        assert d % 4 == 2;
        assert c == (q + 1, -q + k) && LegPoint(r, leg, k + 1) == (q + 1, -q + k + 1);
      }
    } else {
      assert d == 4 * (q - 1) + 3 + leg;
      if leg == 0 {
        assert d % 4 == 3;
        assert c == (q - k, q) && LegPoint(r, leg, k + 1) == (q - k - 1, q);
      } else {
        assert d % 4 == 0;
        assert c == (-q, q - k) && LegPoint(r, leg, k + 1) == (-q, q - k - 1);
      }
    }
  }

  /** A leg ends where the next one starts. */
  lemma LegsJoin(r: int)
    requires r >= 1
    ensures LegPoint(r, 0, r) == LegPoint(r, 1, 0)
    ensures LegPoint(r, 1, r) == LegPoint(r, 2, 0)
    ensures LegIndex(r, 1, r) == LegIndex(r, 2, 0) == LegIndex(r + 1, 0, 0)
  {
    var q := r / 2;
    if r % 2 == 1 {
      assert r == 2 * q + 1;
      assert (r + 1) / 2 == q + 1;
    } else {
      assert r == 2 * q;
      assert (r + 1) / 2 == q;
    }
  }

  /** The light number of a cell on the spiral: the inverse of the walk. */
  function Index(c: Cell): int
  {
    var (x, z) := c;
    if z <= 0 && z + 1 <= x <= 1 - z then RingStart(1 - 2 * z) + x - z
    else if x >= 1 && 2 - x <= z <= x then RingStart(2 * x - 1) + 3 * x + z - 2
    else if z >= 1 && -z <= x <= z - 1 then RingStart(2 * z) + z - x
    else if x <= -1 && x <= z <= -x - 1 then RingStart(-2 * x) - 3 * x - z
    else 0
  }

  /** Every cell the walk reaches after at least one step of a leg carries the
      number of the light placed there. */
  lemma IndexOfLeg(r: int, leg: int, k: int)
    requires r >= 1 && 0 <= leg <= 1 && 1 <= k <= r
    ensures Index(LegPoint(r, leg, k)) == LegIndex(r, leg, k)
  {
    var q := r / 2;
    if r % 2 == 1 {
      assert r == 2 * q + 1;
      if leg == 0 {
        assert 1 - 2 * (-q) == r;
      } else {
        assert 2 * (q + 1) - 1 == r;
      }
    } else {
      assert r == 2 * q;
      if leg == 0 {
        assert 2 * q == r;
      } else {
        assert -2 * (-q) == r;
      }
    }
  }

  /** The number of point lights the expansion creates: the first one always,
      and up to `samples` in all. */
  function LightCount(samples: int): int
  {
    if samples >= 1 then samples else 1
  }

  /** The four-way move of the source: the direction counter modulo 4 selects
      +x, +z, -x or -z. */
  function Move(v: Vec3, direction: int): Vec3
  {
    if direction % 4 == 1 then v.(x := v.x + Spacing)
    else if direction % 4 == 2 then v.(z := v.z + Spacing)
    else if direction % 4 == 3 then v.(x := v.x - Spacing)
    else v.(z := v.z - Spacing)
  }

  /** Moving the position of a cell is the position of the stepped cell. */
  lemma MoveIsStep(base: Vec3, c: Cell, direction: int)
    ensures Move(Place(base, c), direction) == Place(base, Step(c, direction))
  {
  }

  /** Two positions 0.3 apart along x or along z, at the same height. */
  predicate StepApart(a: Vec3, b: Vec3)
  {
    && a.y == b.y
    && ((a.z == b.z && (b.x == a.x + Spacing || b.x == a.x - Spacing))
        || (a.x == b.x && (b.z == a.z + Spacing || b.z == a.z - Spacing)))
  }

  /** The lights stand on the cells `cells`, in order: the first at the start, each
      numbered as `Index` says, each next to the one before. */
  ghost predicate SpiralLayout(base: Vec3, color: C.Rgb, lights: seq<M.Light>, cells: seq<Cell>)
  {
    && |lights| == |cells| && |cells| >= 1
    && cells[0] == (0, 0)
    && (forall j :: 0 <= j < |cells| ==> lights[j] == M.Light(color, Place(base, cells[j])))
    && (forall j :: 0 <= j < |cells| ==> Index(cells[j]) == j)
    && (forall j :: 1 <= j < |cells| ==> Adjacent(cells[j - 1], cells[j]))
  }

  /** Light number j stands at `p`, k steps into leg `leg` of ring r, for some r, leg and k. */
  ghost predicate OnLeg(base: Vec3, j: int, p: Vec3)
  {
    exists r, leg, k :: 1 <= r && 0 <= leg <= 1 && 1 <= k <= r && j == LegIndex(r, leg, k)
      && p == Place(base, LegPoint(r, leg, k))
  }

  /** Every light after the first sits on some leg of the spiral, at its number. */
  ghost predicate WalkShape(base: Vec3, lights: seq<M.Light>)
  {
    forall j :: 1 <= j < |lights| ==> OnLeg(base, j, lights[j].location)
  }

  /** The state of the walk at the head of the innermost loop: `iSample` lights
      are placed (or all of them, once `iSample` passed `samples`), the last one
      where `moved` is, on the cell k = i1 steps into leg `leg` of ring `radius`. */
  ghost predicate Walked(scene: Scenes.Scene, base: Vec3, color: C.Rgb, samples: int, s: Scenes.Scene,
                         moved: Vec3,
                         iSample: int, radius: int, leg: int, i1: int, added: seq<M.Light>, cells: seq<Cell>)
  {
    && s.shapes == scene.shapes && s.camera == scene.camera && s.lights == scene.lights + added
    && SpiralLayout(base, color, added, cells) && WalkShape(base, added)
    && moved == added[|added| - 1].location
    && 1 <= radius && 0 <= leg <= 2 && 0 <= i1 <= radius && iSample >= 1
    && (iSample <= samples ==> |added| == iSample && iSample == 1 + LegIndex(radius, leg, i1)
                               && cells[|cells| - 1] == LegPoint(radius, leg, i1))
    && (iSample > samples ==> |added| == LightCount(samples))
  }

  /** Placing a light on a new cell, numbered next and adjacent to the last,
      keeps the layout. */
  lemma LayoutExtends(base: Vec3, color: C.Rgb, lights: seq<M.Light>, cells: seq<Cell>, cell: Cell)
    requires SpiralLayout(base, color, lights, cells)
    requires Index(cell) == |cells| && Adjacent(cells[|cells| - 1], cell)
    ensures SpiralLayout(base, color, lights + [M.Light(color, Place(base, cell))], cells + [cell])
  {
    var lights' := lights + [M.Light(color, Place(base, cell))];
    var cells' := cells + [cell];
    assert forall j :: 0 <= j < |cells| ==> cells'[j] == cells[j] && lights'[j] == lights[j];
  }

  /** Placing the next light k steps into a leg keeps the walk's shape. */
  lemma ShapeExtends(base: Vec3, lights: seq<M.Light>, light: M.Light, ring: int, side: int, steps: int)
    requires WalkShape(base, lights)
    requires 1 <= ring && 0 <= side <= 1 && 1 <= steps <= ring && |lights| == LegIndex(ring, side, steps)
    requires light.location == Place(base, LegPoint(ring, side, steps))
    ensures WalkShape(base, lights + [light])
  {
    var lights' := lights + [light];
    forall j | 1 <= j < |lights'|
      ensures OnLeg(base, j, lights'[j].location)
    {
      if j == |lights| {
        assert lights'[j] == light;
        assert j == LegIndex(ring, side, steps)
          && lights'[j].location == Place(base, LegPoint(ring, side, steps));
      } else {
        assert lights'[j] == lights[j];
      }
    }
  }

  /** The light of the next cell of a leg extends the layout and the walk's shape. */
  lemma LayoutStep(base: Vec3, color: C.Rgb, added: seq<M.Light>, cells: seq<Cell>, moved: Vec3,
                   radius: int, leg: int, i1: int)
    requires SpiralLayout(base, color, added, cells) && WalkShape(base, added)
    requires moved == added[|added| - 1].location
    requires 1 <= radius && 0 <= leg <= 1 && 0 <= i1 < radius
    requires |added| == 1 + LegIndex(radius, leg, i1) && cells[|cells| - 1] == LegPoint(radius, leg, i1)
    ensures var cell := Step(cells[|cells| - 1], Direction(radius, leg));
            var moved' := Move(moved, Direction(radius, leg));
            && cell == LegPoint(radius, leg, i1 + 1)
            && SpiralLayout(base, color, added + [M.Light(color, moved')], cells + [cell])
            && WalkShape(base, added + [M.Light(color, moved')])
  {
    var last := cells[|cells| - 1];
    var cell := Step(last, Direction(radius, leg));
    var moved' := Move(moved, Direction(radius, leg));
    assert moved == Place(base, last);
    MoveIsStep(base, last, Direction(radius, leg));
    LegStep(radius, leg, i1);
    IndexOfLeg(radius, leg, i1 + 1);
    LayoutExtends(base, color, added, cells, cell);
    ShapeExtends(base, added, M.Light(color, moved'), radius, leg, i1 + 1);
  }

  /** Placing the light of the next cell of a leg keeps the walk's state. */
  lemma WalkStep(scene: Scenes.Scene, base: Vec3, color: C.Rgb, samples: int, s: Scenes.Scene, moved: Vec3,
                 iSample: int, radius: int, leg: int, i1: int, added: seq<M.Light>, cells: seq<Cell>)
    requires Walked(scene, base, color, samples, s, moved, iSample, radius, leg, i1, added, cells)
    requires leg <= 1 && i1 < radius && iSample + 1 <= samples
    ensures var cell := Step(cells[|cells| - 1], Direction(radius, leg));
            var moved' := Move(moved, Direction(radius, leg));
            Walked(scene, base, color, samples, Scenes.CreatePointlight(s, color, moved'), moved',
                   iSample + 1, radius, leg, i1 + 1, added + [M.Light(color, moved')], cells + [cell])
  {
    var moved' := Move(moved, Direction(radius, leg));
    LayoutStep(base, color, added, cells, moved, radius, leg, i1);
    assert (scene.lights + added) + [M.Light(color, moved')]
        == scene.lights + (added + [M.Light(color, moved')]);
  }

  /** Counting past `samples` once all lights are placed keeps the walk's state. */
  lemma WalkOvershoot(scene: Scenes.Scene, base: Vec3, color: C.Rgb, samples: int, s: Scenes.Scene,
                      moved: Vec3,
                      iSample: int, radius: int, leg: int, i1: int, added: seq<M.Light>, cells: seq<Cell>)
    requires Walked(scene, base, color, samples, s, moved, iSample, radius, leg, i1, added, cells)
    requires iSample + 1 > samples
    ensures Walked(scene, base, color, samples, s, moved, iSample + 1, radius, leg, i1, added, cells)
  {
  }

  /** A leg ends where the next starts, and once all lights are placed any leg will do. */
  lemma NextLeg(scene: Scenes.Scene, base: Vec3, color: C.Rgb, samples: int, s: Scenes.Scene, moved: Vec3,
                iSample: int, radius: int, leg: int, i1: int, added: seq<M.Light>, cells: seq<Cell>)
    requires Walked(scene, base, color, samples, s, moved, iSample, radius, leg, i1, added, cells)
    requires leg <= 1 && (iSample > samples || i1 == radius)
    ensures Walked(scene, base, color, samples, s, moved, iSample, radius, leg + 1, 0, added, cells)
  {
    LegsJoin(radius);
  }

  /** The end of a ring is the start of the next. */
  lemma NextRing(scene: Scenes.Scene, base: Vec3, color: C.Rgb, samples: int, s: Scenes.Scene, moved: Vec3,
                 iSample: int, radius: int, added: seq<M.Light>, cells: seq<Cell>)
    requires Walked(scene, base, color, samples, s, moved, iSample, radius, 2, 0, added, cells)
    ensures Walked(scene, base, color, samples, s, moved, iSample, radius + 1, 0, 0, added, cells)
  {
    LegsJoin(radius);
  }

  /** Different cells are different places. */
  lemma PlaceDistinct(base: Vec3, a: Cell, b: Cell)
    requires a != b
    ensures Place(base, a) != Place(base, b)
  {
  }

  /** Lights with different numbers stand at different places. */
  lemma SpiralDistinct(base: Vec3, color: C.Rgb, lights: seq<M.Light>, cells: seq<Cell>)
    requires SpiralLayout(base, color, lights, cells)
    ensures forall j1, j2 :: 0 <= j1 < j2 < |lights| ==> lights[j1].location != lights[j2].location
  {
    forall j1, j2 | 0 <= j1 < j2 < |lights|
      ensures lights[j1].location != lights[j2].location
    {
      assert Index(cells[j1]) != Index(cells[j2]);
      PlaceDistinct(base, cells[j1], cells[j2]);
    }
  }

  /** Consecutive lights stand 0.3 apart along x or z. */
  lemma SpiralSteps(base: Vec3, color: C.Rgb, lights: seq<M.Light>, cells: seq<Cell>)
    requires SpiralLayout(base, color, lights, cells)
    ensures forall j :: 1 <= j < |lights| ==> StepApart(lights[j - 1].location, lights[j].location)
  {
    forall j | 1 <= j < |lights|
      ensures StepApart(lights[j - 1].location, lights[j].location)
    {
      assert Adjacent(cells[j - 1], cells[j]);
    }
  }

  /** The lights the expansion appends to a scene. */
  function Added(before: Scenes.Scene, after: Scenes.Scene): seq<M.Light>
    requires |before.lights| <= |after.lights|
  {
    after.lights[|before.lights|..]
  }

  /** The colours of a list of lights, in order. */
  function LightColors(lights: seq<M.Light>): (cs: seq<C.Rgb>)
    ensures |cs| == |lights| && forall j :: 0 <= j < |lights| ==> cs[j] == lights[j].color
  {
    seq(|lights|, j requires 0 <= j < |lights| => lights[j].color)
  }

  /** One leg of the spiral walk in `createLights`: up to `radius` steps in
      `direction`, emitting a light after each, stopping early once `samples`
      lights exist. */
  method WalkLeg(scene: Scenes.Scene, location: Vec3, sampleColor: C.Rgb, samples: int,
                 s0: Scenes.Scene, moved0: Vec3, iSample0: int, radius: int, leg: int, direction: int,
                 ghost added0: seq<M.Light>, ghost cells0: seq<Cell>)
    returns (s: Scenes.Scene, moved: Vec3, iSample: int, ghost added: seq<M.Light>, ghost cells: seq<Cell>)
    requires Walked(scene, location, sampleColor, samples, s0, moved0,
      iSample0, radius, leg, 0, added0, cells0)
    requires leg <= 1 && direction == Direction(radius, leg)
    ensures Walked(scene, location, sampleColor, samples, s, moved, iSample, radius, leg + 1, 0, added, cells)
    ensures iSample > iSample0
  {
    s, moved, iSample, added, cells := s0, moved0, iSample0, added0, cells0;
    var i1 := 0;
    while i1 < radius
      invariant Walked(scene, location, sampleColor, samples, s, moved,
        iSample, radius, leg, i1, added, cells)
      invariant iSample >= iSample0 + (if i1 > 0 then 1 else 0)
    {
      if iSample + 1 <= samples {
        WalkStep(scene, location, sampleColor, samples, s, moved, iSample, radius, leg, i1, added, cells);
      } else {
        WalkOvershoot(scene, location, sampleColor, samples, s, moved,
          iSample, radius, leg, i1, added, cells);
      }
      iSample := iSample + 1;
      if iSample > samples {
        break;
      }
      moved := Move(moved, direction);
      s := Scenes.CreatePointlight(s, sampleColor, moved);
      added := added + [M.Light(sampleColor, moved)];
      cells := cells + [Step(cells[|cells| - 1], direction)];
      i1 := i1 + 1;
    }
    NextLeg(scene, location, sampleColor, samples, s, moved, iSample, radius, leg, i1, added, cells);
  }

  /** One ring of the spiral walk in `createLights`: its two legs, the second
      turning a quarter after the first. */
  method WalkRing(scene: Scenes.Scene, location: Vec3, sampleColor: C.Rgb, samples: int,
                  s0: Scenes.Scene, moved0: Vec3, iSample0: int, radius: int, direction0: int,
                  ghost added0: seq<M.Light>, ghost cells0: seq<Cell>)
    returns (s: Scenes.Scene, moved: Vec3, iSample: int, direction: int,
             ghost added: seq<M.Light>, ghost cells: seq<Cell>)
    requires Walked(scene, location, sampleColor, samples, s0, moved0, iSample0, radius, 0, 0, added0, cells0)
    requires direction0 == Direction(radius, 0)
    ensures Walked(scene, location, sampleColor, samples, s, moved, iSample, radius + 1, 0, 0, added, cells)
    ensures direction == Direction(radius + 1, 0) && iSample > iSample0
  {
    s, moved, iSample, direction, added, cells := s0, moved0, iSample0, direction0, added0, cells0;
    var leg := 0;
    while leg < 2
      invariant Walked(scene, location, sampleColor, samples, s, moved, iSample, radius, leg, 0, added, cells)
      invariant direction == Direction(radius, leg)
      invariant iSample >= iSample0 + leg
    {
      s, moved, iSample, added, cells :=
        WalkLeg(scene, location, sampleColor, samples, s, moved,
          iSample, radius, leg, direction, added, cells);
      direction := direction + 1;
      leg := leg + 1;
    }
    NextRing(scene, location, sampleColor, samples, s, moved, iSample, radius, added, cells);
  }

  /** Once the count reaches `samples`, the walk has appended max(1, samples)
      lights of the sample colour to the scene, laid out on the spiral. */
  lemma WalkDone(scene: Scenes.Scene, location: Vec3, sampleColor: C.Rgb, samples: int, s: Scenes.Scene,
                 moved: Vec3, iSample: int, radius: int, added: seq<M.Light>, cells: seq<Cell>)
    requires Walked(scene, location, sampleColor, samples, s, moved, iSample, radius, 0, 0, added, cells)
    requires iSample >= samples
    ensures s.shapes == scene.shapes && s.camera == scene.camera
    ensures |s.lights| == |scene.lights| + LightCount(samples)
    ensures s.lights[..|scene.lights|] == scene.lights
    ensures Added(scene, s) == added
    ensures added[0].location == location && moved == added[|added| - 1].location
    ensures forall j :: 0 <= j < |added| ==> added[j].color == sampleColor
    ensures forall j :: 0 <= j < |added| ==> added[j].location.y == location.y
    ensures forall j1, j2 :: 0 <= j1 < j2 < |added| ==> added[j1].location != added[j2].location
    ensures forall j :: 1 <= j < |added| ==> StepApart(added[j - 1].location, added[j].location)
    ensures WalkShape(location, added)
  {
    assert s.lights == scene.lights + added;
    assert Place(location, (0, 0)) == location;
    SpiralDistinct(location, sampleColor, added, cells);
    SpiralSteps(location, sampleColor, added, cells);
  }

  /** `createLights`, run by the `AreaLight` constructor: appends max(1, samples)
      point lights to the scene, all coloured color / samples, the first at
      `location`, the others stepping 0.3 along x or z around a square spiral
      (+x, +z, -x, -z with legs of 1, 1, 2, 2, 3, 3, ... steps), all distinct and
      all at the same height. `location` is the caller's vector, which the source
      moves along with the walk: `moved` is where it ends, at the last light. */
  method CreateLights(scene: Scenes.Scene, color: C.Rgb, location: Vec3, samples: int)
    returns (s: Scenes.Scene, moved: Vec3)
    requires samples != 0
    ensures s.shapes == scene.shapes && s.camera == scene.camera
    ensures |s.lights| == |scene.lights| + LightCount(samples)
    ensures s.lights[..|scene.lights|] == scene.lights
    ensures var added := Added(scene, s);
            && added[0].location == location
            && moved == added[|added| - 1].location
            && (forall j :: 0 <= j < |added| ==>
                added[j].color == C.MultScalar(color, 1.0 / (samples as real)))
            && (forall j :: 0 <= j < |added| ==> added[j].location.y == location.y)
    ensures var added := Added(scene, s);
            forall j1, j2 :: 0 <= j1 < j2 < |added| ==> added[j1].location != added[j2].location
    ensures var added := Added(scene, s);
            forall j :: 1 <= j < |added| ==> StepApart(added[j - 1].location, added[j].location)
    ensures WalkShape(location, Added(scene, s))
  {
    var sampleColor := C.MultScalar(color, 1.0 / (samples as real));
    var iSample := 1;
    var direction := 1;
    var radius := 1;
    moved := location;
    s := Scenes.CreatePointlight(scene, sampleColor, moved);
    ghost var added: seq<M.Light> := [M.Light(sampleColor, moved)];
    ghost var cells: seq<Cell> := [(0, 0)];
    assert Place(location, (0, 0)) == location;
    while iSample < samples
      invariant Walked(scene, location, sampleColor, samples, s, moved, iSample, radius, 0, 0, added, cells)
      invariant direction == Direction(radius, 0)
      decreases samples - iSample
    {
      s, moved, iSample, direction, added, cells :=
        WalkRing(scene, location, sampleColor, samples, s, moved, iSample, radius, direction, added, cells);
      radius := radius + 1;
    }
    WalkDone(scene, location, sampleColor, samples, s, moved, iSample, radius, added, cells);
  }

  /** For an in-range colour and a positive sample count, the sample colours of
      all the lights add up exactly to the area light's colour. */
  lemma SampleColorsAddUp(color: C.Rgb, samples: int, lights: seq<M.Light>)
    requires C.InRange(color) && samples >= 1 && |lights| == samples
    requires forall j :: 0 <= j < |lights| ==> lights[j].color == C.MultScalar(color, 1.0 / (samples as real))
    ensures C.SumColors(LightColors(lights)) == color
  {
    C.MultScalarReciprocal(color, samples);
    C.SharesAddUp(color, samples, LightColors(lights));
  }

  /** `Scene.createArealight`: the expansion's lights join the scene, and their
      colours add up to the area light's; the area light itself does not join.
      The caller's location vector is moved along the walk: `moved` is what it
      holds afterwards, the position of the last light. */
  method CreateArealight(scene: Scenes.Scene, color: C.Rgb, location: Vec3, samples: int)
    returns (s: Scenes.Scene, moved: Vec3)
    requires samples != 0
    ensures s.shapes == scene.shapes && s.camera == scene.camera
    ensures |s.lights| == |scene.lights| + LightCount(samples)
    ensures s.lights[..|scene.lights|] == scene.lights
    ensures Added(scene, s)[0].location == location
    ensures moved == Added(scene, s)[|Added(scene, s)| - 1].location
    ensures samples >= 1 && C.InRange(color) ==> C.SumColors(LightColors(Added(scene, s))) == color
  {
    s, moved := CreateLights(scene, color, location, samples);
    if samples >= 1 && C.InRange(color) {
      SampleColorsAddUp(color, samples, Added(scene, s));
    }
  }
}
