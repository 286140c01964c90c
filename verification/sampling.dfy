/** The renderer's image-level arithmetic: the viewplane size, the map from
    window pixels to viewplane coordinates, the Gaussian weights of the
    anti-aliasing samples (a list, and a square array filled ring by ring), and
    the per-pixel loop that adds up the colours of the jittered samples. */
module Rendering {
  import opened Options
  import opened Numerics
  import opened Vectors
  import C = Colors
  import M = Materials
  import S = Shapes
  import Cameras
  import Tracer

  // ------------------------------------------------------------- viewplane

  /** A point of the window or of the viewplane. */
  datatype Vec2 = Vec2(x: real, y: real)

  /** The width and height of the viewplane. */
  datatype Extent = Extent(width: real, height: real)

  /** The viewplane's width and height: the height spans the camera's view
      angle at the focal length, the width follows the window's aspect ratio. */
  function ViewplaneSize(nm: MathLib, camera: Cameras.Camera, width: int, height: int): Extent
    requires height >= 1
  {
    var radians := Mul(camera.viewAngle, nm.pi / 180.0);
    var imageHeight := Mul(2.0 * nm.tan(radians / 2.0), camera.focalLength);
    Extent(Mul(Quot(width as real, height), imageHeight), imageHeight)
  }

  /** The viewplane has the window's aspect ratio: width / height of the one is
      width / height of the other. */
  lemma ViewplaneAspect(nm: MathLib, camera: Cameras.Camera, width: int, height: int)
    requires height >= 1
    ensures var size := ViewplaneSize(nm, camera, width, height);
            Mul(size.width, height as real) == Mul(size.height, width as real)
  {
    var h := ViewplaneSize(nm, camera, width, height).height;
    var w := width as real;
    var n := height as real;
    assert w / n * h * n == h * w;
  }

  /** `normalizePixel`: window coordinates (x, y) to viewplane coordinates,
      x growing to the right and y growing downwards in the window. */
  function NormalizePixel(x: real, y: real, width: int, height: int, imageWidth: real,
                          imageHeight: real): Vec2
    requires width >= 1 && height >= 1
  {
    Vec2(Mul(2.0 * Quot(x + 0.5, width) - 1.0, imageWidth / 2.0),
         Mul(2.0 * Quot(y + 0.5, height) - 1.0, imageHeight / 2.0 * -1.0))
  }

  /** The centre of the window maps to the centre of the viewplane. */
  lemma PixelCentre(width: int, height: int, imageWidth: real, imageHeight: real)
    requires width >= 1 && height >= 1
    ensures NormalizePixel(((width - 1) as real) / 2.0, ((height - 1) as real) / 2.0,
                           width, height, imageWidth, imageHeight) == Vec2(0.0, 0.0)
  {
    QuotHalf(width);
    QuotHalf(height);
    assert ((width - 1) as real) / 2.0 + 0.5 == (width as real) / 2.0;
    assert ((height - 1) as real) / 2.0 + 0.5 == (height as real) / 2.0;
    MulZero(imageWidth / 2.0);
    MulZero(imageHeight / 2.0 * -1.0);
  }

  /** Moving right in the window moves right on the viewplane; moving down in
      the window moves down (to smaller y) on the viewplane. */
  lemma PixelMonotone(x1: real, x2: real, y1: real, y2: real, width: int, height: int,
                      imageWidth: real, imageHeight: real)
    requires width >= 1 && height >= 1
    requires x1 < x2 && y1 < y2 && imageWidth > 0.0 && imageHeight > 0.0
    ensures NormalizePixel(x1, y1, width, height, imageWidth, imageHeight).x
          < NormalizePixel(x2, y2, width, height, imageWidth, imageHeight).x
    ensures NormalizePixel(x1, y1, width, height, imageWidth, imageHeight).y
          > NormalizePixel(x2, y2, width, height, imageWidth, imageHeight).y
  {
    QuotMonotone(x1 + 0.5, x2 + 0.5, width);
    MulMonotone(2.0 * Quot(x1 + 0.5, width) - 1.0, 2.0 * Quot(x2 + 0.5, width) - 1.0, imageWidth / 2.0);
    QuotMonotone(y1 + 0.5, y2 + 0.5, height);
    var k := imageHeight / 2.0;
    var a1 := 2.0 * Quot(y1 + 0.5, height) - 1.0;
    var a2 := 2.0 * Quot(y2 + 0.5, height) - 1.0;
    assert k * -1.0 == -k;
    MulNegate(a1, -k);
    MulNegate(a2, -k);
    MulMonotone(-a2, -a1, k);
  }

  /** The pixel edges -0.5 and width - 0.5 map to the viewplane edges: the
      window's span covers exactly [-imageWidth / 2, imageWidth / 2]. */
  lemma PixelRange(x: real, y: real, width: int, height: int, imageWidth: real, imageHeight: real)
    requires width >= 1 && height >= 1 && imageWidth >= 0.0
    requires -0.5 <= x <= (width as real) - 0.5
    ensures -imageWidth / 2.0 <= NormalizePixel(x, y, width, height, imageWidth, imageHeight).x
        <= imageWidth / 2.0
    ensures NormalizePixel(-0.5, y, width, height, imageWidth, imageHeight).x == -imageWidth / 2.0
    ensures NormalizePixel((width as real) - 0.5, y, width, height, imageWidth, imageHeight).x
        == imageWidth / 2.0
  {
    QuotUnit(x + 0.5, width);
    MulSignedUnit(2.0 * Quot(x + 0.5, width) - 1.0, imageWidth / 2.0);
    assert Quot(0.0, width) == 0.0;
    assert Quot(width as real, width) == 1.0;
    assert Mul(-1.0, imageWidth / 2.0) == -imageWidth / 2.0;
    assert Mul(1.0, imageWidth / 2.0) == imageWidth / 2.0;
  }

  // ----------------------------------------------------------------- gauss

  /** `gauss`: the standard normal density at x, through the library's root and exponential. */
  function Gauss(nm: MathLib, x: real): real
    requires Valid(nm)
  {
    SqrtPositive(nm, 2.0 * nm.pi);
    Mul(1.0 / nm.sqrt(2.0 * nm.pi), nm.exp(Mul(x, x) * -0.5))
  }

  /** The density is symmetric about 0. */
  lemma GaussEven(nm: MathLib, x: real)
    requires Valid(nm)
    ensures Gauss(nm, -x) == Gauss(nm, x)
  {
    MulNegate(x, x);
  }

  /** Where `getGaussList` evaluates the density for entry i of n: n points
      evenly spaced from -3 to 3 (just -3 when there is a single point). */
  function Position(i: int, n: int): real
  {
    if n >= 2 then -3.0 + Portion(6.0, i, n - 1) else -3.0
  }

  /** The positions start at -3, end at 3, stay within [-3, 3], and lie
      symmetrically about 0. */
  lemma PositionsSpan(i: int, n: int)
    requires 0 <= i < n
    ensures Position(0, n) == -3.0
    ensures n >= 2 ==> Position(n - 1, n) == 3.0
    ensures -3.0 <= Position(i, n) <= 3.0
    ensures Position(n - 1 - i, n) == -Position(i, n) || n == 1
  {
    if n >= 2 {
      PortionEnds(6.0, n - 1);
      PortionBounded(6.0, i, n - 1);
      PortionComplement(6.0, i, n - 1);
    }
  }

  /** `getGaussList(n)`: the density at the n positions, accumulated by adding
      one step 6 / (n - 1) after each entry. */
  method GaussList(nm: MathLib, n: int) returns (gl: seq<real>)
    requires Valid(nm) && n >= 0
    ensures |gl| == n
    ensures forall i :: 0 <= i < |gl| ==> gl[i] == Gauss(nm, Position(i, n))
  {
    var x := -3.0;
    var step := if n >= 2 then Quot(6.0, n - 1) else 0.0;
    gl := [];
    var i := 0;
    if n >= 2 {
      PortionEnds(6.0, n - 1);
    }
    while i < n
      invariant 0 <= i <= n && |gl| == i
      invariant x == Position(i, n)
      invariant forall j :: 0 <= j < i ==> gl[j] == Gauss(nm, Position(j, n))
    {
      gl := gl + [Gauss(nm, x)];
      if n >= 2 {
        PortionStep(6.0, i + 1, n - 1);
      }
      x := x + step;
      i := i + 1;
    }
  }

  /** The list reads the same from both ends. */
  lemma GaussListSymmetric(nm: MathLib, n: int, gl: seq<real>, i: int)
    requires Valid(nm) && |gl| == n && 0 <= i < n
    requires forall j :: 0 <= j < n ==> gl[j] == Gauss(nm, Position(j, n))
    ensures gl[i] == gl[n - 1 - i]
  {
    PositionsSpan(i, n);
    GaussEven(nm, Position(i, n));
  }

  /** The ring a cell of the n x n array lies on: its distance to the nearest border. */
  function Ring(n: int, a: int, b: int): int
  {
    var m1 := if a < b then a else b;
    var m2 := if n - 1 - a < n - 1 - b then n - 1 - a else n - 1 - b;
    if m1 < m2 then m1 else m2
  }

  /** What `getGaussArray` leaves in cell (a, b): the weight of its ring, for the
      n / 2 outer rings, and 0 elsewhere. */
  function Cell(gl: seq<real>, n: int, a: int, b: int): real
    requires 0 <= a < n && 0 <= b < n && n / 2 <= |gl|
  {
    if Ring(n, a, b) < n / 2 then gl[Ring(n, a, b)] else 0.0
  }

  /** Only the centre of an odd array is left out of the rings; an even array is covered. */
  lemma RingsCover(n: int, a: int, b: int)
    requires 0 <= a < n && 0 <= b < n
    ensures Ring(n, a, b) >= n / 2 <==> n % 2 == 1 && a == n / 2 && b == n / 2
  {
  }

  /** A cell of ring i (i < n / 2) lies on one of its four sides, as the four
      loops of one round walk them. */
  predicate OnSides(n: int, i: int, a: int, b: int)
  {
    || (b == i && i <= a < n - i)
    || (a == n - 1 - i && i + 1 <= b < n - i)
    || (b == n - 1 - i && i <= a <= n - 1 - i)
    || (a == i && i < b <= n - 1 - i)
  }

  /** A cell belongs to ring i exactly when it lies on one of the four sides
      that one round of the Gaussian array's fill walks for ring i. */
  lemma RingSides(n: int, i: int, a: int, b: int)
    requires 0 <= i < n / 2 && 0 <= a < n && 0 <= b < n
    ensures Ring(n, a, b) == i <==> OnSides(n, i, a, b)
  {
  }

  /** The cells painted after `side` - 1 loops of round i, the current loop being
      at `pos`: all earlier rings, the finished sides, and the part of the
      current side walked so far. */
  predicate Painted(n: int, i: int, side: int, pos: int, a: int, b: int)
  {
    || Ring(n, a, b) < i
    || (side == 1 && b == i && i <= a < pos)
    || (side >= 2 && b == i && i <= a < n - i)
    || (side == 2 && a == n - 1 - i && i + 1 <= b < pos)
    || (side >= 3 && a == n - 1 - i && i + 1 <= b < n - i)
    || (side == 3 && b == n - 1 - i && pos < a <= n - 1 - i)
    || (side >= 4 && b == n - 1 - i && i <= a <= n - 1 - i)
    || (side == 4 && a == i && pos < b <= n - 1 - i)
  }

  /** The n x n array holds the ring weights on the painted cells and 0 elsewhere. */
  ghost predicate Shows(arr: seq<seq<real>>, gl: seq<real>, n: int, i: int, side: int, pos: int)
    requires 0 <= i <= n / 2 <= |gl| && (side > 0 ==> i < n / 2)
  {
    && |arr| == n && (forall a :: 0 <= a < n ==> |arr[a]| == n)
    && forall a, b :: 0 <= a < n && 0 <= b < n ==>
         arr[a][b] == if Painted(n, i, side, pos, a, b) then gl[Ring(n, a, b)] else 0.0
  }

  /** Writing the ring's weight to one more cell of the ring extends the picture. */
  lemma PaintCell(arr: seq<seq<real>>, gl: seq<real>, n: int, i: int, side: int, pos: int, pos': int,
                  a: int, b: int)
    requires 0 <= i < n / 2 && n / 2 <= |gl| && 0 <= a < n && 0 <= b < n
    requires Shows(arr, gl, n, i, side, pos)
    requires OnSides(n, i, a, b)
    requires forall a', b' :: 0 <= a' < n && 0 <= b' < n ==>
               (Painted(n, i, side, pos', a', b') <==>
                  Painted(n, i, side, pos, a', b') || (a' == a && b' == b))
    ensures Shows(arr[a := arr[a][b := gl[i]]], gl, n, i, side, pos')
  {
    RingSides(n, i, a, b);
  }

  /** The first loop of round i: the bottom side, x from i up to n - 1 - i. */
  method PaintBottom(arr0: seq<seq<real>>, gl: seq<real>, n: int, i: int) returns (arr: seq<seq<real>>)
    requires 0 <= i < n / 2 && n / 2 <= |gl|
    requires Shows(arr0, gl, n, i, 0, 0)
    ensures Shows(arr, gl, n, i, 2, i + 1)
  {
    arr := arr0;
    var x := i;
    while x < n - i
      invariant i <= x <= n - i
      invariant Shows(arr, gl, n, i, 1, x)
    {
      PaintCell(arr, gl, n, i, 1, x, x + 1, x, i);
      arr := arr[x := arr[x][i := gl[i]]];
      x := x + 1;
    }
  }

  /** The second loop of round i: the right side, y from i + 1 up to n - 1 - i. */
  method PaintRight(arr0: seq<seq<real>>, gl: seq<real>, n: int, i: int) returns (arr: seq<seq<real>>)
    requires 0 <= i < n / 2 && n / 2 <= |gl|
    requires Shows(arr0, gl, n, i, 2, i + 1)
    ensures Shows(arr, gl, n, i, 3, n - 1 - i)
  {
    arr := arr0;
    var y := i + 1;
    while y < n - i
      invariant i + 1 <= y <= n - i
      invariant Shows(arr, gl, n, i, 2, y)
    {
      PaintCell(arr, gl, n, i, 2, y, y + 1, n - 1 - i, y);
      arr := arr[n - 1 - i := arr[n - 1 - i][y := gl[i]]];
      y := y + 1;
    }
  }

  /** The third loop of round i: the top side, x from n - 1 - i down to i. */
  method PaintTop(arr0: seq<seq<real>>, gl: seq<real>, n: int, i: int) returns (arr: seq<seq<real>>)
    requires 0 <= i < n / 2 && n / 2 <= |gl|
    requires Shows(arr0, gl, n, i, 3, n - 1 - i)
    ensures Shows(arr, gl, n, i, 4, n - 1 - i)
  {
    arr := arr0;
    var x := n - 1 - i;
    while x >= i
      invariant i - 1 <= x <= n - 1 - i
      invariant Shows(arr, gl, n, i, 3, x)
    {
      PaintCell(arr, gl, n, i, 3, x, x - 1, x, n - 1 - i);
      arr := arr[x := arr[x][n - 1 - i := gl[i]]];
      x := x - 1;
    }
  }

  /** The last loop of round i: the left side, y from n - 1 - i down to i + 1,
      which completes ring i. */
  method PaintLeft(arr0: seq<seq<real>>, gl: seq<real>, n: int, i: int) returns (arr: seq<seq<real>>)
    requires 0 <= i < n / 2 && n / 2 <= |gl|
    requires Shows(arr0, gl, n, i, 4, n - 1 - i)
    ensures Shows(arr, gl, n, i + 1, 0, 0)
  {
    arr := arr0;
    var y := n - 1 - i;
    while y > i
      invariant i <= y <= n - 1 - i
      invariant Shows(arr, gl, n, i, 4, y)
    {
      PaintCell(arr, gl, n, i, 4, y, y - 1, i, y);
      arr := arr[i := arr[i][y := gl[i]]];
      y := y - 1;
    }
    RoundDone(arr, gl, n, i);
  }

  /** `getGaussArray`: n / 2 rounds, round i writing `gl[i]` along the four sides
      of ring i, bottom, right, top and left. */
  method GaussArray(gl: seq<real>, n: int) returns (arr: seq<seq<real>>)
    requires n >= 0 && |gl| == n
    ensures |arr| == n && forall a :: 0 <= a < n ==> |arr[a]| == n
    ensures forall a, b :: 0 <= a < n && 0 <= b < n ==> arr[a][b] == Cell(gl, n, a, b)
  {
    arr := seq(n, _ => seq(n, _ => 0.0));
    var i := 0;
    while i < n / 2
      invariant 0 <= i <= n / 2
      invariant Shows(arr, gl, n, i, 0, 0)
    {
      arr := PaintBottom(arr, gl, n, i);
      arr := PaintRight(arr, gl, n, i);
      arr := PaintTop(arr, gl, n, i);
      arr := PaintLeft(arr, gl, n, i);
      i := i + 1;
    }
    assert forall a, b :: 0 <= a < n && 0 <= b < n ==> (Painted(n, i, 0, 0, a, b) <==> Ring(n, a, b) < n / 2);
  }

  /** Once the left side is walked, ring i is complete. */
  lemma RoundDone(arr: seq<seq<real>>, gl: seq<real>, n: int, i: int)
    requires 0 <= i < n / 2 && n / 2 <= |gl|
    requires Shows(arr, gl, n, i, 4, i)
    ensures Shows(arr, gl, n, i + 1, 0, 0)
  {
    forall a, b | 0 <= a < n && 0 <= b < n
      ensures Painted(n, i, 4, i, a, b) <==> Painted(n, i + 1, 0, 0, a, b)
    {
      RingSides(n, i, a, b);
    }
  }

  // ------------------------------------------------------------ anti-alias

  /** gl[0] + ... + gl[k - 1]: the jitter accumulated over the first k entries. */
  function Jitter(gl: seq<real>, k: int): real
    requires 0 <= k <= |gl|
    decreases k
  {
    if k == 0 then 0.0 else Jitter(gl, k - 1) + gl[k - 1]
  }

  /** How far the x jitter has drifted after `rows` full rows of samples: the
      accumulator is never reset, so each row adds the whole list again. */
  function XRow(gl: seq<real>, rows: int): real
    decreases rows
  {
    if rows <= 0 then 0.0 else XRow(gl, rows - 1) + Jitter(gl, |gl|)
  }

  /** Row r of samples is shifted by r times the list's sum. */
  lemma {:induction false} XRowDrift(gl: seq<real>, rows: nat)
    ensures XRow(gl, rows) == Mul(rows as real, Jitter(gl, |gl|))
    decreases rows
  {
    if rows > 0 {
      XRowDrift(gl, rows - 1);
      var r := (rows - 1) as real;
      var total := Jitter(gl, |gl|);
      assert r * total + total == (r + 1.0) * total;
    }
  }

  /** Where sample k (from 0) of a row lands, the row's x accumulator starting at xStart. */
  function RowPoint(gl: seq<real>, xStart: real, yRow: real, k: int): Vec2
    requires 0 <= k < |gl|
  {
    Vec2(xStart + Jitter(gl, k + 1), yRow)
  }

  /** A sample's colour as it is added to the pixel: divided by n^2 when there
      are several samples per axis. */
  function Contribution(c: C.Rgb, n: int): C.Rgb
  {
    if n > 1 then C.Divide(c, n * n) else c
  }

  /** The contributions of samples taken at `points`, in order. */
  function Contributions(sample: (real, real) -> C.Rgb, points: seq<Vec2>, n: int): (cs: seq<C.Rgb>)
    ensures |cs| == |points|
  {
    seq(|points|, k requires 0 <= k < |points| => Contribution(sample(points[k].x, points[k].y), n))
  }

  /** The rows of sample points, one after the other. */
  function Flatten(rows: seq<seq<Vec2>>): seq<Vec2>
    decreases |rows|
  {
    if |rows| == 0 then [] else Flatten(rows[..|rows| - 1]) + rows[|rows| - 1]
  }

  /** Sampling one more point appends its contribution. */
  lemma ContributionsAppend(sample: (real, real) -> C.Rgb, points: seq<Vec2>, p: Vec2, n: int)
    ensures Contributions(sample, points + [p], n)
        == Contributions(sample, points, n) + [Contribution(sample(p.x, p.y), n)]
  {
  }

  /** Adding the contribution of sample k of `pts` to the colour of the samples
      before it gives the colour of the samples up to and including k. */
  lemma SampleStep(sample: (real, real) -> C.Rgb, done: seq<Vec2>, pts: seq<Vec2>, k: int, n: int,
                   color: C.Rgb)
    requires 0 <= k < |pts|
    requires color == C.SumColors(Contributions(sample, done + pts[..k], n))
    ensures C.Add(color, Contribution(sample(pts[k].x, pts[k].y), n))
         == C.SumColors(Contributions(sample, done + pts[..k + 1], n))
  {
    assert done + pts[..k + 1] == (done + pts[..k]) + [pts[k]];
    ContributionsAppend(sample, done + pts[..k], pts[k], n);
    var cs := Contributions(sample, done + pts[..k + 1], n);
    assert cs[..|cs| - 1] == Contributions(sample, done + pts[..k], n);
  }

  /** The colour-accumulating half of the sample loop: the contribution of each
      point of `pts`, in order, added to the colour of the samples `done` before. */
  method AddSamples(sample: (real, real) -> C.Rgb, done: seq<Vec2>, pts: seq<Vec2>, n: int, color0: C.Rgb)
    returns (color: C.Rgb)
    requires color0 == C.SumColors(Contributions(sample, done, n))
    ensures color == C.SumColors(Contributions(sample, done + pts, n))
  {
    color := color0;
    var k := 0;
    assert done + pts[..0] == done;
    while k < |pts|
      invariant 0 <= k <= |pts|
      invariant color == C.SumColors(Contributions(sample, done + pts[..k], n))
    {
      SampleStep(sample, done, pts, k, n, color);
      color := C.Add(color, Contribution(sample(pts[k].x, pts[k].y), n));
      k := k + 1;
    }
    assert pts[..k] == pts;
  }

  /** The rows of one more row are the rows so far followed by it. */
  lemma FlattenAppend(rows: seq<seq<Vec2>>, row: seq<Vec2>, n: int)
    requires |Flatten(rows)| == |rows| * n && |row| == n
    ensures Flatten(rows + [row]) == Flatten(rows) + row
    ensures |Flatten(rows + [row])| == (|rows| + 1) * n
  {
    assert (rows + [row])[..|rows|] == rows;
    assert (|rows| + 1) * n == |rows| * n + n;
  }

  /** The position-computing half of one row of the sample loop: n samples at
      height `yRow`, the x accumulator starting at `xStart` and advancing by
      gl[k] before sample k. */
  method RowPoints(gl: seq<real>, n: int, xStart: real, yRow: real) returns (row: seq<Vec2>, xEnd: real)
    requires n >= 0 && |gl| == n
    ensures |row| == n && xEnd == xStart + Jitter(gl, n)
    ensures forall k :: 0 <= k < n ==> row[k] == RowPoint(gl, xStart, yRow, k)
  {
    row := [];
    xEnd := xStart;
    var xSample := 0;
    while xSample < n
      invariant 0 <= xSample <= n && |row| == xSample
      invariant xEnd == xStart + Jitter(gl, xSample)
      invariant forall k :: 0 <= k < xSample ==> row[k] == RowPoint(gl, xStart, yRow, k)
    {
      xEnd := xEnd + gl[xSample];
      row := row + [Vec2(xEnd, yRow)];
      xSample := xSample + 1;
    }
  }

  /** The n x n sample positions of pixel (x, y), row by row: row r is taken
      at y + gl[0] + ... + gl[r]; sample k of row r at
      x + r (gl[0] + ... + gl[n-1]) + gl[0] + ... + gl[k], as the x accumulator
      runs on across rows. */
  predicate SampleGrid(gl: seq<real>, n: int, x: real, y: real, points: seq<seq<Vec2>>)
    requires |gl| == n
  {
    && |points| == n && (forall r :: 0 <= r < n ==> |points[r]| == n)
    && forall r, k :: 0 <= r < n && 0 <= k < n ==>
         points[r][k] == RowPoint(gl, x + XRow(gl, r), y + Jitter(gl, r + 1), k)
  }

  /** The position half of the anti-aliasing loop of `renderScene` for pixel
      (x, y), with n samples per axis and jitter list `gl`. */
  method SamplePoints(gl: seq<real>, n: int, x: real, y: real) returns (points: seq<seq<Vec2>>)
    requires n >= 0 && |gl| == n
    ensures SampleGrid(gl, n, x, y, points)
    ensures |Flatten(points)| == n * n
  {
    var yJitter := y;
    var xJitter := x;
    points := [];
    var ySample := 0;
    while ySample < n
      invariant 0 <= ySample <= n && |points| == ySample
      invariant yJitter == y + Jitter(gl, ySample) && xJitter == x + XRow(gl, ySample)
      invariant forall r :: 0 <= r < ySample ==> |points[r]| == n
      invariant forall r, k :: 0 <= r < ySample && 0 <= k < n ==>
                  points[r][k] == RowPoint(gl, x + XRow(gl, r), y + Jitter(gl, r + 1), k)
      invariant |Flatten(points)| == ySample * n
    {
      yJitter := yJitter + gl[ySample];
      var row;
      row, xJitter := RowPoints(gl, n, xJitter, yJitter);
      FlattenAppend(points, row, n);
      points := points + [row];
      ySample := ySample + 1;
    }
  }

  /** The anti-aliasing loop of `renderScene` for pixel (x, y): the colour is the
      clamped running sum of the samples' contributions, taken row by row at the
      positions `SamplePoints` gives; `sample` is the colour of the ray through a
      window position. */
  method RenderPixel(sample: (real, real) -> C.Rgb, gl: seq<real>, n: int, x: real, y: real)
    returns (color: C.Rgb, points: seq<seq<Vec2>>)
    requires n >= 0 && |gl| == n
    ensures SampleGrid(gl, n, x, y, points)
    ensures |Flatten(points)| == n * n
    ensures color == C.SumColors(Contributions(sample, Flatten(points), n))
  {
    points := SamplePoints(gl, n, x, y);
    assert [] + Flatten(points) == Flatten(points);
    color := AddSamples(sample, [], Flatten(points), n, C.Black);
  }

  /** When every sample shows the same in-range colour, so does the pixel:
      n^2 contributions of c / n^2 add up to c without clamping. */
  lemma ConstantPixel(sample: (real, real) -> C.Rgb, points: seq<Vec2>, n: int, c: C.Rgb)
    requires n >= 1 && |points| == n * n && C.InRange(c)
    requires forall k :: 0 <= k < |points| ==> sample(points[k].x, points[k].y) == c
    ensures C.SumColors(Contributions(sample, points, n)) == c
  {
    var cs := Contributions(sample, points, n);
    if n == 1 {
      assert cs == [c];
      assert cs[..0] == [];
      C.AddBlack(c);
    } else {
      assert n * n >= 1;
      C.SharesAddUp(c, n * n, cs);
    }
  }

  /** The colour of the ray through window position (x, y), as the render loop
      samples it: viewplane coordinates, then the traced pixel colour. */
  function SampleAt(nm: MathLib, shapes: seq<S.Shape>, lights: seq<M.Light>, camera: Cameras.Camera,
                    background: C.Rgb, maxDepth: int, fuel: nat, width: int, height: int,
                    x: real, y: real): C.Rgb
    requires width >= 1 && height >= 1
  {
    var size := ViewplaneSize(nm, camera, width, height);
    var uv := NormalizePixel(x, y, width, height, size.width, size.height);
    Tracer.TracePixel(nm, shapes, lights, camera, background, maxDepth, fuel, uv.x, uv.y)
  }

  /** A scene without shapes renders every pixel as its background: each sample
      shows the background, and n^2 shares of an in-range colour add up to it. */
  lemma EmptySceneShowsBackground(nm: MathLib, lights: seq<M.Light>, camera: Cameras.Camera,
                                  background: C.Rgb, maxDepth: int, fuel: nat, width: int, height: int,
                                  points: seq<Vec2>, n: int)
    requires width >= 1 && height >= 1 && n >= 1 && |points| == n * n && C.InRange(background)
    ensures var sample := (x: real, y: real) =>
              SampleAt(nm, [], lights, camera, background, maxDepth, fuel, width, height, x, y);
            C.SumColors(Contributions(sample, points, n)) == background
  {
    var sample := (x: real, y: real) =>
      SampleAt(nm, [], lights, camera, background, maxDepth, fuel, width, height, x, y);
    ConstantPixel(sample, points, n, background);
  }
}
