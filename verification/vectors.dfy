/** Real 3-vectors standing in for the renderer's `Vec3` library class, with the
    operations the core uses: add, sub, scale, negate, dot ("scalar"), cross,
    length and normalize. A 4x4 translation and its inverse applied to a point are
    vector addition and subtraction of the translation. */
module Vectors {
  import opened Numerics

  datatype Vec3 = Vec3(x: real, y: real, z: real)

  const Zero: Vec3 := Vec3(0.0, 0.0, 0.0)

  function Add(a: Vec3, b: Vec3): Vec3 { Vec3(a.x + b.x, a.y + b.y, a.z + b.z) }

  function Sub(a: Vec3, b: Vec3): Vec3 { Vec3(a.x - b.x, a.y - b.y, a.z - b.z) }

  function Scale(a: Vec3, k: real): Vec3 { Vec3(a.x * k, a.y * k, a.z * k) }

  function Negate(a: Vec3): Vec3 { Vec3(-a.x, -a.y, -a.z) }

  function Dot(a: Vec3, b: Vec3): real { a.x * b.x + a.y * b.y + a.z * b.z }

  function Cross(a: Vec3, b: Vec3): Vec3
  {
    Vec3(a.y * b.z - a.z * b.y, a.z * b.x - a.x * b.z, a.x * b.y - a.y * b.x)
  }

  /** Euclidean length, through the library square root. */
  function Length(nm: MathLib, v: Vec3): real { nm.sqrt(Dot(v, v)) }

  /** `v` divided by its length; a zero-length vector is returned as it is. */
  function Normalize(nm: MathLib, v: Vec3): Vec3
  {
    var len := Length(nm, v);
    if len == 0.0 then v else Scale(v, 1.0 / len)
  }

  /** The squared length is never negative. */
  lemma DotSelfNonNegative(v: Vec3)
    ensures Dot(v, v) >= 0.0
  {
    SquareNonNegative(v.x);
    SquareNonNegative(v.y);
    SquareNonNegative(v.z);
  }

  /** Only the zero vector has squared length zero. */
  lemma DotSelfPositive(v: Vec3)
    requires v != Zero
    ensures Dot(v, v) > 0.0
  {
    assert Dot(v, v) == Mul(v.x, v.x) + Mul(v.y, v.y) + Mul(v.z, v.z);
    SquareNonNegative(v.x);
    SquareNonNegative(v.y);
    SquareNonNegative(v.z);
    if v.x != 0.0 {
      SquarePositive(v.x);
    } else if v.y != 0.0 {
      SquarePositive(v.y);
    } else {
      SquarePositive(v.z);
    }
  }

  lemma SquareNonNegative(r: real)
    ensures r * r >= 0.0
  {
  }

  /** The length is the non-negative root of the squared length, and vanishes on the zero vector. */
  lemma LengthLaw(nm: MathLib, v: Vec3)
    requires Valid(nm)
    ensures Length(nm, v) >= 0.0
    ensures Length(nm, v) * Length(nm, v) == Dot(v, v)
    ensures v == Zero ==> Length(nm, v) == 0.0
  {
    DotSelfNonNegative(v);
    SqrtLaw(nm, Dot(v, v));
    SqrtZeroIff(nm, Dot(v, v));
  }

  /** Dot product is bilinear in scaling. */
  lemma DotScale(a: Vec3, b: Vec3, k: real)
    ensures Dot(Scale(a, k), b) == k * Dot(a, b)
    ensures Dot(a, Scale(b, k)) == k * Dot(a, b)
  {
  }

  /** Whatever the library square root returns, normalize only rescales its argument. */
  lemma NormalizeIsScaling(nm: MathLib, v: Vec3)
    ensures exists k: real :: Normalize(nm, v) == Scale(v, k)
  {
    var len := Length(nm, v);
    if len == 0.0 {
      assert Normalize(nm, v) == Scale(v, 1.0);
    } else {
      assert Normalize(nm, v) == Scale(v, 1.0 / len);
    }
  }

  /** Normalizing the zero vector gives the zero vector, and nothing else does. */
  lemma NormalizeZero(nm: MathLib, v: Vec3)
    requires Valid(nm)
    ensures Normalize(nm, v) == Zero <==> v == Zero
  {
    LengthLaw(nm, v);
    var len := Length(nm, v);
    if len != 0.0 {
      var k := 1.0 / len;
      var w := Scale(v, k);
      assert v == Scale(w, len);
    }
  }

  /** A vector of non-zero length normalizes to unit length. */
  lemma NormalizeUnit(nm: MathLib, v: Vec3)
    requires Valid(nm) && Dot(v, v) > 0.0
    ensures Dot(Normalize(nm, v), Normalize(nm, v)) == 1.0
  {
    LengthLaw(nm, v);
    var len := Length(nm, v);
    var k := 1.0 / len;
    DotScale(v, Scale(v, k), k);
    DotScale(v, v, k);
    assert Dot(Scale(v, k), Scale(v, k)) == k * k * Dot(v, v);
    assert k * k * (len * len) == 1.0;
  }

  /** Normalizing a unit vector changes nothing. */
  lemma NormalizeUnitFixed(nm: MathLib, v: Vec3)
    requires Valid(nm) && Dot(v, v) == 1.0
    ensures Normalize(nm, v) == v
  {
    SqrtOfSquare(nm, 1.0);
    assert Length(nm, v) == 1.0;
  }

  /** Lagrange's identity: |a|^2 |b|^2 = (a.b)^2 + |a x b|^2. */
  lemma Lagrange(a: Vec3, b: Vec3)
    ensures Dot(a, a) * Dot(b, b) == Dot(a, b) * Dot(a, b) + Dot(Cross(a, b), Cross(a, b))
  {
  }

  /** Cauchy-Schwarz for unit vectors: the cosine lies in [-1, 1]. */
  lemma UnitCosineBounded(a: Vec3, b: Vec3)
    requires Dot(a, a) == 1.0 && Dot(b, b) == 1.0
    ensures -1.0 <= Dot(a, b) <= 1.0
  {
    UnitCosineSquare(a, b);
    UnitInterval(Dot(a, b));
  }

  lemma UnitCosineSquare(a: Vec3, b: Vec3)
    requires Dot(a, a) == 1.0 && Dot(b, b) == 1.0
    ensures Dot(a, b) * Dot(a, b) <= 1.0
  {
    Lagrange(a, b);
    DotSelfNonNegative(Cross(a, b));
  }

  lemma UnitInterval(c: real)
    requires c * c <= 1.0
    ensures -1.0 <= c <= 1.0
  {
  }

  /** The cross product is orthogonal to both factors, and stays so under any rescaling. */
  lemma CrossOrthogonal(a: Vec3, b: Vec3, k: real)
    ensures Dot(Scale(Cross(a, b), k), a) == 0.0
    ensures Dot(Scale(Cross(a, b), k), b) == 0.0
  {
    DotScale(Cross(a, b), a, k);
    DotScale(Cross(a, b), b, k);
    CrossOrthogonalFirst(a, b);
    CrossOrthogonalFirst(b, a);
    assert Cross(b, a) == Negate(Cross(a, b));
  }

  lemma CrossOrthogonalFirst(a: Vec3, b: Vec3)
    ensures Dot(Cross(a, b), a) == 0.0
  {
    var c := Cross(a, b);
    assert c.x * a.x == a.y * b.z * a.x - a.z * b.y * a.x;
    assert c.y * a.y == a.z * b.x * a.y - a.x * b.z * a.y;
    assert c.z * a.z == a.x * b.y * a.z - a.y * b.x * a.z;
  }
}
