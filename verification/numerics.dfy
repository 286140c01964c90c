/** The transcendental functions of `java.lang.Math` that the renderer calls.
    Their exact values are not modelled: they are carried as parameters, and the
    only law any proof relies on is that `sqrt` is the non-negative square root. */
module Numerics {

  /** Square root, exponential, tangent, real power and the constant pi. */
  datatype MathLib = MathLib(
    sqrt: real -> real,
    exp: real -> real,
    tan: real -> real,
    pow: (real, real) -> real,
    pi: real)

  /** `sqrt` returns the non-negative root of every non-negative argument, and pi is positive. */
  ghost predicate Valid(nm: MathLib)
  {
    && nm.pi > 0.0
    && forall x: real :: 0.0 <= x ==> 0.0 <= nm.sqrt(x) && nm.sqrt(x) * nm.sqrt(x) == x
  }

  /** The square root law at one point. */
  lemma SqrtLaw(nm: MathLib, x: real)
    requires Valid(nm) && 0.0 <= x
    ensures 0.0 <= nm.sqrt(x) && nm.sqrt(x) * nm.sqrt(x) == x
  {
  }

  /** The root of a square is the (non-negative) base. */
  lemma SqrtOfSquare(nm: MathLib, a: real)
    requires Valid(nm) && 0.0 <= a
    ensures nm.sqrt(a * a) == a
  {
    var s := nm.sqrt(a * a);
    SqrtLaw(nm, a * a);
    assert (s - a) * (s + a) == 0.0;
    if s + a == 0.0 {
      assert s == 0.0 && a == 0.0;
    } else {
      assert s - a == ((s - a) * (s + a)) / (s + a);
    }
  }

  /** The root vanishes exactly at zero. */
  lemma SqrtZeroIff(nm: MathLib, x: real)
    requires Valid(nm) && 0.0 <= x
    ensures nm.sqrt(x) == 0.0 <==> x == 0.0
  {
    SqrtLaw(nm, x);
    if x == 0.0 {
      SqrtOfSquare(nm, 0.0);
    }
  }

  /** The root of a positive number is positive. */
  lemma SqrtPositive(nm: MathLib, x: real)
    requires Valid(nm) && 0.0 < x
    ensures 0.0 < nm.sqrt(x)
  {
    SqrtZeroIff(nm, x);
    SqrtLaw(nm, x);
  }

  function Abs(x: real): real { if x < 0.0 then -x else x }

  /** The product of two varying reals. Model functions multiply through it, so
      that proofs about them treat each product as one quantity and take its
      arithmetic from the lemmas below. */
  function Mul(x: real, y: real): real
  {
    x * y
  }

  /** A product of two values in [0, 1] is in [0, 1] and below both factors. */
  lemma MulUnit(x: real, y: real)
    requires 0.0 <= x <= 1.0 && 0.0 <= y <= 1.0
    ensures 0.0 <= Mul(x, y) <= x && Mul(x, y) <= y
  {
    assert 0.0 <= x * y;
    assert x * y <= x;
    assert x * y <= y;
  }

  /** A non-negative value times a non-positive one is non-positive. */
  lemma MulNonPositive(x: real, y: real)
    requires 0.0 <= x && y <= 0.0
    ensures Mul(x, y) <= 0.0
  {
    assert x * y <= 0.0;
  }

  /** A product of two positive values is positive. */
  lemma MulPositive(x: real, y: real)
    requires x > 0.0 && y > 0.0
    ensures Mul(x, y) > 0.0
  {
    assert x * y > 0.0;
  }

  /** Negating both factors leaves the product unchanged. */
  lemma MulNegate(x: real, y: real)
    ensures Mul(-x, -y) == Mul(x, y)
  {
    assert (-x) * (-y) == x * y;
  }

  /** The square of a non-zero value is positive. */
  lemma SquarePositive(x: real)
    requires x != 0.0
    ensures Mul(x, x) > 0.0
  {
    if x > 0.0 {
      MulPositive(x, x);
    } else {
      MulPositive(-x, -x);
      MulNegate(x, x);
    }
  }

  /** If r >= 0 and r^2 = t^2 d with d > 0, then r vanishes exactly when t does:
      a distance |t| |D| is zero only at parameter zero. */
  lemma ScaledSquareSign(t: real, d: real, r: real)
    requires d > 0.0 && r >= 0.0 && r * r == t * t * d
    ensures r == 0.0 <==> t == 0.0
  {
    if t != 0.0 {
      SquarePositive(t);
      MulPositive(Mul(t, t), d);
      assert t * t * d == Mul(Mul(t, t), d);
    } else {
      assert t * t * d == 0.0;
      if r != 0.0 {
        MulPositive(r, r);
      }
    }
  }

  /** Division by a non-zero whole count. */
  function Quot(x: real, n: int): real
    requires n != 0
  {
    x / (n as real)
  }

  /** Dividing a non-negative value by a count of at least one keeps it between 0 and itself. */
  lemma QuotBounded(x: real, n: int)
    requires 1 <= n && 0.0 <= x
    ensures 0.0 <= Quot(x, n) <= x
  {
    assert 0.0 <= x / (n as real);
    assert x / (n as real) <= x;
  }

  /** Scaling by 1 / n is dividing by n. */
  lemma ScaleByReciprocal(x: real, n: int)
    requires n != 0
    ensures Mul(x, 1.0 / (n as real)) == Quot(x, n)
  {
    assert x * (1.0 / (n as real)) == x / (n as real);
  }

  /** k n-ths of x: what k shares x / n add up to. */
  function Portion(x: real, k: int, n: int): real
    requires 1 <= n
  {
    x * (k as real) / (n as real)
  }

  /** Between none and all of the shares of a non-negative value lie between 0 and the value. */
  lemma PortionBounded(x: real, k: int, n: int)
    requires 0 <= k <= n && 1 <= n && 0.0 <= x
    ensures 0.0 <= Portion(x, k, n) <= x
  {
    var q := (k as real) / (n as real);
    assert 0.0 <= q <= 1.0;
    assert x * (k as real) / (n as real) == x * q;
    assert 0.0 <= x * q <= x;
  }

  /** No share is nothing, all n shares are the whole. */
  lemma PortionEnds(x: real, n: int)
    requires 1 <= n
    ensures Portion(x, 0, n) == 0.0 && Portion(x, n, n) == x
  {
    assert x * (0 as real) / (n as real) == 0.0;
    assert x * (n as real) / (n as real) == x;
  }

  /** One more share x / n makes one more n-th. */
  lemma PortionStep(x: real, k: int, n: int)
    requires 1 <= n
    ensures Portion(x, k - 1, n) + Quot(x, n) == Portion(x, k, n)
  {
    assert x * ((k - 1) as real) == x * (k as real) - x;
    assert (x * (k as real) - x) / (n as real) == x * (k as real) / (n as real) - x / (n as real);
  }

  /** Taking the other n - k of n shares leaves what k shares do not cover. */
  lemma PortionComplement(x: real, k: int, n: int)
    requires 1 <= n
    ensures Portion(x, n - k, n) == x - Portion(x, k, n)
  {
    assert x * ((n - k) as real) == x * (n as real) - x * (k as real);
    assert (x * (n as real) - x * (k as real)) / (n as real) == x - x * (k as real) / (n as real);
  }

  /** Dividing by a positive count keeps strict order. */
  lemma QuotMonotone(x: real, y: real, n: int)
    requires 1 <= n && x < y
    ensures Quot(x, n) < Quot(y, n)
  {
    assert x / (n as real) < y / (n as real);
  }

  /** Dividing a value between 0 and n by n gives a value between 0 and 1. */
  lemma QuotUnit(x: real, n: int)
    requires 1 <= n && 0.0 <= x <= n as real
    ensures 0.0 <= Quot(x, n) <= 1.0
  {
    assert 0.0 <= x / (n as real);
    assert x / (n as real) <= (n as real) / (n as real);
  }

  /** Half of n divided by n is one half. */
  lemma QuotHalf(n: int)
    requires 1 <= n
    ensures Quot((n as real) / 2.0, n) == 0.5
  {
    assert (n as real) / 2.0 / (n as real) == 0.5;
  }

  /** Multiplying by a positive factor keeps strict order. */
  lemma MulMonotone(x: real, y: real, k: real)
    requires x < y && k > 0.0
    ensures Mul(x, k) < Mul(y, k)
  {
    assert (y - x) * k > 0.0;
    assert y * k - x * k == (y - x) * k;
  }

  /** Zero times anything is zero. */
  lemma MulZero(k: real)
    ensures Mul(0.0, k) == 0.0
  {
  }

  /** A value in [-1, 1] times k >= 0 lies in [-k, k]. */
  lemma MulSignedUnit(x: real, k: real)
    requires -1.0 <= x <= 1.0 && k >= 0.0
    ensures -k <= Mul(x, k) <= k
  {
    var a := 1.0 - x;
    var b := 1.0 + x;
    assert a * k >= 0.0;
    assert b * k >= 0.0;
    assert a * k == k - x * k;
    assert b * k == k + x * k;
  }

  /** Java's cast of a floating value to `int`: truncation toward zero (saturation is not modelled). */
  function Truncate(x: real): int
  {
    if x >= 0.0 then x.Floor else -((-x).Floor)
  }
}
