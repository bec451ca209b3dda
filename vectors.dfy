/**
 * The vector algebra of src/math.rs: a three-component vector with
 * component-wise operators, dot and cross products, norm and normalisation,
 * and the orthonormal basis built from a single vector.  The same datatype
 * stands for the library Vec3 the two renderers use, whose operations are
 * the same.
 */
module Vectors {
  import opened Numerics

  datatype Vector3 = Vector3(x: real, y: real, z: real)

  /** A two-component vector: projected screen points and texture coordinates. */
  datatype Vec2 = Vec2(x: real, y: real)

  const Zero: Vector3 := Vector3(0.0, 0.0, 0.0)
  const UnitX: Vector3 := Vector3(1.0, 0.0, 0.0)
  const UnitY: Vector3 := Vector3(0.0, 1.0, 0.0)
  const UnitZ: Vector3 := Vector3(0.0, 0.0, 1.0)

  function Add(a: Vector3, b: Vector3): Vector3
  {
    Vector3(a.x + b.x, a.y + b.y, a.z + b.z)
  }

  /** Subtraction undoes addition. */
  function Sub(a: Vector3, b: Vector3): (r: Vector3)
    ensures Add(r, b) == a
  {
    Vector3(a.x - b.x, a.y - b.y, a.z - b.z)
  }

  /** Negation gives the additive inverse. */
  function Neg(a: Vector3): (r: Vector3)
    ensures Add(a, r) == Zero
  {
    Vector3(-a.x, -a.y, -a.z)
  }

  /** `&v * f`: every component times f. */
  function MulScalar(v: Vector3, f: real): Vector3
  {
    Vector3(v.x * f, v.y * f, v.z * f)
  }

  /** `f * &v`: the same vector as `&v * f`. */
  function ScalarMul(f: real, v: Vector3): (r: Vector3)
    ensures r == MulScalar(v, f)
  {
    Vector3(f * v.x, f * v.y, f * v.z)
  }

  /** `&v / f` undoes multiplication by a non-zero f. */
  function DivScalar(v: Vector3, f: real): (r: Vector3)
    requires f != 0.0
    ensures MulScalar(r, f) == v
  {
    Vector3(v.x / f, v.y / f, v.z / f)
  }

  function Dot(a: Vector3, b: Vector3): real
  {
    a.x * b.x + a.y * b.y + a.z * b.z
  }

  /** `&a * &b` is the dot product. */
  function MulVectors(a: Vector3, b: Vector3): real
  {
    Dot(a, b)
  }

  function Cross(a: Vector3, b: Vector3): Vector3
  {
    Vector3(a.y * b.z - a.z * b.y, a.z * b.x - a.x * b.z, a.x * b.y - a.y * b.x)
  }

  function Norm(v: Vector3, m: Libm): real
  {
    m.sqrt(Dot(v, v))
  }

  /** The unit vector pointing the same way as v. */
  function Normalize(v: Vector3, m: Libm): (r: Vector3)
    requires Norm(v, m) != 0.0
    ensures Lawful(m) ==> Dot(r, r) == 1.0
    ensures Lawful(m) ==> Cross(r, v) == Zero && Dot(r, v) > 0.0
  {
    NormalizedIsUnit(v, m);
    DivScalar(v, Norm(v, m))
  }

  /** --- Facts used by the proofs below. --- */

  /** A square, kept behind a function so that the solver sees the same
      term wherever a component is squared. */
  function Sq(a: real): real
  {
    a * a
  }

  lemma SquareNonNegative(a: real)
    ensures Sq(a) >= 0.0
  {
    if a < 0.0 {
      assert a * a == (-a) * (-a);
    }
  }

  lemma PositiveSquare(a: real)
    requires a != 0.0
    ensures Sq(a) > 0.0
  {
    if a < 0.0 {
      assert a * a == (-a) * (-a);
      MulStrictlyMonotone(0.0, -a, 0.0, -a);
    } else {
      MulStrictlyMonotone(0.0, a, 0.0, a);
    }
  }

  lemma DotSelfNonNegative(v: Vector3)
    ensures Dot(v, v) >= 0.0
  {
    SquareNonNegative(v.x);
    SquareNonNegative(v.y);
    SquareNonNegative(v.z);
  }

  /** Only the zero vector has a zero dot product with itself. */
  lemma DotSelfPositive(v: Vector3)
    requires v != Zero
    ensures Dot(v, v) > 0.0
  {
    SquareNonNegative(v.x);
    SquareNonNegative(v.y);
    SquareNonNegative(v.z);
    if v.x != 0.0 {
      PositiveSquare(v.x);
    } else if v.y != 0.0 {
      PositiveSquare(v.y);
    } else {
      PositiveSquare(v.z);
    }
  }

  /** Under a lawful sqrt the norm vanishes exactly at the zero vector. */
  lemma NormPositive(v: Vector3, m: Libm)
    requires Lawful(m) && v != Zero
    ensures Norm(v, m) > 0.0
  {
    DotSelfPositive(v);
    SqrtPositive(m, Dot(v, v));
  }

  lemma NormSquared(v: Vector3, m: Libm)
    requires Lawful(m)
    ensures Norm(v, m) >= 0.0 && Norm(v, m) * Norm(v, m) == Dot(v, v)
  {
    DotSelfNonNegative(v);
  }

  lemma DotScaled(v: Vector3, k: real)
    ensures Dot(MulScalar(v, k), MulScalar(v, k)) == k * k * Dot(v, v)
    ensures Dot(MulScalar(v, k), v) == k * Dot(v, v)
  {
  }

  lemma NormalizedIsUnit(v: Vector3, m: Libm)
    requires Norm(v, m) != 0.0
    ensures Lawful(m) ==> Dot(DivScalar(v, Norm(v, m)), DivScalar(v, Norm(v, m))) == 1.0
    ensures Lawful(m) ==> Cross(DivScalar(v, Norm(v, m)), v) == Zero
    ensures Lawful(m) ==> Dot(DivScalar(v, Norm(v, m)), v) > 0.0
  {
    if Lawful(m) {
      NormalizedIsUnitLawful(v, m);
    }
  }

  lemma NormalizedIsUnitLawful(v: Vector3, m: Libm)
    requires Lawful(m) && Norm(v, m) != 0.0
    ensures Dot(DivScalar(v, Norm(v, m)), DivScalar(v, Norm(v, m))) == 1.0
    ensures Cross(DivScalar(v, Norm(v, m)), v) == Zero
    ensures Dot(DivScalar(v, Norm(v, m)), v) > 0.0
  {
    var n := Norm(v, m);
    NormSquared(v, m);
    var k := 1.0 / n;
    assert DivScalar(v, n) == MulScalar(v, k);
    DotScaled(v, k);
    assert k * n == 1.0;
    assert k * k * (n * n) == (k * n) * (k * n);
    assert Dot(v, v) == n * n;
    assert k * k * Dot(v, v) == 1.0;
    assert k > 0.0;
    assert Dot(v, v) > 0.0;
    MulStrictlyMonotone(0.0, k, 0.0, Dot(v, v));
  }

  /** --- The algebraic laws the unit tests of src/math.rs exercise. --- */

  lemma AddCommutative(a: Vector3, b: Vector3)
    ensures Add(a, b) == Add(b, a)
    ensures Add(Vector3(1.0, 2.0, 3.0), Vector3(1.0, 2.0, 3.0)) == Vector3(2.0, 4.0, 6.0)
  {
  }

  lemma SubAntiSymmetric(a: Vector3, b: Vector3)
    ensures Sub(a, b) == Neg(Sub(b, a))
    ensures Sub(Vector3(1.0, 2.0, 3.0), Vector3(3.0, 2.0, 1.0)) == Vector3(-2.0, 0.0, 2.0)
  {
  }

  lemma DotSymmetric(a: Vector3, b: Vector3)
    ensures Dot(a, b) == Dot(b, a) == MulVectors(a, b) == MulVectors(b, a)
    ensures Dot(Vector3(1.0, 2.0, 3.0), Vector3(1.0, 2.0, 3.0)) == 14.0
  {
  }

  /** The right-handed unit axes: each is the cross product of the next two
      (swapping the factors negates it, by CrossAntiCommutative). */
  lemma CrossAxes()
    ensures Cross(UnitY, UnitZ) == UnitX && Cross(UnitZ, UnitX) == UnitY && Cross(UnitX, UnitY) == UnitZ
  {
    CrossYZ();
    CrossZX();
    CrossXY();
  }

  lemma CrossYZ()
    ensures Cross(UnitY, UnitZ) == UnitX
  {
  }

  lemma CrossZX()
    ensures Cross(UnitZ, UnitX) == UnitY
  {
  }

  lemma CrossXY()
    ensures Cross(UnitX, UnitY) == UnitZ
  {
  }

  lemma CrossAntiCommutative(a: Vector3, b: Vector3)
    ensures Cross(a, b) == Neg(Cross(b, a))
  {
  }

  /** The cross product is perpendicular to both factors. */
  lemma CrossOrthogonal(a: Vector3, b: Vector3)
    ensures Dot(Cross(a, b), a) == 0.0 && Dot(Cross(a, b), b) == 0.0
  {
  }

  /** Lagrange's identity: |a x b|^2 = |a|^2 |b|^2 - (a . b)^2. */
  lemma LagrangeIdentity(a: Vector3, b: Vector3)
    ensures Dot(Cross(a, b), Cross(a, b)) == Dot(a, a) * Dot(b, b) - Dot(a, b) * Dot(a, b)
  {
  }

  lemma DotScaledLeft(k: real, a: Vector3, b: Vector3)
    ensures Dot(MulScalar(a, k), b) == k * Dot(a, b)
  {
  }

  /** An orthonormal frame (u, v, w). */
  datatype Basis = Basis(u: Vector3, v: Vector3, w: Vector3)

  /** The helper vector of `from_single_vector`: the magnitudes of w's
      components with the smallest of them replaced by 1. */
  function HelperVector(w: Vector3): (t: Vector3)
    ensures t.x >= 0.0 && t.y >= 0.0 && t.z >= 0.0
    ensures (t.x == 1.0 && Abs(w.x) <= Abs(w.y) && Abs(w.x) <= Abs(w.z) && t.y == Abs(w.y) && t.z == Abs(w.z))
         || (t.y == 1.0 && Abs(w.y) <= Abs(w.x) && Abs(w.y) <= Abs(w.z) && t.x == Abs(w.x) && t.z == Abs(w.z))
         || (t.z == 1.0 && Abs(w.z) <= Abs(w.x) && Abs(w.z) <= Abs(w.y) && t.x == Abs(w.x) && t.y == Abs(w.y))
  {
    var x, y, z := Abs(w.x), Abs(w.y), Abs(w.z);
    if x > y then
      if y > z then Vector3(x, y, 1.0) else Vector3(x, 1.0, z)
    else
      if x > z then Vector3(x, y, 1.0) else Vector3(1.0, y, z)
  }

  /** `Basis::from_single_vector`: w is a normalised, u is normal to both the
      helper vector and w, and v = w x u completes the frame. */
  function FromSingleVector(a: Vector3, m: Libm): (b: Basis)
    requires Lawful(m) && a != Zero
    ensures Dot(b.u, b.u) == 1.0 && Dot(b.v, b.v) == 1.0 && Dot(b.w, b.w) == 1.0
    ensures Dot(b.u, b.v) == 0.0 && Dot(b.v, b.w) == 0.0 && Dot(b.w, b.u) == 0.0
    ensures Cross(b.w, a) == Zero && Dot(b.w, a) > 0.0
    ensures b.v == Cross(b.w, b.u)
  {
    NormPositive(a, m);
    var w := Normalize(a, m);
    var c := Cross(HelperVector(w), w);
    HelperNotParallel(w);
    CrossOrthogonal(HelperVector(w), w);
    NormPositive(c, m);
    var u := Normalize(c, m);
    FrameOrthonormal(c, w, m);
    Basis(u, Cross(w, u), w)
  }

  lemma FrameOrthonormal(c: Vector3, w: Vector3, m: Libm)
    requires Lawful(m) && Norm(c, m) != 0.0 && Dot(w, w) == 1.0 && Dot(c, w) == 0.0
    ensures var u := Normalize(c, m);
      Dot(u, u) == 1.0 && Dot(Cross(w, u), Cross(w, u)) == 1.0
      && Dot(u, Cross(w, u)) == 0.0 && Dot(Cross(w, u), w) == 0.0 && Dot(w, u) == 0.0
  {
    var u := Normalize(c, m);
    var n := Norm(c, m);
    assert u == MulScalar(c, 1.0 / n);
    DotScaledLeft(1.0 / n, c, w);
    DotSymmetric(u, w);
    CrossOrthogonal(w, u);
    DotSymmetric(Cross(w, u), u);
    LagrangeIdentity(w, u);
  }

  /** The helper vector is never parallel to a unit w, so t x w can be
      normalised. */
  lemma HelperNotParallel(w: Vector3)
    requires Dot(w, w) == 1.0
    ensures Cross(HelperVector(w), w) != Zero
  {
    var t := HelperVector(w);
    var x, y, z := Abs(w.x), Abs(w.y), Abs(w.z);
    if (x > y && y > z) || (x <= y && x > z) {
      assert t == Vector3(x, y, 1.0);
      ReplacedZ(w);
    } else if x > y {
      assert t == Vector3(x, 1.0, z);
      ReplacedY(w);
    } else {
      assert t == Vector3(1.0, y, z);
      ReplacedX(w);
    }
  }

  lemma ReplacedZ(w: Vector3)
    requires Dot(w, w) == 1.0 && Abs(w.z) <= Abs(w.x) && Abs(w.z) <= Abs(w.y)
    ensures Cross(Vector3(Abs(w.x), Abs(w.y), 1.0), w) != Zero
  {
    DotAsSquares(w);
    ReplacedComponentBreaksParallel(w.x, w.y, w.z);
    CrossWithHelperZ(w);
  }

  lemma ReplacedY(w: Vector3)
    requires Dot(w, w) == 1.0 && Abs(w.y) <= Abs(w.x) && Abs(w.y) <= Abs(w.z)
    ensures Cross(Vector3(Abs(w.x), 1.0, Abs(w.z)), w) != Zero
  {
    DotAsSquares(w);
    ReplacedComponentBreaksParallel(w.x, w.z, w.y);
    CrossWithHelperY(w);
  }

  lemma ReplacedX(w: Vector3)
    requires Dot(w, w) == 1.0 && Abs(w.x) <= Abs(w.y) && Abs(w.x) <= Abs(w.z)
    ensures Cross(Vector3(1.0, Abs(w.y), Abs(w.z)), w) != Zero
  {
    DotAsSquares(w);
    ReplacedComponentBreaksParallel(w.y, w.z, w.x);
    CrossWithHelperX(w);
  }

  lemma DotAsSquares(w: Vector3)
    ensures Dot(w, w) == Sq(w.x) + Sq(w.y) + Sq(w.z)
    ensures Dot(w, w) == Sq(w.x) + Sq(w.z) + Sq(w.y)
    ensures Dot(w, w) == Sq(w.y) + Sq(w.z) + Sq(w.x)
  {
  }

  lemma CrossWithHelperZ(w: Vector3)
    ensures Cross(Vector3(Abs(w.x), Abs(w.y), 1.0), w).x == Abs(w.y) * w.z - w.y
    ensures Cross(Vector3(Abs(w.x), Abs(w.y), 1.0), w).y == w.x - Abs(w.x) * w.z
  {
  }

  lemma CrossWithHelperY(w: Vector3)
    ensures Cross(Vector3(Abs(w.x), 1.0, Abs(w.z)), w).x == w.z - Abs(w.z) * w.y
    ensures Cross(Vector3(Abs(w.x), 1.0, Abs(w.z)), w).z == Abs(w.x) * w.y - w.x
  {
  }

  lemma CrossWithHelperX(w: Vector3)
    ensures Cross(Vector3(1.0, Abs(w.y), Abs(w.z)), w).y == Abs(w.z) * w.x - w.z
    ensures Cross(Vector3(1.0, Abs(w.y), Abs(w.z)), w).z == w.y - Abs(w.y) * w.x
  {
  }

  /** If c is the smallest component of a unit vector (a, b, c), then
      (|a|, |b|, 1) is not a multiple of it: a = |a| c and b = |b| c cannot
      both hold. */
  lemma ReplacedComponentBreaksParallel(a: real, b: real, c: real)
    requires Abs(c) <= Abs(a) && Abs(c) <= Abs(b)
    requires Sq(a) + Sq(b) + Sq(c) == 1.0
    ensures a != Abs(a) * c || b != Abs(b) * c
  {
    if a != 0.0 && a == Abs(a) * c {
      ParallelForcesLongVector(a, Abs(a), c);
      SquareNonNegative(b);
    }
  }

  /** a = p c with p = |a| non-zero forces |c| = 1, and then a^2 + c^2 >= 2
      when c is the smaller of the two. */
  lemma ParallelForcesLongVector(a: real, p: real, c: real)
    requires a != 0.0 && p == Abs(a) && a == p * c && Abs(c) <= p
    ensures Sq(a) + Sq(c) >= 2.0
  {
    UnitFactor(a, p, c);
    AtLeastOneSquare(c);
    AtLeastOneSquare(a);
  }

  lemma UnitFactor(a: real, p: real, c: real)
    requires a != 0.0 && p == Abs(a) && a == p * c
    ensures Abs(c) == 1.0
  {
    if a > 0.0 {
      UnitFactorPositive(a, p, c);
    } else {
      UnitFactorNegative(a, p, c);
    }
  }

  lemma UnitFactorPositive(a: real, p: real, c: real)
    requires a > 0.0 && p == a && a == p * c
    ensures c == 1.0
  {
    CancelFactor(p, c, 1.0);
  }

  lemma UnitFactorNegative(a: real, p: real, c: real)
    requires a < 0.0 && p == -a && a == p * c
    ensures c == -1.0
  {
    CancelFactor(p, c, -1.0);
  }

  lemma CancelFactor(a: real, c: real, d: real)
    requires a != 0.0 && a * c == a * d
    ensures c == d
  {
  }

  lemma AtLeastOneSquare(a: real)
    requires Abs(a) >= 1.0
    ensures Sq(a) >= 1.0
  {
    if a < 0.0 {
      assert a * a == (-a) * (-a);
      assert (-a) * (-a) >= 1.0 * (-a);
    } else {
      assert a * a >= 1.0 * a;
    }
  }
}
