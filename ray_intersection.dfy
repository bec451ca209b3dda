/**
 * Ray-sphere intersection in the ray tracer
 * (src/webapp/components/raytracing.rs, `Range::isin`,
 * `intersect_ray_sphere` and `closest_intersection`): the two roots of the
 * quadratic |o + t d - c|^2 = r^2, with +infinity for a miss, and a scan of
 * the sphere list that keeps the smallest root inside an open range.
 */
module RayIntersection {
  import opened Numerics
  import opened Vectors
  import opened Graphics

  datatype Ray = Ray(origin: Vector3, direction: Vector3)

  /** An open interval of ray parameters; the upper end may be +infinity. */
  datatype Range = Range(min: Float, max: Float)

  datatype Sphere = Sphere(center: Vector3, radius: real, color: Rgb, specular: real, reflective: real)

  /** `Range::isin`: strictly above min and strictly below max. */
  predicate Isin(range: Range, t: Float)
  {
    Less(range.min, t) && Less(t, range.max)
  }

  /** Only finite values are ever inside a range, and for a finite range
      the test is the open interval; +infinity (a miss) is never inside. */
  lemma IsinIsOpenInterval(range: Range, t: Float)
    ensures Isin(range, t) ==> t.Finite?
    ensures !Isin(range, PosInf) && !Isin(range, NaN)
    ensures range.min.Finite? && t.Finite? ==>
      (Isin(range, t) <==> range.min.value < t.value && (range.max.PosInf? || (range.max.Finite? && t.value < range.max.value)))
  {
  }

  /** The point at parameter t along the ray. */
  function At(ray: Ray, t: real): Vector3
  {
    Add(ray.origin, ScalarMul(t, ray.direction))
  }

  /** The quadratic's coefficients a, b, c and its discriminant. */
  function QuadA(ray: Ray): real
  {
    Dot(ray.direction, ray.direction)
  }

  function QuadB(ray: Ray, s: Sphere): real
  {
    2.0 * Dot(Sub(ray.origin, s.center), ray.direction)
  }

  function QuadC(ray: Ray, s: Sphere): real
  {
    Dot(Sub(ray.origin, s.center), Sub(ray.origin, s.center)) - s.radius * s.radius
  }

  function Discriminant(ray: Ray, s: Sphere): real
  {
    QuadB(ray, s) * QuadB(ray, s) - 4.0 * QuadA(ray) * QuadC(ray, s)
  }

  /** `intersect_ray_sphere`: (+inf, +inf) for a negative discriminant,
      otherwise the larger root then the smaller one (for a > 0). */
  function IntersectRaySphere(ray: Ray, s: Sphere, m: Libm): (Float, Float)
  {
    var a, b := QuadA(ray), QuadB(ray, s);
    var discriminant := Discriminant(ray, s);
    if discriminant < 0.0 then (PosInf, PosInf)
    else (Divide(-b + m.sqrt(discriminant), 2.0 * a), Divide(-b - m.sqrt(discriminant), 2.0 * a))
  }

  lemma ZeroProduct(x: real, y: real)
    requires x != 0.0 && x * y == 0.0
    ensures y == 0.0
  {
  }

  /** Any t with 2a t = -b + s, where s^2 is the discriminant, solves the
      quadratic. */
  lemma QuadraticRoot(a: real, b: real, c: real, s: real, t: real)
    requires a != 0.0 && s * s == b * b - 4.0 * a * c && t * (2.0 * a) == -b + s
    ensures a * t * t + b * t + c == 0.0
  {
    var u := t * (2.0 * a);
    assert 4.0 * a * (a * t * t + b * t + c) == u * u + 2.0 * b * u + 4.0 * a * c;
    assert u * u + 2.0 * b * u == (s - b) * (s - b) + 2.0 * b * (s - b);
    assert (s - b) * (s - b) + 2.0 * b * (s - b) == s * s - b * b;
    ZeroProduct(4.0 * a, a * t * t + b * t + c);
  }

  /** |o + t d - c|^2 expands into the quadratic plus r^2. */
  lemma DistanceAlongRay(ray: Ray, s: Sphere, t: real)
    ensures Dot(Sub(At(ray, t), s.center), Sub(At(ray, t), s.center))
         == QuadA(ray) * t * t + QuadB(ray, s) * t + QuadC(ray, s) + s.radius * s.radius
  {
    var oc, d := Sub(ray.origin, s.center), ray.direction;
    HitOffset(ray, s, t);
    ShiftedSum(oc, d, t, QuadA(ray), QuadB(ray, s), QuadC(ray, s) + s.radius * s.radius);
  }

  lemma HitOffset(ray: Ray, s: Sphere, t: real)
    ensures Sub(At(ray, t), s.center) == Add(Sub(ray.origin, s.center), ScalarMul(t, ray.direction))
  {
  }

  /** The expansion of |o + t d|^2, against coefficients given by name. */
  lemma ShiftedSum(o: Vector3, d: Vector3, t: real, qa: real, qb: real, qc: real)
    requires qa == Dot(d, d) && qb == 2.0 * Dot(o, d) && qc == Dot(o, o)
    ensures Dot(Add(o, ScalarMul(t, d)), Add(o, ScalarMul(t, d))) == qa * t * t + qb * t + qc
  {
    ShiftedSquare(o.x, d.x, t);
    ShiftedSquare(o.y, d.y, t);
    ShiftedSquare(o.z, d.z, t);
    assert qa * t * t == (d.x * d.x) * t * t + (d.y * d.y) * t * t + (d.z * d.z) * t * t;
    assert qb * t == 2.0 * (o.x * d.x) * t + 2.0 * (o.y * d.y) * t + 2.0 * (o.z * d.z) * t;
  }

  lemma ShiftedSquare(o: real, d: real, t: real)
    ensures (o + t * d) * (o + t * d) == o * o + 2.0 * (o * d) * t + (d * d) * t * t
  {
  }

  /** For a ray with a direction and a sphere it meets, both roots are
      finite and solve the quadratic, so both hit points lie on the sphere. */
  lemma RootsLieOnSphere(ray: Ray, s: Sphere, m: Libm)
    requires Lawful(m) && ray.direction != Zero && Discriminant(ray, s) >= 0.0
    ensures var (t1, t2) := IntersectRaySphere(ray, s, m);
      && t1.Finite? && t2.Finite?
      && QuadA(ray) * t1.value * t1.value + QuadB(ray, s) * t1.value + QuadC(ray, s) == 0.0
      && QuadA(ray) * t2.value * t2.value + QuadB(ray, s) * t2.value + QuadC(ray, s) == 0.0
      && Dot(Sub(At(ray, t1.value), s.center), Sub(At(ray, t1.value), s.center)) == s.radius * s.radius
      && Dot(Sub(At(ray, t2.value), s.center), Sub(At(ray, t2.value), s.center)) == s.radius * s.radius
  {
    DotSelfPositive(ray.direction);
    var root := m.sqrt(Discriminant(ray, s));
    assert root * root == Discriminant(ray, s);
    NegatedSquare(root);
    QuotientRoot(ray, s, root, IntersectRaySphere(ray, s, m).0);
    QuotientRoot(ray, s, -root, IntersectRaySphere(ray, s, m).1);
  }

  lemma NegatedSquare(x: real)
    ensures (-x) * (-x) == x * x
  {
  }

  /** The quotient (-b + root) / 2a, for a root of the discriminant and
      a > 0, is finite, solves the quadratic and puts the hit point on the
      sphere. */
  lemma QuotientRoot(ray: Ray, s: Sphere, root: real, q: Float)
    requires QuadA(ray) > 0.0 && root * root == Discriminant(ray, s)
    requires q == Divide(-QuadB(ray, s) + root, 2.0 * QuadA(ray))
    ensures q.Finite?
    ensures QuadA(ray) * q.value * q.value + QuadB(ray, s) * q.value + QuadC(ray, s) == 0.0
    ensures Dot(Sub(At(ray, q.value), s.center), Sub(At(ray, q.value), s.center)) == s.radius * s.radius
  {
    QuadraticRoot(QuadA(ray), QuadB(ray, s), QuadC(ray, s), root, q.value);
    DistanceAlongRay(ray, s, q.value);
  }

  /** A miss gives +infinity twice, which no range accepts. */
  lemma MissIsOutOfEveryRange(ray: Ray, s: Sphere, m: Libm, range: Range)
    requires Discriminant(ray, s) < 0.0
    ensures IntersectRaySphere(ray, s, m) == (PosInf, PosInf)
    ensures !Isin(range, IntersectRaySphere(ray, s, m).0) && !Isin(range, IntersectRaySphere(ray, s, m).1)
  {
  }

  /** A ray from (1,1,1) towards the origin, and the unit sphere there. */
  const DiagonalRay := Ray(Vector3(1.0, 1.0, 1.0), Vector3(-1.0, -1.0, -1.0))
  const UnitSphere := Sphere(Zero, 1.0, Black, 0.0, 0.0)

  /** The diagonal ray meets the unit sphere: the discriminant is positive
      and both roots are finite and in front of the origin. */
  lemma DiagonalRayMeetsUnitSphere(m: Libm)
    requires Lawful(m)
    ensures Discriminant(DiagonalRay, UnitSphere) == 12.0
    ensures IntersectRaySphere(DiagonalRay, UnitSphere, m).0.Finite?
    ensures IntersectRaySphere(DiagonalRay, UnitSphere, m).1.Finite?
    ensures IntersectRaySphere(DiagonalRay, UnitSphere, m).1.value <= IntersectRaySphere(DiagonalRay, UnitSphere, m).0.value
  {
    DiagonalCoefficients();
  }

  /** For a sphere centred at the origin, both hit points have the radius
      as their length. */
  lemma RootsOnSphereAtOrigin(ray: Ray, s: Sphere, m: Libm)
    requires Lawful(m) && ray.direction != Zero && Discriminant(ray, s) >= 0.0 && s.center == Zero
    ensures IntersectRaySphere(ray, s, m).0.Finite? && IntersectRaySphere(ray, s, m).1.Finite?
    ensures var t1 := IntersectRaySphere(ray, s, m).0.value;
      Dot(At(ray, t1), At(ray, t1)) == s.radius * s.radius
    ensures var t2 := IntersectRaySphere(ray, s, m).1.value;
      Dot(At(ray, t2), At(ray, t2)) == s.radius * s.radius
  {
    RootsLieOnSphere(ray, s, m);
    var (t1, t2) := IntersectRaySphere(ray, s, m);
    OnSphereAtOrigin(ray, s, t1.value);
    OnSphereAtOrigin(ray, s, t2.value);
  }

  lemma OnSphereAtOrigin(ray: Ray, s: Sphere, t: real)
    requires s.center == Zero
    requires Dot(Sub(At(ray, t), s.center), Sub(At(ray, t), s.center)) == s.radius * s.radius
    ensures Dot(At(ray, t), At(ray, t)) == s.radius * s.radius
  {
    SubZero(At(ray, t));
  }

  lemma DiagonalCoefficients()
    ensures QuadA(DiagonalRay) == 3.0
    ensures QuadB(DiagonalRay, UnitSphere) == -6.0
    ensures QuadC(DiagonalRay, UnitSphere) == 2.0
    ensures Discriminant(DiagonalRay, UnitSphere) == 12.0
  {
    assert Sub(DiagonalRay.origin, UnitSphere.center) == Vector3(1.0, 1.0, 1.0);
  }

  lemma SubZero(v: Vector3)
    ensures Sub(v, Zero) == v
  {
  }

  /** An in-range root of sphere j. */
  predicate HitsInRange(spheres: seq<Sphere>, ray: Ray, range: Range, m: Libm, j: nat)
    requires j < |spheres|
  {
    Isin(range, IntersectRaySphere(ray, spheres[j], m).0) || Isin(range, IntersectRaySphere(ray, spheres[j], m).1)
  }

  /** Every in-range root of sphere j is at least t. */
  predicate NoCloserRoot(spheres: seq<Sphere>, ray: Ray, range: Range, m: Libm, j: nat, t: Float)
    requires j < |spheres|
  {
    var (t1, t2) := IntersectRaySphere(ray, spheres[j], m);
    (Isin(range, t1) ==> !Less(t1, t)) && (Isin(range, t2) ==> !Less(t2, t))
  }

  /** Every in-range root of sphere j is greater than t. */
  predicate OnlyFartherRoots(spheres: seq<Sphere>, ray: Ray, range: Range, m: Libm, j: nat, t: Float)
    requires j < |spheres|
  {
    var (t1, t2) := IntersectRaySphere(ray, spheres[j], m);
    (Isin(range, t1) ==> Less(t, t1)) && (Isin(range, t2) ==> Less(t, t2))
  }

  /** One step of the scan: sphere k's first root replaces the best so far
      when strictly smaller and in range, then its second root likewise. */
  function ScanStep(best: (Float, Option<nat>), roots: (Float, Float), range: Range, k: nat): (Float, Option<nat>)
  {
    var after1 := if Less(roots.0, best.0) && Isin(range, roots.0) then (roots.0, Some(k)) else best;
    if Less(roots.1, after1.0) && Isin(range, roots.1) then (roots.1, Some(k)) else after1
  }

  /** The closest root so far and its sphere after the first k spheres. */
  function Scan(spheres: seq<Sphere>, ray: Ray, range: Range, m: Libm, k: nat): (Float, Option<nat>)
    requires k <= |spheres|
  {
    if k == 0 then (PosInf, None)
    else ScanStep(Scan(spheres, ray, range, m, k - 1), IntersectRaySphere(ray, spheres[k - 1], m), range, k - 1)
  }

  /** What the scan keeps after k spheres: nothing and +infinity until
      some root is in range; afterwards an in-range root of an earlier
      sphere that no in-range root undercuts, and that every sphere before
      it exceeds. */
  predicate ScanKeeps(spheres: seq<Sphere>, ray: Ray, range: Range, m: Libm, k: nat, best: (Float, Option<nat>))
    requires k <= |spheres|
  {
    var (t, s) := best;
    && (s.None? <==> forall j :: 0 <= j < k ==> !HitsInRange(spheres, ray, range, m, j))
    && (s.None? ==> t == PosInf)
    && (s.Some? ==>
          && s.value < k && Isin(range, t)
          && (t == IntersectRaySphere(ray, spheres[s.value], m).0 || t == IntersectRaySphere(ray, spheres[s.value], m).1)
          && (forall j :: 0 <= j < k ==> NoCloserRoot(spheres, ray, range, m, j, t))
          && (forall j :: 0 <= j < s.value ==> OnlyFartherRoots(spheres, ray, range, m, j, t)))
  }

  lemma {:induction false} ScanInvariant(spheres: seq<Sphere>, ray: Ray, range: Range, m: Libm, k: nat)
    requires k <= |spheres|
    ensures ScanKeeps(spheres, ray, range, m, k, Scan(spheres, ray, range, m, k))
  {
    if k > 0 {
      var prev := Scan(spheres, ray, range, m, k - 1);
      ScanInvariant(spheres, ray, range, m, k - 1);
      StepKeeps(spheres, ray, range, m, k, prev);
      assert Scan(spheres, ray, range, m, k) == ScanStep(prev, IntersectRaySphere(ray, spheres[k - 1], m), range, k - 1);
    }
  }

  /** One step of the scan preserves what it keeps. */
  lemma StepKeeps(spheres: seq<Sphere>, ray: Ray, range: Range, m: Libm, n: nat, best: (Float, Option<nat>))
    requires 0 < n <= |spheres| && ScanKeeps(spheres, ray, range, m, n - 1, best)
    ensures ScanKeeps(spheres, ray, range, m, n, ScanStep(best, IntersectRaySphere(ray, spheres[n - 1], m), range, n - 1))
  {
    var k := n - 1;
    var roots := IntersectRaySphere(ray, spheres[k], m);
    var last := ScanStep(best, roots, range, k);
    var after1 := if Less(roots.0, best.0) && Isin(range, roots.0) then (roots.0, Some(k)) else best;
    StepKeepsBound(best.0, after1.0, roots, range);
    StepFindsHit(spheres, ray, range, m, k, best);
    forall j | 0 <= j < k + 1
      ensures NoCloserRoot(spheres, ray, range, m, j, last.0)
    {
      if j < k {
        if best.1.None? {
          assert !HitsInRange(spheres, ray, range, m, j);
        }
        NotLessIsTransitive(spheres, ray, range, m, j, best.0, last.0);
      }
    }
    if last.1.Some? && last.1.value == k {
      forall j | 0 <= j < k
        ensures OnlyFartherRoots(spheres, ray, range, m, j, last.0)
      {
        if best.1.None? {
          assert !HitsInRange(spheres, ray, range, m, j);
        }
        FartherThanBetter(spheres, ray, range, m, j, best.0, last.0);
      }
    }
  }

  /** The scan has found something after a step exactly when it had
      before or the new sphere has an in-range root. */
  lemma StepFindsHit(spheres: seq<Sphere>, ray: Ray, range: Range, m: Libm, k: nat, best: (Float, Option<nat>))
    requires k < |spheres| && ScanKeeps(spheres, ray, range, m, k, best)
    ensures var last := ScanStep(best, IntersectRaySphere(ray, spheres[k], m), range, k);
      && (last.1.None? <==> best.1.None? && !HitsInRange(spheres, ray, range, m, k))
      && (last.1.None? ==> last.0 == PosInf)
      && (last.1.Some? ==> Isin(range, last.0))
      && (last.1.Some? && last.1 != best.1 ==> last.1 == Some(k))
  {
    var roots := IntersectRaySphere(ray, spheres[k], m);
    IsinIsOpenInterval(range, roots.0);
    IsinIsOpenInterval(range, roots.1);
    if best.1.None? && Isin(range, roots.0) {
      assert Less(roots.0, best.0);
    }
  }

  /** The value after a step is never above the value before it, and not
      above either in-range root of the sphere just scanned. */
  lemma StepKeepsBound(best: Float, after1: Float, roots: (Float, Float), range: Range)
    requires after1 == if Less(roots.0, best) && Isin(range, roots.0) then roots.0 else best
    ensures var last := if Less(roots.1, after1) && Isin(range, roots.1) then roots.1 else after1;
      && !Less(best, last) && (last == best || Less(last, best))
      && (Isin(range, roots.0) ==> !Less(roots.0, last))
      && (Isin(range, roots.1) ==> !Less(roots.1, last))
      && ((Less(roots.0, best) && Isin(range, roots.0)) || (Less(roots.1, after1) && Isin(range, roots.1)) ==> Less(last, best))
  {
    var last := if Less(roots.1, after1) && Isin(range, roots.1) then roots.1 else after1;
    LessIsStrictOrder(roots.1, after1, best);
    LessIsStrictOrder(roots.0, roots.1, best);
    LessIsStrictOrder(roots.0, after1, last);
    LessIsStrictOrder(last, after1, best);
    LessIsStrictOrder(roots.0, roots.1, after1);
    LessIsStrictOrder(roots.1, roots.0, best);
    LessIsStrictOrder(after1, roots.0, best);
    LessIsStrictOrder(best, after1, last);
    LessIsStrictOrder(best, roots.0, last);
    LessIsStrictOrder(roots.0, best, last);
    LessIsStrictOrder(roots.1, best, last);
    LessIsStrictOrder(roots.0, last, after1);
  }

  lemma NotLessIsTransitive(spheres: seq<Sphere>, ray: Ray, range: Range, m: Libm, j: nat, best: Float, last: Float)
    requires j < |spheres| && NoCloserRoot(spheres, ray, range, m, j, best)
    requires last == best || Less(last, best)
    ensures NoCloserRoot(spheres, ray, range, m, j, last)
  {
    var (t1, t2) := IntersectRaySphere(ray, spheres[j], m);
    LessIsStrictOrder(t1, last, best);
    LessIsStrictOrder(t2, last, best);
  }

  lemma FartherThanBetter(spheres: seq<Sphere>, ray: Ray, range: Range, m: Libm, j: nat, best: Float, last: Float)
    requires j < |spheres| && NoCloserRoot(spheres, ray, range, m, j, best)
    requires Less(last, best)
    ensures OnlyFartherRoots(spheres, ray, range, m, j, last)
  {
    var (t1, t2) := IntersectRaySphere(ray, spheres[j], m);
    LessIsStrictOrder(last, best, t1);
    LessIsStrictOrder(last, best, t2);
    LessIsStrictOrder(t1, best, best);
    if Isin(range, t1) {
      assert !Less(t1, best);
      assert best == t1 || Less(best, t1) by {
        IsinIsOpenInterval(range, t1);
        if !best.NaN? {
          LessIsStrictOrder(best, t1, t1);
        }
      }
    }
    if Isin(range, t2) {
      assert best == t2 || Less(best, t2) by {
        IsinIsOpenInterval(range, t2);
        if !best.NaN? {
          LessIsStrictOrder(best, t2, t2);
        }
      }
    }
  }

  /** The closest in-range hit along the ray and the index of the sphere it
      belongs to, as the scan over all the spheres leaves them. */
  function ClosestHit(spheres: seq<Sphere>, ray: Ray, range: Range, m: Libm): (r: Option<(real, nat)>)
    ensures r.Some? ==> r.value.1 < |spheres| && Isin(range, Finite(r.value.0))
  {
    var best := Scan(spheres, ray, range, m, |spheres|);
    ScanInvariant(spheres, ray, range, m, |spheres|);
    match best.1
    case None => None
    case Some(i) =>
      IsinIsOpenInterval(range, best.0);
      Some((best.0.value, i))
  }

  /** What `closest_intersection` promises: nothing exactly when no sphere
      has a root inside the range; otherwise an in-range root of the named
      sphere that no in-range root of any sphere undercuts, where every
      earlier sphere's in-range roots are strictly farther (ties go to the
      first sphere in the list). */
  lemma ClosestHitSpec(spheres: seq<Sphere>, ray: Ray, range: Range, m: Libm)
    ensures ClosestHit(spheres, ray, range, m).None? <==>
      forall j :: 0 <= j < |spheres| ==> !HitsInRange(spheres, ray, range, m, j)
    ensures ClosestHit(spheres, ray, range, m).Some? ==>
      var (t, i) := ClosestHit(spheres, ray, range, m).value;
      && i < |spheres| && Isin(range, Finite(t))
      && (Finite(t) == IntersectRaySphere(ray, spheres[i], m).0 || Finite(t) == IntersectRaySphere(ray, spheres[i], m).1)
      && (forall j :: 0 <= j < |spheres| ==> NoCloserRoot(spheres, ray, range, m, j, Finite(t)))
      && (forall j :: 0 <= j < i ==> OnlyFartherRoots(spheres, ray, range, m, j, Finite(t)))
  {
    ScanInvariant(spheres, ray, range, m, |spheres|);
  }

  /** `closest_intersection`: scans the spheres in order, keeping a root
      when it is strictly below the best so far and inside the range. */
  method ClosestIntersection(spheres: seq<Sphere>, ray: Ray, range: Range, m: Libm) returns (hit: Option<(real, nat)>)
    ensures hit == ClosestHit(spheres, ray, range, m)
  {
    var closestSphere: Option<nat> := None;
    var closestT := PosInf;
    var k := 0;
    while k < |spheres|
      invariant 0 <= k <= |spheres|
      invariant (closestT, closestSphere) == Scan(spheres, ray, range, m, k)
    {
      var (t1, t2) := IntersectRaySphere(ray, spheres[k], m);
      if Less(t1, closestT) && Isin(range, t1) {
        closestT := t1;
        closestSphere := Some(k);
      }
      if Less(t2, closestT) && Isin(range, t2) {
        closestT := t2;
        closestSphere := Some(k);
      }
      k := k + 1;
    }
    ScanInvariant(spheres, ray, range, m, |spheres|);
    if closestSphere.None? {
      hit := None;
    } else {
      IsinIsOpenInterval(range, closestT);
      hit := Some((closestT.value, closestSphere.value));
    }
  }
}
