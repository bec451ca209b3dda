/**
 * Lighting in the ray tracer (src/webapp/components/raytracing.rs,
 * `compute_lighting` and `reflect_ray`): ambient lights add their
 * intensity; a point or directional light adds nothing when a sphere lies
 * between the hit point and the light, and otherwise a diffuse term
 * `i n.l / (|n| |l|)` when n.l > 0 and, for a shiny surface, a specular term
 * `i (r.v / (|r| |v|))^specular` when r.v > 0, r being the light vector
 * mirrored about the normal.
 */
module RayLighting {
  import opened Numerics
  import opened Vectors
  import opened Graphics
  import opened Illumination
  import opened RayIntersection

  /** The scene a `RayTracer` holds: its spheres and its lights. */
  datatype Scene = Scene(spheres: seq<Sphere>, lights: seq<Light>)

  /** `reflect_ray(direction, normal)`: `2 n (n.d) - d`, the direction
      mirrored about the normal. */
  function ReflectRay(direction: Vector3, normal: Vector3): Vector3
  {
    Sub(MulScalar(ScalarMul(2.0, normal), Dot(normal, direction)), direction)
  }

  /** The mirrored light vector as `compute_lighting` writes it:
      `normal * (2 n.l) * n.l - l`, with the factor n.l applied twice. */
  function MirrorAsWritten(normal: Vector3, vl: Vector3): Vector3
  {
    Sub(MulScalar(MulScalar(normal, 2.0 * Dot(normal, vl)), Dot(normal, vl)), vl)
  }

  /** The vector from the hit point towards a point light, or a
      directional light's direction. */
  function LightVectorAt(l: Light, point: Vector3): Vector3
    requires !l.Ambient?
  {
    match l
    case Point(_, position) => Sub(position, point)
    case Directional(_, direction) => direction
  }

  /** How far along the light vector a sphere can shadow: up to the light
      itself (t = 1) for a point light, without end for a directional one. */
  function ShadowLimit(l: Light): Float
    requires !l.Ambient?
  {
    if l.Point? then Finite(1.0) else PosInf
  }

  /** The ray and range of the shadow test. */
  function ShadowRay(l: Light, point: Vector3): Ray
    requires !l.Ambient?
  {
    Ray(point, LightVectorAt(l, point))
  }

  function ShadowRange(l: Light): Range
    requires !l.Ambient?
  {
    Range(Finite(0.001), ShadowLimit(l))
  }

  /** Some sphere lies on the way from the point to the light. */
  predicate InShadow(spheres: seq<Sphere>, l: Light, point: Vector3, m: Libm)
    requires !l.Ambient?
  {
    ClosestHit(spheres, ShadowRay(l, point), ShadowRange(l), m).Some?
  }

  /** `i * n.l / (|n| |l|)` when n.l > 0.  A zero denominator, which a
      lawful sqrt never gives here, contributes nothing. */
  function DiffuseTerm(intensity: real, normal: Vector3, vl: Vector3, m: Libm): real
  {
    var nDotL := Dot(normal, vl);
    var lengths := Norm(normal, m) * Norm(vl, m);
    if nDotL > 0.0 && lengths != 0.0 then intensity * nDotL / lengths else 0.0
  }

  /** `r.v / (|r| |v|)`, the cosine of the angle between r and v. */
  function CosineOf(r: Vector3, v: Vector3, m: Libm): real
    requires Norm(r, m) * Norm(v, m) != 0.0
  {
    Dot(r, v) / (Norm(r, m) * Norm(v, m))
  }

  /** `b.powf(e)` from the floating-point library. */
  function Powf(m: Libm, b: real, e: real): real
  {
    m.powf(b, e)
  }

  /** `i * b.powf(specular)` with `b = r.v / (|r| |v|)` when the surface is
      shiny (specular is not -1) and r.v > 0. */
  function Highlight(intensity: real, r: Vector3, view: Vector3, specular: real, m: Libm): real
  {
    var rDotV := Dot(r, view);
    var lengths := Norm(r, m) * Norm(view, m);
    if specular != -1.0 && rDotV > 0.0 && lengths != 0.0 then intensity * Powf(m, CosineOf(r, view, m), specular) else 0.0
  }

  /** The highlight `compute_lighting` adds, for r the light vector
      mirrored as the code writes it (`MirrorAsWritten`). */
  function SpecularTerm(intensity: real, normal: Vector3, vl: Vector3, view: Vector3, specular: real, m: Libm): real
  {
    Highlight(intensity, MirrorAsWritten(normal, vl), view, specular, m)
  }

  /** The highlight for r the true reflection of the light vector about
      the normal, as `reflect_ray` computes it. */
  function SpecularTermIntended(intensity: real, normal: Vector3, vl: Vector3, view: Vector3, specular: real, m: Libm): real
  {
    Highlight(intensity, ReflectRay(vl, normal), view, specular, m)
  }

  /** What one light adds at `point` with the given normal, seen along
      `view`. */
  function LightContribution(spheres: seq<Sphere>, l: Light, point: Vector3, normal: Vector3, view: Vector3, specular: real, m: Libm): real
  {
    if l.Ambient? then l.intensity
    else if InShadow(spheres, l, point, m) then 0.0
    else
      var vl := LightVectorAt(l, point);
      DiffuseTerm(Intensity(l), normal, vl, m) + SpecularTerm(Intensity(l), normal, vl, view, specular, m)
  }

  /** The sum over the lights, in order. */
  function Lighting(spheres: seq<Sphere>, lights: seq<Light>, point: Vector3, normal: Vector3, view: Vector3, specular: real, m: Libm): real
  {
    if lights == [] then 0.0
    else
      var n := |lights| - 1;
      Lighting(spheres, lights[..n], point, normal, view, specular, m) + LightContribution(spheres, lights[n], point, normal, view, specular, m)
  }

  /** What one light adds when the highlight uses the true reflection. */
  function LightContributionIntended(spheres: seq<Sphere>, l: Light, point: Vector3, normal: Vector3, view: Vector3, specular: real, m: Libm): real
  {
    if l.Ambient? then l.intensity
    else if InShadow(spheres, l, point, m) then 0.0
    else
      var vl := LightVectorAt(l, point);
      DiffuseTerm(Intensity(l), normal, vl, m) + SpecularTermIntended(Intensity(l), normal, vl, view, specular, m)
  }

  /** The lighting with every highlight taken about the true reflection:
      the corrected `compute_lighting`. */
  function LightingIntended(spheres: seq<Sphere>, lights: seq<Light>, point: Vector3, normal: Vector3, view: Vector3, specular: real, m: Libm): real
  {
    if lights == [] then 0.0
    else
      var n := |lights| - 1;
      LightingIntended(spheres, lights[..n], point, normal, view, specular, m) + LightContributionIntended(spheres, lights[n], point, normal, view, specular, m)
  }

  /** `compute_lighting(ray, normal, specular)`: the ray's origin is the hit
      point and its direction the view vector. */
  method ComputeLighting(scene: Scene, ray: Ray, normal: Vector3, specular: real, m: Libm) returns (i: real)
    ensures i == Lighting(scene.spheres, scene.lights, ray.origin, normal, ray.direction, specular, m)
  {
    i := 0.0;
    var lengthN := Norm(normal, m);
    var lengthV := Norm(ray.direction, m);
    var k := 0;
    while k < |scene.lights|
      invariant 0 <= k <= |scene.lights|
      invariant i == Lighting(scene.spheres, scene.lights[..k], ray.origin, normal, ray.direction, specular, m)
    {
      assert scene.lights[..k + 1][..k] == scene.lights[..k];
      var add := LightAdds(scene, scene.lights[k], ray, normal, specular, lengthN, lengthV, m);
      i := i + add;
      k := k + 1;
    }
    assert scene.lights[..k] == scene.lights;
  }

  /** The body of the loop over the lights: what one light adds. */
  method LightAdds(scene: Scene, light: Light, ray: Ray, normal: Vector3, specular: real, lengthN: real, lengthV: real, m: Libm)
    returns (add: real)
    requires lengthN == Norm(normal, m) && lengthV == Norm(ray.direction, m)
    ensures add == LightContribution(scene.spheres, light, ray.origin, normal, ray.direction, specular, m)
  {
    if light.Ambient? {
      return light.intensity;
    }
    var vecL := LightVectorAt(light, ray.origin);
    var tMax := ShadowLimit(light);
    var intersection := ClosestIntersection(scene.spheres, Ray(ray.origin, vecL), Range(Finite(0.001), tMax), m);
    if intersection.Some? {
      return 0.0;
    }
    assert !InShadow(scene.spheres, light, ray.origin, m);
    add := 0.0;
    var nDotL := Dot(normal, vecL);
    if nDotL > 0.0 && lengthN * Norm(vecL, m) != 0.0 {
      add := add + Intensity(light) * nDotL / (lengthN * Norm(vecL, m));
    }
    assert add == DiffuseTerm(Intensity(light), normal, vecL, m);
    var highlight := SpecularAdds(light, vecL, ray, normal, specular, lengthV, m);
    add := add + highlight;
  }

  /** The specular part of the loop body. */
  method SpecularAdds(light: Light, vecL: Vector3, ray: Ray, normal: Vector3, specular: real, lengthV: real, m: Libm)
    returns (highlight: real)
    requires lengthV == Norm(ray.direction, m)
    ensures highlight == SpecularTerm(Intensity(light), normal, vecL, ray.direction, specular, m)
  {
    highlight := 0.0;
    if specular != -1.0 {
      var nDotL := Dot(normal, vecL);
      var vecR := Sub(MulScalar(MulScalar(normal, 2.0 * nDotL), Dot(normal, vecL)), vecL);
      highlight := HighlightAdds(Intensity(light), vecR, ray.direction, specular, lengthV, m);
    }
  }

  /** The highlight for a shiny surface once the mirrored vector is known. */
  method HighlightAdds(intensity: real, vecR: Vector3, view: Vector3, specular: real, lengthV: real, m: Libm)
    returns (highlight: real)
    requires specular != -1.0 && lengthV == Norm(view, m)
    ensures highlight == Highlight(intensity, vecR, view, specular, m)
  {
    highlight := 0.0;
    var rDotV := Dot(vecR, view);
    if rDotV > 0.0 {
      var lengths := Norm(vecR, m) * lengthV;
      if lengths != 0.0 {
        var b := CosineOf(vecR, view, m);
        highlight := intensity * Powf(m, b, specular);
      }
    }
  }

  /** --- Reflection. --- */

  /** About a unit normal the mirror keeps the component along the normal. */
  lemma ReflectKeepsNormalComponent(d: Vector3, n: Vector3)
    requires Dot(n, n) == 1.0
    ensures Dot(ReflectRay(d, n), n) == Dot(d, n)
  {
    var k := Dot(n, d);
    assert Dot(ReflectRay(d, n), n) == 2.0 * k * Dot(n, n) - Dot(d, n);
  }

  /** About a unit normal the mirror keeps the length. */
  lemma ReflectPreservesLength(d: Vector3, n: Vector3)
    requires Dot(n, n) == 1.0
    ensures Dot(ReflectRay(d, n), ReflectRay(d, n)) == Dot(d, d)
  {
    var k := Dot(n, d);
    var r := ReflectRay(d, n);
    assert r == Sub(MulScalar(n, 2.0 * k), d);
    assert Dot(r, r) == 4.0 * (k * k) * Dot(n, n) - 4.0 * k * Dot(n, d) + Dot(d, d);
  }

  /** Mirroring twice about a unit normal gives the direction back. */
  lemma ReflectTwice(d: Vector3, n: Vector3)
    requires Dot(n, n) == 1.0
    ensures ReflectRay(ReflectRay(d, n), n) == d
  {
    ReflectKeepsNormalComponent(d, n);
    DotSymmetric(ReflectRay(d, n), n);
    DotSymmetric(d, n);
  }

  /** The mirror as `compute_lighting` writes it agrees with the reflection
      about a unit normal only when n.l is 0 or 1, that is when the light is
      grazing or falls along the normal. */
  lemma MirrorAsWrittenOnlyAgreesAtZeroOrOne(n: Vector3, l: Vector3)
    requires Dot(n, n) == 1.0
    ensures MirrorAsWritten(n, l) == ReflectRay(l, n) <==> Dot(n, l) == 0.0 || Dot(n, l) == 1.0
  {
    var k := Dot(n, l);
    var e := 2.0 * k * (k - 1.0);
    MirrorDecomposes(n, l);
    if MirrorAsWritten(n, l) == ReflectRay(l, n) {
      assert MulScalar(n, e) == Zero;
      assert Dot(MulScalar(n, e), n) == e * Dot(n, n);
      if k != 0.0 {
        assert (2.0 * k) * (k - 1.0) == 0.0;
        ZeroProduct(2.0 * k, k - 1.0);
      }
    }
  }

  /** The source's mirror is the reflection plus 2k(k - 1) times the
      normal, k being n.l. */
  lemma MirrorDecomposes(n: Vector3, l: Vector3)
    ensures MirrorAsWritten(n, l) == Add(ReflectRay(l, n), MulScalar(n, 2.0 * Dot(n, l) * (Dot(n, l) - 1.0)))
  {
    MirrorWith(n, l, Dot(n, l));
  }

  /** The decomposition for any factor k in place of n.l. */
  lemma MirrorWith(n: Vector3, l: Vector3, k: real)
    ensures Sub(MulScalar(MulScalar(n, 2.0 * k), k), l)
         == Add(Sub(MulScalar(ScalarMul(2.0, n), k), l), MulScalar(n, 2.0 * k * (k - 1.0)))
  {
    var p := (2.0 * k) * k;
    calc {
      Sub(MulScalar(MulScalar(n, 2.0 * k), k), l);
      == { ScaledTwice(n, 2.0 * k, k); }
      Sub(MulScalar(n, p), l);
      == { SplitScale(n, l, p, 2.0 * k); }
      Add(Sub(MulScalar(n, 2.0 * k), l), MulScalar(n, p - 2.0 * k));
      == { assert p - 2.0 * k == 2.0 * k * (k - 1.0); ScaledTwice(n, 2.0, k); }
      Add(Sub(MulScalar(ScalarMul(2.0, n), k), l), MulScalar(n, 2.0 * k * (k - 1.0)));
    }
  }

  lemma ScaledTwice(v: Vector3, a: real, b: real)
    ensures MulScalar(MulScalar(v, a), b) == MulScalar(v, a * b)
  {
  }

  lemma SplitScale(v: Vector3, l: Vector3, p: real, q: real)
    ensures Sub(MulScalar(v, p), l) == Add(Sub(MulScalar(v, q), l), MulScalar(v, p - q))
  {
  }

  /** A light vector of length 7 at n.l = 2 from the normal (0,0,1). */
  const SlantedLight := Vector3(6.0, 3.0, 2.0)

  /** With the normal (0,0,1) and the light vector (6,3,2), the source's
      mirror is (-6,-3,6), where the reflection is (-6,-3,2). */
  lemma MirrorAsWrittenCounterexample()
    ensures MirrorAsWritten(UnitZ, SlantedLight) != ReflectRay(SlantedLight, UnitZ)
    ensures MirrorAsWritten(UnitZ, SlantedLight) == Vector3(-6.0, -3.0, 6.0)
    ensures ReflectRay(SlantedLight, UnitZ) == Vector3(-6.0, -3.0, 2.0)
  {
    assert Dot(UnitZ, UnitZ) == 1.0;
    assert Dot(UnitZ, SlantedLight) == 2.0;
    MirrorAsWrittenOnlyAgreesAtZeroOrOne(UnitZ, SlantedLight);
    SlantedMirrors();
  }

  lemma SlantedMirrors()
    ensures MirrorAsWritten(UnitZ, SlantedLight) == Vector3(-6.0, -3.0, 6.0)
    ensures ReflectRay(SlantedLight, UnitZ) == Vector3(-6.0, -3.0, 2.0)
  {
    MirrorOfAxisZ(6.0, 3.0, 2.0);
    ReflectOfAxisZ(6.0, 3.0, 2.0);
  }

  /** About the z axis the source's mirror of (a,b,c) is (-a, -b, 2c^2 - c). */
  lemma MirrorOfAxisZ(a: real, b: real, c: real)
    ensures MirrorAsWritten(UnitZ, Vector3(a, b, c)) == Vector3(-a, -b, 2.0 * c * c - c)
  {
    assert Dot(UnitZ, Vector3(a, b, c)) == c;
  }

  /** About the z axis the reflection of (a,b,c) is (-a, -b, c). */
  lemma ReflectOfAxisZ(a: real, b: real, c: real)
    ensures ReflectRay(Vector3(a, b, c), UnitZ) == Vector3(-a, -b, c)
  {
    assert Dot(UnitZ, Vector3(a, b, c)) == c;
  }

  /** About a unit normal, the code's highlight and the corrected one are
      the same when n.l is 0 or 1. */
  lemma SpecularTermsAgreeAtZeroOrOne(intensity: real, normal: Vector3, vl: Vector3, view: Vector3, specular: real, m: Libm)
    requires Dot(normal, normal) == 1.0 && (Dot(normal, vl) == 0.0 || Dot(normal, vl) == 1.0)
    ensures SpecularTerm(intensity, normal, vl, view, specular, m) == SpecularTermIntended(intensity, normal, vl, view, specular, m)
  {
    MirrorAsWrittenOnlyAgreesAtZeroOrOne(normal, vl);
  }

  /** For the normal (0,0,1), the light vector (a,b,c) = (6,3,2) and the
      view (p,q,r) = (3,0,4), the code's mirror (-6,-3,6) faces the viewer
      (r.v = 6), while the reflection (-6,-3,2) faces away (r.v = -10); so
      by `SpecularExceedsIntended` and `LightingExceedsIntended` the code
      adds a highlight there that the corrected lighting does not. */
  lemma SpecularAsWrittenCounterexample(a: real, b: real, c: real, p: real, q: real, r: real)
    requires a == 6.0 && b == 3.0 && c == 2.0 && p == 3.0 && q == 0.0 && r == 4.0
    ensures Dot(MirrorAsWritten(UnitZ, Vector3(a, b, c)), Vector3(p, q, r)) == 6.0
    ensures Dot(ReflectRay(Vector3(a, b, c), UnitZ), Vector3(p, q, r)) == -10.0
  {
    MirrorsMeetViewAboutZ(Vector3(a, b, c), Vector3(p, q, r));
  }

  /** About the z axis, how the two mirrors of l meet a view vector v. */
  lemma MirrorsMeetViewAboutZ(l: Vector3, v: Vector3)
    ensures Dot(MirrorAsWritten(UnitZ, l), v) == -l.x * v.x - l.y * v.y + (2.0 * l.z * l.z - l.z) * v.z
    ensures Dot(ReflectRay(l, UnitZ), v) == -l.x * v.x - l.y * v.y + l.z * v.z
  {
    MirrorOfAxisZ(l.x, l.y, l.z);
    ReflectOfAxisZ(l.x, l.y, l.z);
  }

  /** Where the code's mirror faces the viewer and the reflection does
      not, a shiny surface gets a highlight from the code and none from
      the corrected lighting. */
  lemma SpecularExceedsIntended(intensity: real, normal: Vector3, vl: Vector3, view: Vector3, specular: real, m: Libm)
    requires Lawful(m) && intensity > 0.0 && specular != -1.0
    requires Dot(MirrorAsWritten(normal, vl), view) > 0.0 && Dot(ReflectRay(vl, normal), view) <= 0.0
    ensures SpecularTerm(intensity, normal, vl, view, specular, m) > 0.0
    ensures SpecularTermIntended(intensity, normal, vl, view, specular, m) == 0.0
  {
    HighlightPositive(intensity, MirrorAsWritten(normal, vl), view, specular, m);
    HighlightFacingAway(intensity, ReflectRay(vl, normal), view, specular, m);
  }

  /** A shiny surface whose mirrored vector faces the viewer gets a
      positive highlight from a light of positive intensity. */
  lemma HighlightPositive(intensity: real, r: Vector3, view: Vector3, specular: real, m: Libm)
    requires Lawful(m) && intensity > 0.0 && specular != -1.0 && Dot(r, view) > 0.0
    ensures Highlight(intensity, r, view, specular, m) > 0.0
  {
    LengthsPositive(r, view, m);
    PositiveQuotient(Dot(r, view), Norm(r, m) * Norm(view, m));
    assert Powf(m, CosineOf(r, view, m), specular) > 0.0;
    PositiveProduct(intensity, Powf(m, CosineOf(r, view, m), specular));
  }

  /** A mirrored vector facing away from the viewer adds no highlight. */
  lemma HighlightFacingAway(intensity: real, r: Vector3, view: Vector3, specular: real, m: Libm)
    requires Dot(r, view) <= 0.0
    ensures Highlight(intensity, r, view, specular, m) == 0.0
  {
  }

  lemma PositiveProduct(x: real, y: real)
    requires x > 0.0 && y > 0.0
    ensures x * y > 0.0
  {
  }

  /** A lone directional light whose code-mirror faces the viewer while its
      reflection does not lights the point more in the code than in the
      corrected lighting. */
  lemma LightingExceedsIntended(intensity: real, direction: Vector3, point: Vector3, normal: Vector3, view: Vector3, specular: real, m: Libm)
    requires Lawful(m) && intensity > 0.0 && specular != -1.0
    requires Dot(MirrorAsWritten(normal, direction), view) > 0.0 && Dot(ReflectRay(direction, normal), view) <= 0.0
    ensures Lighting([], [Directional(intensity, direction)], point, normal, view, specular, m)
          > LightingIntended([], [Directional(intensity, direction)], point, normal, view, specular, m)
  {
    SpecularExceedsIntended(intensity, normal, direction, view, specular, m);
    UnshadowedDirectionalLight(intensity, direction, point, normal, view, specular, m);
  }

  /** With no spheres a directional light is never shadowed, so the two
      lightings differ exactly by their highlights. */
  lemma UnshadowedDirectionalLight(intensity: real, direction: Vector3, point: Vector3, normal: Vector3, view: Vector3, specular: real, m: Libm)
    ensures Lighting([], [Directional(intensity, direction)], point, normal, view, specular, m)
          - LightingIntended([], [Directional(intensity, direction)], point, normal, view, specular, m)
         == SpecularTerm(intensity, normal, direction, view, specular, m)
          - SpecularTermIntended(intensity, normal, direction, view, specular, m)
  {
    var l := Directional(intensity, direction);
    assert [l][..0] == [];
    assert !InShadow([], l, point, m) by {
      ClosestHitSpec([], ShadowRay(l, point), ShadowRange(l), m);
    }
  }

  /** Every point or directional light meets the normal at n.l = 0 or 1. */
  predicate MirrorsAgree(lights: seq<Light>, point: Vector3, normal: Vector3)
  {
    forall i :: 0 <= i < |lights| && !lights[i].Ambient? ==>
      Dot(normal, LightVectorAt(lights[i], point)) == 0.0 || Dot(normal, LightVectorAt(lights[i], point)) == 1.0
  }

  /** About a unit normal, the code's lighting equals the corrected
      lighting when every light meets the normal at n.l = 0 or 1. */
  lemma {:induction false} LightingAgreesAtZeroOrOne(spheres: seq<Sphere>, lights: seq<Light>, point: Vector3, normal: Vector3, view: Vector3, specular: real, m: Libm)
    requires Dot(normal, normal) == 1.0 && MirrorsAgree(lights, point, normal)
    ensures Lighting(spheres, lights, point, normal, view, specular, m) == LightingIntended(spheres, lights, point, normal, view, specular, m)
  {
    if lights != [] {
      var n := |lights| - 1;
      assert MirrorsAgree(lights[..n], point, normal) by {
        forall i | 0 <= i < n && !lights[..n][i].Ambient?
          ensures Dot(normal, LightVectorAt(lights[..n][i], point)) == 0.0 || Dot(normal, LightVectorAt(lights[..n][i], point)) == 1.0
        {
          assert lights[..n][i] == lights[i];
        }
      }
      LightingAgreesAtZeroOrOne(spheres, lights[..n], point, normal, view, specular, m);
      var l := lights[n];
      if !l.Ambient? && !InShadow(spheres, l, point, m) {
        SpecularTermsAgreeAtZeroOrOne(Intensity(l), normal, LightVectorAt(l, point), view, specular, m);
      }
    }
  }

  /** --- Lighting. --- */

  /** With only ambient lights, the lighting is the sum of their intensities
      wherever the point is and whatever the scene holds. */
  lemma {:induction false} AmbientOnlyLighting(spheres: seq<Sphere>, lights: seq<Light>, point: Vector3, normal: Vector3, view: Vector3, specular: real, m: Libm)
    requires forall i :: 0 <= i < |lights| ==> lights[i].Ambient?
    ensures Lighting(spheres, lights, point, normal, view, specular, m) == IntensitySum(lights)
  {
    if lights != [] {
      var n := |lights| - 1;
      AmbientOnlyLighting(spheres, lights[..n], point, normal, view, specular, m);
    }
  }

  /** A point or directional light behind a sphere adds nothing, however
      bright it is. */
  lemma ShadowedLightAddsNothing(spheres: seq<Sphere>, l: Light, point: Vector3, normal: Vector3, view: Vector3, specular: real, m: Libm)
    requires !l.Ambient? && InShadow(spheres, l, point, m)
    ensures LightContribution(spheres, l, point, normal, view, specular, m) == 0.0
  {
  }

  /** A point light is shadowed only by a sphere met strictly between the
      point (past 0.001) and the light itself (t = 1), and the shadow test
      finds a root of that sphere. */
  lemma PointLightShadowIsBetween(spheres: seq<Sphere>, l: Light, point: Vector3, m: Libm)
    requires l.Point? && InShadow(spheres, l, point, m)
    ensures var (t, i) := ClosestHit(spheres, ShadowRay(l, point), ShadowRange(l), m).value;
      && 0.001 < t < 1.0 && i < |spheres|
      && (Finite(t) == IntersectRaySphere(ShadowRay(l, point), spheres[i], m).0
          || Finite(t) == IntersectRaySphere(ShadowRay(l, point), spheres[i], m).1)
  {
    ClosestHitSpec(spheres, ShadowRay(l, point), ShadowRange(l), m);
    var (t, i) := ClosestHit(spheres, ShadowRay(l, point), ShadowRange(l), m).value;
    IsinIsOpenInterval(ShadowRange(l), Finite(t));
  }

  /** An unshadowed light with no specular highlight lights the point
      exactly when it faces the normal. */
  lemma DiffuseOnlyWhenFacing(intensity: real, normal: Vector3, vl: Vector3, m: Libm)
    requires Lawful(m) && intensity > 0.0
    ensures DiffuseTerm(intensity, normal, vl, m) > 0.0 <==> Dot(normal, vl) > 0.0
    ensures DiffuseTerm(intensity, normal, vl, m) >= 0.0
  {
    if Dot(normal, vl) > 0.0 {
      LengthsPositive(normal, vl, m);
      PositiveQuotient(intensity * Dot(normal, vl), Norm(normal, m) * Norm(vl, m));
    }
  }

  /** Two vectors with a non-zero dot product are both non-zero, so their
      lengths are positive. */
  lemma LengthsPositive(a: Vector3, b: Vector3, m: Libm)
    requires Lawful(m) && Dot(a, b) != 0.0
    ensures Norm(a, m) * Norm(b, m) > 0.0
  {
    assert a != Zero && b != Zero;
    NormPositive(a, m);
    NormPositive(b, m);
  }

  lemma PositiveQuotient(x: real, y: real)
    requires x > 0.0 && y > 0.0
    ensures x / y > 0.0
  {
  }

  /** Lights of non-negative intensity never darken: each one adds a
      non-negative amount. */
  lemma ContributionNonNegative(spheres: seq<Sphere>, l: Light, point: Vector3, normal: Vector3, view: Vector3, specular: real, m: Libm)
    requires Lawful(m) && l.intensity >= 0.0
    ensures LightContribution(spheres, l, point, normal, view, specular, m) >= 0.0
  {
    if !l.Ambient? && !InShadow(spheres, l, point, m) {
      var vl := LightVectorAt(l, point);
      DiffuseNonNegative(Intensity(l), normal, vl, m);
      HighlightNonNegative(Intensity(l), MirrorAsWritten(normal, vl), view, specular, m);
    }
  }

  lemma DiffuseNonNegative(intensity: real, normal: Vector3, vl: Vector3, m: Libm)
    requires Lawful(m) && intensity >= 0.0
    ensures DiffuseTerm(intensity, normal, vl, m) >= 0.0
  {
    var nDotL := Dot(normal, vl);
    if nDotL > 0.0 {
      LengthsPositive(normal, vl, m);
      NonNegativeProduct(intensity, nDotL);
      NonNegativeQuotient(intensity * nDotL, Norm(normal, m) * Norm(vl, m));
    }
  }

  lemma HighlightNonNegative(intensity: real, r: Vector3, view: Vector3, specular: real, m: Libm)
    requires Lawful(m) && intensity >= 0.0
    ensures Highlight(intensity, r, view, specular, m) >= 0.0
  {
    var rDotV := Dot(r, view);
    if rDotV > 0.0 {
      LengthsPositive(r, view, m);
      PositiveQuotient(rDotV, Norm(r, m) * Norm(view, m));
      assert Powf(m, CosineOf(r, view, m), specular) > 0.0;
      NonNegativeProduct(intensity, Powf(m, CosineOf(r, view, m), specular));
    }
  }

  lemma NonNegativeQuotient(x: real, y: real)
    requires x >= 0.0 && y > 0.0
    ensures x / y >= 0.0
  {
  }

  /** The total lighting from lights of non-negative intensity is never
      negative. */
  lemma {:induction false} LightingNonNegative(spheres: seq<Sphere>, lights: seq<Light>, point: Vector3, normal: Vector3, view: Vector3, specular: real, m: Libm)
    requires Lawful(m)
    requires forall i :: 0 <= i < |lights| ==> lights[i].intensity >= 0.0
    ensures Lighting(spheres, lights, point, normal, view, specular, m) >= 0.0
  {
    if lights != [] {
      var n := |lights| - 1;
      LightingNonNegative(spheres, lights[..n], point, normal, view, specular, m);
      ContributionNonNegative(spheres, lights[n], point, normal, view, specular, m);
    }
  }

  /** Lights add up: the lighting from two lists of lights is the sum of
      the lighting from each. */
  lemma {:induction false} LightingSplits(spheres: seq<Sphere>, a: seq<Light>, b: seq<Light>, point: Vector3, normal: Vector3, view: Vector3, specular: real, m: Libm)
    ensures Lighting(spheres, a + b, point, normal, view, specular, m)
         == Lighting(spheres, a, point, normal, view, specular, m) + Lighting(spheres, b, point, normal, view, specular, m)
    decreases |b|
  {
    if b == [] {
      assert a + b == a;
    } else {
      var n := |b| - 1;
      assert (a + b)[..|a + b| - 1] == a + b[..n];
      assert (a + b)[|a + b| - 1] == b[n];
      LightingSplits(spheres, a, b[..n], point, normal, view, specular, m);
    }
  }
}
