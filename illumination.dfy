/**
 * Per-vertex lighting in the rasterizer (src/components/rasterization.rs,
 * `compute_illumination`): ambient lights add their intensity; every other
 * light adds a diffuse term proportional to the cosine between the light
 * vector and the normal, and a specular term `cos^50` of the angle between
 * the mirrored light vector and the view vector, each only when its cosine
 * is positive.
 */
module Illumination {
  import opened Numerics
  import opened Vectors
  import opened Graphics
  import opened Geometry

  /** The two camera transforms `compute_illumination` applies, computed by
      the matrix library from the camera: the inverse orientation (for light
      directions) and the full camera matrix (for light positions). */
  datatype CameraTransforms = CameraTransforms(inverseOrientation: Vector3 -> Vector3, matrix: Vector3 -> Vector3)

  /** The cosine `a.b / (|a| |b|)`, with IEEE division: a zero denominator
      gives an infinity or NaN. */
  function Cosine(a: Vector3, b: Vector3, m: Libm): Float
  {
    Divide(Dot(a, b), Norm(a, m) * Norm(b, m))
  }

  /** `if cos > 0.0 { illumination += cos * intensity }`. */
  function Diffuse(c: Float, intensity: real): real
  {
    if c.Finite? && c.value > 0.0 then c.value * intensity else 0.0
  }

  /** `if cos > 0.0 { illumination += cos.powi(50) * intensity }`. */
  function Specular(c: Float, intensity: real): real
  {
    if c.Finite? && c.value > 0.0 then Power(c.value, 50) * intensity else 0.0
  }

  /** The vector from the vertex towards a non-ambient light, in camera
      space. */
  function LightVector(l: Light, vertex: Vector3, frame: CameraTransforms): Vector3
    requires !l.Ambient?
  {
    match l
    case Directional(_, direction) => frame.inverseOrientation(direction)
    case Point(_, position) => Sub(frame.matrix(position), vertex)
  }

  /** `normal * (2 n.l) - l`: the light vector mirrored about the normal. */
  function Mirrored(normal: Vector3, vl: Vector3): Vector3
  {
    Sub(MulScalar(normal, 2.0 * Dot(normal, vl)), vl)
  }

  /** What one light adds at a vertex seen from `view`. */
  function LightTerm(l: Light, vertex: Vector3, normal: Vector3, view: Vector3, frame: CameraTransforms, m: Libm): real
  {
    if l.Ambient? then l.intensity
    else
      var vl := LightVector(l, vertex, frame);
      Diffuse(Cosine(vl, normal, m), Intensity(l))
        + Specular(Cosine(Mirrored(normal, vl), view, m), Intensity(l))
  }

  /** The sum over the lights, in order. */
  function Illumination(lights: seq<Light>, vertex: Vector3, normal: Vector3, view: Vector3, frame: CameraTransforms, m: Libm): real
  {
    if lights == [] then 0.0
    else
      var n := |lights| - 1;
      Illumination(lights[..n], vertex, normal, view, frame, m) + LightTerm(lights[n], vertex, normal, view, frame, m)
  }

  /** `compute_illumination`: accumulates over the renderer's lights, with
      the view vector from the vertex to the camera. */
  method ComputeIllumination(lights: seq<Light>, camera: Camera, frame: CameraTransforms, vertex: Vector3, normal: Vector3, m: Libm)
    returns (illumination: real)
    ensures illumination == Illumination(lights, vertex, normal, Sub(camera.position, vertex), frame, m)
  {
    illumination := 0.0;
    var view := Sub(camera.position, vertex);
    var k := 0;
    while k < |lights|
      invariant 0 <= k <= |lights|
      invariant illumination == Illumination(lights[..k], vertex, normal, view, frame, m)
    {
      assert lights[..k + 1][..k] == lights[..k];
      var light := lights[k];
      if light.Ambient? {
        illumination := illumination + light.intensity;
      } else {
        var vl := LightVector(light, vertex, frame);
        var cosAlpha := Cosine(vl, normal, m);
        if cosAlpha.Finite? && cosAlpha.value > 0.0 {
          illumination := illumination + cosAlpha.value * Intensity(light);
        }
        var reflected := Mirrored(normal, vl);
        var cosBeta := Cosine(reflected, view, m);
        if cosBeta.Finite? && cosBeta.value > 0.0 {
          illumination := illumination + Power(cosBeta.value, 50) * Intensity(light);
        }
      }
      k := k + 1;
    }
    assert lights[..k] == lights;
  }

  /** The sum of the lights' intensities. */
  function IntensitySum(lights: seq<Light>): real
  {
    if lights == [] then 0.0 else IntensitySum(lights[..|lights| - 1]) + Intensity(lights[|lights| - 1])
  }

  /** With only ambient lights, the illumination is the sum of their
      intensities wherever the vertex is and whatever its normal. */
  lemma {:induction false} AmbientOnlyIsIntensitySum(lights: seq<Light>, vertex: Vector3, normal: Vector3, view: Vector3, frame: CameraTransforms, m: Libm)
    requires forall i :: 0 <= i < |lights| ==> lights[i].Ambient?
    ensures Illumination(lights, vertex, normal, view, frame, m) == IntensitySum(lights)
  {
    if lights != [] {
      var n := |lights| - 1;
      assert forall i :: 0 <= i < n ==> lights[..n][i] == lights[i];
      AmbientOnlyIsIntensitySum(lights[..n], vertex, normal, view, frame, m);
    }
  }

  /** Lights contribute independently: the illumination of two light lists
      one after the other is the sum of their illuminations. */
  lemma {:induction false} IlluminationSplits(a: seq<Light>, b: seq<Light>, vertex: Vector3, normal: Vector3, view: Vector3, frame: CameraTransforms, m: Libm)
    ensures Illumination(a + b, vertex, normal, view, frame, m)
         == Illumination(a, vertex, normal, view, frame, m) + Illumination(b, vertex, normal, view, frame, m)
    decreases |b|
  {
    if b == [] {
      assert a + b == a;
    } else {
      var n := |b| - 1;
      assert (a + b)[..|a + b| - 1] == a + b[..n];
      IlluminationSplits(a, b[..n], vertex, normal, view, frame, m);
    }
  }

  lemma NonNegativeProduct(x: real, y: real)
    requires x >= 0.0 && y >= 0.0
    ensures x * y >= 0.0
  {
  }

  lemma PositiveProduct(x: real, y: real)
    requires x > 0.0 && y > 0.0
    ensures x * y > 0.0
  {
  }

  /** No light with a non-negative intensity takes light away. */
  lemma LightTermNonNegative(l: Light, vertex: Vector3, normal: Vector3, view: Vector3, frame: CameraTransforms, m: Libm)
    requires Intensity(l) >= 0.0
    ensures LightTerm(l, vertex, normal, view, frame, m) >= 0.0
  {
    if !l.Ambient? {
      var vl := LightVector(l, vertex, frame);
      var ca := Cosine(vl, normal, m);
      var cb := Cosine(Mirrored(normal, vl), view, m);
      if ca.Finite? && ca.value > 0.0 {
        NonNegativeProduct(ca.value, Intensity(l));
      }
      if cb.Finite? && cb.value > 0.0 {
        EvenPowerNonNegative(cb.value, 25);
        NonNegativeProduct(Power(cb.value, 50), Intensity(l));
      }
    }
  }

  /** Lights of non-negative intensity give a non-negative illumination. */
  lemma {:induction false} IlluminationNonNegative(lights: seq<Light>, vertex: Vector3, normal: Vector3, view: Vector3, frame: CameraTransforms, m: Libm)
    requires forall i :: 0 <= i < |lights| ==> Intensity(lights[i]) >= 0.0
    ensures Illumination(lights, vertex, normal, view, frame, m) >= 0.0
  {
    if lights != [] {
      var n := |lights| - 1;
      assert forall i :: 0 <= i < n ==> lights[..n][i] == lights[i];
      IlluminationNonNegative(lights[..n], vertex, normal, view, frame, m);
      LightTermNonNegative(lights[n], vertex, normal, view, frame, m);
    }
  }

  /** With a lawful square root the cosine is never infinite: a zero
      denominator means a zero vector, hence a zero dot product and NaN. */
  lemma CosineNeverInfinite(a: Vector3, b: Vector3, m: Libm)
    requires Lawful(m)
    ensures Cosine(a, b, m).Finite? || Cosine(a, b, m) == NaN
  {
    if a == Zero || b == Zero {
      assert Dot(a, b) == 0.0;
    } else {
      NormPositive(a, m);
      NormPositive(b, m);
      PositiveProduct(Norm(a, m), Norm(b, m));
    }
  }

  /** A light of positive intensity lights a vertex diffusely exactly when
      the light vector makes an acute angle with the normal. */
  lemma DiffuseExactlyWhenFacing(vl: Vector3, normal: Vector3, intensity: real, m: Libm)
    requires Lawful(m) && intensity > 0.0
    ensures Diffuse(Cosine(vl, normal, m), intensity) > 0.0 <==> Dot(vl, normal) > 0.0
    ensures Diffuse(Cosine(vl, normal, m), intensity) >= 0.0
  {
    var c := Cosine(vl, normal, m);
    if vl == Zero || normal == Zero {
      assert Dot(vl, normal) == 0.0;
    } else {
      NormPositive(vl, m);
      NormPositive(normal, m);
      var y := Norm(vl, m) * Norm(normal, m);
      PositiveProduct(Norm(vl, m), Norm(normal, m));
      SignOfQuotient(Dot(vl, normal), y);
      if c.value > 0.0 {
        PositiveProduct(c.value, intensity);
      }
    }
  }

  lemma SignOfQuotient(x: real, y: real)
    requires y > 0.0
    ensures x / y > 0.0 <==> x > 0.0
  {
    if x > 0.0 {
      PositiveProduct(x, 1.0 / y);
      assert x / y == x * (1.0 / y);
    } else {
      assert x / y == -((-x) / y);
      NonNegativeProduct(-x, 1.0 / y);
      assert (-x) / y == (-x) * (1.0 / y);
    }
  }
}
