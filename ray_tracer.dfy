/**
 * The ray tracer's per-pixel work (src/webapp/components/raytracing.rs,
 * `tracy_ray`, `canvas_to_viewport` and `put_pixels`): the colour seen
 * along a ray, with recursive mirror reflections down to a depth, the
 * primary ray's direction for a canvas point, and the write of a colour
 * into the caller's RGBA buffer.
 */
module RayTracer {
  import opened Numerics
  import opened Vectors
  import opened Graphics
  import opened Framebuffer
  import opened RayIntersection
  import opened RayLighting

  /** `canvas_to_viewport(x, y, w, h)`: the canvas point scaled onto a 1 by
      1 viewport at distance 1. */
  function CanvasToViewport(x: real, y: real, w: real, h: real): (d: Vector3)
    requires w != 0.0 && h != 0.0
    ensures d.z == 1.0 && d.x * w == x && d.y * h == y
  {
    Vector3(x * 1.0 / w, y * 1.0 / h, 1.0)
  }

  /** The render loop's points `-w/2 ..= w/2` by `-h/2 ..= h/2` all look
      through the viewport square [-1/2, 1/2] by [-1/2, 1/2]. */
  lemma PrimaryRaysStayInViewport(x: int, y: int, w: nat, h: nat)
    requires 0 < w && 0 < h
    requires -(w / 2) <= x <= w / 2 && -(h / 2) <= y <= h / 2
    ensures var d := CanvasToViewport(x as real, y as real, w as real, h as real);
      -0.5 <= d.x <= 0.5 && -0.5 <= d.y <= 0.5
  {
    HalfOfExtent(x, w);
    HalfOfExtent(y, h);
  }

  lemma HalfOfExtent(x: int, w: nat)
    requires 0 < w && -(w / 2) <= x <= w / 2
    ensures -0.5 <= x as real * 1.0 / w as real <= 0.5
  {
    assert 2 * x <= w && -(w as int) <= 2 * x;
    assert 2.0 * x as real <= w as real && -(w as real) <= 2.0 * x as real;
  }

  /** nalgebra's `normalize`; the zero vector, which it turns into NaNs,
      is kept as it is. */
  function UnitNormal(v: Vector3, m: Libm): Vector3
  {
    if Norm(v, m) != 0.0 then Normalize(v, m) else v
  }

  /** The range of parameters a reflected ray looks at. */
  const ReflectionRange := Range(Finite(0.1), PosInf)

  /** `tracy_ray(ray, range, depth)`: black when the ray meets no sphere in
      the range; otherwise the nearest sphere's colour times the lighting
      at the hit point, and for a mirror-like sphere with depth left, that
      colour blended with the colour seen along the reflected ray. */
  function TraceRay(scene: Scene, ray: Ray, range: Range, depth: nat, m: Libm): Rgb
    decreases depth
  {
    match ClosestHit(scene.spheres, ray, range, m)
    case None => Black
    case Some((t, i)) =>
      var sphere := scene.spheres[i];
      var point := At(ray, t);
      var normal := UnitNormal(Sub(point, sphere.center), m);
      var view := Neg(ray.direction);
      var lighting := Lighting(scene.spheres, scene.lights, point, normal, view, sphere.specular, m);
      var local := Scale(sphere.color, lighting);
      var r := sphere.reflective;
      if r <= 0.0 || depth == 0 then local
      else
        var reflected := TraceRay(scene, Ray(point, ReflectRay(view, normal)), ReflectionRange, depth - 1, m);
        Blend(Scale(local, 1.0 - r), Scale(reflected, r))
  }

  /** The colour a hit sphere shows by its own light. */
  function LocalColor(scene: Scene, ray: Ray, t: real, i: nat, m: Libm): Rgb
    requires i < |scene.spheres|
  {
    var sphere := scene.spheres[i];
    var point := At(ray, t);
    Scale(sphere.color, Lighting(scene.spheres, scene.lights, point, UnitNormal(Sub(point, sphere.center), m), Neg(ray.direction), sphere.specular, m))
  }

  /** A ray that meets no sphere inside the range sees black. */
  lemma MissIsBlack(scene: Scene, ray: Ray, range: Range, depth: nat, m: Libm)
    requires forall j :: 0 <= j < |scene.spheres| ==> !HitsInRange(scene.spheres, ray, range, m, j)
    ensures TraceRay(scene, ray, range, depth, m) == Black
  {
    ClosestHitSpec(scene.spheres, ray, range, m);
  }

  /** A sphere that is not a mirror, or a ray with no depth left, shows the
      sphere's own lit colour and nothing reflected. */
  lemma NoReflectionShowsLocalColor(scene: Scene, ray: Ray, range: Range, depth: nat, m: Libm)
    requires ClosestHit(scene.spheres, ray, range, m).Some?
    requires var (_, i) := ClosestHit(scene.spheres, ray, range, m).value;
      scene.spheres[i].reflective <= 0.0 || depth == 0
    ensures var (t, i) := ClosestHit(scene.spheres, ray, range, m).value;
      TraceRay(scene, ray, range, depth, m) == LocalColor(scene, ray, t, i, m)
  {
  }

  /** In a scene without mirrors the recursion depth makes no difference. */
  lemma DepthIsIrrelevantWithoutMirrors(scene: Scene, ray: Ray, range: Range, d1: nat, d2: nat, m: Libm)
    requires forall j :: 0 <= j < |scene.spheres| ==> scene.spheres[j].reflective <= 0.0
    ensures TraceRay(scene, ray, range, d1, m) == TraceRay(scene, ray, range, d2, m)
  {
  }

  /** The colour seen along the ray reflected at a hit. */
  function ReflectedColor(scene: Scene, ray: Ray, t: real, i: nat, depth: nat, m: Libm): Rgb
    requires i < |scene.spheres| && depth > 0
  {
    var point := At(ray, t);
    var normal := UnitNormal(Sub(point, scene.spheres[i].center), m);
    TraceRay(scene, Ray(point, ReflectRay(Neg(ray.direction), normal)), ReflectionRange, depth - 1, m)
  }

  /** x lies between a and b, in either order. */
  predicate Within(x: real, a: real, b: real)
  {
    (a <= x <= b) || (b <= x <= a)
  }

  /** Every channel of c lies between the same channels of a and b. */
  predicate Between(c: Rgb, a: Rgb, b: Rgb)
  {
    Within(c.r, a.r, b.r) && Within(c.g, a.g, b.g) && Within(c.b, a.b, b.b)
  }

  /** A mirror of reflectivity r in (0, 1] with depth left shows
      `local * (1 - r) + reflected * r`: every channel lies between its own
      lit colour and the reflected colour, and at r = 1 it shows the
      reflection alone. */
  lemma MirrorMixesLocalAndReflected(scene: Scene, ray: Ray, range: Range, depth: nat, m: Libm)
    requires ClosestHit(scene.spheres, ray, range, m).Some? && depth > 0
    requires var (_, i) := ClosestHit(scene.spheres, ray, range, m).value;
      0.0 < scene.spheres[i].reflective <= 1.0
    ensures var (t, i) := ClosestHit(scene.spheres, ray, range, m).value;
      Between(TraceRay(scene, ray, range, depth, m), LocalColor(scene, ray, t, i, m), ReflectedColor(scene, ray, t, i, depth, m))
    ensures var (t, i) := ClosestHit(scene.spheres, ray, range, m).value;
      scene.spheres[i].reflective == 1.0 ==> TraceRay(scene, ray, range, depth, m) == ReflectedColor(scene, ray, t, i, depth, m)
  {
    var (t, i) := ClosestHit(scene.spheres, ray, range, m).value;
    MirrorBlends(scene, ray, range, depth, m, t, i);
    BlendIsBetween(LocalColor(scene, ray, t, i, m), ReflectedColor(scene, ray, t, i, depth, m), scene.spheres[i].reflective);
  }

  /** At a mirror hit with depth left the traced colour is the blend. */
  lemma MirrorBlends(scene: Scene, ray: Ray, range: Range, depth: nat, m: Libm, t: real, i: nat)
    requires ClosestHit(scene.spheres, ray, range, m) == Some((t, i)) && depth > 0
    requires 0.0 < scene.spheres[i].reflective
    ensures i < |scene.spheres|
    ensures var r := scene.spheres[i].reflective;
      TraceRay(scene, ray, range, depth, m) == Blend(Scale(LocalColor(scene, ray, t, i, m), 1.0 - r), Scale(ReflectedColor(scene, ray, t, i, depth, m), r))
  {
    ClosestHitSpec(scene.spheres, ray, range, m);
  }

  /** Blending two colours with weights 1 - r and r, r in [0, 1], stays
      between them channel by channel. */
  lemma BlendIsBetween(a: Rgb, b: Rgb, r: real)
    requires 0.0 <= r <= 1.0
    ensures Between(Blend(Scale(a, 1.0 - r), Scale(b, r)), a, b)
    ensures r == 1.0 ==> Blend(Scale(a, 1.0 - r), Scale(b, r)) == b
  {
    MixIsBetween(a.r, b.r, r);
    MixIsBetween(a.g, b.g, r);
    MixIsBetween(a.b, b.b, r);
  }

  /** `a (1 - r) + b r` for r in [0, 1] lies between a and b. */
  lemma MixIsBetween(a: real, b: real, r: real)
    requires 0.0 <= r <= 1.0
    ensures Within(a * (1.0 - r) + b * r, a, b)
    ensures r == 1.0 ==> a * (1.0 - r) + b * r == b
  {
    assert a * (1.0 - r) + b * r == a + r * (b - a);
    if a <= b {
      NonNegativeFactors(r, b - a);
      NonNegativeFactors(1.0 - r, b - a);
    } else {
      NonNegativeFactors(r, a - b);
      NonNegativeFactors(1.0 - r, a - b);
    }
  }

  /** The scene's colours, lights and reflectivities are all in their
      nominal ranges. */
  predicate Nominal(scene: Scene)
  {
    && (forall j :: 0 <= j < |scene.spheres| ==>
          && scene.spheres[j].color.r >= 0.0 && scene.spheres[j].color.g >= 0.0 && scene.spheres[j].color.b >= 0.0
          && scene.spheres[j].reflective <= 1.0)
    && (forall j :: 0 <= j < |scene.lights| ==> scene.lights[j].intensity >= 0.0)
  }

  predicate NonNegativeColor(c: Rgb)
  {
    c.r >= 0.0 && c.g >= 0.0 && c.b >= 0.0
  }

  /** With non-negative colours and intensities and reflectivities at most
      1, every channel the tracer produces is non-negative. */
  lemma {:induction false} TracedColorNonNegative(scene: Scene, ray: Ray, range: Range, depth: nat, m: Libm)
    requires Lawful(m) && Nominal(scene)
    ensures NonNegativeColor(TraceRay(scene, ray, range, depth, m))
    decreases depth
  {
    match ClosestHit(scene.spheres, ray, range, m)
    case None =>
    case Some((t, i)) =>
      var sphere := scene.spheres[i];
      var point := At(ray, t);
      var normal := UnitNormal(Sub(point, sphere.center), m);
      var view := Neg(ray.direction);
      var lighting := Lighting(scene.spheres, scene.lights, point, normal, view, sphere.specular, m);
      LightingNonNegative(scene.spheres, scene.lights, point, normal, view, sphere.specular, m);
      var local := Scale(sphere.color, lighting);
      ScaledNonNegative(sphere.color, lighting);
      var r := sphere.reflective;
      if !(r <= 0.0 || depth == 0) {
        var reflected := TraceRay(scene, Ray(point, ReflectRay(view, normal)), ReflectionRange, depth - 1, m);
        TracedColorNonNegative(scene, Ray(point, ReflectRay(view, normal)), ReflectionRange, depth - 1, m);
        ScaledNonNegative(local, 1.0 - r);
        ScaledNonNegative(reflected, r);
      }
  }

  lemma ScaledNonNegative(c: Rgb, k: real)
    requires NonNegativeColor(c) && k >= 0.0
    ensures NonNegativeColor(Scale(c, k))
  {
    NonNegativeFactors(c.r, k);
    NonNegativeFactors(c.g, k);
    NonNegativeFactors(c.b, k);
  }

  lemma NonNegativeFactors(a: real, k: real)
    requires a >= 0.0 && k >= 0.0
    ensures a * k >= 0.0
  {
  }

  /** --- Writing a pixel. --- */

  /** The byte offset `put_pixels` computes, as written: the centred point
      is moved by half the canvas size in floating point, and after the
      bounds test `4 * (x + w*y)` is truncated to an index.  None when the
      point is off the canvas. */
  function RayOffsetAsWritten(w: nat, h: nat, x: int, y: int): Option<int>
  {
    OffsetAt(w, h, w as real / 2.0 + x as real, h as real / 2.0 - y as real - 1.0)
  }

  /** The bounds test and byte offset of `put_pixels` for the column fx and
      row fy it computes. */
  function OffsetAt(w: nat, h: nat, fx: real, fy: real): Option<int>
  {
    if fx < 0.0 || fx >= w as real || fy < 0.0 || fy >= h as real then None
    else Some(Trunc(4.0 * (fx + w as real * fy)))
  }

  /** On a canvas one pixel wide and two high, the point (0,0) lands on
      byte 2, inside the first pixel rather than at the start of one, and
      the point (0,-1) lands on byte 6, so its fourth byte would be byte 9
      of an 8-byte buffer. */
  lemma OddWidthOffsetsCounterexample()
    ensures RayOffsetAsWritten(1, 2, 0, 0) == Some(2)
    ensures RayOffsetAsWritten(1, 2, 0, -1) == Some(6)
    ensures 2 % 4 != 0 && 6 + 3 >= 4 * 1 * 2
  {
    assert Trunc(4.0 * (0.5 + 1.0 * 0.0)) == 2;
    assert Trunc(4.0 * (0.5 + 1.0 * 1.0)) == 6;
  }

  /** On a canvas of even width and height the source's offset is exactly
      four bytes per pixel of the row-major cell `PixelIndex` names. */
  lemma EvenCanvasAgrees(w: nat, h: nat, x: int, y: int)
    requires w % 2 == 0 && h % 2 == 0
    ensures RayOffsetAsWritten(w, h, x, y).Some? <==> PixelIndex(w, h, x, y).Some?
    ensures PixelIndex(w, h, x, y).Some? ==> RayOffsetAsWritten(w, h, x, y) == Some(4 * PixelIndex(w, h, x, y).value)
  {
    var col, row := w / 2 + x, h / 2 - y - 1;
    ColumnClosedForm(w, x);
    RowClosedForm(h, y);
    assert (w + 1) / 2 == w / 2 && (h + 1) / 2 == h / 2;
    OffsetOnEvenCanvas(w, h, x, y);
    if 0 <= col < w && 0 <= row < h {
      assert PixelIndex(w, h, x, y) == Some(col + w * row);
    }
  }

  /** On a canvas of even sides the floating-point column and row are the
      whole numbers `w/2 + x` and `h/2 - y - 1`. */
  lemma OffsetOnEvenCanvas(w: nat, h: nat, x: int, y: int)
    requires w % 2 == 0 && h % 2 == 0
    ensures var col, row := w / 2 + x, h / 2 - y - 1;
      RayOffsetAsWritten(w, h, x, y) == if col < 0 || col >= w || row < 0 || row >= h then None else Some(4 * (col + w * row))
  {
    var col, row := w / 2 + x, h / 2 - y - 1;
    HalfOfEven(w);
    HalfOfEven(h);
    assert RayOffsetAsWritten(w, h, x, y) == OffsetAt(w, h, col as real, row as real);
    OffsetAtWholeCell(w, h, col, row);
  }

  /** At a whole column and row the bounds test is the integer one and the
      offset is exactly four bytes per cell. */
  lemma OffsetAtWholeCell(w: nat, h: nat, col: int, row: int)
    ensures OffsetAt(w, h, col as real, row as real)
         == if col < 0 || col >= w || row < 0 || row >= h then None else Some(4 * (col + w * row))
  {
    if 0 <= col < w && 0 <= row < h {
      var offset := 4 * (col + w * row);
      calc {
        4.0 * (col as real + w as real * row as real);
        { ProductOfCasts(w, row); }
        4.0 * (col as real + (w * row) as real);
        offset as real;
      }
      TruncOfInteger(offset);
    }
  }

  lemma HalfOfEven(w: nat)
    requires w % 2 == 0
    ensures w as real / 2.0 == (w / 2) as real
  {
    var k := w / 2;
    assert w == 2 * k;
    assert w as real == 2.0 * k as real;
  }

  lemma ProductOfCasts(a: int, b: int)
    ensures (a * b) as real == a as real * b as real
  {
  }

  lemma TruncOfInteger(n: int)
    ensures Trunc(n as real) == n
  {
  }

  /** `put_pixels` with the column and row computed as whole numbers (as
      the rasterizer does), which is what the source computes whenever the
      canvas has even sides: the four bytes of the addressed pixel become
      r, g, b and opaque alpha, and a point off the canvas changes nothing. */
  method PutPixels(x: int, y: int, w: nat, h: nat, color: Rgb, data: array<byte>)
    requires data.Length == 4 * w * h
    modifies data
    ensures data[..] == Painted(old(data[..]), w, h, x, y, color)
  {
    var col := Ceil(w as real / 2.0 + x as real);
    var row := Ceil(h as real / 2.0 - y as real - 1.0);
    if col < 0 || col >= w || row < 0 || row >= h {
      return;
    }
    ghost var s := data[..];
    RowMajorBounds(w, h, col, row);
    assert 4 * w * h == 4 * (w * h);
    var offset := 4 * (col + w * row);
    assert PixelIndex(w, h, x, y) == Some(col + w * row);
    data[offset + 0] := AsU8(color.r);
    data[offset + 1] := AsU8(color.g);
    data[offset + 2] := AsU8(color.b);
    data[offset + 3] := 255;
    assert data[..] == s[offset := AsU8(color.r)][offset + 1 := AsU8(color.g)][offset + 2 := AsU8(color.b)][offset + 3 := 255];
  }
}
