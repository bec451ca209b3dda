/**
 * The rasterizer's perspective projection (src/components/rasterization.rs,
 * `viewport_to_canvas`, `canvas_to_viewport`, `project_vertex` and
 * `un_project_vertex`): a camera-space point is divided by its depth onto
 * the viewport at distance 1 and scaled to canvas units; the inverse maps
 * a canvas point and a stored 1/z back to camera space.
 */
module Projection {
  import opened Vectors

  /** A rectangle's width and height, as the f32 values the divisions use. */
  datatype Size = Size(w: real, h: real)

  predicate NonDegenerate(s: Size)
  {
    s.w != 0.0 && s.h != 0.0
  }

  /** `viewport_to_canvas`: scale by canvas size over viewport size. */
  function ViewportToCanvas(canvas: Size, viewport: Size, x: real, y: real): Vec2
    requires NonDegenerate(viewport)
  {
    Vec2(x * canvas.w / viewport.w, y * canvas.h / viewport.h)
  }

  /** `canvas_to_viewport`: divide by the canvas size (the viewport size is
      not consulted, so this inverts `viewport_to_canvas` only for a unit
      viewport). */
  function CanvasToViewport(canvas: Size, x: real, y: real): Vec2
    requires NonDegenerate(canvas)
  {
    Vec2(x * 1.0 / canvas.w, y * 1.0 / canvas.h)
  }

  /** `project_vertex`: perspective division by z, then to the canvas. */
  function ProjectVertex(canvas: Size, viewport: Size, v: Vector3): Vec2
    requires NonDegenerate(viewport) && v.z != 0.0
  {
    ViewportToCanvas(canvas, viewport, v.x * 1.0 / v.z, v.y * 1.0 / v.z)
  }

  /** `un_project_vertex`: from a canvas point and the interpolated 1/z back
      to the camera-space point. */
  function UnProjectVertex(canvas: Size, x: real, y: real, z: real): Vector3
    requires NonDegenerate(canvas) && z != 0.0
  {
    var oz := 1.0 / z;
    var ux := x * oz / 1.0;
    var uy := y * oz / 1.0;
    var p2d := CanvasToViewport(canvas, ux, uy);
    Vector3(p2d.x, p2d.y, oz)
  }

  /** With the unit viewport the renderer uses, canvas and viewport
      coordinates convert back and forth without loss. */
  lemma ViewportCanvasRoundTrip(canvas: Size, x: real, y: real)
    requires NonDegenerate(canvas)
    ensures var c := ViewportToCanvas(canvas, Size(1.0, 1.0), x, y);
      CanvasToViewport(canvas, c.x, c.y) == Vec2(x, y)
    ensures var v := CanvasToViewport(canvas, x, y);
      ViewportToCanvas(canvas, Size(1.0, 1.0), v.x, v.y) == Vec2(x, y)
  {
    ScaleBack(x, canvas.w);
    ScaleBack(y, canvas.h);
  }

  lemma ScaleBack(x: real, w: real)
    requires w != 0.0
    ensures (x * w / 1.0) * 1.0 / w == x
    ensures (x * 1.0 / w) * w / 1.0 == x
  {
  }

  /** Un-projecting a projected vertex with its 1/z gives the vertex back,
      which is what lets the triangle filler recover camera-space points
      from the depth it interpolates. */
  lemma UnProjectInvertsProject(canvas: Size, v: Vector3)
    requires NonDegenerate(canvas) && v.z != 0.0
    ensures var p := ProjectVertex(canvas, Size(1.0, 1.0), v);
      UnProjectVertex(canvas, p.x, p.y, 1.0 / v.z) == v
  {
    var p := ProjectVertex(canvas, Size(1.0, 1.0), v);
    var oz := 1.0 / (1.0 / v.z);
    assert oz == v.z;
    DepthCancels(v.x, v.z, canvas.w);
    DepthCancels(v.y, v.z, canvas.h);
  }

  lemma DepthCancels(x: real, z: real, w: real)
    requires z != 0.0 && w != 0.0
    ensures ((x * 1.0 / z) * w / 1.0) * z / 1.0 * 1.0 / w == x
  {
    assert (x * 1.0 / z) * w / 1.0 == x * w / z;
    assert (x * w / z) * z == x * w;
  }

  /** Every point on a ray through the eye projects to the same canvas
      point: projection depends only on direction. */
  lemma ProjectionIgnoresDistance(canvas: Size, viewport: Size, v: Vector3, k: real)
    requires NonDegenerate(viewport) && v.z != 0.0 && k != 0.0
    ensures MulScalar(v, k).z != 0.0
    ensures ProjectVertex(canvas, viewport, MulScalar(v, k)) == ProjectVertex(canvas, viewport, v)
  {
    RatioOfScaled(v.x, v.z, k);
    RatioOfScaled(v.y, v.z, k);
  }

  lemma RatioOfScaled(x: real, z: real, k: real)
    requires z != 0.0 && k != 0.0
    ensures z * k != 0.0 && (x * k) * 1.0 / (z * k) == x * 1.0 / z
  {
    assert (x * k) / (z * k) == x / z;
  }
}
