/**
 * Clipping in the rasterizer (src/components/rasterization.rs,
 * `signed_distance`, `clip_triangle` and `transform_and_clip`): an instance
 * is rejected whole when its bounding sphere lies behind a camera plane;
 * otherwise its vertices are transformed into camera space and its
 * triangles are filtered plane by plane.  A triangle survives a plane only
 * when all three corners are strictly in front; triangles that straddle a
 * plane are dropped rather than split.
 */
module Clipping {
  import opened Numerics
  import opened Vectors
  import opened Geometry

  /** `signed_distance`: positive in front of the plane. */
  function SignedDistance(plane: Plane, p: Vector3): real
  {
    Dot(plane.normal, p) + plane.distance
  }

  /** Moving a point k units along the plane's normal changes its signed
      distance by k |n|^2, so for a unit normal by exactly k: points
      farther along the normal are farther in front. */
  lemma SignedDistanceAlongNormal(plane: Plane, p: Vector3, k: real)
    ensures SignedDistance(plane, Add(p, ScalarMul(k, plane.normal)))
         == SignedDistance(plane, p) + k * Dot(plane.normal, plane.normal)
  {
  }

  predicate AllIndexesIn(ts: seq<Triangle>, vertices: seq<Vector3>)
  {
    forall i :: 0 <= i < |ts| ==> IndexesIn(ts[i], vertices)
  }

  /** All three corners strictly in front of the plane. */
  predicate Inside(plane: Plane, t: Triangle, vertices: seq<Vector3>)
    requires IndexesIn(t, vertices)
  {
    forall k :: 0 <= k < 3 ==> SignedDistance(plane, vertices[t.indexes[k]]) > 0.0
  }

  /** How many of three distances are positive. */
  function InCount(d0: real, d1: real, d2: real): nat
  {
    (if d0 > 0.0 then 1 else 0) + (if d1 > 0.0 then 1 else 0) + (if d2 > 0.0 then 1 else 0)
  }

  /** `clip_triangle`: the triangle itself when all three corners are in
      front, nothing otherwise (the one-in and two-in cases also give
      nothing). */
  function ClipTriangle(t: Triangle, vertices: seq<Vector3>, plane: Plane): (r: seq<Triangle>)
    requires IndexesIn(t, vertices)
    ensures r == [t] <==> Inside(plane, t, vertices)
    ensures r != [t] ==> r == []
  {
    var d0 := SignedDistance(plane, vertices[t.indexes[0]]);
    var d1 := SignedDistance(plane, vertices[t.indexes[1]]);
    var d2 := SignedDistance(plane, vertices[t.indexes[2]]);
    if InCount(d0, d1, d2) == 3 then [t] else []
  }

  /** One pass of the inner loop: every triangle clipped against one plane,
      the results concatenated in order. */
  function ClipAll(plane: Plane, ts: seq<Triangle>, vertices: seq<Vector3>): (r: seq<Triangle>)
    requires AllIndexesIn(ts, vertices)
    ensures |r| <= |ts|
    ensures forall t :: t in r <==> t in ts && Inside(plane, t, vertices)
    ensures AllIndexesIn(r, vertices)
  {
    if ts == [] then []
    else
      var n := |ts| - 1;
      assert forall t :: t in ts <==> t in ts[..n] || t == ts[n];
      ClipAll(plane, ts[..n], vertices) + ClipTriangle(ts[n], vertices, plane)
  }

  /** The triangle list `transform_and_clip` builds: the loop restarts from
      the model's triangles for every plane and keeps only the last pass, so
      only the last plane counts, and no planes means no triangles. */
  function ClipAgainstLastPlane(planes: seq<Plane>, ts: seq<Triangle>, vertices: seq<Vector3>): (r: seq<Triangle>)
    requires AllIndexesIn(ts, vertices)
  {
    if planes == [] then [] else ClipAll(planes[|planes| - 1], ts, vertices)
  }

  /** The evidently intended list: each plane filters what the previous
      planes left. */
  function ClipAgainstAllPlanes(planes: seq<Plane>, ts: seq<Triangle>, vertices: seq<Vector3>): (r: seq<Triangle>)
    requires AllIndexesIn(ts, vertices)
    ensures AllIndexesIn(r, vertices)
    ensures |r| <= |ts|
  {
    if planes == [] then ts
    else ClipAll(planes[|planes| - 1], ClipAgainstAllPlanes(planes[..|planes| - 1], ts, vertices), vertices)
  }

  /** All three corners in front of every plane. */
  predicate InsideAll(planes: seq<Plane>, t: Triangle, vertices: seq<Vector3>)
    requires IndexesIn(t, vertices)
  {
    forall i :: 0 <= i < |planes| ==> Inside(planes[i], t, vertices)
  }

  /** A triangle survives the sequential filter exactly when it is one of
      the model's triangles and lies in front of every plane. */
  lemma {:induction false} ClipAgainstAllPlanesKeepsVisible(planes: seq<Plane>, ts: seq<Triangle>, vertices: seq<Vector3>, t: Triangle)
    requires AllIndexesIn(ts, vertices)
    ensures t in ClipAgainstAllPlanes(planes, ts, vertices) <==>
      t in ts && IndexesIn(t, vertices) && InsideAll(planes, t, vertices)
  {
    if planes != [] {
      var n := |planes| - 1;
      var prev := ClipAgainstAllPlanes(planes[..n], ts, vertices);
      ClipAgainstAllPlanesKeepsVisible(planes[..n], ts, vertices, t);
      assert ClipAgainstAllPlanes(planes, ts, vertices) == ClipAll(planes[n], prev, vertices);
      ClipAllKeeps(planes[n], prev, vertices, t);
      if IndexesIn(t, vertices) {
        InsideAllStep(planes, t, vertices);
      }
    } else if t in ts {
      var i :| 0 <= i < |ts| && ts[i] == t;
    }
  }

  /** One triangle's membership in a single pass. */
  lemma ClipAllKeeps(plane: Plane, ts: seq<Triangle>, vertices: seq<Vector3>, t: Triangle)
    requires AllIndexesIn(ts, vertices)
    ensures t in ClipAll(plane, ts, vertices) ==> t in ts && IndexesIn(t, vertices)
    ensures t in ts && IndexesIn(t, vertices) ==> (t in ClipAll(plane, ts, vertices) <==> Inside(plane, t, vertices))
  {
  }

  /** In front of every plane means in front of all but the last and of the
      last. */
  lemma InsideAllStep(planes: seq<Plane>, t: Triangle, vertices: seq<Vector3>)
    requires planes != [] && IndexesIn(t, vertices)
    ensures InsideAll(planes, t, vertices) <==>
      InsideAll(planes[..|planes| - 1], t, vertices) && Inside(planes[|planes| - 1], t, vertices)
  {
    var n := |planes| - 1;
    assert forall i :: 0 <= i < n ==> planes[..n][i] == planes[i];
  }

  /** The last-plane-only list keeps a triangle exactly when it lies in
      front of the last plane; with no planes it keeps none. */
  lemma ClipAgainstLastPlaneKeeps(planes: seq<Plane>, ts: seq<Triangle>, vertices: seq<Vector3>, t: Triangle)
    requires AllIndexesIn(ts, vertices)
    ensures planes == [] ==> ClipAgainstLastPlane(planes, ts, vertices) == []
    ensures planes != [] ==>
      (t in ClipAgainstLastPlane(planes, ts, vertices) <==> t in ts && Inside(planes[|planes| - 1], t, vertices))
  {
  }

  lemma ClipSingle(plane: Plane, t: Triangle, vertices: seq<Vector3>)
    requires IndexesIn(t, vertices)
    ensures ClipAll(plane, [t], vertices) == if Inside(plane, t, vertices) then [t] else []
  {
    assert [t][..0] == [];
  }

  /** A concrete scene where the two lists differ: a triangle lying in z = 0
      is behind the near plane z = 1 and in front of the plane z = -1 behind
      the camera; the loop as written keeps it when that plane comes last. */
  lemma LastPlaneOnlyKeepsHiddenTriangle(t: Triangle, near: Plane, rear: Plane)
    requires t.indexes == [0, 1, 2] && near == Plane(Vector3(0.0, 0.0, 1.0), -1.0) && rear == Plane(Vector3(0.0, 0.0, 1.0), 1.0)
    ensures IndexesIn(t, FlatCorners)
    ensures ClipAgainstLastPlane([near, rear], [t], FlatCorners) == [t]
    ensures ClipAgainstAllPlanes([near, rear], [t], FlatCorners) == []
  {
    NearPlaneDropsFlatTriangle(t, near, rear);
    RearPlaneKeepsFlatTriangle(t, near, rear);
    assert [near, rear][..1] == [near];
    assert [near][..0] == [];
    assert ClipAgainstAllPlanes([near], [t], FlatCorners) == [];
    assert ClipAll(rear, [], FlatCorners) == [];
  }

  lemma NearPlaneDropsFlatTriangle(t: Triangle, near: Plane, rear: Plane)
    requires t.indexes == [0, 1, 2] && near == Plane(Vector3(0.0, 0.0, 1.0), -1.0) && rear == Plane(Vector3(0.0, 0.0, 1.0), 1.0)
    ensures IndexesIn(t, FlatCorners)
    ensures ClipAll(near, [t], FlatCorners) == []
  {
    FlatCornersDistances(t, near, rear);
    ClipSingle(near, t, FlatCorners);
  }

  lemma RearPlaneKeepsFlatTriangle(t: Triangle, near: Plane, rear: Plane)
    requires t.indexes == [0, 1, 2] && near == Plane(Vector3(0.0, 0.0, 1.0), -1.0) && rear == Plane(Vector3(0.0, 0.0, 1.0), 1.0)
    ensures IndexesIn(t, FlatCorners)
    ensures ClipAll(rear, [t], FlatCorners) == [t]
  {
    FlatCornersDistances(t, near, rear);
    ClipSingle(rear, t, FlatCorners);
  }

  /** Three corners in the plane z = 0. */
  const FlatCorners: seq<Vector3> := [Vector3(0.0, 0.0, 0.0), Vector3(1.0, 0.0, 0.0), Vector3(0.0, 1.0, 0.0)]

  lemma FlatCornersDistances(t: Triangle, near: Plane, rear: Plane)
    requires t.indexes == [0, 1, 2] && near == Plane(Vector3(0.0, 0.0, 1.0), -1.0) && rear == Plane(Vector3(0.0, 0.0, 1.0), 1.0)
    ensures IndexesIn(t, FlatCorners)
    ensures !Inside(near, t, FlatCorners) && Inside(rear, t, FlatCorners)
  {
    assert FlatCorners[t.indexes[0]] == Vector3(0.0, 0.0, 0.0);
    assert FlatCorners[t.indexes[1]] == Vector3(1.0, 0.0, 0.0);
    assert FlatCorners[t.indexes[2]] == Vector3(0.0, 1.0, 0.0);
  }

  /** The common part of both versions: reject on the bounding sphere, then
      transform every vertex. */
  predicate Rejected(planes: seq<Plane>, center: Vector3, radius: real)
  {
    exists i :: 0 <= i < |planes| && SignedDistance(planes[i], center) < -radius
  }

  /** Every vertex through the instance transform. */
  function Transformed(vs: seq<Vector3>, transform: Vector3 -> Vector3): seq<Vector3>
  {
    seq(|vs|, i requires 0 <= i < |vs| => transform(vs[i]))
  }

  /** The instance `transform_and_clip` returns around a clipped triangle
      list: vertices and bounding sphere in camera space, and the placement
      reset to scale 1, no rotation, the origin. */
  function ClippedInstance(instance: Instance, transform: Vector3 -> Vector3, triangles: seq<Triangle>): Instance
  {
    var m := instance.model;
    Instance(
      Model(Transformed(m.vertices, transform), triangles, transform(m.boundsCenter), m.boundsRadius * instance.scale, m.texture),
      1.0, 0.0, Zero)
  }

  /** `transform_and_clip` as written: rejection against every plane, then a
      triangle list that reflects the last plane only. */
  method TransformAndClipAsWritten(planes: seq<Plane>, instance: Instance, transform: Vector3 -> Vector3) returns (r: Option<Instance>)
    requires WellFormed(instance.model)
    ensures r.None? <==> Rejected(planes, transform(instance.model.boundsCenter), instance.model.boundsRadius * instance.scale)
    ensures r.Some? ==> AllIndexesIn(instance.model.triangles, Transformed(instance.model.vertices, transform))
    ensures r.Some? ==> r.value == ClippedInstance(instance, transform,
      ClipAgainstLastPlane(planes, instance.model.triangles, Transformed(instance.model.vertices, transform)))
  {
    var center := transform(instance.model.boundsCenter);
    var radius := instance.model.boundsRadius * instance.scale;
    var vertices := TransformVertices(instance, transform);
    var model := instance.model;
    var rejected := BoundsRejected(planes, center, radius);
    if rejected {
      return None;
    }
    var triangles: seq<Triangle> := [];
    var k := 0;
    while k < |planes|
      invariant 0 <= k <= |planes|
      invariant triangles == ClipAgainstLastPlane(planes[..k], model.triangles, vertices)
    {
      triangles := ClipTriangles(planes[k], model.triangles, vertices);
      assert planes[..k + 1][..k] == planes[..k];
      k := k + 1;
    }
    assert planes[..k] == planes;
    r := Some(ClippedInstance(instance, transform, triangles));
  }

  /** `transform_and_clip` with the triangle list narrowed plane after plane,
      so that what survives lies in front of every plane. */
  method TransformAndClip(planes: seq<Plane>, instance: Instance, transform: Vector3 -> Vector3) returns (r: Option<Instance>)
    requires WellFormed(instance.model)
    ensures r.None? <==> Rejected(planes, transform(instance.model.boundsCenter), instance.model.boundsRadius * instance.scale)
    ensures r.Some? ==> AllIndexesIn(instance.model.triangles, Transformed(instance.model.vertices, transform))
    ensures r.Some? ==> r.value == ClippedInstance(instance, transform,
      ClipAgainstAllPlanes(planes, instance.model.triangles, Transformed(instance.model.vertices, transform)))
  {
    var center := transform(instance.model.boundsCenter);
    var radius := instance.model.boundsRadius * instance.scale;
    var vertices := TransformVertices(instance, transform);
    var model := instance.model;
    var rejected := BoundsRejected(planes, center, radius);
    if rejected {
      return None;
    }
    var triangles := ClipEveryPlane(planes, model.triangles, vertices);
    r := Some(ClippedInstance(instance, transform, triangles));
  }

  /** The rejection loop of `transform_and_clip`: the bounding sphere
      against each plane in turn. */
  method BoundsRejected(planes: seq<Plane>, center: Vector3, radius: real) returns (rejected: bool)
    ensures rejected <==> Rejected(planes, center, radius)
  {
    var k := 0;
    while k < |planes|
      invariant 0 <= k <= |planes|
      invariant forall i :: 0 <= i < k ==> SignedDistance(planes[i], center) >= -radius
    {
      if SignedDistance(planes[k], center) < -radius {
        return true;
      }
      k := k + 1;
    }
    return false;
  }

  /** The corrected plane loop: the triangle list narrowed by each plane in
      turn. */
  method ClipEveryPlane(planes: seq<Plane>, ts: seq<Triangle>, vertices: seq<Vector3>) returns (triangles: seq<Triangle>)
    requires AllIndexesIn(ts, vertices)
    ensures triangles == ClipAgainstAllPlanes(planes, ts, vertices)
  {
    triangles := ts;
    var k := 0;
    while k < |planes|
      invariant 0 <= k <= |planes|
      invariant triangles == ClipAgainstAllPlanes(planes[..k], ts, vertices)
      invariant AllIndexesIn(triangles, vertices)
    {
      triangles := ClipTriangles(planes[k], triangles, vertices);
      assert planes[..k + 1][..k] == planes[..k];
      k := k + 1;
    }
    assert planes[..k] == planes;
  }

  /** The inner triangle loop of `transform_and_clip`: every triangle
      clipped against one plane, the survivors appended in order. */
  method ClipTriangles(plane: Plane, ts: seq<Triangle>, vertices: seq<Vector3>) returns (r: seq<Triangle>)
    requires AllIndexesIn(ts, vertices)
    ensures r == ClipAll(plane, ts, vertices)
  {
    r := [];
    var j := 0;
    while j < |ts|
      invariant 0 <= j <= |ts|
      invariant r == ClipAll(plane, ts[..j], vertices)
    {
      assert ts[..j + 1][..j] == ts[..j];
      r := r + ClipTriangle(ts[j], vertices, plane);
      j := j + 1;
    }
    assert ts[..j] == ts;
  }

  /** The vertex loop of `transform_and_clip`: each model vertex through the
      instance transform, in order. */
  method TransformVertices(instance: Instance, transform: Vector3 -> Vector3) returns (vertices: seq<Vector3>)
    requires WellFormed(instance.model)
    ensures vertices == Transformed(instance.model.vertices, transform)
    ensures AllIndexesIn(instance.model.triangles, vertices)
  {
    vertices := [];
    var i := 0;
    while i < |instance.model.vertices|
      invariant 0 <= i <= |instance.model.vertices|
      invariant |vertices| == i
      invariant forall j :: 0 <= j < i ==> vertices[j] == transform(instance.model.vertices[j])
    {
      vertices := vertices + [transform(instance.model.vertices[i])];
      i := i + 1;
    }
    forall t | t in instance.model.triangles
      ensures IndexesIn(t, vertices)
    {
      assert IndexesIn(t, instance.model.vertices);
    }
  }
}
