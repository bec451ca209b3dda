/**
 * The rasterizer's scene records (src/components/rasterization.rs):
 * triangles over a vertex list, clipping planes, models, placed instances
 * and the camera, plus `Triangle::new` and the three-element sorting
 * network `sort_vertex_indexes`.
 */
module Geometry {
  import opened Numerics
  import opened Vectors
  import opened Graphics

  type Indexes = s: seq<nat> | |s| == 3 witness [0, 0, 0]
  type Intensities = s: seq<real> | |s| == 3 witness [0.0, 0.0, 0.0]
  type Normals = s: seq<Vector3> | |s| == 3 witness [Zero, Zero, Zero]
  type Uvs = s: seq<Vec2> | |s| == 3 witness [Vec2(0.0, 0.0), Vec2(0.0, 0.0), Vec2(0.0, 0.0)]

  /** A triangle: three vertex indexes into its model's vertex list, a
      colour, per-vertex intensities, normals and texture coordinates. */
  datatype Triangle = Triangle(color: Rgb, indexes: Indexes, intensities: Intensities, normals: Normals, uvs: Uvs)

  /** A clipping plane `normal . p + distance = 0`; the visible side is
      where the signed distance is positive. */
  datatype Plane = Plane(normal: Vector3, distance: real)

  /** The image handle a textured model carries; its pixels are not part of
      this model. */
  datatype Texture = Texture(handle: nat)

  datatype Model = Model(
    vertices: seq<Vector3>,
    triangles: seq<Triangle>,
    boundsCenter: Vector3,
    boundsRadius: real,
    texture: Option<Texture>)

  /** A model placed in the world by a uniform scale, a rotation about y (in
      degrees) and a translation. */
  datatype Instance = Instance(model: Model, scale: real, rotation: real, position: Vector3)

  datatype Camera = Camera(position: Vector3, rotation: real, planes: seq<Plane>)

  /** The three indexes of t name vertices of the list. */
  predicate IndexesIn(t: Triangle, vertices: seq<Vector3>)
  {
    forall k :: 0 <= k < 3 ==> t.indexes[k] < |vertices|
  }

  /** Every triangle of the model names vertices the model has. */
  predicate WellFormed(m: Model)
  {
    forall t :: t in m.triangles ==> IndexesIn(t, m.vertices)
  }

  /** `Triangle::new`: full intensity at all three corners. */
  function NewTriangle(indexes: Indexes, color: Rgb, normals: Normals, uvs: Uvs): Triangle
  {
    Triangle(color, indexes, [1.0, 1.0, 1.0], normals, uvs)
  }

  /** The projected y of corner k of triangle t. */
  function CornerY(t: Triangle, projected: seq<Vec2>, k: nat): real
    requires k < 3 && t.indexes[k] < |projected|
  {
    projected[t.indexes[k]].y
  }

  /** `sort_vertex_indexes`: three compare-and-swap steps on the corner
      order [0, 1, 2], comparing projected y through the triangle's indexes. */
  method SortVertexIndexes(t: Triangle, projected: seq<Vec2>) returns (order: seq<nat>)
    requires forall k :: 0 <= k < 3 ==> t.indexes[k] < |projected|
    ensures IsOrderOfCorners(order) && multiset(order) == multiset{0, 1, 2}
    ensures CornerY(t, projected, order[0]) <= CornerY(t, projected, order[1]) <= CornerY(t, projected, order[2])
  {
    var sort := new nat[3] [0, 1, 2];
    if CornerY(t, projected, sort[1]) < CornerY(t, projected, sort[0]) {
      sort[0], sort[1] := sort[1], sort[0];
    }
    if CornerY(t, projected, sort[2]) < CornerY(t, projected, sort[0]) {
      sort[0], sort[2] := sort[2], sort[0];
    }
    if CornerY(t, projected, sort[2]) < CornerY(t, projected, sort[1]) {
      sort[1], sort[2] := sort[2], sort[1];
    }
    order := sort[..];
    OrderIsPermutation(order);
  }

  /** A rearrangement of the three corner numbers: three distinct numbers
      below 3. */
  predicate IsOrderOfCorners(order: seq<nat>)
  {
    && |order| == 3
    && order[0] < 3 && order[1] < 3 && order[2] < 3
    && order[0] != order[1] && order[0] != order[2] && order[1] != order[2]
  }

  /** Such an order is a permutation of [0, 1, 2]. */
  lemma OrderIsPermutation(order: seq<nat>)
    requires IsOrderOfCorners(order)
    ensures multiset(order) == multiset{0, 1, 2}
  {
    var a, b, c := order[0], order[1], order[2];
    assert order == [a, b, c];
    assert multiset(order) == multiset{a, b, c};
    assert a + b + c == 3;
    assert {a, b, c} == {0, 1, 2} by {
      if a == 0 {
        assert (b == 1 && c == 2) || (b == 2 && c == 1);
      } else if a == 1 {
        assert (b == 0 && c == 2) || (b == 2 && c == 0);
      } else {
        assert (b == 0 && c == 1) || (b == 1 && c == 0);
      }
    }
    MultisetOfDistinct(a, b, c);
  }

  lemma MultisetOfDistinct(a: nat, b: nat, c: nat)
    requires a != b && a != c && b != c && {a, b, c} == {0, 1, 2}
    ensures multiset{a, b, c} == multiset{0, 1, 2}
  {
    assert a in {0, 1, 2} && b in {0, 1, 2} && c in {0, 1, 2};
    if a == 0 {
      if b == 1 { } else { }
    } else if a == 1 {
      if b == 0 { } else { }
    } else {
      if b == 0 { } else { }
    }
  }
}
