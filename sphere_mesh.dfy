/**
 * `Model::generate_sphere` (src/components/rasterization.rs): a unit
 * sphere tessellated into `divs + 1` rings of `divs` vertices, from y = -1
 * up to y = 1, and two triangles per cell between consecutive rings.
 */
module SphereMesh {
  import opened Numerics
  import opened Vectors
  import opened Graphics
  import opened Geometry

  /** The height of ring d: `(2 / divs) * (d - divs / 2)`. */
  function RingY(n: nat, d: nat): real
    requires n > 0
  {
    (2.0 / n as real) * (d as real - n as real / 2.0)
  }

  /** Vertex i of ring d: on the circle of radius `sqrt(1 - y*y)` at height
      y, at angle `i * 2*PI / divs`. */
  function SphereVertex(n: nat, m: Libm, d: nat, i: nat): Vector3
    requires n > 0
  {
    var y := RingY(n, d);
    var radius := m.sqrt(1.0 - Sq(y));
    var angle := i as real * (2.0 * Pi / n as real);
    Vector3(radius * m.cos(angle), y, radius * m.sin(angle))
  }

  /** The first `count` vertices of ring d. */
  function Ring(n: nat, m: Libm, d: nat, count: nat): (r: seq<Vector3>)
    requires count <= n
    ensures |r| == count
    ensures forall i :: 0 <= i < count ==> r[i] == SphereVertex(n, m, d, i)
  {
    if count == 0 then [] else Ring(n, m, d, count - 1) + [SphereVertex(n, m, d, count - 1)]
  }

  /** The first `count` rings, one after the other. */
  function Rings(n: nat, m: Libm, count: nat): (r: seq<Vector3>)
    ensures |r| == count * n
  {
    if count == 0 then [] else Rings(n, m, count - 1) + Ring(n, m, count - 1, n)
  }

  /** All the vertices of the sphere: rings 0 to divs. */
  function SphereVertices(n: nat, m: Libm): seq<Vector3>
  {
    Rings(n, m, n + 1)
  }

  /** Position j of ring d in the vertex list, `d * divs + j`, counted up
      ring by ring (see `PosIsProduct`). */
  function Pos(n: nat, d: nat, j: nat): nat
  {
    if d == 0 then j else Pos(n, d - 1, j) + n
  }

  /** The position after i around a ring of n, `(i + 1) % divs` (see
      `NextIsSuccessorMod`). */
  function Next(n: nat, i: nat): nat
  {
    if i + 1 < n then i + 1 else 0
  }

  /** The three vertex indexes of one triangle the loops push. */
  datatype Corners = Corners(a: nat, b: nat, c: nat)

  /** `tri0` of cell (d, i): this vertex, the next one on the ring above,
      the next one on this ring. */
  function Tri0(n: nat, d: nat, i: nat): Corners
  {
    Corners(Pos(n, d, i), Pos(n, d + 1, Next(n, i)), Pos(n, d, Next(n, i)))
  }

  /** `tri1` of cell (d, i): this vertex, the one above it, the next one on
      the ring above. */
  function Tri1(n: nat, d: nat, i: nat): Corners
  {
    Corners(Pos(n, d, i), Pos(n, d + 1, i), Pos(n, d + 1, Next(n, i)))
  }

  lemma {:induction false} PosIsProduct(n: nat, d: nat, j: nat)
    ensures Pos(n, d, j) == d * n + j
  {
    if d > 0 {
      PosIsProduct(n, d - 1, j);
      assert d * n == (d - 1) * n + n;
    }
  }

  lemma NextIsSuccessorMod(n: nat, i: nat)
    requires i < n
    ensures Next(n, i) == (i + 1) % n
  {
  }

  /** The index triples are the ones `generate_sphere` pushes, written with
      its own arithmetic. */
  lemma TriangleCorners(n: nat, d: nat, i: nat)
    requires i < n
    ensures Tri0(n, d, i) == Corners(d * n + i, (d + 1) * n + (i + 1) % n, n * d + (i + 1) % n)
    ensures Tri1(n, d, i) == Corners(d * n + i, d * n + i + n, (d + 1) * n + (i + 1) % n)
  {
    NextIsSuccessorMod(n, i);
    PosIsProduct(n, d, i);
    PosIsProduct(n, d + 1, i);
    PosIsProduct(n, d + 1, Next(n, i));
    PosIsProduct(n, d, Next(n, i));
    assert n * d == d * n;
  }

  /** Position j on ring d or on the ring above stays inside the vertex
      list when d is below the top ring. */
  lemma CellBound(n: nat, d: nat, j: nat)
    requires d < n && j < n
    ensures d * n + j < (n + 1) * n && (d + 1) * n + j < (n + 1) * n && n * d == d * n
  {
    MulLeft(d + 2, n + 1, n);
    assert (d + 2) * n == (d + 1) * n + n;
    assert (d + 1) * n == d * n + n;
  }

  /** Multiplication by a natural number is monotone. */
  lemma MulLeft(a: nat, b: nat, n: nat)
    requires a <= b
    ensures a * n <= b * n
  {
    assert b * n == a * n + (b - a) * n;
  }

  /** Every index of tri is below bound. */
  predicate Below(tri: Corners, bound: nat)
  {
    tri.a < bound && tri.b < bound && tri.c < bound
  }

  /** Cell i of band d: the quad between vertices i and i + 1 of rings d
      and d + 1, which the loops split into `tri0` and `tri1`. */
  datatype Cell = Cell(d: nat, i: nat)

  /** The first `count` cells of band d. */
  function BandCells(d: nat, count: nat): (r: seq<Cell>)
    ensures |r| == count
  {
    if count == 0 then [] else BandCells(d, count - 1) + [Cell(d, count - 1)]
  }

  /** The cells of the first `count` bands, bottom to top. */
  function SphereCells(n: nat, count: nat): seq<Cell>
  {
    if count == 0 then [] else SphereCells(n, count - 1) + BandCells(count - 1, n)
  }

  const NoUvs: Uvs := [Vec2(0.0, 0.0), Vec2(0.0, 0.0), Vec2(0.0, 0.0)]

  /** Vertex j of the list; the zero vector past its end (the layout
      lemmas below show every index the loops produce is in range). */
  function VertexAt(vs: seq<Vector3>, j: nat): Vector3
  {
    if j < |vs| then vs[j] else Zero
  }

  /** A triangle of the sphere: the model colour, the vertex positions
      themselves as normals, zero texture coordinates. */
  function SphereTriangle(tri: Corners, color: Rgb, vs: seq<Vector3>): Triangle
  {
    NewTriangle([tri.a, tri.b, tri.c], color, [VertexAt(vs, tri.a), VertexAt(vs, tri.b), VertexAt(vs, tri.c)], NoUvs)
  }

  /** The two triangles of a cell: `tri0`, then `tri1`. */
  function CellTriangles(n: nat, c: Cell, color: Rgb, vs: seq<Vector3>): seq<Triangle>
  {
    [SphereTriangle(Tri0(n, c.d, c.i), color, vs), SphereTriangle(Tri1(n, c.d, c.i), color, vs)]
  }

  /** The triangles of a list of cells, cell after cell. */
  function Triangles(n: nat, cells: seq<Cell>, color: Rgb, vs: seq<Vector3>): (r: seq<Triangle>)
    ensures |r| == 2 * |cells|
  {
    if cells == [] then []
    else Triangles(n, cells[..|cells| - 1], color, vs) + CellTriangles(n, cells[|cells| - 1], color, vs)
  }

  /** All the triangles of the sphere. */
  function SphereTriangles(n: nat, color: Rgb, vs: seq<Vector3>): seq<Triangle>
  {
    Triangles(n, SphereCells(n, n), color, vs)
  }

  /** `generate_sphere` for a whole number of divisions. */
  method GenerateSphere(divs: nat, color: Rgb, m: Libm) returns (model: Model)
    ensures model.vertices == SphereVertices(divs, m)
    ensures |model.vertices| == (divs + 1) * divs
    ensures model.triangles == SphereTriangles(divs, color, model.vertices)
    ensures |model.triangles| == 2 * (divs * divs)
    ensures WellFormed(model)
    ensures model.boundsCenter == Zero && model.boundsRadius == 1.0 && model.texture == None
  {
    var vertices := SphereRings(divs, m);
    var triangles := SphereBands(divs, color, vertices);
    SphereIndexesVertices(divs, color, vertices);
    SphereCellsLength(divs, divs);
    PosIsProduct(divs, divs, 0);
    model := Model(vertices, triangles, Zero, 1.0, None);
  }

  /** The vertex loops of `generate_sphere`: ring by ring, bottom to top. */
  method SphereRings(divs: nat, m: Libm) returns (vertices: seq<Vector3>)
    ensures vertices == SphereVertices(divs, m)
  {
    vertices := [];
    var d := 0;
    while d < divs + 1
      invariant 0 <= d <= divs + 1
      invariant vertices == Rings(divs, m, d)
    {
      var ring := SphereRing(divs, m, d);
      vertices := vertices + ring;
      d := d + 1;
    }
  }

  /** The inner vertex loop: the `divs` vertices of ring d, in order. */
  method SphereRing(divs: nat, m: Libm, d: nat) returns (ring: seq<Vector3>)
    ensures ring == Ring(divs, m, d, divs)
  {
    ring := [];
    var i := 0;
    while i < divs
      invariant 0 <= i <= divs
      invariant ring == Ring(divs, m, d, i)
    {
      ring := ring + [SphereVertex(divs, m, d, i)];
      i := i + 1;
    }
  }

  /** The triangle loops of `generate_sphere`: band by band. */
  method SphereBands(divs: nat, color: Rgb, vertices: seq<Vector3>) returns (triangles: seq<Triangle>)
    ensures triangles == SphereTriangles(divs, color, vertices)
  {
    triangles := [];
    var d := 0;
    while d < divs
      invariant 0 <= d <= divs
      invariant triangles == Triangles(divs, SphereCells(divs, d), color, vertices)
    {
      var band := SphereBand(divs, color, vertices, d);
      assert SphereCells(divs, d + 1) == SphereCells(divs, d) + BandCells(d, divs);
      TrianglesAppend(divs, SphereCells(divs, d), BandCells(d, divs), color, vertices);
      triangles := triangles + band;
      d := d + 1;
    }
  }

  /** The inner triangle loop: `tri0` and `tri1` for each cell of band d. */
  method SphereBand(divs: nat, color: Rgb, vertices: seq<Vector3>, d: nat) returns (band: seq<Triangle>)
    ensures band == Triangles(divs, BandCells(d, divs), color, vertices)
  {
    band := [];
    var i := 0;
    while i < divs
      invariant 0 <= i <= divs
      invariant band == Triangles(divs, BandCells(d, i), color, vertices)
    {
      var tri0 := Tri0(divs, d, i);
      var tri1 := Tri1(divs, d, i);
      BandStep(divs, d, i, color, vertices);
      band := band + [SphereTriangle(tri0, color, vertices), SphereTriangle(tri1, color, vertices)];
      i := i + 1;
    }
  }

  /** One more cell adds its `tri0` and `tri1` triangles to the band. */
  lemma BandStep(n: nat, d: nat, i: nat, color: Rgb, vs: seq<Vector3>)
    ensures Triangles(n, BandCells(d, i + 1), color, vs)
         == Triangles(n, BandCells(d, i), color, vs) + [SphereTriangle(Tri0(n, d, i), color, vs), SphereTriangle(Tri1(n, d, i), color, vs)]
  {
    var cells := BandCells(d, i + 1);
    assert cells[..|cells| - 1] == BandCells(d, i);
  }

  /** The triangles of two lists of cells one after the other are the two
      lists' triangles one after the other. */
  lemma {:induction false} TrianglesAppend(n: nat, a: seq<Cell>, b: seq<Cell>, color: Rgb, vs: seq<Vector3>)
    ensures Triangles(n, a + b, color, vs) == Triangles(n, a, color, vs) + Triangles(n, b, color, vs)
    decreases |b|
  {
    if b == [] {
      assert a + b == a;
    } else {
      var k := |b| - 1;
      assert (a + b)[..|a + b| - 1] == a + b[..k];
      TrianglesAppend(n, a, b[..k], color, vs);
    }
  }

  /** Cell k's `tri0` and `tri1` sit at `2 * k` and the one after. */
  lemma {:induction false} TrianglesAt(n: nat, cells: seq<Cell>, color: Rgb, vs: seq<Vector3>, k: nat)
    requires k < |cells|
    ensures Triangles(n, cells, color, vs)[2 * k] == SphereTriangle(Tri0(n, cells[k].d, cells[k].i), color, vs)
    ensures Triangles(n, cells, color, vs)[2 * k + 1] == SphereTriangle(Tri1(n, cells[k].d, cells[k].i), color, vs)
  {
    var init := cells[..|cells| - 1];
    var left := Triangles(n, init, color, vs);
    var right := CellTriangles(n, cells[|cells| - 1], color, vs);
    assert Triangles(n, cells, color, vs) == left + right;
    if k < |cells| - 1 {
      TrianglesAt(n, init, color, vs, k);
      assert init[k] == cells[k];
      assert (left + right)[2 * k] == left[2 * k] && (left + right)[2 * k + 1] == left[2 * k + 1];
    } else {
      assert (left + right)[2 * k] == right[0] && (left + right)[2 * k + 1] == right[1];
    }
  }

  /** Vertex i of ring d sits at position `d * divs + i`. */
  lemma {:induction false} RingsLayout(n: nat, m: Libm, count: nat, d: nat, i: nat)
    requires d < count && i < n
    ensures d * n + i < |Rings(n, m, count)|
    ensures Rings(n, m, count)[d * n + i] == SphereVertex(n, m, d, i)
  {
    assert count * n == (count - 1) * n + n;
    if d < count - 1 {
      RingsLayout(n, m, count - 1, d, i);
      assert d * n + i < (count - 1) * n by {
        assert (count - 1) * n - d * n == (count - 1 - d) * n;
      }
    } else {
      assert d * n + i - (count - 1) * n == i;
    }
  }

  /** The first `count` bands hold one cell per vertex of the first
      `count` rings. */
  lemma {:induction false} SphereCellsLength(n: nat, count: nat)
    ensures |SphereCells(n, count)| == Pos(n, count, 0)
  {
    if count > 0 {
      SphereCellsLength(n, count - 1);
    }
  }

  /** Moving along a ring moves as far along the vertex list. */
  lemma {:induction false} PosShift(n: nat, d: nat, j: nat)
    ensures Pos(n, d, j) == Pos(n, d, 0) + j
  {
    if d > 0 {
      PosShift(n, d - 1, j);
    }
  }

  /** Both triangles of a cell below the top ring name vertices of the
      list. */
  lemma CellBelow(n: nat, d: nat, i: nat)
    requires d < n && i < n
    ensures Below(Tri0(n, d, i), (n + 1) * n) && Below(Tri1(n, d, i), (n + 1) * n)
  {
    TriangleCorners(n, d, i);
    CellBound(n, d, i);
    CellBound(n, d, (i + 1) % n);
  }

  /** Cell i of band d is entry i of the band. */
  lemma {:induction false} BandCellsAt(d: nat, count: nat, i: nat)
    requires i < count
    ensures BandCells(d, count)[i] == Cell(d, i)
  {
    if i < count - 1 {
      BandCellsAt(d, count - 1, i);
    }
  }

  /** Every cell of the first `count` bands lies in a band below `count`
      and at a column below `divs`. */
  lemma {:induction false} SphereCellsInGrid(n: nat, count: nat, k: nat)
    requires k < |SphereCells(n, count)|
    ensures SphereCells(n, count)[k].d < count && SphereCells(n, count)[k].i < n
  {
    var left := SphereCells(n, count - 1);
    var right := BandCells(count - 1, n);
    assert SphereCells(n, count) == left + right;
    if k < |left| {
      SphereCellsInGrid(n, count - 1, k);
      assert (left + right)[k] == left[k];
    } else {
      BandCellsAt(count - 1, n, k - |left|);
      assert (left + right)[k] == right[k - |left|];
    }
  }

  /** Adding a band leaves the cells before it where they were. */
  lemma SphereCellsGrow(n: nat, count: nat, k: nat)
    requires k < |SphereCells(n, count)|
    ensures k < |SphereCells(n, count + 1)|
    ensures SphereCells(n, count + 1)[k] == SphereCells(n, count)[k]
  {
    var left := SphereCells(n, count);
    var right := BandCells(count, n);
    assert SphereCells(n, count + 1) == left + right;
    assert (left + right)[k] == left[k];
  }

  /** Later bands leave the cells of earlier bands where they were. */
  lemma {:induction false} SphereCellsStable(n: nat, c1: nat, c2: nat, k: nat)
    requires c1 <= c2 && k < |SphereCells(n, c1)|
    ensures k < |SphereCells(n, c2)|
    ensures SphereCells(n, c2)[k] == SphereCells(n, c1)[k]
    decreases c2 - c1
  {
    if c1 < c2 {
      SphereCellsGrow(n, c1, k);
      SphereCellsStable(n, c1 + 1, c2, k);
    }
  }

  /** Cell (d, i) sits at the position of its first vertex,
      `d * divs + i`, in the order the loops visit the cells. */
  lemma SphereCellsLayout(n: nat, count: nat, d: nat, i: nat)
    requires d < count && i < n
    ensures Pos(n, d, i) < |SphereCells(n, count)|
    ensures SphereCells(n, count)[Pos(n, d, i)] == Cell(d, i)
  {
    var left := SphereCells(n, d);
    var right := BandCells(d, n);
    assert SphereCells(n, d + 1) == left + right;
    SphereCellsLength(n, d);
    PosShift(n, d, i);
    BandCellsAt(d, n, i);
    var p := Pos(n, d, i);
    assert (left + right)[p] == right[i];
    SphereCellsStable(n, d + 1, count, p);
    assert SphereCells(n, count)[p] == SphereCells(n, d + 1)[p];
  }

  /** The triangles of cell (d, i) sit at `2 * p` and `2 * p + 1` for its
      position `p = d * divs + i`: `tri0` and `tri1`, whose indexes name
      vertices of the list. */
  lemma SphereTriangleLayout(n: nat, color: Rgb, vs: seq<Vector3>, d: nat, i: nat, p: nat)
    requires |vs| == (n + 1) * n && d < n && i < n && p == d * n + i
    ensures 2 * p + 1 < |SphereTriangles(n, color, vs)|
    ensures Below(Tri0(n, d, i), |vs|) && Below(Tri1(n, d, i), |vs|)
    ensures SphereTriangles(n, color, vs)[2 * p] == SphereTriangle(Tri0(n, d, i), color, vs)
    ensures SphereTriangles(n, color, vs)[2 * p + 1] == SphereTriangle(Tri1(n, d, i), color, vs)
  {
    var cells := SphereCells(n, n);
    PosIsProduct(n, d, i);
    SphereCellsLayout(n, n, d, i);
    assert cells[p] == Cell(d, i);
    TrianglesAt(n, cells, color, vs, p);
    CellBelow(n, d, i);
  }

  /** Every triangle of the sphere names vertices of the list. */
  lemma SphereIndexesVertices(n: nat, color: Rgb, vs: seq<Vector3>)
    requires |vs| == (n + 1) * n
    ensures forall t :: t in SphereTriangles(n, color, vs) ==> IndexesIn(t, vs)
  {
    var cells := SphereCells(n, n);
    var ts := Triangles(n, cells, color, vs);
    forall t | t in ts
      ensures IndexesIn(t, vs)
    {
      var j :| 0 <= j < |ts| && ts[j] == t;
      var k := j / 2;
      TrianglesAt(n, cells, color, vs, k);
      SphereCellsInGrid(n, n, k);
      var c := cells[k];
      CellBelow(n, c.d, c.i);
      if j == 2 * k {
        SphereTriangleIndexesIn(Tri0(n, c.d, c.i), color, vs);
      } else {
        assert j == 2 * k + 1;
        SphereTriangleIndexesIn(Tri1(n, c.d, c.i), color, vs);
      }
    }
  }

  /** A sphere triangle built by `Triangle::new` over corners in range:
      the model colour, full intensity at every corner, and at each corner
      the normal is that corner's own vertex. */
  lemma SphereTriangleShading(tri: Corners, color: Rgb, vs: seq<Vector3>)
    requires Below(tri, |vs|)
    ensures var t := SphereTriangle(tri, color, vs);
      && IndexesIn(t, vs) && t.color == color && t.intensities == [1.0, 1.0, 1.0]
      && forall k :: 0 <= k < 3 ==> t.normals[k] == vs[t.indexes[k]]
  {
    var t := SphereTriangle(tri, color, vs);
    assert t.indexes == [tri.a, tri.b, tri.c];
    assert t.normals == [vs[tri.a], vs[tri.b], vs[tri.c]];
  }

  /** Every triangle of the sphere has full intensity and the model colour,
      and the normal at each corner is the corner's vertex. */
  lemma SphereNormalsAreVertices(n: nat, color: Rgb, vs: seq<Vector3>, j: nat)
    requires |vs| == (n + 1) * n && j < |SphereTriangles(n, color, vs)|
    ensures var t := SphereTriangles(n, color, vs)[j];
      && IndexesIn(t, vs) && t.color == color && t.intensities == [1.0, 1.0, 1.0]
      && forall k :: 0 <= k < 3 ==> t.normals[k] == vs[t.indexes[k]]
  {
    var cells := SphereCells(n, n);
    var k := j / 2;
    TrianglesAt(n, cells, color, vs, k);
    SphereCellsInGrid(n, n, k);
    var c := cells[k];
    CellBelow(n, c.d, c.i);
    if j == 2 * k {
      SphereTriangleShading(Tri0(n, c.d, c.i), color, vs);
    } else {
      SphereTriangleShading(Tri1(n, c.d, c.i), color, vs);
    }
  }

  /** On the generated sphere every corner normal is a unit vector pointing
      straight out of the sphere. */
  lemma SphereNormalsAreUnit(n: nat, color: Rgb, m: Libm, j: nat, k: nat)
    requires Lawful(m) && Pythagorean(m) && 0 < n
    requires j < |SphereTriangles(n, color, SphereVertices(n, m))| && k < 3
    ensures var t := SphereTriangles(n, color, SphereVertices(n, m))[j];
      Dot(t.normals[k], t.normals[k]) == 1.0
  {
    var vs := SphereVertices(n, m);
    SphereNormalsAreVertices(n, color, vs, j);
    var t := SphereTriangles(n, color, vs)[j];
    SphereVerticesAreUnit(n, m, t.indexes[k]);
  }

  /** A sphere triangle whose indexes are in range names vertices of the
      list. */
  lemma SphereTriangleIndexesIn(tri: Corners, color: Rgb, vs: seq<Vector3>)
    requires Below(tri, |vs|)
    ensures IndexesIn(SphereTriangle(tri, color, vs), vs)
  {
    var t := SphereTriangle(tri, color, vs);
    assert t.indexes == [tri.a, tri.b, tri.c];
  }

  /** Ring heights run from -1 at d = 0 to 1 at d = divs. */
  lemma RingYBounds(n: nat, d: nat)
    requires 0 < n && d <= n
    ensures RingY(n, d) == 2.0 * d as real / n as real - 1.0
    ensures -1.0 <= RingY(n, d) <= 1.0
  {
    var nn, dd := n as real, d as real;
    assert (2.0 / nn) * (dd - nn / 2.0) == (2.0 / nn) * dd - (2.0 / nn) * (nn / 2.0);
    assert (2.0 / nn) * (nn / 2.0) == 1.0;
    assert (2.0 / nn) * dd == 2.0 * dd / nn;
    assert 2.0 * dd / nn <= 2.0 * nn / nn;
  }

  lemma SquareAtMostOne(y: real)
    requires -1.0 <= y <= 1.0
    ensures Sq(y) <= 1.0
  {
    if y >= 0.0 {
      assert y * y <= y * 1.0;
    } else {
      assert y * y <= (-y) * 1.0;
    }
  }

  /** With the Pythagorean identity, scaling a cosine and sine pair by r
      keeps a point at distance r from the axis. */
  lemma ScaledCircle(r: real, c: real, s: real)
    requires c * c + s * s == 1.0
    ensures Sq(r * c) + Sq(r * s) == Sq(r)
  {
    assert Sq(r * c) == Sq(r) * (c * c);
    assert Sq(r * s) == Sq(r) * (s * s);
    assert Sq(r) * (c * c) + Sq(r) * (s * s) == Sq(r) * (c * c + s * s);
  }

  /** Every vertex lies on the unit sphere, given a square root that is one
      and a cosine and sine that satisfy the Pythagorean identity. */
  lemma VertexOnUnitSphere(n: nat, m: Libm, d: nat, i: nat)
    requires Lawful(m) && Pythagorean(m)
    requires 0 < n && d <= n
    ensures Dot(SphereVertex(n, m, d, i), SphereVertex(n, m, d, i)) == 1.0
  {
    var v := SphereVertex(n, m, d, i);
    var y := RingY(n, d);
    RingYBounds(n, d);
    SquareAtMostOne(y);
    var r := m.sqrt(1.0 - Sq(y));
    assert r * r == 1.0 - Sq(y);
    var a := i as real * (2.0 * Pi / n as real);
    ScaledCircle(r, m.cos(a), m.sin(a));
    assert Dot(v, v) == Sq(v.x) + Sq(v.y) + Sq(v.z);
  }

  /** All `(divs + 1) * divs` vertices the method produces are unit
      vectors, so they double as the triangles' normals. */
  lemma SphereVerticesAreUnit(n: nat, m: Libm, k: nat)
    requires Lawful(m) && Pythagorean(m)
    requires 0 < n && k < |SphereVertices(n, m)|
    ensures Dot(SphereVertices(n, m)[k], SphereVertices(n, m)[k]) == 1.0
  {
    var d, i := k / n, k % n;
    assert k == d * n + i;
    if d >= n + 1 {
      MulLeft(n + 1, d, n);
    }
    RingsLayout(n, m, n + 1, d, i);
    VertexOnUnitSphere(n, m, d, i);
  }
}

