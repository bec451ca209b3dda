# computer-graphics-practice, modelled in Dafny

This project models the computational core of two small CPU renderers and the vector algebra under them.

- **Rasterizer** (`src/components/rasterization.rs`). It maps centred pixel coordinates to a row-major RGBA buffer, with a depth buffer of `1/z` values beside it. It draws lines by interpolating along the major axis, sorts a triangle's corners by height, and builds edge tables for scanlines. It clips triangles against the camera planes, generates a UV sphere mesh, and lights vertices with ambient, diffuse and `cos^50` specular terms.
- **Ray tracer** (`src/webapp/components/raytracing.rs`). It casts one ray per pixel and intersects it with spheres through the quadratic formula. It keeps the closest root inside an open parameter range, and lights the hit point with shadow-tested lights. It recurses along mirror reflections to a fixed depth, then writes the colour into an RGBA byte buffer.
- **Vector algebra** (`src/math.rs`). Component-wise operators, dot and cross products, norm and normalisation, and the orthonormal basis built from one vector.
- **Lights** (`src/components/graphics.rs`). The three light variants and their common intensity.

## Modules

- `Numerics` holds the pieces of f32 arithmetic that carry meaning:
  - the `Float` sentinels (+inf, -inf, NaN) where the code relies on them;
  - IEEE division;
  - truncating `as i32` and `ceil`;
  - exact powers;
  - `Libm`, the floating-point library (`sqrt`, `powf`, `cos`, `sin`) passed as a parameter, with `Lawful` stating what the proofs need of `sqrt` and `powf`.
- `Vectors` covers `Vector3` and its operators, and `Basis::from_single_vector`.
- `Graphics` covers colours and `Light`.
- `Framebuffer` holds the centred-to-buffer mapping both renderers share, the pixel write and the depth test as functions on sequences.
- `Geometry` holds the triangle, plane, model, instance and camera records, and the corner sort.
- `Interpolation` covers `interpolate` and `edge_interpolate`.
- `Projection` covers the viewport/canvas conversions.
- `Clipping` covers `signed_distance`, `clip_triangle` and `transform_and_clip`.
- `SphereMesh` covers `Model::generate_sphere`.
- `Illumination` covers `compute_illumination`.
- `Raster` holds the `Renderer` class. Its byte buffer and depth buffer are arrays updated in place by `PutPixels`, `UpdateDepthBufIfCloser` and `DrawLine`.
- `RayIntersection` covers `Range::isin`, `intersect_ray_sphere` and `closest_intersection`.
- `RayLighting` covers `compute_lighting` and `reflect_ray`.
- `RayTracer` covers `tracy_ray`, `canvas_to_viewport` and `put_pixels`.

## Model

| member | source | states |
|---|---|---|
| Numerics.LessIsStrictOrder | src/webapp/components/raytracing.rs:219-226 | f32 `<` over finite values, infinities and NaN is irreflexive, asymmetric, transitive and total on non-NaN values, and NaN compares false both ways |
| Numerics.Divide | src/components/rasterization.rs:844 | IEEE division is finite exactly when the divisor is non-zero. The finite quotient times the divisor gives the dividend, and the result is NaN exactly for 0/0 |
| Numerics.Trunc | src/components/rasterization.rs:446-447 | `as i32` truncates toward zero: `n <= r < n+1` for non-negative r, and `n-1 < r <= n` for negative r |
| Numerics.TruncMonotone | src/components/rasterization.rs:817 | truncation is monotone, so the range `i0 as i32 ..= i1 as i32` is non-empty when `i0 <= i1` |
| Numerics.Ceil | src/components/rasterization.rs:867-868 | `ceil(r)` is the integer n with `r <= n < r+1` |
| Numerics.EvenPowerNonNegative | src/components/rasterization.rs:853 | an even power such as `powi(50)` is never negative |
| Vectors.Sub | src/math.rs:95-105 | component-wise subtraction undoes addition: `(a - b) + b == a` |
| Vectors.Neg | src/math.rs:71-81 | negation gives the additive inverse |
| Vectors.ScalarMul | src/math.rs:47-57 | `f * v` is the same vector as `v * f` |
| Vectors.DivScalar | src/math.rs:12-22 | dividing by a non-zero scalar is undone by multiplying by it |
| Vectors.NormPositive | src/math.rs:30-32 | with a lawful sqrt the norm of a non-zero vector is positive |
| Vectors.NormSquared | src/math.rs:30-32 | the norm is non-negative and its square is `v.v` |
| Vectors.Normalize | src/math.rs:26-28 | `v / norm(v)` has unit length, is parallel to v (zero cross product) and points the same way (positive dot product) |
| Vectors.AddCommutative | src/math.rs:118-126 | addition commutes, and `(1,2,3)+(1,2,3) = (2,4,6)` |
| Vectors.SubAntiSymmetric | src/math.rs:128-138 | `a - b = -(b - a)`, and `(1,2,3)-(3,2,1) = (-2,0,2)` |
| Vectors.DotSymmetric | src/math.rs:140-149 | dot is symmetric, equals vector `*` vector, and `(1,2,3).(1,2,3) = 14` |
| Vectors.CrossAxes | src/math.rs:151-160 | `Y x Z = X`, `Z x X = Y` and `X x Y = Z` |
| Vectors.CrossAntiCommutative | src/math.rs:161-163 | swapping the factors negates the cross product, which gives the reversed axis identities |
| Vectors.CrossOrthogonal | src/math.rs:38-44 | the cross product is perpendicular to both factors |
| Vectors.LagrangeIdentity | src/math.rs:38-44 | Lagrange's identity: the squared length of `a x b` is `(a.a)(b.b) - (a.b)^2` |
| Vectors.HelperVector | src/math.rs:181-198 | the helper vector holds the magnitudes of w's components, with the smallest of them replaced by 1 |
| Vectors.HelperNotParallel | src/math.rs:181-202 | for a unit w the helper vector is never parallel to w, so `t x w` can be normalised |
| Vectors.FromSingleVector | src/math.rs:178-207 | u, v and w are unit vectors and pairwise orthogonal. w is parallel to the input and points the same way, and `v = w x u` |
| Graphics.IntensityOfEachVariant | src/components/graphics.rs:10-16 | each variant's intensity is its own field, whatever its position or direction |
| Graphics.Intensity | src/components/graphics.rs:10-16 | the match over the three variants; `IntensityOfEachVariant` and `IntensityIsTheField` show it returns the variant's own intensity field, whatever its position or direction |
| Graphics.IntensityIsTheField | src/components/graphics.rs:3-16 | `intensity()` is total and returns the variant's intensity field |
| Framebuffer.AsU8 | src/components/rasterization.rs:898-900 | `as u8` saturates at 0 and 255 and truncates in between |
| Framebuffer.ColumnClosedForm | src/components/rasterization.rs:888 | the column `ceil(w/2 + cx)` equals `(w+1)/2 + cx` |
| Framebuffer.RowClosedForm | src/components/rasterization.rs:889 | the row `ceil(h/2 - cy - 1)` equals `(h+1)/2 - cy - 1` |
| Framebuffer.PixelIndex | src/components/rasterization.rs:888-897 | a cell exists exactly when the column and row lie in `[0,w) x [0,h)`. It is below `w*h`, and its remainder and quotient by w are the column and row |
| Framebuffer.RowMajorBounds | src/components/rasterization.rs:897 | `x + w*y` for an on-canvas cell lies below `w*h`, and division by w recovers x and y |
| Framebuffer.PixelIndexInjective | src/components/rasterization.rs:883-897 | two centred points that land on the same cell are the same point |
| Framebuffer.Painted | src/components/rasterization.rs:883-902 | off the canvas the buffer is unchanged. On it, bytes `4p..4p+2` take the saturated r, g, b, byte `4p+3` takes 255, and every other byte is unchanged |
| Framebuffer.PaintIdempotent | src/components/rasterization.rs:883-902 | writing the same pixel twice is the same as writing it once |
| Framebuffer.PaintsOfDistinctPixelsCommute | src/components/rasterization.rs:883-902 | writes to two different centred points commute |
| Framebuffer.DepthTestSpec | src/components/rasterization.rs:862-881 | off the canvas: false and no change. On it: true exactly when the cell is 0 or below z, the cell then holds z, and no other cell changes |
| Framebuffer.NearerFragmentWins | src/components/rasterization.rs:875-877 | for fragments in front of the camera the depth test is order-independent, and the cell ends with the largest of its old value and the two 1/z values |
| Geometry.SortVertexIndexes | src/components/rasterization.rs:763-786 | the three swaps return a permutation of `[0,1,2]` whose projected heights, read through the triangle's indexes, are non-decreasing |
| Geometry.OrderIsPermutation | src/components/rasterization.rs:764 | three distinct corner numbers drawn from {0,1,2} form a permutation of `[0,1,2]` |
| Interpolation.RampAtClosedForm | src/components/rasterization.rs:816-820 | adding a k times to d0 gives `d0 + k*a` |
| Interpolation.Ramp | src/components/rasterization.rs:816-820 | the accumulated run has n elements, and element k is d0 plus k steps |
| Interpolation.Samples | src/components/rasterization.rs:805-824 | the result has one element per integer between the truncated ends (0 if there are none). It is `[d0]` when `i0 == i1`, starts at d0, and consecutive elements differ by `(d1-d0)/(i1-i0)` |
| Interpolation.SampleIsLinear | src/components/rasterization.rs:815-820 | element k is `d0 + k * slope` |
| Interpolation.SampleCountOrdered | src/components/rasterization.rs:812-817 | for `i0 <= i1` there is at least one sample, and `trunc(i1) - trunc(i0) + 1` of them when the ends differ |
| Interpolation.Interpolate | src/components/rasterization.rs:805-824 | the loop returns exactly the samples above |
| Interpolation.EdgeInterpolate | src/components/rasterization.rs:788-803 | x02 is the long edge unchanged. x012 is x01 without its last element followed by x12, so its length is `len(x01) - 1 + len(x12)`, given a non-empty x01 |
| Interpolation.EdgeTablesCoverScanlines | src/components/rasterization.rs:788-803 | for sorted heights the two edge tables have the same length, one entry per scanline from `trunc(y0)` to `trunc(y2)` |
| Interpolation.EdgeTablesAgreeAtEnds | src/components/rasterization.rs:794-800 | both tables start at v0 (x012 at v1 when the first edge is one scanline tall), and x012 passes through v1 where the edges meet |
| Projection.ViewportCanvasRoundTrip | src/components/rasterization.rs:728-740 | with a unit viewport, canvas-to-viewport and viewport-to-canvas invert each other |
| Projection.UnProjectInvertsProject | src/components/rasterization.rs:742-752 | un-projecting a projected vertex with its `1/z`, under the unit viewport, gives the vertex back |
| Projection.ProjectionIgnoresDistance | src/components/rasterization.rs:742-744 | scaling a vertex by any non-zero factor projects it to the same canvas point |
| Projection.ViewportToCanvas | src/components/rasterization.rs:728-733 | scales by canvas size over viewport size. `ViewportCanvasRoundTrip` shows that under the unit viewport it and `CanvasToViewport` undo each other |
| Projection.CanvasToViewport | src/components/rasterization.rs:735-740 | divides by the canvas size and never reads the viewport size, so `ViewportCanvasRoundTrip` holds only for the unit viewport the renderer builds |
| Projection.ProjectVertex | src/components/rasterization.rs:742-744 | perspective division by z, then to the canvas. `ProjectionIgnoresDistance` shows every non-zero multiple of a vertex lands on the same canvas point, and `UnProjectInvertsProject` shows the projection is undone given `1/z` |
| Projection.UnProjectVertex | src/components/rasterization.rs:746-752 | from a canvas point and a stored `1/z` back to camera space. `UnProjectInvertsProject` shows it recovers the vertex that was projected |
| Clipping.ClipTriangle | src/components/rasterization.rs:700-722 | the result is `[triangle]` exactly when all three signed distances are positive, and `[]` otherwise, so partly visible triangles are dropped |
| Clipping.SignedDistance | src/components/rasterization.rs:724-726 | `n.p + d`. `SignedDistanceAlongNormal` shows that moving a point k along the normal moves its distance by `k n.n`, and `FlatCornersDistances` evaluates it on concrete planes |
| Clipping.SignedDistanceAlongNormal | src/components/rasterization.rs:724-726 | moving a point k units along the plane's normal changes its signed distance by `k n.n`, so by exactly k for a unit normal |
| Clipping.ClipAll | src/components/rasterization.rs:678-682 | one pass keeps exactly the input triangles that lie wholly in front of the plane, never more of them, and with indexes still in range |
| Clipping.ClipTriangles | src/components/rasterization.rs:678-682 | the inner loop builds exactly that list |
| Clipping.ClipSingle | src/components/rasterization.rs:700-722 | a one-triangle pass is the classification of that triangle |
| Clipping.ClipAgainstAllPlanes | src/components/rasterization.rs:676-684 | the list narrowed plane after plane keeps indexes in range and never grows |
| Clipping.ClipAgainstAllPlanesKeepsVisible | src/components/rasterization.rs:676-684 | a triangle survives the plane-after-plane filter exactly when it is a model triangle in front of every plane |
| Clipping.ClipAgainstLastPlaneKeeps | src/components/rasterization.rs:676-684 | the loop as written keeps a triangle exactly when it is a model triangle in front of the last plane, and keeps none when there are no planes |
| Clipping.LastPlaneOnlyKeepsHiddenTriangle | src/components/rasterization.rs:677-683 | with the planes `z > 1` then `z > -1`, a triangle at z = 0 survives the loop as written, and the plane-after-plane filter drops it |
| Clipping.FlatCornersDistances | src/components/rasterization.rs:724-726 | the flat triangle at z = 0 lies behind `z = 1` and in front of `z = -1` |
| Clipping.NearPlaneDropsFlatTriangle | src/components/rasterization.rs:700-722 | clipping the flat triangle against the near plane `z > 1` drops it |
| Clipping.RearPlaneKeepsFlatTriangle | src/components/rasterization.rs:700-722 | clipping it against the plane `z > -1` keeps it |
| Clipping.TransformVertices | src/components/rasterization.rs:670-674 | the vertex loop builds that list, and the model's triangles still index into it |
| Clipping.BoundsRejected | src/components/rasterization.rs:660-665 | the rejection loop returns true exactly when some plane puts the bounding centre at a signed distance below `-radius` |
| Clipping.ClipEveryPlane | src/components/rasterization.rs:676-684 | with each pass filtering the previous pass's survivors, the loop returns the plane-after-plane filter, so by `ClipAgainstAllPlanesKeepsVisible` exactly the model triangles in front of every plane |
| Clipping.TransformAndClipAsWritten | src/components/rasterization.rs:655-698 | None exactly when some plane puts the transformed bounding centre below `-radius*scale`. Otherwise the instance has the transformed vertices and centre, radius `radius*scale`, scale 1, rotation 0, the origin, and the triangles in front of the last plane |
| Clipping.TransformAndClip | src/components/rasterization.rs:655-698 | the same rejection and instance, with the triangles in front of every plane |
| SphereMesh.Ring | src/components/rasterization.rs:271-277 | a ring holds `divs` vertices, vertex i at angle `i * 2pi/divs` |
| SphereMesh.Rings | src/components/rasterization.rs:268-278 | `count` rings hold `count * divs` vertices |
| SphereMesh.RingsLayout | src/components/rasterization.rs:268-278 | vertex `d*divs + i` is vertex i of ring d |
| SphereMesh.RingYBounds | src/components/rasterization.rs:269 | ring d sits at height `2d/divs - 1`, within `[-1, 1]` |
| SphereMesh.VertexOnUnitSphere | src/components/rasterization.rs:269-276 | with a lawful sqrt and `cos^2 + sin^2 = 1`, every generated vertex has unit length |
| SphereMesh.SphereVerticesAreUnit | src/components/rasterization.rs:266-278 | every vertex of the mesh has unit length, so it serves as its own normal |
| SphereMesh.PosIsProduct | src/components/rasterization.rs:282 | the running position of cell (d, i) is `d*divs + i` |
| SphereMesh.NextIsSuccessorMod | src/components/rasterization.rs:283-284 | the wrapped neighbour is `(i+1) % divs` |
| SphereMesh.TriangleCorners | src/components/rasterization.rs:282-287 | the two triangles of cell (d, i) have corners `[i0, i1, i2]` and `[i0, i0+divs, i1]` with the source's formulas |
| SphereMesh.CellBelow | src/components/rasterization.rs:282-287 | every corner of a cell in the grid is below `(divs+1)*divs` |
| SphereMesh.SphereTriangleShading | src/components/rasterization.rs:210-212 | a triangle `Triangle::new` builds from in-range corners keeps the model colour, has intensity 1.0 at every corner, and its normal at each corner is that corner's vertex |
| SphereMesh.Triangles | src/components/rasterization.rs:289-290 | every cell contributes two triangles |
| SphereMesh.TrianglesAt | src/components/rasterization.rs:289-290 | triangles 2k and 2k+1 are the two triangles of cell k |
| SphereMesh.SphereCellsLayout | src/components/rasterization.rs:280-281 | cell `d*divs + i` of the band loops is (d, i) |
| SphereMesh.SphereTriangleLayout | src/components/rasterization.rs:280-291 | triangles `2(d*divs+i)` and `2(d*divs+i)+1` are cell (d, i)'s, and their corners are in range |
| SphereMesh.SphereIndexesVertices | src/components/rasterization.rs:280-291 | every triangle's indexes are below the vertex count |
| SphereMesh.SphereNormalsAreVertices | src/components/rasterization.rs:289-290 | every triangle of the sphere has the model colour, full intensity, indexes in range, and at each corner the vertex itself as the normal |
| SphereMesh.SphereNormalsAreUnit | src/components/rasterization.rs:266-290 | with a lawful sqrt and `cos^2 + sin^2 = 1`, every corner normal of the generated sphere is a unit vector |
| SphereMesh.SphereRing | src/components/rasterization.rs:271-277 | the inner vertex loop builds ring d |
| SphereMesh.SphereRings | src/components/rasterization.rs:266-278 | the vertex loops build all `divs+1` rings |
| SphereMesh.SphereBand | src/components/rasterization.rs:281-291 | the inner triangle loop builds the triangles of band d in order |
| SphereMesh.SphereBands | src/components/rasterization.rs:280-292 | the triangle loops build every band's triangles |
| SphereMesh.GenerateSphere | src/components/rasterization.rs:262-301 | `(divs+1)*divs` vertices and `2*divs^2` triangles, every index below the vertex count, bounding sphere at the origin with radius 1, and no texture |
| Raster.Renderer.constructor | src/components/rasterization.rs:99-110 | a renderer over a `4*w*h` byte image with an all-zero `w*h` depth buffer |
| Raster.Renderer.PutPixels | src/components/rasterization.rs:883-902 | the byte buffer becomes the painted buffer above, and nothing else changes |
| Raster.Renderer.UpdateDepthBufIfCloser | src/components/rasterization.rs:862-881 | the depth buffer and the result are those of the depth test above, and nothing else changes |
| Raster.Renderer.DrawLine | src/components/rasterization.rs:440-467 | the buffer becomes the old buffer with every point of the line painted in order |
| Raster.Renderer.DrawAlongX | src/components/rasterization.rs:441-453 | a mostly horizontal line is drawn one pixel per column from its left end |
| Raster.Renderer.DrawColumns | src/components/rasterization.rs:450-453 | the column loop paints `(x0+k, trunc(ys[k]))` for each k in order |
| Raster.Renderer.DrawAlongY | src/components/rasterization.rs:454-466 | a mostly vertical line is drawn one pixel per row from its lower end |
| Raster.Renderer.DrawRows | src/components/rasterization.rs:462-465 | the row loop paints `(trunc(xs[k]), y0+k)` for each k in order |
| Raster.XMajorPoints | src/components/rasterization.rs:441-453 | a mostly horizontal line has one point per column from `trunc(x0)` to `trunc(x1)`, at the truncated interpolated height |
| Raster.YMajorPoints | src/components/rasterization.rs:454-466 | a mostly vertical line has one point per row from `trunc(y0)` to `trunc(y1)`, at the truncated interpolated x |
| Raster.LineCoversMajorAxis | src/components/rasterization.rs:440-467 | a line has at least one point. It starts at the truncated start point, ends on the truncated end of the major axis, and steps by exactly one along that axis |
| Raster.LineSymmetric | src/components/rasterization.rs:441-457 | swapping the endpoints draws the same points |
| Raster.PaintAllFrame | src/components/rasterization.rs:450-465 | a byte that belongs to none of the line's pixels is unchanged |
| Illumination.ComputeIllumination | src/components/rasterization.rs:826-858 | the loop returns the sum over the lights, in order, of each light's ambient, or diffuse plus specular, term |
| Illumination.AmbientOnlyIsIntensitySum | src/components/rasterization.rs:830-833 | with only ambient lights the illumination is the sum of their intensities |
| Illumination.IlluminationSplits | src/components/rasterization.rs:828-855 | lights contribute independently: the illumination of two light lists together is the sum of their illuminations |
| Illumination.LightTermNonNegative | src/components/rasterization.rs:844-854 | a light of non-negative intensity never takes light away |
| Illumination.IlluminationNonNegative | src/components/rasterization.rs:826-858 | lights of non-negative intensity give a non-negative illumination |
| Illumination.CosineNeverInfinite | src/components/rasterization.rs:844 | with a lawful sqrt the cosine is finite or NaN (0/0 for a zero vector), never infinite |
| Illumination.DiffuseExactlyWhenFacing | src/components/rasterization.rs:844-847 | a light of positive intensity adds diffuse light exactly when the light vector makes an acute angle with the normal |
| RayIntersection.IsinIsOpenInterval | src/webapp/components/raytracing.rs:22-26 | `isin` holds only for finite t strictly between min and max. +inf and NaN are never in a range |
| RayIntersection.Isin | src/webapp/components/raytracing.rs:22-26 | `min < t && t < max` with f32 comparisons. `IsinIsOpenInterval` shows only finite t are inside, and that +inf and NaN never are |
| RayIntersection.IntersectRaySphere | src/webapp/components/raytracing.rs:236-253 | `(inf, inf)` on a negative discriminant, else `(-b + sqrt D)/2a` then `(-b - sqrt D)/2a`. `RootsLieOnSphere` shows both roots put the point on the sphere, and `MissIsOutOfEveryRange` shows a miss is in no range |
| RayIntersection.QuadraticRoot | src/webapp/components/raytracing.rs:249 | `(-b + s)/(2a)` with `s^2 = b^2 - 4ac` solves `a t^2 + b t + c = 0` |
| RayIntersection.DistanceAlongRay | src/webapp/components/raytracing.rs:237-242 | the squared distance from the centre to the point at t is `a t^2 + b t + c + r^2` |
| RayIntersection.QuotientRoot | src/webapp/components/raytracing.rs:249-250 | each returned quotient is finite, solves the quadratic, and lies at distance r from the centre |
| RayIntersection.RootsLieOnSphere | src/webapp/components/raytracing.rs:236-253 | with a non-negative discriminant and a non-zero direction, both roots are finite, solve the quadratic, and give points at distance r from the centre |
| RayIntersection.RootsOnSphereAtOrigin | src/webapp/components/raytracing.rs:236-253 | for a sphere at the origin, both hit points have length r |
| RayIntersection.DiagonalRayMeetsUnitSphere | fundamentals-of-computer-graphics/src/raytracing.rs:9-41 | the ray from (1,1,1) along (-1,-1,-1) has discriminant 12 against the unit sphere. Both roots are finite, and the first is the larger |
| RayIntersection.MissIsOutOfEveryRange | src/webapp/components/raytracing.rs:244-246 | a negative discriminant gives `(inf, inf)`, which no range accepts |
| RayIntersection.ScanInvariant | src/webapp/components/raytracing.rs:217-228 | after k spheres: no sphere while none has an in-range root. Afterwards, an in-range root of an earlier sphere that no in-range root undercuts, and that the roots of every sphere before it exceed |
| RayIntersection.StepKeeps | src/webapp/components/raytracing.rs:218-227 | one loop iteration keeps that invariant |
| RayIntersection.ClosestHit | src/webapp/components/raytracing.rs:213-235 | a hit names a sphere of the list and a parameter in the range |
| RayIntersection.ClosestHitSpec | src/webapp/components/raytracing.rs:213-235 | None exactly when no sphere has a root in the range. Otherwise the root is in range and belongs to the named sphere, no in-range root is smaller, and every earlier sphere's in-range roots are strictly larger (ties go to the first sphere, then to t1) |
| RayIntersection.ClosestIntersection | src/webapp/components/raytracing.rs:213-235 | the loop returns exactly that closest hit |
| RayLighting.ComputeLighting | src/webapp/components/raytracing.rs:255-307 | the loop returns the sum over the lights, in order, of each light's contribution at the ray's origin, seen along its direction, with the highlight taken about the mirrored vector as line 296 writes it |
| RayLighting.LightAdds | src/webapp/components/raytracing.rs:261-303 | one light adds its intensity if ambient, nothing if shadowed, and otherwise its diffuse term and the highlight of line 296's mirrored vector |
| RayLighting.SpecularAdds | src/webapp/components/raytracing.rs:295-302 | the specular step computes `n (2 n.l) (n.l) - l` and adds that vector's highlight |
| RayLighting.HighlightAdds | src/webapp/components/raytracing.rs:297-301 | the highlight is `i * b^specular` when `r.v > 0`, and nothing otherwise |
| RayLighting.DiffuseTerm | src/webapp/components/raytracing.rs:290-293 | `i n.l / (len n len l)` when `n.l > 0`. `DiffuseOnlyWhenFacing` shows it is positive exactly when the light faces the surface, and `DiffuseNonNegative` that it is never negative |
| RayLighting.Highlight | src/webapp/components/raytracing.rs:295-301 | `i b^specular` when the surface is shiny and `r.v > 0`. `HighlightNonNegative`, `HighlightPositive` and `HighlightFacingAway` show it is non-negative, positive when r faces the viewer, and zero otherwise |
| RayLighting.HighlightPositive | src/webapp/components/raytracing.rs:297-301 | with a lawful `powf`, a shiny surface whose mirrored vector faces the viewer gets a positive highlight from a light of positive intensity |
| RayLighting.HighlightFacingAway | src/webapp/components/raytracing.rs:298 | a mirrored vector with `r.v <= 0` adds no highlight |
| RayLighting.LightContribution | src/webapp/components/raytracing.rs:261-303 | what one light adds: its intensity if ambient, nothing if shadowed, else diffuse plus highlight. `ShadowedLightAddsNothing` and `ContributionNonNegative` state its shadow and sign |
| RayLighting.Lighting | src/webapp/components/raytracing.rs:255-307 | the sum over the lights in order. `ComputeLighting` is proved to return it, and `AmbientOnlyLighting`, `LightingSplits` and `LightingNonNegative` state its properties |
| RayLighting.ReflectKeepsNormalComponent | src/webapp/components/raytracing.rs:309-311 | about a unit normal, reflection keeps the component along the normal |
| RayLighting.ReflectPreservesLength | src/webapp/components/raytracing.rs:309-311 | about a unit normal, reflection preserves length |
| RayLighting.ReflectTwice | src/webapp/components/raytracing.rs:309-311 | reflecting twice about a unit normal gives the direction back |
| RayLighting.ReflectRay | src/webapp/components/raytracing.rs:309-311 | `2 n (n.d) - d`. `ReflectKeepsNormalComponent`, `ReflectPreservesLength` and `ReflectTwice` show it is the mirror image about a unit normal |
| RayLighting.MirrorAsWritten | src/webapp/components/raytracing.rs:296 | `n (2 n.l) (n.l) - l`. `MirrorDecomposes` and `MirrorAsWrittenOnlyAgreesAtZeroOrOne` show it differs from `ReflectRay` unless `n.l` is 0 or 1 |
| RayLighting.MirrorDecomposes | src/webapp/components/raytracing.rs:296 | the mirrored vector as written is the true reflection plus `2(n.l)(n.l - 1) n` |
| RayLighting.MirrorAsWrittenOnlyAgreesAtZeroOrOne | src/webapp/components/raytracing.rs:296 | for a unit normal, the vector as written is the reflection exactly when `n.l` is 0 or 1 |
| RayLighting.MirrorAsWrittenCounterexample | src/webapp/components/raytracing.rs:296 | for n = (0,0,1) and l = (6,3,2), the vector as written is (-6,-3,6) and the reflection is (-6,-3,2), so the two differ |
| RayLighting.SpecularAsWrittenCounterexample | src/webapp/components/raytracing.rs:296-298 | for n = (0,0,1), l = (6,3,2) and view (3,0,4), the vector as written meets the view at `r.v = 6`, while the reflection meets it at `r.v = -10` |
| RayLighting.SpecularExceedsIntended | src/webapp/components/raytracing.rs:295-302 | where line 296's vector faces the viewer and the reflection does not, a shiny surface gets a positive highlight as written and none from the corrected highlight |
| RayLighting.SpecularTermsAgreeAtZeroOrOne | src/webapp/components/raytracing.rs:295-302 | about a unit normal, the highlight as written equals the corrected one when `n.l` is 0 or 1 |
| RayLighting.UnshadowedDirectionalLight | src/webapp/components/raytracing.rs:274-302 | with no spheres a lone directional light is never shadowed, so the lighting as written and the corrected lighting differ exactly by their highlights |
| RayLighting.LightingExceedsIntended | src/webapp/components/raytracing.rs:255-307 | a lone directional light whose line-296 vector faces the viewer while its reflection does not lights the point more as written than in the corrected lighting |
| RayLighting.LightingAgreesAtZeroOrOne | src/webapp/components/raytracing.rs:255-307 | about a unit normal, when every point or directional light meets the normal at `n.l` 0 or 1, the lighting as written equals the corrected lighting `LightingIntended` |
| RayLighting.AmbientOnlyLighting | src/webapp/components/raytracing.rs:260-264 | with only ambient lights the lighting is the sum of their intensities |
| RayLighting.ShadowedLightAddsNothing | src/webapp/components/raytracing.rs:281-288 | a light with a sphere in the shadow range adds nothing |
| RayLighting.PointLightShadowIsBetween | src/webapp/components/raytracing.rs:270-284 | a point light is shadowed only by a root of some sphere strictly between 0.001 and the light (t = 1) |
| RayLighting.DiffuseOnlyWhenFacing | src/webapp/components/raytracing.rs:290-293 | with positive intensity the diffuse term is positive exactly when `n.l > 0`, and is never negative |
| RayLighting.DiffuseNonNegative | src/webapp/components/raytracing.rs:290-293 | the diffuse term of a non-negative intensity is non-negative |
| RayLighting.HighlightNonNegative | src/webapp/components/raytracing.rs:295-302 | the highlight of a non-negative intensity is non-negative, given a lawful `powf` |
| RayLighting.ContributionNonNegative | src/webapp/components/raytracing.rs:261-303 | a light of non-negative intensity adds non-negative light |
| RayLighting.LightingNonNegative | src/webapp/components/raytracing.rs:255-307 | lights of non-negative intensity give non-negative lighting |
| RayLighting.LightingSplits | src/webapp/components/raytracing.rs:260-305 | lights contribute independently: the lighting of two light lists together is the sum of their lightings |
| RayTracer.CanvasToViewport | src/webapp/components/raytracing.rs:163-169 | the direction has z = 1, and its x and y times the canvas width and height give back the canvas point |
| RayTracer.PrimaryRaysStayInViewport | src/webapp/components/raytracing.rs:126-131 | every point of the render loop looks through the viewport square `[-1/2, 1/2]^2` |
| RayTracer.TraceRay | src/webapp/components/raytracing.rs:173-212 | black on a miss, else the hit sphere's colour times the lighting, blended with the reflected colour for a mirror with depth left. `MissIsBlack`, `NoReflectionShowsLocalColor`, `MirrorMixesLocalAndReflected`, `DepthIsIrrelevantWithoutMirrors` and `TracedColorNonNegative` state its cases and bounds |
| RayTracer.MissIsBlack | src/webapp/components/raytracing.rs:174-211 | a ray that meets no sphere in the range sees black |
| RayTracer.NoReflectionShowsLocalColor | src/webapp/components/raytracing.rs:191-195 | a non-reflective sphere, or a ray with no depth left, shows the sphere's colour times the lighting |
| RayTracer.DepthIsIrrelevantWithoutMirrors | src/webapp/components/raytracing.rs:193-196 | in a scene without reflective spheres the recursion depth does not change the colour |
| RayTracer.MirrorMixesLocalAndReflected | src/webapp/components/raytracing.rs:193-207 | a hit sphere of reflectivity r in (0, 1] with depth left shows `local (1-r) + reflected r`: every channel lies between its own lit colour and the colour along the reflected ray, and at r = 1 it is the reflected colour |
| RayTracer.MirrorBlends | src/webapp/components/raytracing.rs:197-207 | at such a hit the traced colour is that blend, with the reflected ray starting at the hit point, mirrored by `reflect_ray`, looking from 0.1 to infinity with one less depth |
| RayTracer.BlendIsBetween | src/webapp/components/raytracing.rs:207 | blending two colours with weights `1-r` and `r`, r in [0, 1], stays between them channel by channel, and gives the second at r = 1 |
| RayTracer.TracedColorNonNegative | src/webapp/components/raytracing.rs:173-211 | with non-negative colours and intensities and reflectivity at most 1, every traced channel is non-negative, by induction on the depth |
| RayTracer.OddWidthOffsetsCounterexample | src/webapp/components/raytracing.rs:148-156 | on a 1x2 canvas the point (0,0) lands on byte 2 and (0,-1) on byte 6, so the alpha write would go past the 8-byte buffer |
| RayTracer.RayOffsetAsWritten | src/webapp/components/raytracing.rs:148-156 | the float column `w/2 + x` and row `h/2 - y - 1`, the bounds test and the truncated `4(x + w y)`. `EvenCanvasAgrees` shows it is four times the shared cell on even canvases, and `OddWidthOffsetsCounterexample` shows where it fails on odd ones |
| RayTracer.OffsetOnEvenCanvas | src/webapp/components/raytracing.rs:149-156 | on a canvas with even sides the column and row are the whole numbers `w/2 + x` and `h/2 - y - 1`, and the offset is four bytes per cell |
| RayTracer.EvenCanvasAgrees | src/webapp/components/raytracing.rs:148-161 | on a canvas with even sides the offset as written is defined exactly when the shared cell mapping is, and is four times that cell |
| RayTracer.PutPixels | src/webapp/components/raytracing.rs:148-161 | the buffer becomes the painted buffer of the shared mapping: off the canvas unchanged, and on it RGB and 255 at the pixel's four bytes only |

## Left out

- Floating-point rounding. Scalars are `real`. `Float` adds +inf, -inf and NaN only where the code uses them: ray roots on a miss, the running best root, open range ends, and 0/0 in a cosine. No result is claimed bit-exact.
- `sqrt`, `powf`, `cos` and `sin` are fields of a `Libm` parameter. The proofs assume only `Lawful`: sqrt is the non-negative square root, and `powf` of a positive base is positive. The sphere lemmas also assume `Pythagorean`: `cos^2 + sin^2 = 1`.
- The nalgebra matrices (`Camera::get_matrix`, `get_orientation`, `Instance::transform`, `rotate_y`) are functions from points to points, passed in as parameters.
- `Rasterizer::render`, `RayTracer::render`, the canvas components, timing, and the DOM and `ImageData` round-trips are not part of this model. `PrimaryRaysStayInViewport` states what the per-pixel loop relies on.
- `Texture::new`, `get_texel`, `draw_filled_triangle`, `draw_shaded_triangle`, `draw_wireframe_triangle`, `render_model`, `render_triangle`, `Triangle::points` and `new_with_intensity` are not part of this model. The buffers change only through the modelled `put_pixels` and `update_depth_buf_if_closer`.
- SphereMesh.GenerateSphere: `divs` is a natural number. The source takes an `f32` and uses `divs as i32` as the loop bound, so a fractional `divs` is not modelled.
- SphereMesh.VertexAt: it returns the zero vector for an out-of-range index where the source would panic. The lemmas show that the mesh never reads one.
- RayLighting.DiffuseTerm and RayLighting.Highlight add nothing when the product of lengths is zero, where f32 would give inf or NaN. `LengthsPositive` shows that with a lawful sqrt this case happens only when the dot product is zero, and then the term's guard already rejects it.
- RayTracer.TraceRay: `normalize` of a zero vector, which nalgebra turns into NaNs, is modelled as the zero vector (`UnitNormal`). A hit point that coincides with the sphere's centre needs a zero radius.
- Framebuffer.AsU8 models Rust's saturating `as u8` for real inputs. NaN colour channels, which would become 0, are not modelled.
- RayIntersection.IntersectRaySphere returns `(-b + sqrt D)/2a` first, as `intersect_ray_sphere` does, so for a > 0 the first root is the larger one.
- Clipping.ClipTriangle drops triangles with one or two corners in front of the plane, as `clip_triangle` does; edge splitting is not modelled.
- Interpolation.EdgeInterpolate requires `SampleCount(y0, y1) > 0`. This excludes the case where `x01.remove(x01.len() - 1)` (src/components/rasterization.rs:798) would panic on an empty list. `SampleCountOrdered` shows that callers with sorted heights always meet it.

## Findings

| source | as written | input that shows it | evidently intended | confidence | as-written member | corrected member |
|---|---|---|---|---|---|---|
| src/components/rasterization.rs:677-683 | each plane's pass filters `instance.model.triangles` again, so only the last plane's pass survives | planes `z > 1` then `z > -1` (normal (0,0,1), distances -1 and 1) and a triangle at z = 0: the first plane drops it, the second keeps it, and the result keeps it | each pass filters the previous pass's survivors, so a triangle survives only in front of every plane | not executed | Clipping.LastPlaneOnlyKeepsHiddenTriangle | Clipping.ClipAgainstAllPlanesKeepsVisible |
| src/webapp/components/raytracing.rs:149-156 | the column `w/2 + x` is computed in floating point, so on a canvas of odd width the offset `4(x + w y)` falls between pixels | w = 1, h = 2: the point (0,0) gives byte 2, and the point (0,-1) gives byte 6, whose alpha byte 9 is past the 8-byte buffer | the whole-pixel column and row the rasterizer uses (`ceil`), so the offset is always four bytes per pixel | not executed | RayTracer.OddWidthOffsetsCounterexample | RayTracer.PutPixels |
| src/webapp/components/raytracing.rs:296 | the mirrored light vector is `n (2 n.l) (n.l) - l`, with the factor `n.l` applied twice, and `compute_lighting` takes the highlight about it | n = (0,0,1), l = (6,3,2), view (3,0,4): the result is (-6,-3,6) and meets the view at 6, while the reflection is (-6,-3,2) and meets it at -10, so a shiny surface there gets a highlight it should not | `2 n (n.l) - l`, as `reflect_ray` and the rasterizer's `compute_illumination` compute it, which keeps the length of l; `LightingIntended` is the lighting with that reflection | not executed | RayLighting.SpecularAsWrittenCounterexample | RayLighting.ReflectPreservesLength |
