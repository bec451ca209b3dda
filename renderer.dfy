/**
 * The rasterizer's `Renderer` (src/components/rasterization.rs) as far as
 * it writes pixels: the RGBA buffer and the depth buffer it owns, the two
 * methods that write one cell of each, and `draw_line`, which walks the
 * major axis of a segment one pixel at a time.
 */
module Raster {
  import opened Numerics
  import opened Vectors
  import opened Graphics
  import opened Framebuffer
  import opened Interpolation

  /** The pixels `draw_line(p0, p1)` writes, in order: one per integer step
      along the axis the segment spans more of, starting from the endpoint
      with the smaller coordinate on that axis, the other coordinate taken
      from `interpolate` and truncated. */
  function LinePoints(p0: Vec2, p1: Vec2): seq<(int, int)>
  {
    if Abs(p1.x - p0.x) > Abs(p1.y - p0.y) then
      var (a, b) := if p0.x > p1.x then (p1, p0) else (p0, p1);
      var ys := Samples(a.x, a.y, b.x, b.y);
      seq(|ys|, k requires 0 <= k < |ys| => (Trunc(a.x) + k, Trunc(ys[k])))
    else
      var (a, b) := if p0.y > p1.y then (p1, p0) else (p0, p1);
      var xs := Samples(a.y, a.x, b.y, b.x);
      seq(|xs|, k requires 0 <= k < |xs| => (Trunc(xs[k]), Trunc(a.y) + k))
  }

  /** The RGBA buffer after painting the points in order. */
  function PaintAll(s: seq<byte>, w: nat, h: nat, pts: seq<(int, int)>, c: Rgb): (t: seq<byte>)
    requires |s| == 4 * w * h
    ensures |t| == |s|
  {
    if pts == [] then s
    else
      var n := |pts| - 1;
      Painted(PaintAll(s, w, h, pts[..n], c), w, h, pts[n].0, pts[n].1, c)
  }

  class Renderer {
    /** `canvas_size`. */
    const width: nat
    const height: nat
    /** Four bytes per pixel, row-major from the top-left corner. */
    const data: array<byte>
    /** One 1/z per pixel; 0 means nothing drawn yet. */
    const depthBuf: array<real>

    predicate Valid()
    {
      data.Length == 4 * width * height && depthBuf.Length == width * height
    }

    /** A renderer over a canvas's image data, with an empty depth buffer. */
    constructor (w: nat, h: nat, image: seq<byte>)
      requires |image| == 4 * w * h
      ensures Valid() && width == w && height == h
      ensures data[..] == image
      ensures forall i :: 0 <= i < depthBuf.Length ==> depthBuf[i] == 0.0
      ensures fresh(data) && fresh(depthBuf)
    {
      width, height := w, h;
      data := new byte[4 * w * h](i requires 0 <= i < 4 * w * h => image[i]);
      depthBuf := new real[w * h](_ => 0.0);
    }

    /** `put_pixels`: writes the colour and an opaque alpha into the cell a
        centred coordinate addresses, and nothing when it is off the canvas. */
    method PutPixels(cx: int, cy: int, color: Rgb)
      requires Valid()
      modifies data
      ensures data[..] == Painted(old(data[..]), width, height, cx, cy, color)
    {
      var x := Ceil(width as real / 2.0 + cx as real);
      var y := Ceil(height as real / 2.0 - cy as real - 1.0);
      if x < 0 || x >= width || y < 0 || y >= height {
        return;
      }
      ghost var s := data[..];
      RowMajorBounds(width, height, x, y);
      assert 4 * width * height == 4 * (width * height);
      var offset := 4 * (x + width * y);
      assert PixelIndex(width, height, cx, cy) == Some(x + width * y);
      data[offset + 0] := AsU8(color.r);
      data[offset + 1] := AsU8(color.g);
      data[offset + 2] := AsU8(color.b);
      data[offset + 3] := 255;
      assert data[..] == s[offset := AsU8(color.r)][offset + 1 := AsU8(color.g)][offset + 2 := AsU8(color.b)][offset + 3 := 255];
    }

    /** `update_depth_buf_if_closer`: the depth test on the addressed cell;
        answers whether the fragment is to be drawn. */
    method UpdateDepthBufIfCloser(cx: int, cy: int, z: real) returns (closer: bool)
      requires Valid()
      modifies depthBuf
      ensures (depthBuf[..], closer) == DepthTest(old(depthBuf[..]), width, height, cx, cy, z)
    {
      var x := Ceil(width as real / 2.0 + cx as real);
      var y := Ceil(height as real / 2.0 - cy as real - 1.0);
      if x < 0 || x >= width || y < 0 || y >= height {
        return false;
      }
      RowMajorBounds(width, height, x, y);
      var offset := x + width * y;
      if depthBuf[offset] == 0.0 || depthBuf[offset] < z {
        depthBuf[offset] := z;
        return true;
      }
      return false;
    }

    /** `draw_line`: the endpoints are put in order along the major axis
        (the `swap` helper), then one pixel is put per step of that axis. */
    method DrawLine(p0: Vec2, p1: Vec2, color: Rgb)
      requires Valid()
      modifies data
      ensures data[..] == PaintAll(old(data[..]), width, height, LinePoints(p0, p1), color)
    {
      var a, b := p0, p1;
      LineSymmetric(p0, p1);
      if Abs(p1.x - p0.x) > Abs(p1.y - p0.y) {
        if a.x > b.x {
          a, b := b, a;
        }
        DrawAlongX(a, b, color);
      } else {
        if a.y > b.y {
          a, b := b, a;
        }
        DrawAlongY(a, b, color);
      }
    }

    /** The x-major branch of `draw_line`: y interpolated over x. */
    method DrawAlongX(a: Vec2, b: Vec2, color: Rgb)
      requires Valid()
      requires Abs(b.x - a.x) > Abs(b.y - a.y) && a.x <= b.x
      modifies data
      ensures data[..] == PaintAll(old(data[..]), width, height, LinePoints(a, b), color)
    {
      var x0, x1 := Trunc(a.x), Trunc(b.x);
      var ys := Interpolate(a.x, a.y, b.x, b.y);
      XMajorPoints(a, b, a, b);
      DrawColumns(x0, x1, ys, LinePoints(a, b), color);
    }

    /** The loop of the x-major branch: the pixel (x, ys[x - x0] as i32) for
        every x from x0 to x1. */
    method DrawColumns(x0: int, x1: int, ys: seq<real>, ghost pts: seq<(int, int)>, color: Rgb)
      requires Valid()
      requires |ys| == |pts| == x1 - x0 + 1
      requires forall k :: 0 <= k < |pts| ==> pts[k] == (x0 + k, Trunc(ys[k]))
      modifies data
      ensures data[..] == PaintAll(old(data[..]), width, height, pts, color)
    {
      ghost var start := data[..];
      var x := x0;
      while x <= x1
        invariant x0 <= x <= x1 + 1
        invariant data[..] == PaintAll(start, width, height, pts[..x - x0], color)
      {
        assert pts[..x - x0 + 1][..x - x0] == pts[..x - x0];
        assert pts[x - x0] == (x, Trunc(ys[x - x0]));
        PutPixels(x, Trunc(ys[x - x0]), color);
        x := x + 1;
      }
      assert pts[..x - x0] == pts;
    }

    /** The y-major branch of `draw_line`: x interpolated over y. */
    method DrawAlongY(a: Vec2, b: Vec2, color: Rgb)
      requires Valid()
      requires Abs(b.x - a.x) <= Abs(b.y - a.y) && a.y <= b.y
      modifies data
      ensures data[..] == PaintAll(old(data[..]), width, height, LinePoints(a, b), color)
    {
      var y0, y1 := Trunc(a.y), Trunc(b.y);
      var xs := Interpolate(a.y, a.x, b.y, b.x);
      YMajorPoints(a, b, a, b);
      DrawRows(y0, y1, xs, LinePoints(a, b), color);
    }

    /** The loop of the y-major branch: the pixel (xs[y - y0] as i32, y) for
        every y from y0 to y1. */
    method DrawRows(y0: int, y1: int, xs: seq<real>, ghost pts: seq<(int, int)>, color: Rgb)
      requires Valid()
      requires |xs| == |pts| == y1 - y0 + 1
      requires forall k :: 0 <= k < |pts| ==> pts[k] == (Trunc(xs[k]), y0 + k)
      modifies data
      ensures data[..] == PaintAll(old(data[..]), width, height, pts, color)
    {
      ghost var start := data[..];
      var y := y0;
      while y <= y1
        invariant y0 <= y <= y1 + 1
        invariant data[..] == PaintAll(start, width, height, pts[..y - y0], color)
      {
        assert pts[..y - y0 + 1][..y - y0] == pts[..y - y0];
        assert pts[y - y0] == (Trunc(xs[y - y0]), y);
        PutPixels(Trunc(xs[y - y0]), y, color);
        y := y + 1;
      }
      assert pts[..y - y0] == pts;
    }
  }

  lemma XMajorPoints(p0: Vec2, p1: Vec2, a: Vec2, b: Vec2)
    requires Abs(p1.x - p0.x) > Abs(p1.y - p0.y)
    requires (a, b) == if p0.x > p1.x then (p1, p0) else (p0, p1)
    ensures var ys := Samples(a.x, a.y, b.x, b.y);
      && Trunc(a.x) <= Trunc(b.x)
      && |LinePoints(p0, p1)| == |ys| == Trunc(b.x) - Trunc(a.x) + 1
      && forall k :: 0 <= k < |ys| ==> LinePoints(p0, p1)[k] == (Trunc(a.x) + k, Trunc(ys[k]))
  {
    SampleCountOrdered(a.x, b.x);
    TruncMonotone(a.x, b.x);
  }

  lemma YMajorPoints(p0: Vec2, p1: Vec2, a: Vec2, b: Vec2)
    requires Abs(p1.x - p0.x) <= Abs(p1.y - p0.y)
    requires (a, b) == if p0.y > p1.y then (p1, p0) else (p0, p1)
    ensures var xs := Samples(a.y, a.x, b.y, b.x);
      && Trunc(a.y) <= Trunc(b.y)
      && |LinePoints(p0, p1)| == |xs| == Trunc(b.y) - Trunc(a.y) + 1
      && forall k :: 0 <= k < |xs| ==> LinePoints(p0, p1)[k] == (Trunc(xs[k]), Trunc(a.y) + k)
  {
    SampleCountOrdered(a.y, b.y);
    TruncMonotone(a.y, b.y);
  }

  /** Which endpoint a line starts from: the one with the smaller coordinate
      on the major axis (the first one on a tie). */
  function LineStart(p0: Vec2, p1: Vec2): Vec2
  {
    if Abs(p1.x - p0.x) > Abs(p1.y - p0.y) then (if p0.x > p1.x then p1 else p0)
    else (if p0.y > p1.y then p1 else p0)
  }

  function LineEnd(p0: Vec2, p1: Vec2): Vec2
  {
    if Abs(p1.x - p0.x) > Abs(p1.y - p0.y) then (if p0.x > p1.x then p0 else p1)
    else (if p0.y > p1.y then p0 else p1)
  }

  /** A line covers every integer step of its major axis between the
      truncated endpoint coordinates, one pixel each, with no gaps, starting
      at the truncated start point. */
  lemma LineCoversMajorAxis(p0: Vec2, p1: Vec2)
    ensures |LinePoints(p0, p1)| >= 1
    ensures var pts := LinePoints(p0, p1);
      var a, b := LineStart(p0, p1), LineEnd(p0, p1);
      if Abs(p1.x - p0.x) > Abs(p1.y - p0.y) then
        && |pts| == Trunc(b.x) - Trunc(a.x) + 1
        && pts[0] == (Trunc(a.x), Trunc(a.y))
        && pts[|pts| - 1].0 == Trunc(b.x)
        && (forall k :: 0 <= k < |pts| - 1 ==> pts[k + 1].0 == pts[k].0 + 1)
      else
        && |pts| == Trunc(b.y) - Trunc(a.y) + 1
        && pts[0] == (Trunc(a.x), Trunc(a.y))
        && pts[|pts| - 1].1 == Trunc(b.y)
        && (forall k :: 0 <= k < |pts| - 1 ==> pts[k + 1].1 == pts[k].1 + 1)
  {
    var a, b := LineStart(p0, p1), LineEnd(p0, p1);
    if Abs(p1.x - p0.x) > Abs(p1.y - p0.y) {
      XMajorPoints(p0, p1, a, b);
      StartSample(a.x, a.y, b.x, b.y);
    } else {
      YMajorPoints(p0, p1, a, b);
      StartSample(a.y, a.x, b.y, b.x);
    }
  }

  /** The first sample of an increasing run is the start value. */
  lemma StartSample(i0: real, d0: real, i1: real, d1: real)
    requires i0 <= i1
    ensures |Samples(i0, d0, i1, d1)| >= 1 && Samples(i0, d0, i1, d1)[0] == d0
  {
    SampleCountOrdered(i0, i1);
  }

  /** Drawing a line from p0 to p1 or from p1 to p0 writes the same pixels
      in the same order. */
  lemma LineSymmetric(p0: Vec2, p1: Vec2)
    ensures LinePoints(p0, p1) == LinePoints(p1, p0)
  {
    assert Abs(p1.x - p0.x) == Abs(p0.x - p1.x);
    assert Abs(p1.y - p0.y) == Abs(p0.y - p1.y);
    if Abs(p1.x - p0.x) <= Abs(p1.y - p0.y) && p0.y == p1.y {
      assert p0 == p1;
    }
  }

  /** Drawing a line changes only the bytes of the pixels it lists. */
  lemma {:induction false} PaintAllFrame(s: seq<byte>, w: nat, h: nat, pts: seq<(int, int)>, c: Rgb, i: nat)
    requires |s| == 4 * w * h && i < |s|
    requires forall k :: 0 <= k < |pts| ==> PixelIndex(w, h, pts[k].0, pts[k].1) != Some(i / 4)
    ensures PaintAll(s, w, h, pts, c)[i] == s[i]
  {
    if pts != [] {
      var n := |pts| - 1;
      PaintAllFrame(s, w, h, pts[..n], c, i);
      var p := PixelIndex(w, h, pts[n].0, pts[n].1);
      if p.Some? {
        assert i < 4 * p.value || 4 * p.value + 4 <= i;
      }
    }
  }
}
