/**
 * The rasterizer's two flat buffers and how a centred canvas coordinate
 * reaches them (src/components/rasterization.rs, `put_pixels` and
 * `update_depth_buf_if_closer`).  The canvas origin is its centre, y grows
 * upwards; the buffers are row-major from the top-left corner, four RGBA
 * bytes per pixel in `data`, one depth per pixel in `depth_buf`.  The
 * functions here are the specifications the Renderer methods are proved
 * against.
 */
module Framebuffer {
  import opened Numerics
  import opened Graphics

  newtype byte = x: int | 0 <= x < 256

  /** `f as u8` on an f32 channel: saturating, rounding toward zero (NaN,
      which the model does not produce, would also give 0). */
  function AsU8(f: real): (b: byte)
    ensures f <= 0.0 ==> b == 0
    ensures f >= 255.0 ==> b == 255
    ensures 0.0 <= f < 255.0 ==> b as real <= f < b as real + 1.0
  {
    if f <= 0.0 then 0 else if f >= 255.0 then 255 else Trunc(f) as byte
  }

  /** Column of centred x = cx: `ceil(w/2 + cx)`. */
  function Column(w: nat, cx: int): int
  {
    Ceil(w as real / 2.0 + cx as real)
  }

  /** Row of centred y = cy: `ceil(h/2 - cy - 1)`. */
  function Row(h: nat, cy: int): int
  {
    Ceil(h as real / 2.0 - cy as real - 1.0)
  }

  lemma CeilOfInteger(r: real, n: int)
    requires r <= n as real < r + 1.0
    ensures Ceil(r) == n
  {
  }

  /** The ceiling makes the column exact for odd widths too: (w+1)/2 + cx. */
  lemma ColumnClosedForm(w: nat, cx: int)
    ensures Column(w, cx) == (w + 1) / 2 + cx
  {
    var k := w / 2;
    if w % 2 == 0 {
      assert w as real / 2.0 == k as real;
      CeilOfInteger(w as real / 2.0 + cx as real, k + cx);
    } else {
      assert w as real / 2.0 == k as real + 0.5;
      CeilOfInteger(w as real / 2.0 + cx as real, k + 1 + cx);
    }
  }

  /** The row is (h+1)/2 - cy - 1. */
  lemma RowClosedForm(h: nat, cy: int)
    ensures Row(h, cy) == (h + 1) / 2 - cy - 1
  {
    var k := h / 2;
    if h % 2 == 0 {
      assert h as real / 2.0 == k as real;
      CeilOfInteger(h as real / 2.0 - cy as real - 1.0, k - cy - 1);
    } else {
      assert h as real / 2.0 == k as real + 0.5;
      CeilOfInteger(h as real / 2.0 - cy as real - 1.0, k + 1 - cy - 1);
    }
  }

  /** The cell `x + w*y` a centred coordinate addresses, or None when it
      falls outside the w-by-h canvas and is silently dropped. */
  function PixelIndex(w: nat, h: nat, cx: int, cy: int): (p: Option<nat>)
    ensures p.Some? <==> 0 <= Column(w, cx) < w && 0 <= Row(h, cy) < h
    ensures p.Some? ==> p.value < w * h && p.value % w == Column(w, cx) && p.value / w == Row(h, cy)
  {
    var x, y := Column(w, cx), Row(h, cy);
    if x < 0 || x >= w || y < 0 || y >= h then None
    else
      RowMajorBounds(w, h, x, y);
      Some(x + w * y)
  }

  lemma RowMajorBounds(w: nat, h: nat, x: nat, y: nat)
    requires x < w && y < h
    ensures x + w * y < w * h
    ensures (x + w * y) % w == x && (x + w * y) / w == y
  {
    assert x + w * y <= (w - 1) + w * (h - 1) == w * h - 1;
    LemmaDivModUnique(x + w * y, w, y, x);
  }

  /** Division and remainder are determined by any decomposition n = w*q + r
      with 0 <= r < w. */
  lemma LemmaDivModUnique(n: int, w: nat, q: int, r: int)
    requires 0 <= r < w && n == w * q + r
    ensures n / w == q && n % w == r
  {
    var q', r' := n / w, n % w;
    assert w * (q' - q) == r - r';
    if q' - q >= 1 {
      MulAtLeastFactor(w, q' - q);
    } else if q' - q <= -1 {
      MulAtLeastFactor(w, q - q');
    }
  }

  lemma {:induction false} MulAtLeastFactor(w: nat, k: int)
    requires k >= 1
    ensures w * k >= w
    decreases k
  {
    if k > 1 {
      MulAtLeastFactor(w, k - 1);
      assert w * k == w * (k - 1) + w;
    }
  }

  /** Two centred coordinates that both land on the canvas share a cell only
      when they are the same coordinate. */
  lemma PixelIndexInjective(w: nat, h: nat, cx: int, cy: int, cx': int, cy': int)
    requires PixelIndex(w, h, cx, cy).Some? && PixelIndex(w, h, cx', cy').Some?
    requires PixelIndex(w, h, cx, cy) == PixelIndex(w, h, cx', cy')
    ensures cx == cx' && cy == cy'
  {
    ColumnClosedForm(w, cx);
    ColumnClosedForm(w, cx');
    RowClosedForm(h, cy);
    RowClosedForm(h, cy');
  }

  /** The RGBA buffer after `put_pixels(cx, cy, color)`: on the canvas, the
      four bytes of the addressed pixel become r, g, b and opaque alpha;
      off the canvas nothing changes. */
  function Painted(s: seq<byte>, w: nat, h: nat, cx: int, cy: int, c: Rgb): (t: seq<byte>)
    requires |s| == 4 * w * h
    ensures |t| == |s|
    ensures PixelIndex(w, h, cx, cy).None? ==> t == s
    ensures PixelIndex(w, h, cx, cy).Some? ==>
      var o := 4 * PixelIndex(w, h, cx, cy).value;
      && t[o] == AsU8(c.r) && t[o + 1] == AsU8(c.g) && t[o + 2] == AsU8(c.b) && t[o + 3] == 255
      && (forall i :: 0 <= i < |s| && (i < o || o + 4 <= i) ==> t[i] == s[i])
  {
    match PixelIndex(w, h, cx, cy)
    case None => s
    case Some(p) =>
      assert 4 * p + 3 < 4 * w * h;
      s[4 * p := AsU8(c.r)][4 * p + 1 := AsU8(c.g)][4 * p + 2 := AsU8(c.b)][4 * p + 3 := 255]
  }

  /** Painting the same pixel twice with the same colour is painting it once. */
  lemma PaintIdempotent(s: seq<byte>, w: nat, h: nat, cx: int, cy: int, c: Rgb)
    requires |s| == 4 * w * h
    ensures Painted(Painted(s, w, h, cx, cy, c), w, h, cx, cy, c) == Painted(s, w, h, cx, cy, c)
  {
  }

  /** Painting two different pixels commutes: the writes never overlap. */
  lemma PaintsOfDistinctPixelsCommute(s: seq<byte>, w: nat, h: nat, cx: int, cy: int, c: Rgb, cx': int, cy': int, c': Rgb)
    requires |s| == 4 * w * h
    requires cx != cx' || cy != cy'
    ensures Painted(Painted(s, w, h, cx, cy, c), w, h, cx', cy', c')
         == Painted(Painted(s, w, h, cx', cy', c'), w, h, cx, cy, c)
  {
    var p, q := PixelIndex(w, h, cx, cy), PixelIndex(w, h, cx', cy');
    if p.Some? && q.Some? {
      if p == q {
        PixelIndexInjective(w, h, cx, cy, cx', cy');
      }
      var a := Painted(Painted(s, w, h, cx, cy, c), w, h, cx', cy', c');
      var b := Painted(Painted(s, w, h, cx', cy', c'), w, h, cx, cy, c);
      assert forall i :: 0 <= i < |a| ==> a[i] == b[i];
    }
  }

  /** The depth buffer after `update_depth_buf_if_closer(cx, cy, z)`, and
      whether the fragment passed: an on-canvas cell that is still 0 (never
      written) or holds a smaller 1/z than z takes z. */
  function DepthTest(d: seq<real>, w: nat, h: nat, cx: int, cy: int, z: real): (seq<real>, bool)
    requires |d| == w * h
  {
    match PixelIndex(w, h, cx, cy)
    case None => (d, false)
    case Some(p) =>
      if d[p] == 0.0 || d[p] < z then (d[p := z], true) else (d, false)
  }

  /** What the depth test promises: off the canvas it fails and changes
      nothing; on it, it passes exactly when the cell is empty or farther,
      the cell then holds z, and no other cell ever changes. */
  lemma DepthTestSpec(d: seq<real>, w: nat, h: nat, cx: int, cy: int, z: real)
    requires |d| == w * h
    ensures var (d', closer) := DepthTest(d, w, h, cx, cy, z);
      && |d'| == |d|
      && (PixelIndex(w, h, cx, cy).None? ==> !closer && d' == d)
      && (PixelIndex(w, h, cx, cy).Some? ==>
            var p := PixelIndex(w, h, cx, cy).value;
            && (closer <==> d[p] == 0.0 || d[p] < z)
            && d'[p] == (if closer then z else d[p])
            && (forall i :: 0 <= i < |d| && i != p ==> d'[i] == d[i]))
  {
  }

  /** Depth testing is order-independent for fragments in front of the
      camera: whichever of two fragments at the same pixel arrives first,
      the nearer one (larger 1/z) is kept. */
  lemma NearerFragmentWins(d: seq<real>, w: nat, h: nat, cx: int, cy: int, z1: real, z2: real)
    requires |d| == w * h
    requires 0.0 < z1 && 0.0 < z2
    requires forall i :: 0 <= i < |d| ==> d[i] >= 0.0
    ensures DepthTest(DepthTest(d, w, h, cx, cy, z1).0, w, h, cx, cy, z2).0
         == DepthTest(DepthTest(d, w, h, cx, cy, z2).0, w, h, cx, cy, z1).0
    ensures PixelIndex(w, h, cx, cy).Some? ==>
      var p := PixelIndex(w, h, cx, cy).value;
      DepthTest(DepthTest(d, w, h, cx, cy, z1).0, w, h, cx, cy, z2).0[p] == Max3(d[p], z1, z2)
  {
  }

  function Max3(a: real, b: real, c: real): real
  {
    if a >= b && a >= c then a else if b >= c then b else c
  }
}
