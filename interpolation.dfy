/**
 * The rasterizer's sample generator and edge splicer
 * (src/components/rasterization.rs, `interpolate` and `edge_interpolate`):
 * a dependent value d sampled once per integer step of an independent
 * value i, and the two edge tables of a triangle sorted by y.
 */
module Interpolation {
  import opened Numerics

  /** How many samples `interpolate` produces: one when the independent
      values coincide, otherwise one per integer in the truncated range
      `i0 as i32 ..= i1 as i32` (none when that range is empty). */
  function SampleCount(i0: real, i1: real): nat
  {
    if i0 == i1 then 1 else Max0(Trunc(i1) - Trunc(i0) + 1)
  }

  /** The slope between the two end points, used as the step. */
  function Slope(i0: real, d0: real, i1: real, d1: real): real
  {
    if i0 == i1 then 0.0 else (d1 - d0) / (i1 - i0)
  }

  /** The k-th accumulated value: d0 with a added k times. */
  function RampAt(d0: real, a: real, k: nat): real
  {
    if k == 0 then d0 else RampAt(d0, a, k - 1) + a
  }

  /** The accumulated value is d0 + k a. */
  lemma {:induction false} RampAtClosedForm(d0: real, a: real, k: nat)
    ensures RampAt(d0, a, k) == d0 + k as real * a
  {
    if k > 0 {
      RampAtClosedForm(d0, a, k - 1);
      StepByOne(d0, k - 1, a);
    }
  }

  /** The first n accumulated values. */
  function Ramp(d0: real, a: real, n: nat): (s: seq<real>)
    ensures |s| == n
    ensures forall k :: 0 <= k < n ==> s[k] == RampAt(d0, a, k)
  {
    if n == 0 then [] else Ramp(d0, a, n - 1) + [RampAt(d0, a, n - 1)]
  }

  /** The samples `interpolate(i0, d0, i1, d1)` returns: d0, then d0 plus
      one slope per further step. */
  function Samples(i0: real, d0: real, i1: real, d1: real): (s: seq<real>)
    ensures |s| == SampleCount(i0, i1)
    ensures i0 == i1 ==> s == [d0]
    ensures |s| > 0 ==> s[0] == d0
    ensures forall k :: 0 <= k < |s| - 1 ==> s[k + 1] - s[k] == Slope(i0, d0, i1, d1)
  {
    Ramp(d0, Slope(i0, d0, i1, d1), SampleCount(i0, i1))
  }

  /** Sample k is d0 plus k slopes. */
  lemma SampleIsLinear(i0: real, d0: real, i1: real, d1: real, k: nat)
    requires k < SampleCount(i0, i1)
    ensures Samples(i0, d0, i1, d1)[k] == d0 + k as real * Slope(i0, d0, i1, d1)
  {
    RampAtClosedForm(d0, Slope(i0, d0, i1, d1), k);
  }

  lemma StepByOne(d0: real, k: int, a: real)
    ensures (d0 + (k + 1) as real * a) - (d0 + k as real * a) == a
  {
    assert (k + 1) as real * a == k as real * a + a;
  }

  /** The sample count is at least one whenever the independent values are
      in increasing order, so the last sample can be removed. */
  lemma SampleCountOrdered(i0: real, i1: real)
    requires i0 <= i1
    ensures SampleCount(i0, i1) >= 1
    ensures i0 != i1 ==> SampleCount(i0, i1) == Trunc(i1) - Trunc(i0) + 1
  {
    TruncMonotone(i0, i1);
  }

  /** `interpolate`: accumulates d0, d0 + a, d0 + 2a, ... one per step. */
  method Interpolate(i0: real, d0: real, i1: real, d1: real) returns (values: seq<real>)
    ensures values == Samples(i0, d0, i1, d1)
  {
    values := [];
    if i0 == i1 {
      values := values + [d0];
    } else {
      var a := (d1 - d0) / (i1 - i0);
      var d := d0;
      var lo, hi := Trunc(i0), Trunc(i1);
      var n := Max0(hi - lo + 1);
      var i := lo;
      while i <= hi
        invariant lo <= i <= hi + 1 || (i == lo && hi < lo)
        invariant values == Ramp(d0, a, i - lo)
        invariant d == RampAt(d0, a, i - lo)
        decreases hi - i
      {
        values := values + [d];
        d := d + a;
        i := i + 1;
      }
      assert i - lo == n;
    }
  }

  /** `edge_interpolate`: the long edge's table x02 and the two short edges'
      tables spliced into x012, dropping the sample the short edges share.
      `x01.remove(x01.len() - 1)` panics on an empty table, so the first
      short edge must produce a sample. */
  method EdgeInterpolate(y0: real, v0: real, y1: real, v1: real, y2: real, v2: real)
    returns (x02: seq<real>, x012: seq<real>)
    requires SampleCount(y0, y1) > 0
    ensures x02 == Samples(y0, v0, y2, v2)
    ensures x012 == Samples(y0, v0, y1, v1)[..SampleCount(y0, y1) - 1] + Samples(y1, v1, y2, v2)
    ensures |x012| == SampleCount(y0, y1) - 1 + SampleCount(y1, y2)
  {
    var x01 := Interpolate(y0, v0, y1, v1);
    var x12 := Interpolate(y1, v1, y2, v2);
    x02 := Interpolate(y0, v0, y2, v2);
    x01 := x01[..|x01| - 1];
    x012 := x01 + x12;
  }

  /** For vertices sorted by y, both edge tables have one entry per scan
      line `y0 as i32 ..= y2 as i32`, so a triangle's left and right edges
      can be indexed together row by row. */
  lemma EdgeTablesCoverScanlines(y0: real, y1: real, y2: real)
    requires y0 <= y1 <= y2
    ensures SampleCount(y0, y1) > 0
    ensures SampleCount(y0, y2) == SampleCount(y0, y1) - 1 + SampleCount(y1, y2)
    ensures SampleCount(y0, y2) == Trunc(y2) - Trunc(y0) + 1
  {
    SampleCountOrdered(y0, y1);
    SampleCountOrdered(y1, y2);
    SampleCountOrdered(y0, y2);
  }

  /** The long table starts at the first vertex's value; the spliced table
      holds the middle vertex's value where the short edges meet, and starts
      at the first vertex's value unless the first short edge spans a single
      scan line (a flat top), where it starts at the middle vertex's. */
  lemma EdgeTablesAgreeAtEnds(y0: real, v0: real, y1: real, v1: real, y2: real, v2: real)
    requires y0 <= y1 <= y2
    ensures SampleCount(y0, y1) > 0 && SampleCount(y1, y2) > 0 && SampleCount(y0, y2) > 0
    ensures var x01 := Samples(y0, v0, y1, v1);
      var x012 := x01[..|x01| - 1] + Samples(y1, v1, y2, v2);
      && Samples(y0, v0, y2, v2)[0] == v0
      && x012[0] == (if |x01| > 1 then v0 else v1)
      && x012[|x01| - 1] == v1
  {
    EdgeTablesCoverScanlines(y0, y1, y2);
    SampleCountOrdered(y1, y2);
  }
}
