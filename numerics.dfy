/**
 * Scalar arithmetic the renderers lean on: the f32 values used as sentinels
 * (infinities and NaN), the truncating and ceiling conversions to integers,
 * an exact integer power, and the floating-point library functions (sqrt,
 * powf, cos, sin), which are parameters constrained by a lawfulness predicate.
 */
module Numerics {

  datatype Option<T> = None | Some(value: T)

  /** An f32 value, kept only as precise as the renderers need: a finite
      number, one of the two infinities, or NaN. */
  datatype Float = Finite(value: real) | PosInf | NegInf | NaN

  /** IEEE `<`: false whenever NaN is involved, -inf below every number,
      +inf above every number. */
  predicate Less(a: Float, b: Float)
  {
    match a
    case NaN => false
    case PosInf => false
    case NegInf => b.Finite? || b.PosInf?
    case Finite(x) => b.PosInf? || (b.Finite? && x < b.value)
  }

  /** Less is a strict order on the non-NaN values, and NaN is unordered. */
  lemma LessIsStrictOrder(a: Float, b: Float, c: Float)
    ensures !Less(a, a)
    ensures Less(a, b) ==> !Less(b, a)
    ensures Less(a, b) && Less(b, c) ==> Less(a, c)
    ensures !Less(NaN, a) && !Less(a, NaN)
    ensures a != NaN && b != NaN && a != b ==> Less(a, b) || Less(b, a)
  {
  }

  /** IEEE division of two finite operands, where a zero divisor is +0:
      a finite quotient, an infinity of the dividend's sign, or NaN for 0/0. */
  function Divide(x: real, y: real): (q: Float)
    ensures q.Finite? <==> y != 0.0
    ensures q.Finite? ==> q.value * y == x
    ensures q == NaN <==> x == 0.0 && y == 0.0
  {
    if y != 0.0 then Finite(x / y)
    else if x > 0.0 then PosInf
    else if x < 0.0 then NegInf
    else NaN
  }

  function Abs(x: real): real
  {
    if x < 0.0 then -x else x
  }

  function Max0(n: int): nat
  {
    if n < 0 then 0 else n
  }

  /** The `as i32` conversion of an f32: rounds toward zero. */
  function Trunc(r: real): (n: int)
    ensures 0.0 <= r ==> n as real <= r < n as real + 1.0
    ensures r < 0.0 ==> n as real - 1.0 < r <= n as real
  {
    if r >= 0.0 then r.Floor else -((-r).Floor)
  }

  /** Truncation is monotone, so `i0 as i32 ..= i1 as i32` is never empty
      when i0 <= i1. */
  lemma TruncMonotone(a: real, b: real)
    requires a <= b
    ensures Trunc(a) <= Trunc(b)
  {
  }

  /** `f32::ceil` of a value that is then used as an integer coordinate. */
  function Ceil(r: real): (n: int)
    ensures r <= n as real < r + 1.0
  {
    -((-r).Floor)
  }

  /** `powi` with a natural exponent, exact over the reals. */
  function Power(x: real, n: nat): real
  {
    if n == 0 then 1.0 else x * Power(x, n - 1)
  }

  /** An even power is never negative: `cos_beta.powi(50)` only adds light. */
  lemma {:induction false} EvenPowerNonNegative(x: real, k: nat)
    ensures Power(x, 2 * k) >= 0.0
  {
    if k > 0 {
      EvenPowerNonNegative(x, k - 1);
      assert Power(x, 2 * k) == x * x * Power(x, 2 * (k - 1));
      assert x * x >= 0.0;
    }
  }

  /** The floating-point library functions the renderers call. */
  datatype Libm = Libm(sqrt: real -> real, powf: (real, real) -> real, cos: real -> real, sin: real -> real)

  /** What the model assumes of the library: sqrt is the non-negative square
      root, and a positive base raised to any power is positive. */
  ghost predicate Lawful(m: Libm)
  {
    && (forall x: real :: 0.0 <= x ==> 0.0 <= m.sqrt(x) && m.sqrt(x) * m.sqrt(x) == x)
    && (forall b: real, e: real :: 0.0 < b ==> 0.0 < m.powf(b, e))
  }

  /** The Pythagorean identity for the library's cosine and sine, which the
      model assumes only where a lemma says so. */
  ghost predicate Pythagorean(m: Libm)
  {
    forall a: real :: m.cos(a) * m.cos(a) + m.sin(a) * m.sin(a) == 1.0
  }

  /** `std::f32::consts::PI` as f32 prints it. */
  const Pi: real := 3.1415927

  /** Products of non-negative numbers are strictly monotone. */
  lemma MulStrictlyMonotone(a: real, b: real, c: real, d: real)
    requires 0.0 <= a < b && 0.0 <= c < d
    ensures a * c < b * d
  {
    assert a * c <= a * d;
    assert a * d < b * d;
  }

  /** The square root of a square is the number itself. */
  lemma SqrtOfSquare(m: Libm, r: real)
    requires Lawful(m) && 0.0 <= r
    ensures m.sqrt(r * r) == r
  {
    var s := m.sqrt(r * r);
    assert 0.0 <= s && s * s == r * r;
    if s < r {
      MulStrictlyMonotone(s, r, s, r);
    } else if s > r {
      MulStrictlyMonotone(r, s, r, s);
    }
  }

  lemma SqrtPositive(m: Libm, x: real)
    requires Lawful(m) && 0.0 < x
    ensures 0.0 < m.sqrt(x)
  {
    assert m.sqrt(x) * m.sqrt(x) == x;
  }

  lemma SqrtZeroOnlyAtZero(m: Libm, x: real)
    requires Lawful(m) && 0.0 <= x && m.sqrt(x) == 0.0
    ensures x == 0.0
  {
    assert m.sqrt(x) * m.sqrt(x) == x;
  }
}
