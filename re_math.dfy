/** Scalar helpers of RE_math.h. The float arithmetic is modelled over the
    reals; conversions from float to an integer type are written out. */
module REMath {
  import opened Types

  /** `camp`: clamp `x` into `[lo, hi]`. */
  function Camp(x: real, lo: real, hi: real): (r: real)
    ensures lo <= hi ==> lo <= r <= hi
    ensures lo <= x <= hi ==> r == x
    ensures x < lo ==> r == lo
    ensures lo <= x && hi < x ==> r == hi
  {
    if x < lo then lo else if x > hi then hi else x
  }

  lemma CampIdempotent(x: real, lo: real, hi: real)
    requires lo <= hi
    ensures Camp(Camp(x, lo, hi), lo, hi) == Camp(x, lo, hi)
  {
  }

  function RMin(a: real, b: real): real { if a < b then a else b }
  function RMax(a: real, b: real): real { if a < b then b else a }

  /** `lerp`: linear interpolation from `x1` (t = 0) to `x2` (t = 1). */
  function Lerp(x1: real, x2: real, t: real): (r: real)
    ensures t == 0.0 ==> r == x1
    ensures t == 1.0 ==> r == x2
    ensures 0.0 <= t <= 1.0 ==> RMin(x1, x2) <= r <= RMax(x1, x2)
  {
    x1 + Scale(x2 - x1, t)
  }

  /** The step `a * t` of an interpolation: for `t` in `[0, 1]` it lies
      between 0 and `a`, whatever the sign of `a`. */
  function Scale(a: real, t: real): (r: real)
    ensures t == 0.0 ==> r == 0.0
    ensures t == 1.0 ==> r == a
    ensures 0.0 <= t <= 1.0 ==> RMin(0.0, a) <= r <= RMax(0.0, a)
  {
    ScaleBetween(a, t);
    a * t
  }

  lemma ScaleBetween(a: real, t: real)
    ensures 0.0 <= t <= 1.0 ==> RMin(0.0, a) <= a * t <= RMax(0.0, a)
  {
    if 0.0 <= t <= 1.0 {
      if 0.0 <= a { ScaleNonneg(a, t); } else { ScaleNonpos(a, t); }
    }
  }

  lemma ScaleNonneg(a: real, t: real)
    requires 0.0 <= a && 0.0 <= t <= 1.0
    ensures 0.0 <= a * t
    ensures a * t <= a
  {
    assert 0.0 <= a * (1.0 - t);
    assert a * (1.0 - t) == a - a * t;
  }

  lemma ScaleNonpos(a: real, t: real)
    requires a <= 0.0 && 0.0 <= t <= 1.0
    ensures a * t <= 0.0
    ensures a <= a * t
  {
    assert a * (1.0 - t) <= 0.0;
    assert a * (1.0 - t) == a - a * t;
  }

  /** `campInterp`: interpolation with the parameter clamped into `[0, 1]`
      first, so the result never leaves the segment between the two ends. */
  function CampInterp(x1: real, x2: real, t: real): (r: real)
    ensures RMin(x1, x2) <= r <= RMax(x1, x2)
    ensures t <= 0.0 ==> r == x1
    ensures 1.0 <= t ==> r == x2
  {
    Lerp(x1, x2, Camp(t, 0.0, 1.0))
  }

  /** C++ conversion of a float to an integer type: truncation toward zero. */
  function Trunc(v: real): (n: int)
    ensures 0.0 <= v ==> n as real <= v < n as real + 1.0
    ensures v <= 0.0 ==> n as real - 1.0 < v <= n as real
  {
    if v >= 0.0 then v.Floor else -((-v).Floor)
  }

  /** `static_cast<uint8_t>` of a float: defined only when the truncated
      value fits in 8 bits. */
  function ByteCast(v: real): (r: Option<byte>)
    ensures r.Some? <==> -1.0 < v < 256.0
    ensures r.Some? ==> r.value == Trunc(v)
  {
    var n := Trunc(v);
    if 0 <= n < 256 then Some(n) else None
  }

  /** The 8-bit vector `lerp`, one channel. */
  function LerpChannel(a: byte, b: byte, t: real): (r: Option<byte>)
    ensures 0.0 <= t <= 1.0 ==> r.Some? && Min(a, b) <= r.value <= Max(a, b)
    ensures t == 0.0 ==> r == Some(a)
  {
    ByteCast(Lerp(a as real, b as real, t))
  }

  /** The `u8vec3` overload of `lerp`: channel-wise interpolation with a
      truncating byte cast per channel. */
  function LerpRgb(c1: Rgb, c2: Rgb, t: real): (r: Option<Rgb>)
    ensures 0.0 <= t <= 1.0 ==> r.Some?
    ensures 0.0 <= t <= 1.0 ==>
      && Min(c1.r, c2.r) <= r.value.r <= Max(c1.r, c2.r)
      && Min(c1.g, c2.g) <= r.value.g <= Max(c1.g, c2.g)
      && Min(c1.b, c2.b) <= r.value.b <= Max(c1.b, c2.b)
    ensures t == 0.0 ==> r == Some(c1)
  {
    match (LerpChannel(c1.r, c2.r, t), LerpChannel(c1.g, c2.g, t), LerpChannel(c1.b, c2.b, t))
    case (Some(r), Some(g), Some(b)) => Some(Vec3(r, g, b))
    case _ => None
  }
}
