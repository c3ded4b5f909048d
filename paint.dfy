/** What the painter writes: colours, the alpha blend of `alphaMix`, one
    pixel write, and the buffer after a whole sequence of pixel writes. */
module Paint {
  import opened Types
  import opened REMath
  import opened Buffer
  import opened Texture

  /** The `Color_T` template argument of the drawing primitives. */
  datatype Color = RgbColor(rgb: Rgb) | RgbaColor(rgba: Rgba)
  {
    /** The number of samples one pixel write stores. */
    function Width(): nat
    {
      if RgbColor? then 3 else 4
    }
  }

  /** A pixel position as the drawing loops compute it (signed). */
  datatype Pixel = Pixel(x: int, y: int)

  // ---------------------------------------------------------------------
  // alphaMix

  lemma MixBounds(s: byte, d: byte, a: byte)
    ensures Min(s, d) * 255 <= s * a + d * (255 - a) <= Max(s, d) * 255
  {
    var lo, hi := Min(s, d), Max(s, d);
    assert s * a + d * (255 - a) - lo * 255 == (s - lo) * a + (d - lo) * (255 - a);
    assert hi * 255 - (s * a + d * (255 - a)) == (hi - s) * a + (hi - d) * (255 - a);
    MulNonNeg(s - lo, a);
    MulNonNeg(d - lo, 255 - a);
    MulNonNeg(hi - s, a);
    MulNonNeg(hi - d, 255 - a);
  }

  /** One channel of `alphaMix`: `s * alpha + d * (1 - alpha)` with
      `alpha = a / 255`, truncated to a byte, in exact arithmetic. */
  function MixChannel(s: byte, d: byte, a: byte): (m: byte)
    ensures Min(s, d) <= m <= Max(s, d)
    ensures a == 255 ==> m == s
    ensures a == 0 ==> m == d
  {
    MulIsProduct(s, a);
    MulIsProduct(d, 255 - a);
    MixBounds(s, d, a);
    var n := Mul(s, a) + Mul(d, 255 - a);
    DivBetween(n, Min(s, d), Max(s, d));
    n / 255
  }

  lemma DivBetween(n: int, lo: int, hi: int)
    requires lo * 255 <= n <= hi * 255
    ensures lo <= n / 255 <= hi
  {
    var q := n / 255;
    assert n == q * 255 + n % 255;
    if q < lo {
      MulMonotone(q + 1, lo, 255);
      assert false;
    }
    if q > hi {
      MulMonotone(hi + 1, q, 255);
      assert false;
    }
  }

  /** The integer channel is exactly the truncation of the blend computed
      over the reals, as the source writes it. */
  lemma {:induction false} MixChannelIsTruncatedBlend(s: byte, d: byte, a: byte)
    ensures MixChannel(s, d, a) == Trunc(s as real * (a as real / 255.0) + d as real * (1.0 - a as real / 255.0))
  {
    var n := s * a + d * (255 - a);
    var q, m := n / 255, n % 255;
    var v := s as real * (a as real / 255.0) + d as real * (1.0 - a as real / 255.0);
    assert v == n as real / 255.0;
    assert n as real == q as real * 255.0 + m as real;
    assert q as real <= v < q as real + 1.0;
    MixBounds(s, d, a);
    MulNonNeg(Min(s, d), 255);
    assert 0.0 <= v;
    var t := Trunc(v);
    assert t as real <= v < t as real + 1.0;
    MixChannelIsQuotient(s, d, a);
  }

  /** The blend is the integer quotient of the weighted sum by 255. */
  lemma MixChannelIsQuotient(s: byte, d: byte, a: byte)
    ensures MixChannel(s, d, a) == (s * a + d * (255 - a)) / 255
  {
    MulIsProduct(s, a);
    MulIsProduct(d, 255 - a);
  }

  /** `alphaMix(src, dst)`: blends `dst` over `src` with the alpha of
      `src`. The drawing code passes the existing pixel as `src`, so the
      weight comes from the pixel already in the image. */
  function AlphaMix(src: Rgba, dst: Rgba): (r: Rgba)
    ensures src.a == 255 ==> r == src
    ensures src.a == 0 ==> r == dst
    ensures Min(src.r, dst.r) <= r.r <= Max(src.r, dst.r)
    ensures Min(src.g, dst.g) <= r.g <= Max(src.g, dst.g)
    ensures Min(src.b, dst.b) <= r.b <= Max(src.b, dst.b)
    ensures Min(src.a, dst.a) <= r.a <= Max(src.a, dst.a)
  {
    Vec4(MixChannel(src.r, dst.r, src.a), MixChannel(src.g, dst.g, src.a),
         MixChannel(src.b, dst.b, src.a), MixChannel(src.a, dst.a, src.a))
  }

  // ---------------------------------------------------------------------
  // Pixel writes.

  /** Channel `k` of a colour, in storage order. */
  function Channel3(v: Rgb, k: nat): byte
    requires k < 3
  {
    if k == 0 then v.r else if k == 1 then v.g else v.b
  }

  function Channel4(v: Rgba, k: nat): byte
    requires k < 4
  {
    if k == 0 then v.r else if k == 1 then v.g else if k == 2 then v.b else v.a
  }

  /** Sample `k` of what `drawPixel(index, c)` stores at `i + k`: channel
      `k` of `c` for `rgb`; for `rgba` channel `k` of `alphaMix` of the
      pixel at `i` with `c`, whose weight is the alpha sample `i + 3`. */
  function Sample(s: seq<byte>, i: nat, c: Color, k: nat): byte
    requires k < c.Width() && i + c.Width() <= |s|
  {
    match c
    case RgbColor(v) => Channel3(v, k)
    case RgbaColor(v) => MixChannel(s[i + k], Channel4(v, k), s[i + 3])
  }

  /** The samples `k ..` of one pixel write, stored in order. The alpha
      sample is the last one written, so every blend still reads the old
      alpha. */
  function WriteFrom(s: seq<byte>, i: nat, c: Color, k: nat): (r: seq<byte>)
    requires k <= c.Width() && i + c.Width() <= |s|
    ensures |r| == |s|
    decreases c.Width() - k
  {
    if k == c.Width() then s else WriteFrom(s[i + k := Sample(s, i, c, k)], i, c, k + 1)
  }

  /** One `drawPixel(index, color)`: three samples for `rgb`; for `rgba`
      four samples holding the blend of the existing pixel with `c`.
      `WriteAtEffect` states what it stores. */
  function WriteAt(s: seq<byte>, i: nat, c: Color): (r: seq<byte>)
    requires i + c.Width() <= |s|
    ensures |r| == |s|
  {
    WriteFrom(s, i, c, 0)
  }

  /** Samples `k ..` of the write hold their channels and nothing else
      changes, given the samples before `k` were already written. */
  lemma {:induction false} WriteFromEffect(s: seq<byte>, i: nat, c: Color, k: nat, o: seq<byte>)
    requires k <= c.Width() && i + c.Width() <= |s| && |o| == |s|
    requires forall j :: 0 <= j < |s| && !(i <= j < i + k) ==> s[j] == o[j]
    requires c.RgbColor? ==> forall j :: 0 <= j < k ==> s[i + j] == Channel3(c.rgb, j)
    requires c.RgbaColor? ==> forall j :: 0 <= j < k ==> s[i + j] == Channel4(AlphaMix(Get4(o, i), c.rgba), j)
    ensures forall j :: 0 <= j < |s| && !(i <= j < i + c.Width()) ==> WriteFrom(s, i, c, k)[j] == o[j]
    ensures c.RgbColor? ==> Get3(WriteFrom(s, i, c, k), i) == c.rgb
    ensures c.RgbaColor? ==> Get4(WriteFrom(s, i, c, k), i) == AlphaMix(Get4(o, i), c.rgba)
    decreases c.Width() - k
  {
    if k < c.Width() {
      var s' := s[i + k := Sample(s, i, c, k)];
      if c.RgbaColor? {
        assert s[i + k] == o[i + k] && s[i + 3] == o[i + 3];
      }
      WriteFromEffect(s', i, c, k + 1, o);
    } else if c.RgbColor? {
      assert s[i] == Channel3(c.rgb, 0) && s[i + 1] == Channel3(c.rgb, 1) && s[i + 2] == Channel3(c.rgb, 2);
    } else {
      var m := AlphaMix(Get4(o, i), c.rgba);
      assert s[i] == Channel4(m, 0) && s[i + 1] == Channel4(m, 1) && s[i + 2] == Channel4(m, 2) && s[i + 3] == Channel4(m, 3);
    }
  }

  /** One pixel write stores `c` (or the blend with the old pixel) in its
      samples and leaves every other sample as it was. */
  lemma WriteAtEffect(s: seq<byte>, i: nat, c: Color)
    requires i + c.Width() <= |s|
    ensures forall j :: 0 <= j < |s| && !(i <= j < i + c.Width()) ==> WriteAt(s, i, c)[j] == s[j]
    ensures c.RgbColor? ==> Get3(WriteAt(s, i, c), i) == c.rgb
    ensures c.RgbaColor? ==> Get4(WriteAt(s, i, c), i) == AlphaMix(Get4(s, i), c.rgba)
  {
    WriteFromEffect(s, i, c, 0, s);
  }

  /** `drawPixel(x, y, c)` stays inside the storage: the coordinates are
      non-negative (they are `size_t` in the source) and every sample
      written exists. */
  predicate Fits(L: Layout, n: nat, p: Pixel, c: Color)
  {
    0 <= p.x && 0 <= p.y && L.Index(p.x, p.y) + c.Width() <= n
  }

  /** Pixel `i` of `pts` fits. */
  predicate FitsAt(L: Layout, n: nat, pts: seq<Pixel>, i: nat, c: Color)
    requires i < |pts|
  {
    Fits(L, n, pts[i], c)
  }

  /** Every pixel of `pts` fits. The quantifier is about `FitsAt`, so it is
      only instantiated where a proof names a pixel through `FitsAt`. */
  predicate AllFit(L: Layout, n: nat, pts: seq<Pixel>, c: Color)
  {
    forall i :: 0 <= i < |pts| ==> FitsAt(L, n, pts, i, c)
  }

  /** The storage after `drawPixel(p, c)` for every `p` of `pts`, in order.
      A write that does not fit is undefined behaviour in the source; every
      drawing operation requires all its writes to fit, and this function
      skips such a write so that it needs no precondition. */
  function Painted(L: Layout, s: seq<byte>, pts: seq<Pixel>, c: Color): (r: seq<byte>)
    ensures |r| == |s|
    decreases |pts|
  {
    if |pts| == 0 then s
    else
      var p := pts[|pts| - 1];
      var before := Painted(L, s, pts[..|pts| - 1], c);
      if Fits(L, |s|, p, c) then WriteAt(before, L.Index(p.x, p.y), c) else before
  }

  /** Painting two lists one after the other is painting their concatenation. */
  lemma {:induction false} PaintAppend(L: Layout, s: seq<byte>, a: seq<Pixel>, b: seq<Pixel>, c: Color)
    ensures Painted(L, s, a + b, c) == Painted(L, Painted(L, s, a, c), b, c)
    decreases |b|
  {
    if |b| > 0 {
      var b' := b[..|b| - 1];
      assert (a + b)[..|a + b| - 1] == a + b';
      assert (a + b)[|a + b| - 1] == b[|b| - 1];
      PaintAppend(L, s, a, b', c);
    } else {
      assert a + b == a;
    }
  }

  /** Every pixel of a concatenation fits exactly when every pixel of both
      parts does. */
  lemma AllFitAppend(L: Layout, n: nat, a: seq<Pixel>, b: seq<Pixel>, c: Color)
    ensures AllFit(L, n, a + b, c) <==> AllFit(L, n, a, c) && AllFit(L, n, b, c)
  {
    if AllFit(L, n, a + b, c) {
      forall i | 0 <= i < |a| ensures FitsAt(L, n, a, i, c) {
        assert FitsAt(L, n, a + b, i, c) && (a + b)[i] == a[i];
      }
      forall i | 0 <= i < |b| ensures FitsAt(L, n, b, i, c) {
        assert FitsAt(L, n, a + b, |a| + i, c) && (a + b)[|a| + i] == b[i];
      }
    }
    if AllFit(L, n, a, c) && AllFit(L, n, b, c) {
      forall i | 0 <= i < |a + b| ensures FitsAt(L, n, a + b, i, c) {
        if i < |a| {
          assert FitsAt(L, n, a, i, c);
        } else {
          assert FitsAt(L, n, b, i - |a|, c);
        }
      }
    }
  }

  /** `AllFitAppend` and `PaintAppend` for three consecutive runs. */
  lemma PaintAppend3(L: Layout, s: seq<byte>, a: seq<Pixel>, b: seq<Pixel>, d: seq<Pixel>, c: Color)
    ensures AllFit(L, |s|, a + b + d, c) <==> AllFit(L, |s|, a, c) && AllFit(L, |s|, b, c) && AllFit(L, |s|, d, c)
    ensures Painted(L, s, a + b + d, c) == Painted(L, Painted(L, Painted(L, s, a, c), b, c), d, c)
  {
    AllFitAppend(L, |s|, a + b, d, c);
    AllFitAppend(L, |s|, a, b, c);
    PaintAppend(L, s, a + b, d, c);
    PaintAppend(L, s, a, b, c);
  }

  /** Painting one more pixel that fits is one more write. */
  lemma PaintSnoc(L: Layout, s: seq<byte>, a: seq<Pixel>, p: Pixel, c: Color)
    requires Fits(L, |s|, p, c)
    ensures Painted(L, s, a + [p], c) == WriteAt(Painted(L, s, a, c), L.Index(p.x, p.y), c)
  {
    assert (a + [p])[..|a|] == a;
  }

  /** A sample no write of `pts` covers keeps its value. */
  lemma {:induction false} PaintFrame(L: Layout, s: seq<byte>, pts: seq<Pixel>, c: Color, j: nat)
    requires j < |s|
    requires forall i :: 0 <= i < |pts| && Fits(L, |s|, pts[i], c) ==>
      !(L.Index(pts[i].x, pts[i].y) <= j < L.Index(pts[i].x, pts[i].y) + c.Width())
    ensures Painted(L, s, pts, c)[j] == s[j]
    decreases |pts|
  {
    if |pts| > 0 {
      var q := pts[|pts| - 1];
      PaintFrame(L, s, pts[..|pts| - 1], c, j);
      if Fits(L, |s|, q, c) {
        WriteAtEffect(Painted(L, s, pts[..|pts| - 1], c), L.Index(q.x, q.y), c);
      }
    }
  }

  /** With an `rgb` colour, at least three channels and every pixel left
      of the right edge, a pixel of the image reads `c` after painting
      exactly when it is one of `pts`, and keeps its colour otherwise. */
  lemma {:induction false} PaintRgbPixel(L: Layout, s: seq<byte>, pts: seq<Pixel>, c: Color, p: Pixel)
    requires c.RgbColor? && L.channel >= 3
    requires Fits(L, |s|, p, c) && p.x < L.width
    requires forall i :: 0 <= i < |pts| ==> pts[i].x < L.width
    ensures Get3(Painted(L, s, pts, c), L.Index(p.x, p.y)) == if p in pts then c.rgb else Get3(s, L.Index(p.x, p.y))
    decreases |pts|
  {
    if |pts| > 0 {
      var q := pts[|pts| - 1];
      var pre := pts[..|pts| - 1];
      assert pts == pre + [q];
      PaintRgbPixel(L, s, pre, c, p);
      if Fits(L, |s|, q, c) {
        WriteAtEffect(Painted(L, s, pre, c), L.Index(q.x, q.y), c);
      }
      if q != p {
        if Fits(L, |s|, q, c) {
          PixelsDisjoint(L, p.x, p.y, q.x, q.y);
        }
        assert p in pts <==> p in pre;
      }
    }
  }

  // ---------------------------------------------------------------------
  // Bounds-checked writes.

  /** The test of `drawPixelSafe`: `x < width && y < height` for `rgb`;
      the `rgba` overload also demands `x > 0 && y > 0`. A negative
      coordinate converts to a huge `size_t` and fails `x < width`. */
  predicate SafeAccepts(L: Layout, p: Pixel, c: Color)
  {
    if c.RgbColor? then 0 <= p.x < L.width && 0 <= p.y < L.height
    else 0 < p.x < L.width && 0 < p.y < L.height
  }

  /** The pixels of `pts` that `drawPixelSafe` writes, in order. */
  function Clip(L: Layout, pts: seq<Pixel>, c: Color): (r: seq<Pixel>)
    ensures |r| <= |pts|
  {
    if |pts| == 0 then []
    else
      var p := pts[|pts| - 1];
      var pre := pts[..|pts| - 1];
      assert pts == pre + [p];
      Clip(L, pre, c) + (if SafeAccepts(L, p, c) then [p] else [])
  }

  /** `drawPixelSafe` writes exactly the pixels of `pts` its test accepts. */
  lemma {:induction false} ClipMembers(L: Layout, pts: seq<Pixel>, c: Color)
    ensures forall p :: p in Clip(L, pts, c) <==> p in pts && SafeAccepts(L, p, c)
  {
    if |pts| > 0 {
      var pre := pts[..|pts| - 1];
      assert pts == pre + [pts[|pts| - 1]];
      ClipMembers(L, pre, c);
    }
  }

  /** In a valid texture with enough channels every accepted pixel fits. */
  lemma ClipFits(L: Layout, n: nat, pts: seq<Pixel>, c: Color)
    requires n == L.Length() && L.channel >= c.Width()
    ensures AllFit(L, n, Clip(L, pts, c), c)
  {
    var r := Clip(L, pts, c);
    ClipMembers(L, pts, c);
    forall i | 0 <= i < |r| ensures FitsAt(L, n, r, i, c) {
      assert r[i] in r;
      PixelInBuffer(L, r[i].x, r[i].y);
    }
  }

  /** Painting the accepted pixels one more point at a time. */
  lemma ClipSnoc(L: Layout, pts: seq<Pixel>, p: Pixel, c: Color)
    ensures Clip(L, pts + [p], c) == Clip(L, pts, c) + (if SafeAccepts(L, p, c) then [p] else [])
  {
    assert (pts + [p])[..|pts|] == pts;
  }

  // ---------------------------------------------------------------------
  // Painting a prefix of a longer list.

  /** Every pixel of a prefix of `full` fits when every pixel of `full` does. */
  lemma AllFitPrefix(L: Layout, n: nat, a: seq<Pixel>, full: seq<Pixel>, c: Color)
    requires AllFit(L, n, full, c) && a <= full
    ensures AllFit(L, n, a, c)
  {
    forall i | 0 <= i < |a| ensures FitsAt(L, n, a, i, c) {
      assert FitsAt(L, n, full, i, c) && full[i] == a[i];
    }
  }

  /** A run of pixels inside a list that fits fits as well. */
  lemma AllFitInfix(L: Layout, n: nat, done: seq<Pixel>, part: seq<Pixel>, full: seq<Pixel>, c: Color)
    requires AllFit(L, n, full, c) && done + part <= full
    ensures AllFit(L, n, part, c)
  {
    forall i | 0 <= i < |part| ensures FitsAt(L, n, part, i, c) {
      assert (done + part)[|done| + i] == part[i];
      assert FitsAt(L, n, full, |done| + i, c) && full[|done| + i] == part[i];
    }
  }

  /** One more write by a drawing loop whose writes so far, plus this one,
      are a prefix of `full`. */
  lemma PaintNext(L: Layout, s0: seq<byte>, drawn: seq<Pixel>, p: Pixel, c: Color, full: seq<Pixel>)
    requires AllFit(L, |s0|, full, c) && drawn + [p] <= full
    ensures Fits(L, |s0|, p, c) && AllFit(L, |s0|, drawn, c) && AllFit(L, |s0|, drawn + [p], c)
    ensures Painted(L, s0, drawn + [p], c) == WriteAt(Painted(L, s0, drawn, c), L.Index(p.x, p.y), c)
  {
    AllFitPrefix(L, |s0|, drawn + [p], full, c);
    AllFitAppend(L, |s0|, drawn, [p], c);
    assert FitsAt(L, |s0|, [p], 0, c);
    PaintSnoc(L, s0, drawn, p, c);
  }

  /** Two more pixels that fit are two more writes. */
  lemma PaintSnocTwo(L: Layout, s: seq<byte>, a: seq<Pixel>, p: Pixel, q: Pixel, c: Color)
    requires Fits(L, |s|, p, c) && Fits(L, |s|, q, c)
    ensures Painted(L, s, a + [p, q], c)
         == WriteAt(WriteAt(Painted(L, s, a, c), L.Index(p.x, p.y), c), L.Index(q.x, q.y), c)
  {
    assert a + [p, q] == a + [p] + [q];
    PaintSnoc(L, s, a, p, c);
    PaintSnoc(L, s, a + [p], q, c);
  }

  /** Extending the list by `e[k]` when `base + e` is a prefix of `full`. */
  lemma PaintNextOf(L: Layout, s0: seq<byte>, base: seq<Pixel>, e: seq<Pixel>, k: nat, c: Color, full: seq<Pixel>)
    requires k < |e| && AllFit(L, |s0|, full, c) && base + e <= full
    ensures Fits(L, |s0|, e[k], c) && AllFit(L, |s0|, base + e[..k], c) && AllFit(L, |s0|, base + e[..k + 1], c)
    ensures Painted(L, s0, base + e[..k + 1], c) == WriteAt(Painted(L, s0, base + e[..k], c), L.Index(e[k].x, e[k].y), c)
  {
    assert base + e[..k + 1] == (base + e[..k]) + [e[k]];
    PrefixAfter(base, e[..k + 1], e);
    PrefixTrans(base + e[..k + 1], base + e, full);
    PaintNext(L, s0, base + e[..k], e[k], c, full);
  }

  // ---------------------------------------------------------------------
  // Line loops: `drawLine` writes with `drawPixel`, `drawLineSafe` with
  // `drawPixelSafe`.

  /** The pixels of `pts` a loop of `drawPixel` (`safe` false) or of
      `drawPixelSafe` (`safe` true) writes. */
  function Drawn(L: Layout, pts: seq<Pixel>, c: Color, safe: bool): seq<Pixel>
  {
    if safe then Clip(L, pts, c) else pts
  }

  /** The accepted pixels of a prefix are a prefix of the accepted pixels. */
  lemma {:induction false} ClipPrefix(L: Layout, pts: seq<Pixel>, k: nat, c: Color)
    requires k <= |pts|
    ensures Clip(L, pts[..k], c) <= Clip(L, pts, c)
    decreases |pts|
  {
    if k < |pts| {
      var pre := pts[..|pts| - 1];
      assert pre[..k] == pts[..k];
      ClipPrefix(L, pre, k, c);
      PrefixExtend(Clip(L, pts[..k], c), Clip(L, pre, c), if SafeAccepts(L, pts[|pts| - 1], c) then [pts[|pts| - 1]] else []);
    } else {
      assert pts[..k] == pts;
    }
  }

  /** Step `k` of a `drawPixelSafe` loop: an accepted pixel fits and is
      written, a rejected one is skipped. */
  lemma ClipStep(L: Layout, s0: seq<byte>, pts: seq<Pixel>, k: nat, c: Color)
    requires k < |pts| && AllFit(L, |s0|, Clip(L, pts, c), c)
    ensures AllFit(L, |s0|, Clip(L, pts[..k], c), c) && AllFit(L, |s0|, Clip(L, pts[..k + 1], c), c)
    ensures SafeAccepts(L, pts[k], c) ==> Fits(L, |s0|, pts[k], c)
    ensures Painted(L, s0, Clip(L, pts[..k + 1], c), c) ==
      if SafeAccepts(L, pts[k], c)
      then WriteAt(Painted(L, s0, Clip(L, pts[..k], c), c), L.Index(pts[k].x, pts[k].y), c)
      else Painted(L, s0, Clip(L, pts[..k], c), c)
  {
    var p := pts[k];
    assert pts[..k + 1] == pts[..k] + [p];
    ClipSnoc(L, pts[..k], p, c);
    ClipPrefix(L, pts, k + 1, c);
    var before, after := Clip(L, pts[..k], c), Clip(L, pts[..k + 1], c);
    if SafeAccepts(L, p, c) {
      assert after == before + [p];
      PaintNext(L, s0, before, p, c, Clip(L, pts, c));
    } else {
      assert after == before;
      AllFitPrefix(L, |s0|, before, Clip(L, pts, c), c);
    }
  }

  /** Step `k` of a line loop: an unchecked write always fits; a checked
      one fits when accepted and is skipped otherwise. */
  lemma DrawnStep(L: Layout, s0: seq<byte>, pts: seq<Pixel>, k: nat, c: Color, safe: bool)
    requires k < |pts| && AllFit(L, |s0|, Drawn(L, pts, c, safe), c)
    ensures AllFit(L, |s0|, Drawn(L, pts[..k], c, safe), c) && AllFit(L, |s0|, Drawn(L, pts[..k + 1], c, safe), c)
    ensures !safe || SafeAccepts(L, pts[k], c) ==> Fits(L, |s0|, pts[k], c)
    ensures Painted(L, s0, Drawn(L, pts[..k + 1], c, safe), c) ==
      if !safe || SafeAccepts(L, pts[k], c)
      then WriteAt(Painted(L, s0, Drawn(L, pts[..k], c, safe), c), L.Index(pts[k].x, pts[k].y), c)
      else Painted(L, s0, Drawn(L, pts[..k], c, safe), c)
  {
    if safe {
      ClipStep(L, s0, pts, k, c);
    } else {
      assert pts[..k + 1] == pts[..k] + [pts[k]];
      assert pts[..k + 1] <= pts;
      PaintNext(L, s0, pts[..k], pts[k], c, pts);
    }
  }

  // ---------------------------------------------------------------------
  // Prefixes.

  /** A prefix of `a` is a prefix of `a + b`. */
  lemma PrefixExtend<T>(p: seq<T>, a: seq<T>, b: seq<T>)
    requires p <= a
    ensures p <= a + b
  {
    assert p == a[..|p|];
    assert (a + b)[..|p|] == a[..|p|];
  }

  /** Prefixes compose. */
  lemma PrefixTrans<T>(a: seq<T>, b: seq<T>, c: seq<T>)
    requires a <= b && b <= c
    ensures a <= c
  {
    assert a == b[..|a|];
    assert b == c[..|b|];
    assert c[..|b|][..|a|] == c[..|a|];
  }

  /** Prefixes survive a common head. */
  lemma PrefixAfter<T>(h: seq<T>, a: seq<T>, b: seq<T>)
    requires a <= b
    ensures h + a <= h + b
  {
    assert a == b[..|a|];
    assert (h + b)[..|h + a|] == h + a;
  }
}
