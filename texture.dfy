/** Texture accessors over a `RawImage`, and the `ImageView` / `Sampler`
    pair that reads an 8-bit texture through a wrap mode and a filter. */
module Texture {
  import opened Types
  import opened REMath
  import opened Buffer

  /** `Texture` (8-bit samples) and `HDRTexture` (float samples). */
  type ByteTexture = RawImage<byte>
  type HdrTexture = RawImage<real>

  // ---------------------------------------------------------------------
  // Reading and writing consecutive samples.

  /** The three samples starting at `i`. */
  function Get3<T>(s: seq<T>, i: nat): Vec3<T>
    requires i + 3 <= |s|
  {
    Vec3(s[i], s[i + 1], s[i + 2])
  }

  /** The four samples starting at `i`. */
  function Get4<T>(s: seq<T>, i: nat): Vec4<T>
    requires i + 4 <= |s|
  {
    Vec4(s[i], s[i + 1], s[i + 2], s[i + 3])
  }

  /** `s` with samples `i .. i+2` replaced by the channels of `c`. */
  function Put3<T>(s: seq<T>, i: nat, c: Vec3<T>): (r: seq<T>)
    requires i + 3 <= |s|
    ensures |r| == |s|
    ensures Get3(r, i) == c
    ensures forall j :: 0 <= j < |s| && !(i <= j < i + 3) ==> r[j] == s[j]
  {
    s[i := c.r][i + 1 := c.g][i + 2 := c.b]
  }

  /** `s` with samples `i .. i+3` replaced by the channels of `c`. */
  function Put4<T>(s: seq<T>, i: nat, c: Vec4<T>): (r: seq<T>)
    requires i + 4 <= |s|
    ensures |r| == |s|
    ensures Get4(r, i) == c
    ensures forall j :: 0 <= j < |s| && !(i <= j < i + 4) ==> r[j] == s[j]
  {
    s[i := c.r][i + 1 := c.g][i + 2 := c.b][i + 3 := c.a]
  }

  /** Writing back what was read changes nothing. */
  lemma {:induction false} PutGet3<T>(s: seq<T>, i: nat)
    requires i + 3 <= |s|
    ensures Put3(s, i, Get3(s, i)) == s
  {
    var r := Put3(s, i, Get3(s, i));
    forall j | 0 <= j < |s|
      ensures r[j] == s[j]
    {
      if i <= j < i + 3 {
        assert Get3(r, i) == Get3(s, i);
      }
    }
  }

  /** Writing back what was read changes nothing. */
  lemma {:induction false} PutGet4<T>(s: seq<T>, i: nat)
    requires i + 4 <= |s|
    ensures Put4(s, i, Get4(s, i)) == s
  {
    var r := Put4(s, i, Get4(s, i));
    forall j | 0 <= j < |s|
      ensures r[j] == s[j]
    {
      if i <= j < i + 4 {
        assert Get4(r, i) == Get4(s, i);
      }
    }
  }

  // ---------------------------------------------------------------------
  // Accessors. The 8-bit and the float texture share them: `getRGB`,
  // `getRGBA` (8-bit), `getRGB`, `getRGBA` (float; `getHRGB`, `getHRGBA`
  // in the monolithic header).

  /** `getRGB(index)`: the three samples starting at `index`. */
  function GetRGBAt<T>(t: RawImage<T>, index: nat): Vec3<T>
    reads t
    requires index + 3 <= |t.vec|
  {
    Get3(t.vec, index)
  }

  /** `getRGB(x, y)`: the three samples of pixel (x, y). */
  function GetRGB<T>(t: RawImage<T>, x: nat, y: nat): (c: Vec3<T>)
    reads t
    requires t.GetIndex(x, y) + 3 <= |t.vec|
    ensures var i := t.GetIndex(x, y); c == Vec3(t.vec[i], t.vec[i + 1], t.vec[i + 2])
    ensures c == GetRGBAt(t, t.GetIndex(x, y))
  {
    Get3(t.vec, t.GetIndex(x, y))
  }

  /** `getRGBA(index)`: the four samples starting at `index`. */
  function GetRGBAAt<T>(t: RawImage<T>, index: nat): Vec4<T>
    reads t
    requires index + 4 <= |t.vec|
  {
    Get4(t.vec, index)
  }

  /** `getRGBA(x, y)`: the four samples of pixel (x, y). */
  function GetRGBA<T>(t: RawImage<T>, x: nat, y: nat): (c: Vec4<T>)
    reads t
    requires t.GetIndex(x, y) + 4 <= |t.vec|
    ensures var i := t.GetIndex(x, y); c == Vec4(t.vec[i], t.vec[i + 1], t.vec[i + 2], t.vec[i + 3])
    ensures c == GetRGBAAt(t, t.GetIndex(x, y))
  {
    Get4(t.vec, t.GetIndex(x, y))
  }

  /** In a valid texture with at least three channels every in-bounds
      pixel can be read with `getRGB`. */
  lemma {:induction false} RGBReadable<T>(t: RawImage<T>, x: nat, y: nat)
    requires t.Valid() && t.Shape().Contains(x, y) && t.channel >= 3
    ensures t.GetIndex(x, y) + 3 <= |t.vec|
  {
    PixelInBuffer(t.Shape(), x, y);
  }

  /** With four channels every in-bounds pixel can be read with `getRGBA`. */
  lemma {:induction false} RGBAReadable<T>(t: RawImage<T>, x: nat, y: nat)
    requires t.Valid() && t.Shape().Contains(x, y) && t.channel >= 4
    ensures t.GetIndex(x, y) + 4 <= |t.vec|
  {
    PixelInBuffer(t.Shape(), x, y);
  }

  // ---------------------------------------------------------------------
  // Float `setPixel`.

  /** `setPixel(x, y, hrgb)`: writes exactly three samples at the pixel's
      first sample. */
  method SetPixelRGB(t: HdrTexture, x: nat, y: nat, c: Hrgb)
    requires t.GetIndex(x, y) + 3 <= |t.vec|
    modifies t`vec
    ensures t.vec == Put3(old(t.vec), t.GetIndex(x, y), c)
    ensures GetRGB(t, x, y) == c
  {
    var index := t.GetIndex(x, y);
    SetPixelRGBAt(t, index, c);
  }

  /** `setPixel(index, hrgb)`. */
  method SetPixelRGBAt(t: HdrTexture, index: nat, c: Hrgb)
    requires index + 3 <= |t.vec|
    modifies t`vec
    ensures t.vec == Put3(old(t.vec), index, c)
    ensures GetRGBAt(t, index) == c
  {
    t.vec := t.vec[index := c.r];
    t.vec := t.vec[index + 1 := c.g];
    t.vec := t.vec[index + 2 := c.b];
  }

  /** `setPixel(x, y, hrgba)`: writes exactly four samples; reading the
      pixel back with `getRGBA` gives `c`. */
  method SetPixelRGBA(t: HdrTexture, x: nat, y: nat, c: Hrgba)
    requires t.GetIndex(x, y) + 4 <= |t.vec|
    modifies t`vec
    ensures t.vec == Put4(old(t.vec), t.GetIndex(x, y), c)
    ensures GetRGBA(t, x, y) == c
  {
    var index := t.GetIndex(x, y);
    SetPixelRGBAAt(t, index, c);
  }

  /** `setPixel(index, hrgba)`. */
  method SetPixelRGBAAt(t: HdrTexture, index: nat, c: Hrgba)
    requires index + 4 <= |t.vec|
    modifies t`vec
    ensures t.vec == Put4(old(t.vec), index, c)
    ensures GetRGBAAt(t, index) == c
  {
    t.vec := t.vec[index := c.r];
    t.vec := t.vec[index + 1 := c.g];
    t.vec := t.vec[index + 2 := c.b];
    t.vec := t.vec[index + 3 := c.a];
  }

  /** Writing a pixel leaves every other in-bounds pixel of a valid texture
      as it was. */
  lemma {:induction false} SetPixelLeavesOthers<T>(L: Layout, s: seq<T>, x: nat, y: nat, c: Vec4<T>, x': nat, y': nat)
    requires |s| == L.Length() && L.channel >= 4
    requires L.Contains(x, y) && L.Contains(x', y') && (x, y) != (x', y')
    ensures L.Index(x, y) + 4 <= |s| && L.Index(x', y') + 4 <= |s|
    ensures Get4(Put4(s, L.Index(x, y), c), L.Index(x', y')) == Get4(s, L.Index(x', y'))
  {
    PixelInBuffer(L, x, y);
    PixelInBuffer(L, x', y');
    PixelsDisjoint(L, x, y, x', y');
  }

  // ---------------------------------------------------------------------
  // Sampling policy.

  datatype UndersamplingFix = NoFix | Mipmap | Anisotropy
  datatype TextureWrap = Repeat | Clamp | Mirror
  datatype TextureFilter = Nearest | Bilinear | Bicubic

  /** `std::fmod(t, 1)`: the fractional part, with the sign of `t`. */
  function Fmod1(t: real): (f: real)
    ensures 0.0 <= t ==> 0.0 <= f < 1.0
    ensures t <= 0.0 ==> -1.0 < f <= 0.0
    ensures (t - f).Floor as real == t - f
  {
    t - Trunc(t) as real
  }

  /** `wrapUV`, one coordinate. */
  function WrapCoord(wrap: TextureWrap, t: real): (w: real)
    ensures wrap == Clamp ==> 0.0 <= w <= 1.0
    ensures wrap == Repeat && 0.0 <= t ==> 0.0 <= w < 1.0
    ensures wrap == Mirror && 0.0 <= t ==> 0.0 < w <= 1.0
  {
    match wrap
    case Repeat => Fmod1(t)
    case Clamp => Camp(t, 0.0, 1.0)
    case Mirror => 1.0 - Fmod1(t)
  }

  /** `uv2xy`, one coordinate: `size_t x = t * size`. The float-to-unsigned
      conversion is undefined for values at or below -1, modelled as `None`. */
  function TexelCoord(t: real, size: nat): (x: Option<nat>)
    ensures x.Some? <==> -1.0 < t * size as real
    ensures x.Some? && 0.0 <= t ==> x.value as real <= t * size as real < x.value as real + 1.0
  {
    var v := t * size as real;
    if v <= -1.0 then None
    else if v < 0.0 then Some(0)
    else Some(Trunc(v))
  }

  /** Reads pixel (x, y) through `getRGB`, which indexes `std::vector`
      without a check: `None` when a sample lies outside the storage. A
      column past the right edge is read from the next row, as in the
      source. */
  function ReadRGB(t: ByteTexture, x: nat, y: nat): (c: Option<Rgb>)
    reads t
    ensures c.Some? <==> t.GetIndex(x, y) + 3 <= |t.vec|
    ensures c.Some? ==> c.value == GetRGB(t, x, y)
  {
    if t.GetIndex(x, y) + 3 <= |t.vec| then Some(GetRGB(t, x, y)) else None
  }

  /** The bilinear neighbour `std::min(x + 1, w - 1)` in `size_t`; for
      `w == 0` the subtraction wraps to the largest value. */
  function Neighbour(x: nat, w: nat): (n: nat)
    ensures w >= 1 ==> n < w
    ensures x + 1 < w ==> n == x + 1
    ensures w >= 1 && x + 1 >= w ==> n == w - 1
  {
    if w == 0 then x + 1 else Min(x + 1, w - 1)
  }

  /** The nearest filter. */
  function NearestFilter(t: ByteTexture, wrap: TextureWrap, u: real, v: real): Option<Rgb>
    reads t
  {
    var x := TexelCoord(WrapCoord(wrap, u), t.width);
    var y := TexelCoord(WrapCoord(wrap, v), t.height);
    if x.None? || y.None? then None else ReadRGB(t, x.value, y.value)
  }

  /** The bilinear filter: four reads around the texel, blended first along
      x and then along y with the fractional offsets. */
  function BilinearFilter(t: ByteTexture, wrap: TextureWrap, u: real, v: real): Option<Rgb>
    reads t
  {
    var uu, vv := WrapCoord(wrap, u), WrapCoord(wrap, v);
    var w, h := t.width, t.height;
    var dx, dy := Fmod1(uu * w as real), Fmod1(vv * h as real);
    var x, y := TexelCoord(uu, w), TexelCoord(vv, h);
    if x.None? || y.None? then None
    else
      var xa, ya := Neighbour(x.value, w), Neighbour(y.value, h);
      var g0, g1 := ReadRGB(t, x.value, y.value), ReadRGB(t, xa, y.value);
      var g2, g3 := ReadRGB(t, x.value, ya), ReadRGB(t, xa, ya);
      if g0.None? || g1.None? || g2.None? || g3.None? then None
      else
        var i0, i1 := LerpRgb(g0.value, g1.value, dx), LerpRgb(g2.value, g3.value, dx);
        if i0.None? || i1.None? then None else LerpRgb(i0.value, i1.value, dy)
  }

  /** `bicubicFilter`: a constant black placeholder. */
  function BicubicFilter(t: ByteTexture, wrap: TextureWrap, u: real, v: real): Option<Rgb>
  {
    Some(Vec3(0, 0, 0))
  }

  /** What `Sampler::getPixel` returns: dispatch on the filter. */
  function Sample(t: ByteTexture, wrap: TextureWrap, filter: TextureFilter, u: real, v: real): Option<Rgb>
    reads t
  {
    match filter
    case Nearest => NearestFilter(t, wrap, u, v)
    case Bilinear => BilinearFilter(t, wrap, u, v)
    case Bicubic => BicubicFilter(t, wrap, u, v)
  }

  /** At a texel-aligned coordinate both fractional offsets are 0, so the
      bilinear filter returns the nearest texel whenever its four reads
      succeed. */
  lemma {:induction false} BilinearAtTexelIsNearest(t: ByteTexture, wrap: TextureWrap, u: real, v: real)
    requires Fmod1(WrapCoord(wrap, u) * t.width as real) == 0.0
    requires Fmod1(WrapCoord(wrap, v) * t.height as real) == 0.0
    requires BilinearFilter(t, wrap, u, v).Some?
    ensures BilinearFilter(t, wrap, u, v) == NearestFilter(t, wrap, u, v)
  {
    var uu, vv := WrapCoord(wrap, u), WrapCoord(wrap, v);
    var x, y := TexelCoord(uu, t.width), TexelCoord(vv, t.height);
    var xa, ya := Neighbour(x.value, t.width), Neighbour(y.value, t.height);
    var g0, g1 := ReadRGB(t, x.value, y.value), ReadRGB(t, xa, y.value);
    var g2 := ReadRGB(t, x.value, ya);
    assert LerpRgb(g0.value, g1.value, 0.0) == Some(g0.value);
    assert LerpRgb(g2.value, ReadRGB(t, xa, ya).value, 0.0) == Some(g2.value);
    assert LerpRgb(g0.value, g2.value, 0.0) == Some(g0.value);
  }

  /** Under the clamp policy, `u == 1` maps to column `width`, one past the
      last column. At the bottom-right corner of a valid texture this reads
      outside the storage. */
  lemma {:induction false} ClampEdgeReadsPastEnd(t: ByteTexture)
    requires t.Valid() && t.width >= 1 && t.height >= 1 && t.channel >= 1
    ensures TexelCoord(WrapCoord(Clamp, 1.0), t.width) == Some(t.width)
    ensures NearestFilter(t, Clamp, 1.0, 1.0) == None
  {
    assert TexelCoord(1.0, t.width) == Some(t.width);
    assert TexelCoord(1.0, t.height) == Some(t.height);
    var L := t.Shape();
    assert L.Index(t.width, t.height) >= L.Length() by {
      assert L.Index(t.width, t.height) == t.height * (t.width * t.channel) + t.width * t.channel;
      assert L.Length() == t.height * (t.width * t.channel);
    }
  }

  /** Under the repeat policy a negative coordinate keeps its sign, and
      once it reaches a full texel the conversion to `size_t` is undefined. */
  lemma RepeatNegativeUndefined()
    ensures WrapCoord(Repeat, -0.5) == -0.5
    ensures TexelCoord(WrapCoord(Repeat, -0.5), 2) == None
  {
    assert Trunc(-0.5) == 0;
  }

  // ---------------------------------------------------------------------

  /** `ImageView<uint8_t>`: a texture plus the (unused) mipmap and
      anisotropy textures, the undersampling policy and the dirty flag. */
  class ImageView
  {
    const texture: ByteTexture
    const mipmap: ByteTexture
    const anisotropy: ByteTexture
    const ufx: UndersamplingFix
    var changed: bool
    var sampler: Sampler?

    ghost predicate Valid()
      reads this, sampler
    {
      sampler != null && sampler.imageView == this
    }

    /** `ImageView(uf = mipmap, tw = clamp, tf = nearest)`: empty textures,
      a fresh sampler pointing back here, and a clear dirty flag. */
    constructor (uf: UndersamplingFix := Mipmap, tw: TextureWrap := Clamp, tf: TextureFilter := Nearest)
      ensures Valid() && fresh(sampler)
      ensures ufx == uf && sampler.wrap == tw && sampler.filter == tf
      ensures !changed
      ensures fresh(texture) && texture.Valid() && texture.Shape() == Layout(0, 0, 0)
    {
      texture := new RawImage(0, 0, 0, 0);
      mipmap := new RawImage(0, 0, 0, 0);
      anisotropy := new RawImage(0, 0, 0, 0);
      ufx := uf;
      changed := false;
      new;
      sampler := new Sampler(this, tw, tf);
    }

    /** `update`: dispatch on the undersampling policy. Both hooks are
        empty, so no policy changes anything. */
    method Update()
      ensures unchanged(this, texture, mipmap, anisotropy)
    {
      match ufx
      case NoFix =>
      case Mipmap => UpdateMipmap();
      case Anisotropy => UpdateAnisotropy();
    }

    method UpdateMipmap()
      ensures unchanged(mipmap)
    {
    }

    method UpdateAnisotropy()
      ensures unchanged(anisotropy)
    {
    }

    /** `getPixel`: forwards to the sampler. */
    method GetPixel(u: real, v: real) returns (c: Option<Rgb>)
      requires Valid()
      ensures c == Sample(texture, sampler.wrap, sampler.filter, u, v)
      ensures sampler.filter == Bicubic ==> c == Some(Vec3(0, 0, 0))
    {
      c := sampler.GetPixel(u, v);
    }
  }

  /** `ImageView::Sampler`: a wrap mode, a filter and a pointer back to the
      image view. */
  class Sampler
  {
    const imageView: ImageView
    const wrap: TextureWrap
    const filter: TextureFilter

    constructor (iv: ImageView, tw: TextureWrap := Clamp, tf: TextureFilter := Nearest)
      ensures imageView == iv && wrap == tw && filter == tf
    {
      imageView, wrap, filter := iv, tw, tf;
    }

    /** `getPixel`: runs `update` when the view is dirty (without clearing
        the flag), then applies the selected filter. */
    method GetPixel(u: real, v: real) returns (c: Option<Rgb>)
      ensures c == Sample(imageView.texture, wrap, filter, u, v)
      ensures filter == Bicubic ==> c == Some(Vec3(0, 0, 0))
      ensures imageView.changed == old(imageView.changed)
    {
      if imageView.changed {
        imageView.Update();
      }
      match filter
      case Nearest => c := NearestFilter(imageView.texture, wrap, u, v);
      case Bilinear => c := BilinearFilter(imageView.texture, wrap, u, v);
      case Bicubic => c := BicubicFilter(imageView.texture, wrap, u, v);
    }
  }
}
