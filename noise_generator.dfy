/** The drawing half of the noise generator: the permutation table, and
    the three fills that write noise into a painter's texture. `rand()`,
    `std::random_device` and `std::shuffle` are not modelled: the values
    they produce are parameters. */
module NoiseGenerator {
  import opened Types
  import opened REMath
  import opened Buffer
  import opened Texture
  import opened Paint
  import opened Painter
  import opened Perlin

  // ---------------------------------------------------------------------
  // The permutation table.

  /** `generatePermutationTable()`: `0 .. 255` in order, shuffled, then
      appended to itself. `order[i]` is the position whose value the
      shuffle moves to slot `i`. The source appends with
      `p.insert(p.end(), p.begin(), p.end())`, a self-insertion the
      standard leaves undefined; the model appends a copy, as intended. */
  method GeneratePermutationTable(order: seq<int>) returns (p: seq<int>)
    requires IsPermutation256(order)
    ensures DoubledPermutation(p) && PermTable(p)
    ensures forall i :: 0 <= i < 256 ==> p[i] == order[i]
  {
    p := seq(256, _ => 0);
    for i := 0 to 256
      invariant |p| == 256
      invariant forall j :: 0 <= j < i ==> p[j] == j
    {
      p := p[i := i];
    }
    p := seq(256, i requires 0 <= i < 256 => p[order[i]]);
    p := p + p;
    assert p[..256] == p[256..];
    DoubledIsTable(p);
  }

  // ---------------------------------------------------------------------
  // What the Perlin fills write.

  /** Which noise a fill draws: `generatePerlinNoise(freq)` or
      `generateFractalPerlinNoise()`. */
  datatype Pattern = PerlinPattern(freq: nat) | FractalPattern

  /** The frequencies are usable: `girdSize` is at least 1 for each. */
  predicate PatternOk(L: Layout, pat: Pattern)
  {
    match pat
    case PerlinPattern(freq) => 0 < freq <= Max(L.width, L.height)
    case FractalPattern => 128 <= Max(L.width, L.height)
  }

  /** The noise value at pixel (x, y), before the byte cast. */
  function PatternNoise(L: Layout, perm: seq<int>, pat: Pattern, x: nat, y: nat): real
    requires PermTable(perm) && PatternOk(L, pat)
  {
    match pat
    case PerlinPattern(freq) => PerlinNoise(L, perm, x, y, freq)
    case FractalPattern => FractalNoise(L, perm, x, y)
  }

  /** `static_cast<uint8_t>(noiseValue * 255)` is defined at every pixel. */
  predicate Castable(L: Layout, perm: seq<int>, pat: Pattern)
    requires PermTable(perm) && PatternOk(L, pat)
  {
    forall x: nat, y: nat :: x < L.width && y < L.height ==> ByteCast(PatternNoise(L, perm, pat, x, y) * 255.0).Some?
  }

  /** The grey level the fill draws at pixel (x, y). */
  function PixelGrey(L: Layout, perm: seq<int>, pat: Pattern, x: nat, y: nat): byte
    requires PermTable(perm) && PatternOk(L, pat) && Castable(L, perm, pat)
    requires x < L.width && y < L.height
  {
    ByteCast(PatternNoise(L, perm, pat, x, y) * 255.0).value
  }

  /** The grey level of every pixel, in row-major order. */
  function NoiseValues(L: Layout, perm: seq<int>, pat: Pattern): (vals: seq<byte>)
    requires PermTable(perm) && PatternOk(L, pat) && Castable(L, perm, pat)
    ensures |vals| == L.Area()
  {
    RowMajorOrder(L, GreyAt(L, perm, pat))
  }

  /** `PixelGrey` as a function of the pixel. */
  function GreyAt(L: Layout, perm: seq<int>, pat: Pattern): (nat, nat) --> byte
    requires PermTable(perm) && PatternOk(L, pat) && Castable(L, perm, pat)
  {
    (x: nat, y: nat) requires x < L.width && y < L.height => PixelGrey(L, perm, pat, x, y)
  }

  /** The values of `f` at every pixel, row by row: pixel (x, y) is entry
      `y * width + x`. */
  function RowMajorOrder(L: Layout, f: (nat, nat) --> byte): (vals: seq<byte>)
    requires forall x: nat, y: nat :: x < L.width && y < L.height ==> f.requires(x, y)
    ensures |vals| == L.Area()
  {
    seq(L.Area(), k requires 0 <= k < L.Area() => ValueOfPixel(L, f, k))
  }

  /** The value of `f` at pixel `k` of the row-major order. */
  function ValueOfPixel(L: Layout, f: (nat, nat) --> byte, k: nat): byte
    requires forall x: nat, y: nat :: x < L.width && y < L.height ==> f.requires(x, y)
    requires k < L.Area()
  {
    AreaSplit(L, k);
    f(k % L.width, k / L.width)
  }

  /** Entry `y * width + x` of the row-major order is the value at (x, y). */
  lemma RowMajorAt(L: Layout, f: (nat, nat) --> byte, x: nat, y: nat)
    requires forall x: nat, y: nat :: x < L.width && y < L.height ==> f.requires(x, y)
    requires L.Contains(x, y)
    ensures y * L.width + x < L.Area()
    ensures RowMajorOrder(L, f)[y * L.width + x] == f(x, y)
  {
    var j := y * L.width + x;
    RowMajor(L, x, y);
    assert RowMajorOrder(L, f)[j] == ValueOfPixel(L, f, j);
  }

  /** Pixel `k` of the row-major order lies inside the image. */
  lemma AreaSplit(L: Layout, k: nat)
    requires k < L.Area()
    ensures 0 < L.width && k % L.width < L.width && k / L.width < L.height
  {
    if k / L.width >= L.height {
      MulMonotone(L.height, k / L.width, L.width);
      assert false;
    }
  }

  /** The storage after `drawPixel(x, y, rgb{vals[k]})` for the pixels
      k = 0, 1, … in row-major order, pixel `k` starting at sample
      `k * ch`. */
  function GreyFill(s: seq<byte>, ch: nat, vals: seq<byte>): (r: seq<byte>)
    requires 3 <= ch && |vals| * ch <= |s|
    ensures |r| == |s|
    decreases |vals|
  {
    if |vals| == 0 then s
    else
      var k := |vals| - 1;
      assert |vals| * ch == k * ch + ch;
      WriteAt(GreyFill(s, ch, vals[..k]), k * ch, RgbColor(Grey(vals[k])))
  }

  /** After the fill, pixel `j` holds the grey `vals[j]` in its three
      colour samples. */
  lemma {:induction false} GreyFillPixel(s: seq<byte>, ch: nat, vals: seq<byte>, j: nat)
    requires 3 <= ch && |vals| * ch <= |s| && j < |vals|
    ensures Get3(GreyFill(s, ch, vals), j * ch) == Grey(vals[j])
    decreases |vals|
  {
    var k := |vals| - 1;
    assert |vals| * ch == k * ch + ch;
    var before := GreyFill(s, ch, vals[..k]);
    WriteAtEffect(before, k * ch, RgbColor(Grey(vals[k])));
    if j < k {
      GreyFillPixel(s, ch, vals[..k], j);
      MulMonotone(j + 1, k, ch);
      assert (j + 1) * ch == j * ch + ch;
    }
  }

  /** The fill leaves alone every sample past its last pixel and every
      sample after the third of a pixel (the alpha of an RGBA texture). */
  lemma {:induction false} GreyFillKeeps(s: seq<byte>, ch: nat, vals: seq<byte>, t: nat)
    requires 3 <= ch && |vals| * ch <= |s| && t < |s|
    requires |vals| * ch <= t || 3 <= t % ch
    ensures GreyFill(s, ch, vals)[t] == s[t]
    decreases |vals|
  {
    if |vals| > 0 {
      var k := |vals| - 1;
      assert |vals| * ch == k * ch + ch;
      var before := GreyFill(s, ch, vals[..k]);
      WriteAtEffect(before, k * ch, RgbColor(Grey(vals[k])));
      if k * ch <= t < k * ch + 3 {
        DivModUnique(k, t - k * ch, ch);
        assert false;
      }
      if |vals[..k]| * ch > t {
        assert 3 <= t % ch;
      }
      GreyFillKeeps(s, ch, vals[..k], t);
    }
  }

  /** Pixel (x, y) of the image is pixel `y * width + x` of the fill. */
  lemma FillAtPixel(L: Layout, s: seq<byte>, vals: seq<byte>, x: nat, y: nat)
    requires 3 <= L.channel && |vals| == L.Area() && L.Length() <= |s| && L.Contains(x, y)
    ensures |vals| * L.channel <= |s| && y * L.width + x < |vals|
    ensures Get3(GreyFill(s, L.channel, vals), L.Index(x, y)) == Grey(vals[y * L.width + x])
  {
    IndexIsScaledPosition(L, x, y);
    PixelInBuffer(L, x, y);
    assert L.Length() == L.Area() * L.channel;
    var j := y * L.width + x;
    if j >= L.Area() {
      MulMonotone(L.Area(), j, L.channel);
      assert false;
    }
    GreyFillPixel(s, L.channel, vals, j);
  }

  /** The grey level listed for pixel `y * width + x` is the one of (x, y). */
  lemma NoiseValueAt(L: Layout, perm: seq<int>, pat: Pattern, x: nat, y: nat)
    requires PermTable(perm) && PatternOk(L, pat) && Castable(L, perm, pat) && L.Contains(x, y)
    ensures y * L.width + x < L.Area()
    ensures NoiseValues(L, perm, pat)[y * L.width + x] == PixelGrey(L, perm, pat, x, y)
  {
    RowMajorAt(L, GreyAt(L, perm, pat), x, y);
  }

  /** Pixel (x, y) is pixel `y * width + x` of the row-major order. */
  lemma RowMajor(L: Layout, x: nat, y: nat)
    requires L.Contains(x, y)
    ensures y * L.width + x < L.Area()
    ensures (y * L.width + x) % L.width == x && (y * L.width + x) / L.width == y
  {
    MulMonotone(y + 1, L.height, L.width);
    assert (y + 1) * L.width == y * L.width + L.width;
    DivModUnique(y, x, L.width);
  }

  /** A finished noise fill: pixel (x, y) holds the grey level of the noise
      at (x, y). */
  lemma NoiseFillPixel(L: Layout, s: seq<byte>, perm: seq<int>, pat: Pattern, x: nat, y: nat)
    requires PermTable(perm) && PatternOk(L, pat) && Castable(L, perm, pat)
    requires 3 <= L.channel && L.Length() <= |s| && L.Contains(x, y)
    ensures L.Area() * L.channel <= |s| && L.Index(x, y) + L.channel <= |s|
    ensures Get3(GreyFill(s, L.channel, NoiseValues(L, perm, pat)), L.Index(x, y)) == Grey(PixelGrey(L, perm, pat, x, y))
  {
    PixelInBuffer(L, x, y);
    FillAtPixel(L, s, NoiseValues(L, perm, pat), x, y);
    NoiseValueAt(L, perm, pat, x, y);
  }

  /** A finished noise fill leaves alone the samples past the image and the
      samples after the third of every pixel (the alpha of an RGBA texture). */
  lemma NoiseFillKeeps(L: Layout, s: seq<byte>, perm: seq<int>, pat: Pattern, t: nat)
    requires PermTable(perm) && PatternOk(L, pat) && Castable(L, perm, pat)
    requires 3 <= L.channel && L.Length() <= |s| && t < |s|
    requires L.Length() <= t || 3 <= t % L.channel
    ensures L.Area() * L.channel <= |s|
    ensures GreyFill(s, L.channel, NoiseValues(L, perm, pat))[t] == s[t]
  {
    assert L.Length() == L.Area() * L.channel;
    GreyFillKeeps(s, L.channel, NoiseValues(L, perm, pat), t);
  }

  /** One more pixel of the fill: pixel `k` written after the first `k`. */
  lemma GreyFillStep(s: seq<byte>, ch: nat, vals: seq<byte>, k: nat)
    requires 3 <= ch && k < |vals| && (k + 1) * ch <= |s|
    ensures k * ch <= |s| && k * ch + 3 <= |s|
    ensures GreyFill(s, ch, vals[..k + 1]) == WriteAt(GreyFill(s, ch, vals[..k]), k * ch, RgbColor(Grey(vals[k])))
  {
    assert (k + 1) * ch == k * ch + ch;
    assert vals[..k + 1][..k] == vals[..k];
  }

  /** Entry `k` of the noise values is the grey level of the pixel in
      column `k % width`, row `k / width`. */
  lemma NoiseValueOfPixel(L: Layout, perm: seq<int>, pat: Pattern, k: nat)
    requires PermTable(perm) && PatternOk(L, pat) && Castable(L, perm, pat) && k < L.Area()
    ensures 0 < L.width && k % L.width < L.width && k / L.width < L.height
    ensures NoiseValues(L, perm, pat)[k] == PixelGrey(L, perm, pat, k % L.width, k / L.width)
  {
    RowMajorOfPixel(L, GreyAt(L, perm, pat), k);
  }

  /** Entry `k` of the row-major order is the value at column `k % width`,
      row `k / width`. */
  lemma RowMajorOfPixel(L: Layout, f: (nat, nat) --> byte, k: nat)
    requires forall x: nat, y: nat :: x < L.width && y < L.height ==> f.requires(x, y)
    requires k < L.Area()
    ensures 0 < L.width && k % L.width < L.width && k / L.width < L.height
    ensures RowMajorOrder(L, f)[k] == f(k % L.width, k / L.width)
  {
    AreaSplit(L, k);
    assert RowMajorOrder(L, f)[k] == ValueOfPixel(L, f, k);
  }

  /** Sample `i = k * channel` of a non-empty buffer starts pixel `k` of the
      row-major order: `getCol(i)` and `getRow(i)` name that pixel, it lies
      inside the image and its samples inside the buffer. */
  lemma SampleOfPixel(L: Layout, i: nat, k: nat)
    requires 0 < L.channel && 0 < L.width && i == k * L.channel && i < L.Length()
    ensures k < L.Area()
    ensures L.Col(i) == k % L.width && L.Row(i) == k / L.width
    ensures L.Contains(L.Col(i), L.Row(i)) && L.Index(L.Col(i), L.Row(i)) == i
    ensures i + L.channel <= L.Length()
  {
    DivModUnique(k, 0, L.channel);
    assert L.Length() == L.Area() * L.channel;
    if k >= L.Area() {
      MulMonotone(L.Area(), k, L.channel);
      assert false;
    }
    ColRowInBounds(L, i);
    IndexOfColRow(L, i);
    PixelInBuffer(L, L.Col(i), L.Row(i));
  }

  // ---------------------------------------------------------------------
  // The fills.

  /** The inner loop of `generateFractalPerlinNoise`: `freq` is a float that
      starts at 4 and doubles while it is at most 128; each octave adds
      `perlinNoise(freq) / freq * 2`. */
  method FractalValue(L: Layout, perm: seq<int>, x: nat, y: nat) returns (v: real)
    requires PermTable(perm) && 128 <= Max(L.width, L.height)
    ensures v == FractalNoise(L, perm, x, y)
  {
    v := 0.0;
    var freq: real := 4.0;
    ghost var f: nat := 4;
    while freq <= 128.0
      invariant 4 <= f <= 256 && freq == f as real
      invariant v + OctavesFrom(L, perm, x, y, f) == FractalNoise(L, perm, x, y)
      decreases 256 - f
    {
      v := v + PerlinNoise(L, perm, x, y, freq.Floor) / freq * 2.0;
      freq := freq * 2.0;
      f := 2 * f;
    }
  }

  /** The fractal sum written out: exactly six octaves, `freq = 4, 8, …,
      128`, each weighted by `2 / freq`. */
  lemma {:induction false} FractalNoiseOctaves(L: Layout, perm: seq<int>, x: nat, y: nat)
    requires PermTable(perm) && 128 <= Max(L.width, L.height)
    ensures FractalNoise(L, perm, x, y)
         == PerlinNoise(L, perm, x, y, 4) / 4.0 * 2.0
          + PerlinNoise(L, perm, x, y, 8) / 8.0 * 2.0
          + PerlinNoise(L, perm, x, y, 16) / 16.0 * 2.0
          + PerlinNoise(L, perm, x, y, 32) / 32.0 * 2.0
          + PerlinNoise(L, perm, x, y, 64) / 64.0 * 2.0
          + PerlinNoise(L, perm, x, y, 128) / 128.0 * 2.0
  {
    assert OctavesFrom(L, perm, x, y, 256) == 0.0;
    assert OctavesFrom(L, perm, x, y, 128) == PerlinNoise(L, perm, x, y, 128) / 128.0 * 2.0;
    assert OctavesFrom(L, perm, x, y, 64) == PerlinNoise(L, perm, x, y, 64) / 64.0 * 2.0 + OctavesFrom(L, perm, x, y, 128);
    assert OctavesFrom(L, perm, x, y, 32) == PerlinNoise(L, perm, x, y, 32) / 32.0 * 2.0 + OctavesFrom(L, perm, x, y, 64);
    assert OctavesFrom(L, perm, x, y, 16) == PerlinNoise(L, perm, x, y, 16) / 16.0 * 2.0 + OctavesFrom(L, perm, x, y, 32);
    assert OctavesFrom(L, perm, x, y, 8) == PerlinNoise(L, perm, x, y, 8) / 8.0 * 2.0 + OctavesFrom(L, perm, x, y, 16);
  }

  /** The noise value one of the fills computes at pixel (x, y). */
  method PixelNoise(L: Layout, perm: seq<int>, pat: Pattern, x: nat, y: nat) returns (v: real)
    requires PermTable(perm) && PatternOk(L, pat)
    ensures v == PatternNoise(L, perm, pat, x, y)
  {
    match pat
    case PerlinPattern(freq) =>
      v := PerlinNoise(L, perm, x, y, freq);
    case FractalPattern =>
      v := FractalValue(L, perm, x, y);
  }

  /** The loop both Perlin fills share: `i` runs over `[0, length)` in steps
      of `channel`, and pixel (`getCol(i)`, `getRow(i)`) gets the grey level
      `static_cast<uint8_t>(noise * 255)` through `drawPixel`. Pixel `k` of
      the row-major order is the one at sample `k * channel`. */
  method FillNoise(p: Painter, perm: seq<int>, pat: Pattern)
    requires PermTable(perm) && p.texture.Valid()
    requires p.texture.length > 0 ==>
      3 <= p.texture.channel && PatternOk(p.texture.Shape(), pat) && Castable(p.texture.Shape(), perm, pat)
    modifies p.texture`vec, p.imageView`changed
    ensures p.imageView.changed && |p.texture.vec| == |old(p.texture.vec)|
    ensures p.texture.length == 0 ==> p.texture.vec == old(p.texture.vec)
    ensures p.texture.length > 0 ==>
      p.texture.vec == GreyFill(old(p.texture.vec), p.texture.channel, NoiseValues(p.texture.Shape(), perm, pat))
  {
    p.PaintStart();
    if p.texture.length > 0 {
      FillPixels(p, perm, pat);
    }
  }

  /** The loop of the fills over a non-empty buffer (over an empty one it
      does not run). */
  method FillPixels(p: Painter, perm: seq<int>, pat: Pattern)
    requires PermTable(perm) && p.texture.Valid() && p.texture.length > 0 && p.imageView.changed
    requires 3 <= p.texture.channel && PatternOk(p.texture.Shape(), pat) && Castable(p.texture.Shape(), perm, pat)
    modifies p.texture`vec, p.imageView`changed
    ensures p.imageView.changed && |p.texture.vec| == |old(p.texture.vec)|
    ensures p.texture.vec == GreyFill(old(p.texture.vec), p.texture.channel, NoiseValues(p.texture.Shape(), perm, pat))
  {
    var L := p.texture.Shape();
    ghost var v0 := p.texture.vec;
    var i: nat := 0;
    ghost var k: nat := 0;
    assert NoiseValues(L, perm, pat)[..0] == [];
    while i < p.texture.length
      invariant p.imageView.changed && p.texture.Valid() && L == p.texture.Shape()
      invariant |p.texture.vec| == |v0|
      invariant i == k * L.channel && i <= L.Length() && k <= L.Area()
      invariant p.texture.vec == GreyFill(v0, L.channel, NoiseValues(L, perm, pat)[..k])
      decreases L.Length() - i
    {
      DrawNoisePixel(p, perm, pat, i, k, v0);
      i := i + L.channel;
      k := k + 1;
    }
    AllPixelsCounted(L, k);
    assert NoiseValues(L, perm, pat)[..k] == NoiseValues(L, perm, pat);
  }

  /** A pass over the whole buffer in steps of `channel` visits every pixel. */
  lemma AllPixelsCounted(L: Layout, k: nat)
    requires 0 < L.channel && k * L.channel == L.Length()
    ensures k == L.Area()
  {
    assert L.Length() == L.Area() * L.channel;
    if k < L.Area() {
      assert (k + 1) * L.channel == k * L.channel + L.channel;
      MulMonotone(k + 1, L.Area(), L.channel);
      assert false;
    } else if k > L.Area() {
      assert (L.Area() + 1) * L.channel == L.Area() * L.channel + L.channel;
      MulMonotone(L.Area() + 1, k, L.channel);
      assert false;
    }
  }

  /** One pass of the fill loop: pixel `k`, at sample `i = k * channel`,
      gets its grey level. */
  method DrawNoisePixel(p: Painter, perm: seq<int>, pat: Pattern, i: nat, ghost k: nat, ghost v0: seq<byte>)
    requires PermTable(perm) && p.texture.Valid() && i < p.texture.length
    requires 3 <= p.texture.channel && PatternOk(p.texture.Shape(), pat) && Castable(p.texture.Shape(), perm, pat)
    requires i == k * p.texture.channel && |p.texture.vec| == |v0| && k <= p.texture.Shape().Area()
    requires p.texture.vec == GreyFill(v0, p.texture.channel, NoiseValues(p.texture.Shape(), perm, pat)[..k])
    modifies p.texture`vec, p.imageView`changed
    ensures p.imageView.changed && |p.texture.vec| == |v0| && k < p.texture.Shape().Area()
    ensures i + p.texture.channel <= p.texture.length && (k + 1) * p.texture.channel == i + p.texture.channel
    ensures p.texture.vec == GreyFill(v0, p.texture.channel, NoiseValues(p.texture.Shape(), perm, pat)[..k + 1])
  {
    var L := p.texture.Shape();
    var x, y, grey := NoisePixel(L, perm, pat, i, k);
    GreyFillStep(v0, L.channel, NoiseValues(L, perm, pat), k);
    p.DrawPixel(x, y, RgbColor(Grey(grey)));
  }

  /** The pixel at sample `i = k * channel` and the grey level it gets:
      pixel `k` of the row-major order and entry `k` of the noise values. */
  method NoisePixel(L: Layout, perm: seq<int>, pat: Pattern, i: nat, ghost k: nat) returns (x: nat, y: nat, grey: byte)
    requires PermTable(perm) && 3 <= L.channel && 0 < L.width && i < L.Length() && i == k * L.channel
    requires PatternOk(L, pat) && Castable(L, perm, pat)
    ensures k < L.Area() && x == L.Col(i) && y == L.Row(i) && L.Index(x, y) == k * L.channel
    ensures i + L.channel <= L.Length() && (k + 1) * L.channel <= L.Length()
    ensures grey == NoiseValues(L, perm, pat)[k]
  {
    SampleOfPixel(L, i, k);
    x := L.Col(i);
    y := L.Row(i);
    var noise := PixelNoise(L, perm, pat, x, y);
    grey := ByteCast(noise * 255.0).value;
    NoiseValueOfPixel(L, perm, pat, k);
    assert (k + 1) * L.channel == i + L.channel;
  }

  /** `generatePerlinNoise(freq)`: every pixel grey with the Perlin noise at
      that frequency. */
  method GeneratePerlinNoise(p: Painter, perm: seq<int>, freq: nat)
    requires PermTable(perm) && p.texture.Valid()
    requires p.texture.length > 0 ==>
      3 <= p.texture.channel && PatternOk(p.texture.Shape(), PerlinPattern(freq))
      && Castable(p.texture.Shape(), perm, PerlinPattern(freq))
    modifies p.texture`vec, p.imageView`changed
    ensures p.imageView.changed && |p.texture.vec| == |old(p.texture.vec)|
    ensures p.texture.length == 0 ==> p.texture.vec == old(p.texture.vec)
    ensures p.texture.length > 0 ==>
      p.texture.vec == GreyFill(old(p.texture.vec), p.texture.channel, NoiseValues(p.texture.Shape(), perm, PerlinPattern(freq)))
  {
    FillNoise(p, perm, PerlinPattern(freq));
  }

  /** `generateFractalPerlinNoise()`: every pixel grey with the six-octave
      sum. */
  method GenerateFractalPerlinNoise(p: Painter, perm: seq<int>)
    requires PermTable(perm) && p.texture.Valid()
    requires p.texture.length > 0 ==>
      3 <= p.texture.channel && PatternOk(p.texture.Shape(), FractalPattern)
      && Castable(p.texture.Shape(), perm, FractalPattern)
    modifies p.texture`vec, p.imageView`changed
    ensures p.imageView.changed && |p.texture.vec| == |old(p.texture.vec)|
    ensures p.texture.length == 0 ==> p.texture.vec == old(p.texture.vec)
    ensures p.texture.length > 0 ==>
      p.texture.vec == GreyFill(old(p.texture.vec), p.texture.channel, NoiseValues(p.texture.Shape(), perm, FractalPattern))
  {
    FillNoise(p, perm, FractalPattern);
  }

  /** `generateCommonNoise(seed)`: sample `i` of `[0, area)` gets the value
      `rand() % 256`, given here as `values[i]`; the samples from `area` on
      keep their values, and `seed` is never read, so it is not a
      parameter. */
  method GenerateCommonNoise(p: Painter, values: seq<byte>)
    requires p.texture.area <= |p.texture.vec| && p.texture.area <= |values|
    modifies p.texture`vec, p.imageView`changed
    ensures p.imageView.changed
    ensures p.texture.vec == values[..p.texture.area] + old(p.texture.vec)[p.texture.area..]
  {
    p.PaintStart();
    for i := 0 to p.texture.area
      invariant p.imageView.changed && |p.texture.vec| == |old(p.texture.vec)|
      invariant p.texture.vec == values[..i] + old(p.texture.vec)[i..]
    {
      p.texture.vec := p.texture.vec[i := values[i]];
    }
  }
}
