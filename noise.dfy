/** The pure half of the noise generator: the gradient choice, the fade
    curve, the permutation table and Perlin noise at one pixel. Float
    arithmetic is modelled over the reals. */
module Perlin {
  import opened Types
  import opened REMath
  import opened Buffer

  // ---------------------------------------------------------------------
  // Gradients and the fade curve.

  /** One of the eight gradient vectors of classic 2-D Perlin noise. */
  datatype Gradient = Gradient(gx: int, gy: int)

  /** The gradient picked by the low three bits of a hash: the four
      diagonals, then the four axis directions. */
  function GradientOf(hash: int): (g: Gradient)
    ensures -1 <= g.gx <= 1 && -1 <= g.gy <= 1 && g != Gradient(0, 0)
  {
    [Gradient(1, 1), Gradient(-1, 1), Gradient(1, -1), Gradient(-1, -1),
     Gradient(1, 0), Gradient(-1, 0), Gradient(0, 1), Gradient(0, -1)][hash % 8]
  }

  /** `grad(hash, x, y)`: `hash & 7` selects the sum; on a two's-complement
      `int`, `& 7` is the remainder by 8 that is never negative, which is
      what `%` is here. The `default` branch is unreachable and has no case. */
  function Grad(hash: int, x: real, y: real): real
  {
    var h := hash % 8;
    if h == 0 then x + y
    else if h == 1 then -x + y
    else if h == 2 then x - y
    else if h == 3 then -x - y
    else if h == 4 then x
    else if h == 5 then -x
    else if h == 6 then y
    else -y
  }

  /** `grad` is the dot product of `(x, y)` with the gradient its hash
      selects. */
  lemma GradIsDot(hash: int, x: real, y: real)
    ensures Grad(hash, x, y) == GradientOf(hash).gx as real * x + GradientOf(hash).gy as real * y
  {
  }

  /** `perlinFade(t)`: `6t⁵ - 15t⁴ + 10t³`. */
  function Fade(t: real): real
  {
    t * t * t * (t * (t * 6.0 - 15.0) + 10.0)
  }

  /** The fade curve runs from 0 at `t = 0` to 1 at `t = 1`. */
  lemma FadeEnds()
    ensures Fade(0.0) == 0.0 && Fade(1.0) == 1.0
  {
  }

  /** The fade curve is point-symmetric about (1/2, 1/2). */
  lemma FadeSymmetric(t: real)
    ensures Fade(1.0 - t) == 1.0 - Fade(t)
  {
    var s := 1.0 - t;
    calc {
      Fade(s);
      s * s * s * (s * (s * 6.0 - 15.0) + 10.0);
      { assert s * s * s == 1.0 - 3.0 * t + 3.0 * t * t - t * t * t;
        assert s * (s * 6.0 - 15.0) + 10.0 == 1.0 + 3.0 * t + 6.0 * t * t; }
      (1.0 - 3.0 * t + 3.0 * t * t - t * t * t) * (1.0 + 3.0 * t + 6.0 * t * t);
      1.0 - t * t * t * (t * (t * 6.0 - 15.0) + 10.0);
    }
  }

  /** The fade curve maps `[0, 1]` into `[0, 1]`. */
  lemma FadeBetween(t: real)
    requires 0.0 <= t <= 1.0
    ensures 0.0 <= Fade(t) <= 1.0
  {
    FadeNonNegative(t);
    FadeNonNegative(1.0 - t);
    FadeSymmetric(t);
  }

  lemma FadeNonNegative(t: real)
    requires 0.0 <= t <= 1.0
    ensures 0.0 <= Fade(t)
  {
    var q := t * (t * 6.0 - 15.0) + 10.0;
    assert q - 1.0 == 3.0 * ((3.0 - 2.0 * t) * (1.0 - t));
    ProductNonNegative(3.0 - 2.0 * t, 1.0 - t);
    ProductNonNegative(t, t);
    ProductNonNegative(t * t, t);
    ProductNonNegative(t * t * t, q);
  }

  lemma ProductNonNegative(a: real, b: real)
    requires 0.0 <= a && 0.0 <= b
    ensures 0.0 <= a * b
  {
  }

  // ---------------------------------------------------------------------
  // The permutation table.

  /** A shuffle of `0 .. 255`: 256 different values, each in that range. */
  predicate IsPermutation256(s: seq<int>)
  {
    && |s| == 256
    && (forall i :: 0 <= i < 256 ==> 0 <= s[i] < 256)
    && (forall i, j :: 0 <= i < j < 256 ==> s[i] != s[j])
  }

  /** What `perlinNoise` needs of its table: 512 entries, each in
      `[0, 256)`. */
  predicate PermTable(p: seq<int>)
  {
    && |p| == 512
    && (forall i :: 0 <= i < 512 ==> 0 <= p[i] < 256)
  }

  /** The table `generatePermutationTable` is meant to return: a shuffle of
      `0 .. 255` followed by a copy of itself. */
  predicate DoubledPermutation(p: seq<int>)
  {
    && |p| == 512
    && IsPermutation256(p[..256])
    && p[256..] == p[..256]
  }

  /** A doubled permutation is a table `perlinNoise` can hash with. */
  lemma DoubledIsTable(p: seq<int>)
    requires DoubledPermutation(p)
    ensures PermTable(p)
  {
    forall i | 256 <= i < 512
      ensures 0 <= p[i] < 256
    {
      assert p[i] == p[256..][i - 256] == p[..256][i - 256];
    }
  }

  // ---------------------------------------------------------------------
  // Perlin noise at one pixel.

  /** `girdSize`: the larger image side divided by `freq`. A `freq` above
      that side would make it 0 and the divisions below undefined. */
  function GridSize(L: Layout, freq: nat): (g: nat)
    requires 0 < freq <= Max(L.width, L.height)
    ensures 1 <= g
  {
    var m: nat := Max(L.width, L.height);
    DivBounds(m, freq);
    m / freq
  }

  /** `freq` cells of the grid fit along the larger image side. */
  lemma GridSizeBound(L: Layout, freq: nat)
    requires 0 < freq <= Max(L.width, L.height)
    ensures GridSize(L, freq) * freq <= Max(L.width, L.height)
  {
    DivBounds(Max(L.width, L.height), freq);
  }

  lemma DivBounds(m: nat, d: nat)
    requires 0 < d <= m
    ensures 1 <= m / d && (m / d) * d <= m
  {
    assert m == (m / d) * d + m % d;
    if m / d == 0 {
      assert false;
    }
  }

  /** `(x / girdSize) & 255`: the lattice cell of a coordinate, wrapped to
      the 256 columns of the table. */
  function Cell(x: nat, g: nat): (c: nat)
    requires 0 < g
    ensures c < 256
  {
    (x / g) % 256
  }

  /** `x / float(girdSize) - x1`: the offset of a coordinate from the corner
      of its cell. */
  function Offset(x: nat, g: nat): real
    requires 0 < g
  {
    x as real / g as real - Cell(x, g) as real
  }

  /** While the cell index needs no wrap, the cell is the quotient, the
      offset lies in `[0, 1)`, and it is 0 on the lattice lines. */
  lemma OffsetInCell(x: nat, g: nat)
    requires 0 < g && x / g < 256
    ensures Cell(x, g) == x / g
    ensures 0.0 <= Offset(x, g) < 1.0
    ensures x % g == 0 ==> Offset(x, g) == 0.0
  {
    RealDivision(x, g);
  }

  /** Real division splits into the integer quotient and the remainder's
      fraction. */
  lemma RealDivision(x: nat, g: nat)
    requires 0 < g
    ensures x as real / g as real == (x / g) as real + (x % g) as real / g as real
    ensures 0.0 <= (x % g) as real / g as real < 1.0
  {
    var q, r := x / g, x % g;
    assert x == q * g + r;
    assert x as real == q as real * g as real + r as real;
    assert r as real < g as real;
  }

  /** `perm[xk + perm[yk]]`: with both lattice coordinates at most 256, the
      inner lookup is below 256 and the outer index at most 511, inside the
      512 entries. */
  function Hash(perm: seq<int>, xk: nat, yk: nat): (h: int)
    requires PermTable(perm) && xk <= 256 && yk <= 256
    ensures 0 <= h < 256
  {
    perm[xk + perm[yk]]
  }

  /** The four corner contributions of `perlinNoise`: the gradients of the
      corners (x1, y1), (x1, y2), (x2, y1), (x2, y2) dotted with the offset
      from each corner. */
  datatype Corners = Corners(a: real, b: real, c: real, d: real)

  function CornerDots(perm: seq<int>, x1: nat, y1: nat, xf: real, yf: real): Corners
    requires PermTable(perm) && x1 < 256 && y1 < 256
  {
    var x2, y2 := x1 + 1, y1 + 1;
    Corners(
      Grad(Hash(perm, x1, y1), xf, yf),
      Grad(Hash(perm, x1, y2), xf, yf - 1.0),
      Grad(Hash(perm, x2, y1), xf - 1.0, yf),
      Grad(Hash(perm, x2, y2), xf - 1.0, yf - 1.0))
  }

  /** `perlinNoise(x, y, freq)` with the table the first call generated:
      the corner contributions blended along `y` by `perlinFade(yf)`, then
      along `x` by `perlinFade(xf)`, then shifted by 1 and halved. */
  function PerlinNoise(L: Layout, perm: seq<int>, x: nat, y: nat, freq: nat): real
    requires PermTable(perm) && 0 < freq <= Max(L.width, L.height)
  {
    var g := GridSize(L, freq);
    var xf, yf := Offset(x, g), Offset(y, g);
    var k := CornerDots(perm, Cell(x, g), Cell(y, g), xf, yf);
    (Lerp(Lerp(k.a, k.b, Fade(yf)), Lerp(k.c, k.d, Fade(yf)), Fade(xf)) + 1.0) / 2.0
  }

  function Min4(k: Corners): real { RMin(RMin(k.a, k.b), RMin(k.c, k.d)) }
  function Max4(k: Corners): real { RMax(RMax(k.a, k.b), RMax(k.c, k.d)) }

  /** Inside the 256 × 256 cells the table covers, the noise before its
      final `(n + 1) / 2` lies between the smallest and the largest corner
      contribution. */
  lemma PerlinBetweenCorners(L: Layout, perm: seq<int>, x: nat, y: nat, freq: nat)
    requires PermTable(perm) && 0 < freq <= Max(L.width, L.height)
    requires x / GridSize(L, freq) < 256 && y / GridSize(L, freq) < 256
    ensures var g := GridSize(L, freq);
            var k := CornerDots(perm, Cell(x, g), Cell(y, g), Offset(x, g), Offset(y, g));
            Min4(k) <= 2.0 * PerlinNoise(L, perm, x, y, freq) - 1.0 <= Max4(k)
  {
    var g := GridSize(L, freq);
    var xf, yf := Offset(x, g), Offset(y, g);
    OffsetInCell(x, g);
    OffsetInCell(y, g);
    FadeBetween(xf);
    FadeBetween(yf);
  }

  /** On a lattice point the offsets are 0, every fade and the first corner
      contribution vanish, and the noise is exactly one half. */
  lemma PerlinAtLattice(L: Layout, perm: seq<int>, x: nat, y: nat, freq: nat)
    requires PermTable(perm) && 0 < freq <= Max(L.width, L.height)
    requires x % GridSize(L, freq) == 0 && y % GridSize(L, freq) == 0
    requires x / GridSize(L, freq) < 256 && y / GridSize(L, freq) < 256
    ensures PerlinNoise(L, perm, x, y, freq) == 0.5
  {
    var g := GridSize(L, freq);
    OffsetInCell(x, g);
    OffsetInCell(y, g);
    FadeEnds();
  }

  // ---------------------------------------------------------------------
  // Fractal noise.

  /** The octaves of `generateFractalPerlinNoise` from `freq` on: the
      frequency doubles while it is at most 128, and each octave adds
      `perlinNoise(freq) / freq * 2`. */
  function OctavesFrom(L: Layout, perm: seq<int>, x: nat, y: nat, freq: nat): real
    requires PermTable(perm) && 128 <= Max(L.width, L.height) && 0 < freq
    decreases 256 - freq
  {
    if freq > 128 then 0.0
    else PerlinNoise(L, perm, x, y, freq) / freq as real * 2.0 + OctavesFrom(L, perm, x, y, 2 * freq)
  }

  /** The value `generateFractalPerlinNoise` draws before the byte cast: the
      octaves from frequency 4 on. */
  function FractalNoise(L: Layout, perm: seq<int>, x: nat, y: nat): real
    requires PermTable(perm) && 128 <= Max(L.width, L.height)
  {
    OctavesFrom(L, perm, x, y, 4)
  }
}
