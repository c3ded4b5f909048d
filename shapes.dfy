/** The pixel sequences the drawing primitives write, in the order they
    write them, with what each sequence covers. */
module Shapes {
  import opened Types
  import opened Buffer
  import opened Paint
  import opened Geometry

  // ---------------------------------------------------------------------
  // Scanlines and rectangles.

  /** `drawScanline(x, y, width)`: `width` pixels rightwards from (x, y). */
  function ScanlinePoints(x: int, y: int, width: nat): (r: seq<Pixel>)
    ensures |r| == width
  {
    seq(width, i => Pixel(x + i, y))
  }

  /** A scanline covers exactly its `width` pixels of row `y`. */
  lemma ScanlineCovers(x: int, y: int, width: nat)
    ensures forall p :: p in ScanlinePoints(x, y, width) <==> p.y == y && x <= p.x < x + width
  {
    var r := ScanlinePoints(x, y, width);
    assert forall p: Pixel | p.y == y && x <= p.x < x + width :: r[p.x - x] == p;
  }

  /** One column of `drawRect`: the inner loop over the height. */
  function ColumnPoints(x: int, y: int, height: nat): (r: seq<Pixel>)
    ensures |r| == height
  {
    seq(height, j => Pixel(x, y + j))
  }

  lemma ColumnCovers(x: int, y: int, height: nat)
    ensures forall p :: p in ColumnPoints(x, y, height) <==> p.x == x && y <= p.y < y + height
  {
    var r := ColumnPoints(x, y, height);
    assert forall p: Pixel | p.x == x && y <= p.y < y + height :: r[p.y - y] == p;
  }

  /** `drawRect`: column by column, each column top to bottom. */
  function RectPoints(x: int, y: int, width: nat, height: nat): seq<Pixel>
  {
    if width == 0 then [] else RectPoints(x, y, width - 1, height) + ColumnPoints(x + width - 1, y, height)
  }

  /** `drawRect` writes exactly the `width` by `height` block at (x, y),
      one pixel per position. */
  lemma {:induction false} RectCovers(x: int, y: int, width: nat, height: nat)
    ensures |RectPoints(x, y, width, height)| == width * height
    ensures forall p :: p in RectPoints(x, y, width, height) <==> x <= p.x < x + width && y <= p.y < y + height
  {
    if width > 0 {
      RectCovers(x, y, width - 1, height);
      ColumnCovers(x + width - 1, y, height);
      assert width * height == (width - 1) * height + height;
    }
  }

  /** The two side columns of `drawRectEmpty`, row by row: left then right. */
  function SidePoints(left: int, right: int, y: int, height: nat): seq<Pixel>
  {
    if height == 0 then []
    else SidePoints(left, right, y, height - 1) + [Pixel(left, y + height - 1), Pixel(right, y + height - 1)]
  }

  lemma {:induction false} SideCovers(left: int, right: int, y: int, height: nat)
    ensures forall p :: p in SidePoints(left, right, y, height) <==> (p.x == left || p.x == right) && y <= p.y < y + height
  {
    if height > 0 {
      SideCovers(left, right, y, height - 1);
    }
  }

  /** `drawRectEmpty(x, y, width, height)`: the top scanline of `width - 1`
      pixels, the bottom scanline of `width` pixels, then both sides. */
  function RectOutlinePoints(x: int, y: int, width: nat, height: nat): seq<Pixel>
    requires width >= 1
  {
    ScanlinePoints(x, y, width - 1) + ScanlinePoints(x, y + height - 1, width)
    + SidePoints(x, x + width - 1, y, height)
  }

  /** With a positive size the outline is exactly the border of the
      rectangle. */
  lemma RectOutlineCovers(x: int, y: int, width: nat, height: nat)
    requires width >= 1 && height >= 1
    ensures forall p :: p in RectOutlinePoints(x, y, width, height) <==>
      (x <= p.x < x + width && y <= p.y < y + height
       && (p.x == x || p.x == x + width - 1 || p.y == y || p.y == y + height - 1))
  {
    ScanlineCovers(x, y, width - 1);
    ScanlineCovers(x, y + height - 1, width);
    SideCovers(x, x + width - 1, y, height);
  }

  // ---------------------------------------------------------------------
  // Bresenham lines.

  function Abs(v: int): nat { if v < 0 then -v else v }

  /** `(v2 - v1) / |v2 - v1|`, or 0 when they are equal. */
  function Sign(v: int): int { if v > 0 then 1 else if v < 0 then -1 else 0 }

  /** The minor-axis offset of the `k`-th pixel of a line whose major axis
      spans `b` steps and minor axis `a` steps: `a * k / b` rounded to the
      nearest integer, halves rounded up. */
  function Minor(a: nat, b: nat, k: nat): nat
    requires b > 0
  {
    (2 * a * k + b) / (2 * b)
  }

  /** The error term `isDelta` of `drawLine` before it decides the minor
      offset of pixel `k + 1`. */
  function Delta(a: nat, b: nat, k: nat): int
    requires b > 0
  {
    2 * a * (k + 1) - b - 2 * b * Minor(a, b, k)
  }

  /** The error term decides the next minor offset exactly as the closed
      form does: a negative term keeps the offset, any other moves it by
      one. The term stays in `[2a - 2b, 2a)` and is updated by `+2a` or
      by `+2a - 2b` as `drawLine` does. */
  lemma {:induction false} MinorDecision(a: nat, b: nat, k: nat)
    requires 0 < b && a <= b
    ensures 2 * a - 2 * b <= Delta(a, b, k) < 2 * a
    ensures Delta(a, b, k) < 0 ==> Minor(a, b, k + 1) == Minor(a, b, k)
    ensures Delta(a, b, k) >= 0 ==> Minor(a, b, k + 1) == Minor(a, b, k) + 1
    ensures Delta(a, b, k + 1) == Delta(a, b, k) + 2 * a - (if Delta(a, b, k) >= 0 then 2 * b else 0)
  {
    var m := Minor(a, b, k);
    var n := 2 * a * k + b;
    var r := n % (2 * b);
    assert n == m * (2 * b) + r;
    var d := Delta(a, b, k);
    assert 2 * a * (k + 1) == 2 * a * k + 2 * a;
    assert 2 * a * (k + 2) == 2 * a * (k + 1) + 2 * a;
    assert d == r + 2 * a - 2 * b;
    if d < 0 {
      assert 2 * a * (k + 1) + b == m * (2 * b) + (r + 2 * a);
      DivModUnique(m, r + 2 * a, 2 * b);
    } else {
      assert 2 * a * (k + 1) + b == (m + 1) * (2 * b) + (r + 2 * a - 2 * b);
      DivModUnique(m + 1, r + 2 * a - 2 * b, 2 * b);
      assert 2 * b * (m + 1) == 2 * b * m + 2 * b;
    }
  }
  /** The decision step of both `drawLine` loops on the minor coordinate
      `m`: when `isDelta < 0` only `isDelta += 2a`, otherwise also
      `m += step` and `isDelta += 2a - 2b`. With `m` and `isDelta` at column
      `k` of the line, it gives them at column `k + 1`. */
  method LineAdvance(a: nat, b: nat, step: int, base: int, m: int, isDelta: int, ghost k: nat) returns (m': int, isDelta': int)
    requires 0 < b && a <= b
    requires m == base + step * Minor(a, b, k) && isDelta == Delta(a, b, k)
    ensures m' == base + step * Minor(a, b, k + 1) && isDelta' == Delta(a, b, k + 1)
  {
    MinorDecision(a, b, k);
    if isDelta < 0 {
      m', isDelta' := m, isDelta + 2 * a;
    } else {
      assert step * (Minor(a, b, k) + 1) == step * Minor(a, b, k) + step;
      m', isDelta' := m + step, isDelta + 2 * a - 2 * b;
    }
  }

  /** The first minor offset is 0 and the last is `a`. */
  lemma MinorEnds(a: nat, b: nat)
    requires 0 < b
    ensures Minor(a, b, 0) == 0
    ensures Minor(a, b, b) == a
    ensures Delta(a, b, 0) == 2 * a - b
  {
    DivModUnique(0, b, 2 * b);
    assert 2 * a * b + b == a * (2 * b) + b;
    DivModUnique(a, b, 2 * b);
  }

  /** The number of steps along the longer axis of the line. */
  function Major(x1: int, y1: int, x2: int, y2: int): nat
  {
    Max(Abs(x2 - x1), Abs(y2 - y1))
  }

  /** Pixel `k` of `drawLine(x1, y1, x2, y2)`: `k` steps along the longer
      axis (`y` on a tie) and the rounded `Minor` offset along the other. */
  function LinePixel(x1: int, y1: int, x2: int, y2: int, k: nat): Pixel
    requires Major(x1, y1, x2, y2) > 0
  {
    var dx, dy := Abs(x2 - x1), Abs(y2 - y1);
    var sx, sy := Sign(x2 - x1), Sign(y2 - y1);
    if dx > dy then Pixel(x1 + sx * k, y1 + sy * Minor(dy, dx, k))
    else Pixel(x1 + sx * Minor(dx, dy, k), y1 + sy * k)
  }

  /** Pixels `k` to the end of the line. */
  function LineFrom(x1: int, y1: int, x2: int, y2: int, k: nat): seq<Pixel>
    decreases Major(x1, y1, x2, y2) + 1 - k
  {
    if Major(x1, y1, x2, y2) == 0 || k > Major(x1, y1, x2, y2) then []
    else [LinePixel(x1, y1, x2, y2, k)] + LineFrom(x1, y1, x2, y2, k + 1)
  }

  /** The pixels of `drawLine(x1, y1, x2, y2)` in drawing order. Along the
      longer axis every coordinate from one end to the other is visited
      once; the other coordinate is the rounded minor offset. Equal end
      points draw nothing. */
  function LinePoints(x1: int, y1: int, x2: int, y2: int): seq<Pixel>
  {
    LineFrom(x1, y1, x2, y2, 0)
  }

  /** Pixels `k` onwards: one per step left, each the `LinePixel` of its
      position. */
  lemma {:induction false} LineFromShape(x1: int, y1: int, x2: int, y2: int, k: nat)
    ensures var m := Major(x1, y1, x2, y2);
      |LineFrom(x1, y1, x2, y2, k)| == if m == 0 || k > m then 0 else m + 1 - k
    ensures forall j :: 0 <= j < |LineFrom(x1, y1, x2, y2, k)| && Major(x1, y1, x2, y2) > 0 ==>
      LineFrom(x1, y1, x2, y2, k)[j] == LinePixel(x1, y1, x2, y2, k + j)
    decreases Major(x1, y1, x2, y2) + 1 - k
  {
    var m := Major(x1, y1, x2, y2);
    if m > 0 && k <= m {
      LineFromShape(x1, y1, x2, y2, k + 1);
      var rest := LineFrom(x1, y1, x2, y2, k + 1);
      assert LineFrom(x1, y1, x2, y2, k) == [LinePixel(x1, y1, x2, y2, k)] + rest;
      forall j | 0 < j < |rest| + 1 ensures LineFrom(x1, y1, x2, y2, k)[j] == LinePixel(x1, y1, x2, y2, k + j) {
        assert rest[j - 1] == LinePixel(x1, y1, x2, y2, k + 1 + (j - 1));
      }
    }
  }

  /** A line has `Major + 1` pixels, or none for equal end points. */
  lemma LineShape(x1: int, y1: int, x2: int, y2: int)
    ensures |LinePoints(x1, y1, x2, y2)| == if Major(x1, y1, x2, y2) == 0 then 0 else Major(x1, y1, x2, y2) + 1
  {
    LineFromShape(x1, y1, x2, y2, 0);
  }

  /** Pixel `k` of a line is `LinePixel(k)`. */
  lemma LineAt(x1: int, y1: int, x2: int, y2: int, k: nat)
    requires k < |LinePoints(x1, y1, x2, y2)|
    ensures Major(x1, y1, x2, y2) > 0
    ensures LinePoints(x1, y1, x2, y2)[k] == LinePixel(x1, y1, x2, y2, k)
  {
    LineFromShape(x1, y1, x2, y2, 0);
  }

  /** A line between distinct end points has `max(|dx|, |dy|) + 1` pixels,
      starts at the first end point and stops at the second; equal end
      points give no pixel. */
  lemma LineEnds(x1: int, y1: int, x2: int, y2: int)
    ensures x1 == x2 && y1 == y2 ==> LinePoints(x1, y1, x2, y2) == []
    ensures !(x1 == x2 && y1 == y2) ==>
      var r := LinePoints(x1, y1, x2, y2);
      && |r| == Max(Abs(x2 - x1), Abs(y2 - y1)) + 1
      && r[0] == Pixel(x1, y1)
      && r[|r| - 1] == Pixel(x2, y2)
  {
    LineShape(x1, y1, x2, y2);
    if !(x1 == x2 && y1 == y2) {
      LineAt(x1, y1, x2, y2, 0);
      LineAt(x1, y1, x2, y2, Major(x1, y1, x2, y2));
    }
    var dx, dy := Abs(x2 - x1), Abs(y2 - y1);
    if dx > dy {
      MinorEnds(dy, dx);
    } else if dy > 0 {
      MinorEnds(dx, dy);
    }
  }

  /** Each step moves the longer axis by exactly one and the shorter axis
      by at most one, both towards the second end point. */
  lemma LineSteps(x1: int, y1: int, x2: int, y2: int, k: nat)
    requires k + 1 < |LinePoints(x1, y1, x2, y2)|
    ensures var r := LinePoints(x1, y1, x2, y2);
      var ddx, ddy := r[k + 1].x - r[k].x, r[k + 1].y - r[k].y;
      && (Abs(x2 - x1) > Abs(y2 - y1) ==> ddx == Sign(x2 - x1) && (ddy == 0 || ddy == Sign(y2 - y1)))
      && (Abs(x2 - x1) <= Abs(y2 - y1) ==> ddy == Sign(y2 - y1) && (ddx == 0 || ddx == Sign(x2 - x1)))
  {
    LineAt(x1, y1, x2, y2, k);
    LineAt(x1, y1, x2, y2, k + 1);
    var dx, dy := Abs(x2 - x1), Abs(y2 - y1);
    if dx > dy {
      MinorDecision(dy, dx, k);
    } else {
      MinorDecision(dx, dy, k);
    }
  }

  /** `drawLine` computes the step as `(v2 - v1) / |v2 - v1|`; the division
      is exact, so it is the sign of `v2 - v1`. */
  lemma StepIsSign(v1: int, v2: int)
    ensures (if v2 == v1 then 0 else (v2 - v1) / Abs(v2 - v1)) == Sign(v2 - v1)
  {
    if v2 > v1 {
      DivModUnique(1, 0, v2 - v1);
    } else if v2 < v1 {
      DivModUnique(-1, 0, v1 - v2);
    }
  }

  /** The loop of `drawLine` stops when the major coordinate reaches one
      step past the second end point: after exactly `|v2 - v1| + 1` pixels. */
  lemma StepHits(v1: int, v2: int, k: nat)
    requires v1 != v2
    ensures v1 + Sign(v2 - v1) * k == v2 + Sign(v2 - v1) <==> k == Abs(v2 - v1) + 1
  {
  }

  /** Step `k` of the loop of `drawLine` or `drawLineSafe`, which writes
      the pixel `p` it has computed from `isDelta`. */
  lemma LineStep(L: Layout, s0: seq<byte>, pts: seq<Pixel>, k: nat, p: Pixel, c: Color, safe: bool)
    requires k < |pts| && p == pts[k] && AllFit(L, |s0|, Drawn(L, pts, c, safe), c)
    ensures !safe || SafeAccepts(L, p, c) ==> Fits(L, |s0|, p, c)
    ensures Painted(L, s0, Drawn(L, pts[..k + 1], c, safe), c) ==
      if !safe || SafeAccepts(L, p, c)
      then WriteAt(Painted(L, s0, Drawn(L, pts[..k], c, safe), c), L.Index(p.x, p.y), c)
      else Painted(L, s0, Drawn(L, pts[..k], c, safe), c)
  {
    DrawnStep(L, s0, pts, k, c, safe);
  }

  // ---------------------------------------------------------------------
  // Midpoint circles.

  /** One iteration of the circle loops: the point (x, y) of the octant. */
  datatype Octant = Octant(x: int, y: int)

  /** The `x` of the next iteration: after `y++` the error term is
      `x² + (y+1)² - r²`, and `x` steps down when `2 * err + dx > 0`. */
  function NextX(r: int, x: int, y: int): int
  {
    var err := x * x + (y + 1) * (y + 1) - r * r;
    var dx := 1 - 2 * x;
    if 2 * err + dx > 0 then x - 1 else x
  }

  /** The octant points the circle loops visit from (x, y) while `x >= y`. */
  function CircleStates(r: int, x: int, y: int): seq<Octant>
    decreases x - y + 2
  {
    if x < y then [] else [Octant(x, y)] + CircleStates(r, NextX(r, x, y), y + 1)
  }

  /** Every visited point keeps `0 <= y <= x <= x0`, `y` rises by one per
      iteration and `x` never rises, so at most `x0 - y0 + 1` iterations run. */
  lemma {:induction false} CircleStatesShape(r: int, x: int, y: int)
    requires 0 <= y
    ensures var s := CircleStates(r, x, y);
      && |s| <= Max(x - y + 1, 0)
      && (forall k :: 0 <= k < |s| ==> s[k].y == y + k && s[k].y <= s[k].x <= x)
      && (forall k :: 0 < k < |s| ==> s[k].x <= s[k - 1].x)
    decreases x - y + 2
  {
    if x >= y {
      var x' := NextX(r, x, y);
      CircleStatesShape(r, x', y + 1);
      var s, t := CircleStates(r, x, y), CircleStates(r, x', y + 1);
      assert s == [Octant(x, y)] + t;
      assert forall k :: 0 < k < |s| ==> s[k] == t[k - 1];
    }
  }

  /** A circle of radius `r` runs at most `r + 1` iterations; a negative
      radius runs none. */
  lemma CircleIterations(r: int)
    ensures |CircleStates(r, r, 0)| <= Max(r + 1, 0)
    ensures r < 0 ==> CircleStates(r, r, 0) == []
  {
    CircleStatesShape(r, r, 0);
  }

  /** The midpoint property of a visited point (x, y): `r² - y²` lies in
      `(x(x-1), x(x+1)]`, i.e. `x` is the integer nearest to the circle
      at height `y` (the midpoints `x ± 1/2` bracket it). */
  predicate Midpoint(r: int, x: int, y: int)
  {
    x * (x - 1) + y * y < r * r <= x * (x + 1) + y * y
  }

  /** One iteration keeps the midpoint property while the loop goes on. */
  lemma MidpointStep(r: int, x: int, y: int)
    requires 0 <= y <= x && Midpoint(r, x, y)
    requires NextX(r, x, y) >= y + 1
    ensures Midpoint(r, NextX(r, x, y), y + 1)
  {
    var xx, yy, rr, yy' := x * x, y * y, r * r, (y + 1) * (y + 1);
    var lo, hi := x * (x - 1), x * (x + 1);
    assert yy' == yy + 2 * y + 1;
    assert lo == xx - x && hi == xx + x;
    assert NextX(r, x, y) == if 2 * (xx + yy' - rr) + (1 - 2 * x) > 0 then x - 1 else x;
    if 2 * (xx + yy' - rr) + (1 - 2 * x) > 0 {
      var lo', hi' := (x - 1) * (x - 2), (x - 1) * x;
      assert lo' == xx - 3 * x + 2 && hi' == lo;
      MidpointLinear(lo, hi, lo', hi', yy, yy', rr, x, y, true);
    } else {
      MidpointLinear(lo, hi, lo, hi, yy, yy', rr, x, y, false);
    }
  }

  /** The linear core of `MidpointStep`, with every product named. */
  lemma MidpointLinear(lo: int, hi: int, lo': int, hi': int, yy: int, yy': int, rr: int, x: int, y: int, down: bool)
    requires 0 <= y && lo < rr - yy <= hi && yy' == yy + 2 * y + 1 && hi == lo + 2 * x
    requires down ==> lo + yy' >= rr && hi' == lo && lo' == lo - 2 * x + 2 && x - 1 >= y + 1
    requires !down ==> lo + yy' < rr && lo' == lo && hi' == hi && x >= y + 1
    ensures lo' < rr - yy' <= hi'
  {
  }

  /** The midpoint property holds at every visited point once it holds at
      the first one. */
  lemma {:induction false} CircleStatesMidpoint(r: int, x: int, y: int)
    requires 0 <= y && (x < y || Midpoint(r, x, y))
    ensures forall k :: 0 <= k < |CircleStates(r, x, y)| ==>
      Midpoint(r, CircleStates(r, x, y)[k].x, CircleStates(r, x, y)[k].y)
    decreases x - y + 2
  {
    if x >= y {
      var x' := NextX(r, x, y);
      if x' >= y + 1 {
        MidpointStep(r, x, y);
      }
      CircleStatesMidpoint(r, x', y + 1);
      var s, t := CircleStates(r, x, y), CircleStates(r, x', y + 1);
      assert s == [Octant(x, y)] + t;
      assert forall k :: 0 < k < |s| ==> s[k] == t[k - 1];
    }
  }

  /** For a positive radius every visited point has the midpoint property. */
  lemma CircleMidpoint(r: int)
    requires r > 0
    ensures forall k :: 0 <= k < |CircleStates(r, r, 0)| ==>
      Midpoint(r, CircleStates(r, r, 0)[k].x, CircleStates(r, r, 0)[k].y)
  {
    assert r * (r - 1) < r * r;
    assert r * r <= r * (r + 1);
    CircleStatesMidpoint(r, r, 0);
  }

  /** Radius 0 visits the single point (0, 0). */
  lemma CircleZero()
    ensures CircleStates(0, 0, 0) == [Octant(0, 0)]
  {
    assert NextX(0, 0, 0) == -1;
  }

  /** The number of columns `i` with `lo <= i <= hi`. */
  function Columns(lo: int, hi: int): nat
  {
    if lo <= hi then hi - lo + 1 else 0
  }

  /** `for (i = lo; i <= lo + n - 1; i++) { drawPixel(i, ya); drawPixel(i, yb); }` */
  function RowPairs(lo: int, n: nat, ya: int, yb: int): (s: seq<Pixel>)
    ensures |s| == 2 * n
  {
    if n == 0 then [] else RowPairs(lo, n - 1, ya, yb) + [Pixel(lo + n - 1, ya), Pixel(lo + n - 1, yb)]
  }

  lemma {:induction false} RowPairsCovers(lo: int, n: nat, ya: int, yb: int)
    ensures forall p :: p in RowPairs(lo, n, ya, yb) <==> lo <= p.x < lo + n && (p.y == ya || p.y == yb)
  {
    if n > 0 {
      RowPairsCovers(lo, n - 1, ya, yb);
    }
  }

  /** The two loops of one `drawCircle` iteration at the point (x, y):
      rows `oy ± y` from `ox - x` to `ox + x`, then rows `oy ± x` from
      `ox - y` to `ox + y`. */
  function DiscRows(ox: int, oy: int, o: Octant): seq<Pixel>
  {
    RowPairs(ox - o.x, Columns(ox - o.x, ox + o.x), oy + o.y, oy - o.y)
    + RowPairs(ox - o.y, Columns(ox - o.y, ox + o.y), oy + o.x, oy - o.x)
  }

  /** The four writes `(ox ± a, oy ± b)` of `drawCircleEmpty`, in the
      order of the source. */
  function FourWay(ox: int, oy: int, a: int, b: int): (s: seq<Pixel>)
    ensures |s| == 4
  {
    [Pixel(ox + a, oy + b), Pixel(ox - a, oy + b), Pixel(ox + a, oy - b), Pixel(ox - a, oy - b)]
  }

  /** The eight writes of one `drawCircleEmpty` iteration: the four at
      `(ox ± x, oy ± y)`, then the four at `(ox ± y, oy ± x)`. */
  function EightWay(ox: int, oy: int, o: Octant): (s: seq<Pixel>)
    ensures |s| == 8
  {
    FourWay(ox, oy, o.x, o.y) + FourWay(ox, oy, o.y, o.x)
  }

  /** The writes of `drawCircle` from the visited point (x, y) on: the two
      row loops of this iteration, then those of the points after it. */
  function DiscFrom(ox: int, oy: int, r: int, x: int, y: int): seq<Pixel>
    decreases x - y + 2
  {
    if x < y then [] else DiscRows(ox, oy, Octant(x, y)) + DiscFrom(ox, oy, r, NextX(r, x, y), y + 1)
  }

  /** The writes of `drawCircleEmpty` from the visited point (x, y) on. */
  function RingFrom(ox: int, oy: int, r: int, x: int, y: int): seq<Pixel>
    decreases x - y + 2
  {
    if x < y then [] else EightWay(ox, oy, Octant(x, y)) + RingFrom(ox, oy, r, NextX(r, x, y), y + 1)
  }

  function DiscPoints(ox: int, oy: int, r: int): seq<Pixel>
  {
    DiscFrom(ox, oy, r, r, 0)
  }

  function RingPoints(ox: int, oy: int, r: int): seq<Pixel>
  {
    RingFrom(ox, oy, r, r, 0)
  }

  /** The writes for a list of visited points, in order. */
  function DiscOf(ox: int, oy: int, os: seq<Octant>): seq<Pixel>
  {
    if |os| == 0 then [] else DiscRows(ox, oy, os[0]) + DiscOf(ox, oy, os[1..])
  }

  function RingOf(ox: int, oy: int, os: seq<Octant>): seq<Pixel>
  {
    if |os| == 0 then [] else EightWay(ox, oy, os[0]) + RingOf(ox, oy, os[1..])
  }

  /** The writes of both circle routines are exactly those of their visited
      points `CircleStates`, one iteration after another. */
  lemma {:induction false} CircleWrites(ox: int, oy: int, r: int, x: int, y: int)
    ensures DiscFrom(ox, oy, r, x, y) == DiscOf(ox, oy, CircleStates(r, x, y))
    ensures RingFrom(ox, oy, r, x, y) == RingOf(ox, oy, CircleStates(r, x, y))
    decreases x - y + 2
  {
    if x >= y {
      var s, t := CircleStates(r, x, y), CircleStates(r, NextX(r, x, y), y + 1);
      CircleWrites(ox, oy, r, NextX(r, x, y), y + 1);
      assert s == [Octant(x, y)] + t;
      assert s[0] == Octant(x, y) && s[1..] == t;
    }
  }

  /** A write of the row loop from column `lo` to `hi` lies in those
      columns and on one of its two rows. */
  lemma RowPairsIn(lo: int, hi: int, ya: int, yb: int, p: Pixel)
    requires p in RowPairs(lo, Columns(lo, hi), ya, yb)
    ensures lo <= p.x <= hi && (p.y == ya || p.y == yb)
  {
    RowPairsCovers(lo, Columns(lo, hi), ya, yb);
  }

  /** The two rows of one `drawCircle` iteration stay within `bound` of the
      origin on both axes. */
  lemma DiscRowsInBox(ox: int, oy: int, o: Octant, bound: int, p: Pixel)
    requires 0 <= o.y <= o.x <= bound && p in DiscRows(ox, oy, o)
    ensures ox - bound <= p.x <= ox + bound && oy - bound <= p.y <= oy + bound
  {
    var r1 := RowPairs(ox - o.x, Columns(ox - o.x, ox + o.x), oy + o.y, oy - o.y);
    var r2 := RowPairs(ox - o.y, Columns(ox - o.y, ox + o.y), oy + o.x, oy - o.x);
    assert DiscRows(ox, oy, o) == r1 + r2;
    if p in r1 {
      RowPairsIn(ox - o.x, ox + o.x, oy + o.y, oy - o.y, p);
    } else {
      RowPairsIn(ox - o.y, ox + o.y, oy + o.x, oy - o.x, p);
    }
  }

  /** Every write from the visited point (x, y) on stays within `bound` of
      the origin on both axes. */
  lemma {:induction false} DiscFromInBox(ox: int, oy: int, r: int, x: int, y: int, bound: int, p: Pixel)
    requires 0 <= y && x <= bound && p in DiscFrom(ox, oy, r, x, y)
    ensures ox - bound <= p.x <= ox + bound && oy - bound <= p.y <= oy + bound
    decreases x - y + 2
  {
    var rest := DiscFrom(ox, oy, r, NextX(r, x, y), y + 1);
    assert DiscFrom(ox, oy, r, x, y) == DiscRows(ox, oy, Octant(x, y)) + rest;
    if p in DiscRows(ox, oy, Octant(x, y)) {
      DiscRowsInBox(ox, oy, Octant(x, y), bound, p);
    } else {
      DiscFromInBox(ox, oy, r, NextX(r, x, y), y + 1, bound, p);
    }
  }

  lemma {:induction false} RingFromInBox(ox: int, oy: int, r: int, x: int, y: int, bound: int, p: Pixel)
    requires 0 <= y && x <= bound && p in RingFrom(ox, oy, r, x, y)
    ensures ox - bound <= p.x <= ox + bound && oy - bound <= p.y <= oy + bound
    decreases x - y + 2
  {
    if x >= y {
      var rest := RingFrom(ox, oy, r, NextX(r, x, y), y + 1);
      assert RingFrom(ox, oy, r, x, y) == EightWay(ox, oy, Octant(x, y)) + rest;
      if p !in EightWay(ox, oy, Octant(x, y)) {
        RingFromInBox(ox, oy, r, NextX(r, x, y), y + 1, bound, p);
      }
    }
  }

  /** `drawCircle` and `drawCircleEmpty` write only inside the square of
      side `2r + 1` around the origin; radius 0 writes only the origin. */
  lemma CircleInBox(ox: int, oy: int, r: int)
    ensures forall p :: p in DiscPoints(ox, oy, r) ==> ox - r <= p.x <= ox + r && oy - r <= p.y <= oy + r
    ensures forall p :: p in RingPoints(ox, oy, r) ==> ox - r <= p.x <= ox + r && oy - r <= p.y <= oy + r
    ensures r == 0 ==> forall p :: p in DiscPoints(ox, oy, r) + RingPoints(ox, oy, r) ==> p == Pixel(ox, oy)
  {
    forall p | p in DiscPoints(ox, oy, r)
      ensures ox - r <= p.x <= ox + r && oy - r <= p.y <= oy + r
    {
      DiscFromInBox(ox, oy, r, r, 0, r, p);
    }
    forall p | p in RingPoints(ox, oy, r)
      ensures ox - r <= p.x <= ox + r && oy - r <= p.y <= oy + r
    {
      RingFromInBox(ox, oy, r, r, 0, r, p);
    }
  }

  /** Pixel pair `m` of `RowPairs`: column `lo + m` on row `ya`, then on
      row `yb`. */
  lemma {:induction false} RowPairsAt(lo: int, n: nat, ya: int, yb: int, m: nat)
    requires m < n
    ensures RowPairs(lo, n, ya, yb)[2 * m] == Pixel(lo + m, ya)
    ensures RowPairs(lo, n, ya, yb)[2 * m + 1] == Pixel(lo + m, yb)
  {
    var pre := RowPairs(lo, n - 1, ya, yb);
    assert RowPairs(lo, n, ya, yb) == pre + [Pixel(lo + n - 1, ya), Pixel(lo + n - 1, yb)];
    if m < n - 1 {
      RowPairsAt(lo, n - 1, ya, yb, m);
    }
  }

  /** The bookkeeping at the end of one iteration of the circle loops:
      `y++`, `err += dy`, `dy += 2`, and when `2 * err + dx > 0` also `x--`,
      `err += dx`, `dx += 2`. With `err`, `dx` and `dy` kept at
      `x² + y² - r²`, `1 - 2x` and `2y + 1`, it steps to the next visited
      point and keeps the three relations. */
  method CircleAdvance(r: int, x: int, y: int, err: int, dx: int, dy: int) returns (x': int, y': int, err': int, dx': int, dy': int)
    requires err == x * x + y * y - r * r && dx == 1 - 2 * x && dy == 2 * y + 1
    ensures x' == NextX(r, x, y) && y' == y + 1
    ensures err' == x' * x' + y' * y' - r * r && dx' == 1 - 2 * x' && dy' == 2 * y' + 1
  {
    assert (y + 1) * (y + 1) == y * y + 2 * y + 1;
    assert (x - 1) * (x - 1) == x * x - 2 * x + 1;
    x', y', dx' := x, y + 1, dx;
    err' := err + dy;
    dy' := dy + 2;
    if 2 * err' + dx > 0 {
      x' := x - 1;
      err' := err' + dx;
      dx' := dx + 2;
    }
  }

  // ---------------------------------------------------------------------
  // Polygons.

  /** The spans `drawPolygon` fills on scanline `y` from the first `n`
      pairs of the sorted crossing list: `[p0.x, p1.x]`, `[p2.x, p3.x]`, … */
  function SpanPoints(list: seq<Point2D>, y: int, n: nat): seq<Pixel>
    requires 2 * n <= |list| && SortedByX(list)
  {
    if n == 0 then []
    else
      assert InOrder(list, 2 * n - 2, 2 * n - 1);
      SpanPoints(list, y, n - 1)
      + ScanlinePoints(list[2 * n - 2].x, y, list[2 * n - 1].x - list[2 * n - 2].x + 1)
  }

  /** A pixel is filled on scanline `y` exactly when it lies between the
      two crossings of one of the pairs. */
  lemma {:induction false} SpanCovers(list: seq<Point2D>, y: int, n: nat, p: Pixel)
    requires 2 * n <= |list| && SortedByX(list)
    ensures p in SpanPoints(list, y, n) <==>
      p.y == y && exists j :: 0 <= j < n && list[2 * j].x <= p.x <= list[2 * j + 1].x
  {
    if n > 0 {
      SpanCovers(list, y, n - 1, p);
      assert InOrder(list, 2 * n - 2, 2 * n - 1);
      var a, b := list[2 * n - 2].x, list[2 * n - 1].x;
      var line := ScanlinePoints(a, y, b - a + 1);
      ScanlineCovers(a, y, b - a + 1);
      if p.y == y && a <= p.x <= b {
        assert p in line;
      }
      if p in line {
        assert 0 <= n - 1 < n && list[2 * (n - 1)].x <= p.x <= list[2 * (n - 1) + 1].x;
      }
      if p.y == y && (exists j :: 0 <= j < n && list[2 * j].x <= p.x <= list[2 * j + 1].x) {
        var j :| 0 <= j < n && list[2 * j].x <= p.x <= list[2 * j + 1].x;
        if j < n - 1 {
          assert p in SpanPoints(list, y, n - 1);
        } else {
          assert p in line;
        }
      }
    }
  }

  /** The spans `drawPolygon` fills on scanline `y`: those of the pairs of
      its crossing list, sorted by x as `intersection(y)` returns it. */
  function RowFill(poly: Polygon2D, y: nat): seq<Pixel>
  {
    var list := SortByX(poly.Crossings(y));
    SortByXSorted(poly.Crossings(y));
    SpanPoints(list, y, |list| / 2)
  }

  /** `RowFill` in terms of the list `intersection(y)` returns. */
  lemma RowFillOf(poly: Polygon2D, y: nat, list: seq<Point2D>)
    requires list == SortByX(poly.Crossings(y))
    ensures SortedByX(list) && RowFill(poly, y) == SpanPoints(list, y, |list| / 2)
  {
    SortByXSorted(poly.Crossings(y));
  }

  /** The fill of the `rows` consecutive scanlines from `minY`, top to
      bottom. */
  function FillFrom(poly: Polygon2D, minY: nat, rows: nat): seq<Pixel>
  {
    if rows == 0 then [] else FillFrom(poly, minY, rows - 1) + RowFill(poly, minY + rows - 1)
  }

  /** The strokes of the first `k` edges, each a `drawLine`. */
  function OutlinePoints(poly: Polygon2D, k: nat): seq<Pixel>
    requires k <= |poly.points|
  {
    if k == 0 then []
    else
      var l := poly.GetLine(k - 1);
      OutlinePoints(poly, k - 1) + LinePoints(l.p1.x, l.p1.y, l.p2.x, l.p2.y)
  }

  /** `drawPolygon`: the fill of every scanline from the smallest vertex y
      up to (not including) the largest, then the outline. */
  function PolygonPoints(poly: Polygon2D): seq<Pixel>
    requires |poly.points| > 0
  {
    PolygonFill(poly) + OutlinePoints(poly, |poly.points|)
  }

  /** The number of scanlines `drawPolygon` fills: `range[1] .. range[3] - 1`. */
  function FillRows(b: Range2D): nat
  {
    if b.maxY > b.minY then b.maxY - b.minY else 0
  }

  /** The fill part of `drawPolygon`. */
  function PolygonFill(poly: Polygon2D): seq<Pixel>
    requires |poly.points| > 0
  {
    var b := BoundsOf(poly.points);
    FillFrom(poly, b.minY, FillRows(b))
  }

  /** The outline passes through every vertex: the stroke of edge `i`
      starts at vertex `i` and ends at vertex `i + 1` (wrapping), unless
      the two vertices coincide. */
  lemma OutlineThroughEdge(poly: Polygon2D, k: nat, i: nat)
    requires i < k <= |poly.points|
    requires poly.points[i] != poly.points[(i + 1) % |poly.points|]
    ensures Pixel(poly.points[i].x, poly.points[i].y) in OutlinePoints(poly, k)
    ensures Pixel(poly.points[(i + 1) % |poly.points|].x, poly.points[(i + 1) % |poly.points|].y) in OutlinePoints(poly, k)
  {
    var l := poly.GetLine(i);
    LineThroughEnds(l);
    EdgeInOutline(poly, i, k, Pixel(l.p1.x, l.p1.y));
    EdgeInOutline(poly, i, k, Pixel(l.p2.x, l.p2.y));
  }

  /** Every pixel of the stroke of edge `i` is in the strokes of the first
      `k` edges once `k` passes `i`. */
  lemma {:induction false} EdgeInOutline(poly: Polygon2D, i: nat, k: nat, p: Pixel)
    requires i < k <= |poly.points|
    requires var l := poly.GetLine(i); p in LinePoints(l.p1.x, l.p1.y, l.p2.x, l.p2.y)
    ensures p in OutlinePoints(poly, k)
  {
    if i < k - 1 {
      EdgeInOutline(poly, i, k - 1, p);
    }
  }

  /** The stroke of an edge between distinct points passes through both. */
  lemma LineThroughEnds(l: Line2D)
    requires l.p1 != l.p2
    ensures Pixel(l.p1.x, l.p1.y) in LinePoints(l.p1.x, l.p1.y, l.p2.x, l.p2.y)
    ensures Pixel(l.p2.x, l.p2.y) in LinePoints(l.p1.x, l.p1.y, l.p2.x, l.p2.y)
  {
    var line := LinePoints(l.p1.x, l.p1.y, l.p2.x, l.p2.y);
    LineEnds(l.p1.x, l.p1.y, l.p2.x, l.p2.y);
    assert line[0] in line && line[|line| - 1] in line;
  }

  // ---------------------------------------------------------------------
  // Longer lists contain shorter ones.

  /** The first pairs' spans are a prefix of all the spans. */
  lemma {:induction false} SpanGrows(list: seq<Point2D>, y: int, n: nat, m: nat)
    requires n <= m && 2 * m <= |list| && SortedByX(list)
    ensures SpanPoints(list, y, n) <= SpanPoints(list, y, m)
    decreases m
  {
    if n < m {
      SpanGrows(list, y, n, m - 1);
      assert InOrder(list, 2 * m - 2, 2 * m - 1);
      PrefixExtend(SpanPoints(list, y, n), SpanPoints(list, y, m - 1),
        ScanlinePoints(list[2 * m - 2].x, y, list[2 * m - 1].x - list[2 * m - 2].x + 1));
    }
  }

  /** The fill of the first scanlines is a prefix of the whole fill. */
  lemma {:induction false} FillGrows(poly: Polygon2D, minY: nat, k: nat, rows: nat)
    requires k <= rows
    ensures FillFrom(poly, minY, k) <= FillFrom(poly, minY, rows)
    decreases rows
  {
    if k < rows {
      FillGrows(poly, minY, k, rows - 1);
      PrefixExtend(FillFrom(poly, minY, k), FillFrom(poly, minY, rows - 1), RowFill(poly, minY + rows - 1));
    }
  }

  /** The strokes of the first edges are a prefix of all the strokes. */
  lemma {:induction false} OutlineGrows(poly: Polygon2D, k: nat, m: nat)
    requires k <= m <= |poly.points|
    ensures OutlinePoints(poly, k) <= OutlinePoints(poly, m)
    decreases m
  {
    if k < m {
      OutlineGrows(poly, k, m - 1);
      var l := poly.GetLine(m - 1);
      PrefixExtend(OutlinePoints(poly, k), OutlinePoints(poly, m - 1), LinePoints(l.p1.x, l.p1.y, l.p2.x, l.p2.y));
    }
  }

  lemma {:induction false} RowPairsGrows(lo: int, n: nat, m: nat, ya: int, yb: int)
    requires n <= m
    ensures RowPairs(lo, n, ya, yb) <= RowPairs(lo, m, ya, yb)
    decreases m
  {
    if n < m {
      RowPairsGrows(lo, n, m - 1, ya, yb);
      PrefixExtend(RowPairs(lo, n, ya, yb), RowPairs(lo, m - 1, ya, yb), [Pixel(lo + m - 1, ya), Pixel(lo + m - 1, yb)]);
    }
  }

  lemma {:induction false} SideGrows(left: int, right: int, y: int, n: nat, m: nat)
    requires n <= m
    ensures SidePoints(left, right, y, n) <= SidePoints(left, right, y, m)
    decreases m
  {
    if n < m {
      SideGrows(left, right, y, n, m - 1);
      PrefixExtend(SidePoints(left, right, y, n), SidePoints(left, right, y, m - 1),
        [Pixel(left, y + m - 1), Pixel(right, y + m - 1)]);
    }
  }

  lemma {:induction false} RectGrows(x: int, y: int, n: nat, m: nat, height: nat)
    requires n <= m
    ensures RectPoints(x, y, n, height) <= RectPoints(x, y, m, height)
    decreases m
  {
    if n < m {
      RectGrows(x, y, n, m - 1, height);
      PrefixExtend(RectPoints(x, y, n, height), RectPoints(x, y, m - 1, height), ColumnPoints(x + m - 1, y, height));
    }
  }

  // ---------------------------------------------------------------------
  // One step of each drawing loop: the pixel written fits, and the
  // storage after it is the painting of one more pixel.

  /** Step (i, j) of `drawRect`: the pixel (x + i, y + j) after the first
      `i` columns and `j` pixels of column `i`. */
  lemma RectStep(L: Layout, s0: seq<byte>, x: int, y: int, width: nat, height: nat, i: nat, j: nat, c: Color)
    requires AllFit(L, |s0|, RectPoints(x, y, width, height), c) && i < width && j < height
    ensures Fits(L, |s0|, Pixel(x + i, y + j), c)
    ensures Painted(L, s0, RectPoints(x, y, i, height) + ColumnPoints(x + i, y, j + 1), c)
      == WriteAt(Painted(L, s0, RectPoints(x, y, i, height) + ColumnPoints(x + i, y, j), c), L.Index(x + i, y + j), c)
  {
    var done, col := RectPoints(x, y, i, height), ColumnPoints(x + i, y, height);
    RectGrows(x, y, i + 1, width, height);
    assert RectPoints(x, y, i + 1, height) == done + col;
    assert ColumnPoints(x + i, y, j) == col[..j];
    assert ColumnPoints(x + i, y, j + 1) == col[..j + 1];
    PaintNextOf(L, s0, done, col, j, c, RectPoints(x, y, width, height));
  }

  /** The start of `drawRect`: no column drawn. */
  lemma RectStart(x: int, y: int, i: nat, height: nat)
    ensures RectPoints(x, y, i, height) + ColumnPoints(x + i, y, 0) == RectPoints(x, y, i, height)
  {
  }

  /** What `drawRectEmpty` has drawn once both rows and the first `i` rows
      of the sides are done. */
  function OutlineUpTo(x: int, y: int, width: nat, height: nat, i: nat): seq<Pixel>
    requires width >= 1
  {
    ScanlinePoints(x, y, width - 1) + ScanlinePoints(x, y + height - 1, width)
    + SidePoints(x, x + width - 1, y, i)
  }

  /** The two scanlines that open `drawRectEmpty`, painted one after the other. */
  lemma RectOutlineRows(L: Layout, s0: seq<byte>, x: int, y: int, width: nat, height: nat, c: Color)
    requires width >= 1 && AllFit(L, |s0|, RectOutlinePoints(x, y, width, height), c)
    ensures AllFit(L, |s0|, ScanlinePoints(x, y, width - 1), c)
    ensures AllFit(L, |s0|, ScanlinePoints(x, y + height - 1, width), c)
    ensures Painted(L, Painted(L, s0, ScanlinePoints(x, y, width - 1), c), ScanlinePoints(x, y + height - 1, width), c)
         == Painted(L, s0, OutlineUpTo(x, y, width, height, 0), c)
    ensures OutlineUpTo(x, y, width, height, height) == RectOutlinePoints(x, y, width, height)
  {
    var top, bottom := ScanlinePoints(x, y, width - 1), ScanlinePoints(x, y + height - 1, width);
    AllFitAppend(L, |s0|, top + bottom, SidePoints(x, x + width - 1, y, height), c);
    AllFitAppend(L, |s0|, top, bottom, c);
    PaintAppend(L, s0, top, bottom, c);
    assert top + bottom + SidePoints(x, x + width - 1, y, 0) == top + bottom;
  }

  /** Both pixels of row `i` of the sides of `drawRectEmpty` are pixels of
      the outline, so they fit when the whole outline does. */
  lemma RectOutlineSideFits(L: Layout, n: nat, x: nat, y: nat, width: nat, height: nat, i: nat, c: Color)
    requires width >= 1 && i < height && AllFit(L, n, RectOutlinePoints(x, y, width, height), c)
    ensures Fits(L, n, Pixel(x, y + i), c) && Fits(L, n, Pixel(x + width - 1, y + i), c)
  {
    var rows := ScanlinePoints(x, y, width - 1) + ScanlinePoints(x, y + height - 1, width);
    var done := OutlineUpTo(x, y, width, height, i);
    var full := RectOutlinePoints(x, y, width, height);
    SideGrows(x, x + width - 1, y, i + 1, height);
    PrefixAfter(rows, SidePoints(x, x + width - 1, y, i + 1), SidePoints(x, x + width - 1, y, height));
    assert OutlineUpTo(x, y, width, height, i + 1) == done + [Pixel(x, y + i), Pixel(x + width - 1, y + i)];
    assert full[|done|] == Pixel(x, y + i) && full[|done| + 1] == Pixel(x + width - 1, y + i);
    assert FitsAt(L, n, full, |done|, c) && FitsAt(L, n, full, |done| + 1, c);
  }

  /** Row `i` of the sides of `drawRectEmpty`: the left pixel and then the
      right one, two more writes of the outline. */
  lemma RectOutlineSide(L: Layout, s0: seq<byte>, x: nat, y: nat, width: nat, height: nat, i: nat, c: Color)
    requires width >= 1 && Fits(L, |s0|, Pixel(x, y + i), c) && Fits(L, |s0|, Pixel(x + width - 1, y + i), c)
    ensures Painted(L, s0, OutlineUpTo(x, y, width, height, i + 1), c)
         == WriteAt(WriteAt(Painted(L, s0, OutlineUpTo(x, y, width, height, i), c), L.Index(x, y + i), c),
                    L.Index(x + width - 1, y + i), c)
  {
    var done := OutlineUpTo(x, y, width, height, i);
    assert OutlineUpTo(x, y, width, height, i + 1) == done + [Pixel(x, y + i), Pixel(x + width - 1, y + i)];
    PaintSnocTwo(L, s0, done, Pixel(x, y + i), Pixel(x + width - 1, y + i), c);
  }

  // ---------------------------------------------------------------------
  // Polygons, one scanline span or one edge at a time.

  /** Span `n`, between crossings `j - 1 = 2n` and `j`, fits when all the
      spans of the list do. */
  lemma SpanFits(L: Layout, size: nat, list: seq<Point2D>, y: int, n: nat, j: nat, c: Color)
    requires SortedByX(list) && j == 2 * n + 1 && j < |list|
    requires AllFit(L, size, SpanPoints(list, y, |list| / 2), c)
    ensures list[j - 1].x <= list[j].x
    ensures AllFit(L, size, ScanlinePoints(list[j - 1].x, y, list[j].x - list[j - 1].x + 1), c)
  {
    assert InOrder(list, j - 1, j);
    SpanGrows(list, y, n + 1, |list| / 2);
    AllFitInfix(L, size, SpanPoints(list, y, n), ScanlinePoints(list[2 * n].x, y, list[2 * n + 1].x - list[2 * n].x + 1),
      SpanPoints(list, y, |list| / 2), c);
  }

  /** Painting span `n`, between crossings `j - 1 = 2n` and `j`, after the
      spans before it. */
  lemma SpanPaint(L: Layout, s0: seq<byte>, list: seq<Point2D>, y: int, n: nat, j: nat, c: Color)
    requires SortedByX(list) && j == 2 * n + 1 && j < |list|
    ensures list[j - 1].x <= list[j].x
    ensures Painted(L, s0, SpanPoints(list, y, n + 1), c)
         == Painted(L, Painted(L, s0, SpanPoints(list, y, n), c), ScanlinePoints(list[j - 1].x, y, list[j].x - list[j - 1].x + 1), c)
  {
    assert InOrder(list, j - 1, j);
    PaintAppend(L, s0, SpanPoints(list, y, n), ScanlinePoints(list[2 * n].x, y, list[2 * n + 1].x - list[2 * n].x + 1), c);
  }

  /** The spans of scanline `minY + k` fit when the whole fill does. */
  lemma FillRowStep(L: Layout, s: seq<byte>, poly: Polygon2D, minY: nat, rows: nat, k: nat, y: nat, row: seq<Pixel>, c: Color)
    requires k < rows && AllFit(L, |s|, FillFrom(poly, minY, rows), c)
    requires y == minY + k && row == RowFill(poly, y)
    ensures AllFit(L, |s|, row, c)
    ensures Painted(L, s, FillFrom(poly, minY, k + 1), c) == Painted(L, Painted(L, s, FillFrom(poly, minY, k), c), row, c)
  {
    FillGrows(poly, minY, k + 1, rows);
    assert FillFrom(poly, minY, k + 1) == FillFrom(poly, minY, k) + row;
    AllFitInfix(L, |s|, FillFrom(poly, minY, k), row, FillFrom(poly, minY, rows), c);
    PaintAppend(L, s, FillFrom(poly, minY, k), row, c);
  }

  /** Every pixel of the stroke of edge `i` fits when the whole outline does. */
  lemma EdgeFits(L: Layout, size: nat, poly: Polygon2D, i: nat, c: Color)
    requires i < |poly.points| && AllFit(L, size, OutlinePoints(poly, |poly.points|), c)
    ensures var l := poly.GetLine(i);
      AllFit(L, size, LinePoints(l.p1.x, l.p1.y, l.p2.x, l.p2.y), c)
  {
    var l := poly.GetLine(i);
    OutlineGrows(poly, i + 1, |poly.points|);
    AllFitInfix(L, size, OutlinePoints(poly, i), LinePoints(l.p1.x, l.p1.y, l.p2.x, l.p2.y), OutlinePoints(poly, |poly.points|), c);
  }

  /** Painting the stroke of edge `i` after `before` and the strokes of the
      edges ahead of it. */
  lemma EdgePaint(L: Layout, s0: seq<byte>, before: seq<Pixel>, poly: Polygon2D, i: nat, c: Color)
    requires i < |poly.points|
    ensures var l := poly.GetLine(i);
      Painted(L, s0, before + OutlinePoints(poly, i + 1), c)
      == Painted(L, Painted(L, s0, before + OutlinePoints(poly, i), c), LinePoints(l.p1.x, l.p1.y, l.p2.x, l.p2.y), c)
  {
    var l := poly.GetLine(i);
    var line := LinePoints(l.p1.x, l.p1.y, l.p2.x, l.p2.y);
    assert before + OutlinePoints(poly, i + 1) == (before + OutlinePoints(poly, i)) + line;
    PaintAppend(L, s0, before + OutlinePoints(poly, i), line, c);
  }
}
