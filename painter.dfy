/** `Painter<uint8_t>`: the rasteriser that draws into the texture of an
    image view. Every drawing call first marks the view as changed; the
    painter's end of life refreshes the view and clears the mark. */
module Painter {
  import opened Types
  import opened Buffer
  import opened Texture
  import opened Paint
  import opened Geometry
  import opened Shapes

  class Painter
  {
    const imageView: ImageView
    const texture: ByteTexture

    /** `Painter(iv)`: draws into the texture of `iv`. */
    constructor (iv: ImageView)
      ensures imageView == iv && texture == iv.texture
    {
      imageView := iv;
      texture := iv.texture;
    }

    /** `paintStart`: the view now holds unsaved drawing. */
    method PaintStart()
      modifies imageView`changed
      ensures imageView.changed
    {
      imageView.changed := true;
    }

    /** `~Painter`: refreshes the view and clears the mark; the pixels stay. */
    method Finish()
      modifies imageView`changed
      ensures !imageView.changed
      ensures texture.vec == old(texture.vec)
    {
      imageView.Update();
      imageView.changed := false;
    }

    // -------------------------------------------------------------------
    // Single pixels.

    /** `drawPixel(index, color)`: `rgb` stores its three channels; `rgba`
        stores the blend of the pixel already there with the colour. */
    method DrawPixelAt(index: nat, c: Color)
      requires index + c.Width() <= |texture.vec|
      modifies texture`vec, imageView`changed
      ensures imageView.changed
      ensures texture.vec == WriteAt(old(texture.vec), index, c)
    {
      PaintStart();
      match c
      case RgbaColor(v) =>
        var m := AlphaMix(GetRGBAAt(texture, index), v);
        texture.vec := texture.vec[index := m.r];
        texture.vec := texture.vec[index + 1 := m.g];
        texture.vec := texture.vec[index + 2 := m.b];
        texture.vec := texture.vec[index + 3 := m.a];
        WriteAtEffect(old(texture.vec), index, c);
        assert texture.vec == WriteAt(old(texture.vec), index, c);
      case RgbColor(v) =>
        texture.vec := texture.vec[index := v.r];
        texture.vec := texture.vec[index + 1 := v.g];
        texture.vec := texture.vec[index + 2 := v.b];
        WriteAtEffect(old(texture.vec), index, c);
        assert texture.vec == WriteAt(old(texture.vec), index, c);
    }

    /** `drawPixel(x, y, color)`: the write at `getIndex(x, y)`. Without a
        bounds check, the caller keeps the pixel inside the storage. */
    method DrawPixel(x: int, y: int, c: Color)
      requires Fits(texture.Shape(), |texture.vec|, Pixel(x, y), c)
      modifies texture`vec, imageView`changed
      ensures imageView.changed
      ensures texture.vec == WriteAt(old(texture.vec), texture.Shape().Index(x, y), c)
      ensures c.RgbColor? ==> GetRGB(texture, x, y) == c.rgb
    {
      var index := texture.GetIndex(x, y);
      DrawPixelAt(index, c);
      WriteAtEffect(old(texture.vec), index, c);
    }

    /** `drawPixelSafe(x, y, color)`: writes only pixels the bounds test
        accepts and leaves the storage alone otherwise. */
    method DrawPixelSafe(x: int, y: int, c: Color)
      requires SafeAccepts(texture.Shape(), Pixel(x, y), c) ==> Fits(texture.Shape(), |texture.vec|, Pixel(x, y), c)
      modifies texture`vec, imageView`changed
      ensures imageView.changed
      ensures SafeAccepts(texture.Shape(), Pixel(x, y), c) ==>
        texture.vec == WriteAt(old(texture.vec), texture.Shape().Index(x, y), c)
      ensures !SafeAccepts(texture.Shape(), Pixel(x, y), c) ==> texture.vec == old(texture.vec)
    {
      PaintStart();
      if SafeAccepts(texture.Shape(), Pixel(x, y), c) {
        DrawPixel(x, y, c);
      }
    }

    // -------------------------------------------------------------------
    // Whole image.

    /** `clearImage`: zeroes the first `width * height * channel` samples. */
    method ClearImage()
      requires texture.Shape().Length() <= |texture.vec|
      modifies texture`vec, imageView`changed
      ensures imageView.changed
      ensures |texture.vec| == |old(texture.vec)|
      ensures forall i :: 0 <= i < texture.Shape().Length() ==> texture.vec[i] == texture.zero
      ensures texture.vec[texture.Shape().Length()..] == old(texture.vec)[texture.Shape().Length()..]
    {
      PaintStart();
      texture.SetZero();
    }

    /** `setSize`: resizes the texture; it does not mark the view. */
    method SetSize(width: nat, height: nat, channel: nat)
      modifies texture
      ensures texture.Shape() == Layout(width, height, channel)
      ensures texture.vec == Resize(old(texture.vec), width * height * channel, texture.zero)
      ensures texture.Valid()
    {
      texture.SetSize(width, height, channel);
    }

    // -------------------------------------------------------------------
    // Scanlines and rectangles.

    /** `drawScanline(x, y, width, color)`: `width` pixels rightwards from (x, y). */
    method DrawScanline(x: nat, y: nat, width: nat, c: Color)
      requires AllFit(texture.Shape(), |texture.vec|, ScanlinePoints(x, y, width), c)
      modifies texture`vec, imageView`changed
      ensures imageView.changed
      ensures texture.vec == Painted(texture.Shape(), old(texture.vec), ScanlinePoints(x, y, width), c)
    {
      PaintStart();
      ghost var L, v0 := texture.Shape(), texture.vec;
      ghost var pts := ScanlinePoints(x, y, width);
      for i := 0 to width
        invariant AllFit(L, |v0|, pts[..i], c)
        invariant texture.vec == Painted(L, v0, pts[..i], c)
        invariant imageView.changed
      {
        assert pts[..i + 1] == pts[..i] + [pts[i]];
        PaintNext(L, v0, pts[..i], pts[i], c, pts);
        DrawPixel(x + i, y, c);
      }
      assert pts[..width] == pts;
    }

    /** `drawRect(x, y, width, height, color)`: the block, column by column. */
    method DrawRect(x: nat, y: nat, width: nat, height: nat, c: Color)
      requires AllFit(texture.Shape(), |texture.vec|, RectPoints(x, y, width, height), c)
      modifies texture`vec, imageView`changed
      ensures imageView.changed
      ensures texture.vec == Painted(texture.Shape(), old(texture.vec), RectPoints(x, y, width, height), c)
    {
      PaintStart();
      ghost var L, v0 := texture.Shape(), texture.vec;
      for i := 0 to width
        invariant texture.Shape() == L && |texture.vec| == |v0|
        invariant texture.vec == Painted(L, v0, RectPoints(x, y, i, height), c)
        invariant imageView.changed
      {
        DrawRectColumn(x, y, width, height, i, c, v0);
      }
    }

    /** Column `i` of `drawRect`: the inner loop, top to bottom. `v0` is
        the storage before the block. */
    method DrawRectColumn(x: nat, y: nat, width: nat, height: nat, i: nat, c: Color, ghost v0: seq<byte>)
      requires i < width && |texture.vec| == |v0| && imageView.changed
      requires AllFit(texture.Shape(), |v0|, RectPoints(x, y, width, height), c)
      requires texture.vec == Painted(texture.Shape(), v0, RectPoints(x, y, i, height), c)
      modifies texture`vec, imageView`changed
      ensures imageView.changed && texture.Shape() == old(texture.Shape()) && |texture.vec| == |v0|
      ensures texture.vec == Painted(texture.Shape(), v0, RectPoints(x, y, i + 1, height), c)
    {
      ghost var L := texture.Shape();
      RectStart(x, y, i, height);
      for j := 0 to height
        invariant texture.Shape() == L
        invariant texture.vec == Painted(L, v0, RectPoints(x, y, i, height) + ColumnPoints(x + i, y, j), c)
        invariant imageView.changed
      {
        RectStep(L, v0, x, y, width, height, i, j, c);
        DrawPixel(x + i, y + j, c);
        assert texture.Shape() == L;
      }
    }

    /** `drawRectEmpty(x, y, width, height, color)`: the top row without its
        last pixel, the bottom row, then both sides top to bottom. The
        source subtracts one from `width` and from `y + height`, so both
        must be positive. */
    method DrawRectEmpty(x: nat, y: nat, width: nat, height: nat, c: Color)
      requires width >= 1 && y + height >= 1
      requires AllFit(texture.Shape(), |texture.vec|, RectOutlinePoints(x, y, width, height), c)
      modifies texture`vec, imageView`changed
      ensures imageView.changed
      ensures texture.vec == Painted(texture.Shape(), old(texture.vec), RectOutlinePoints(x, y, width, height), c)
    {
      PaintStart();
      ghost var L, v0 := texture.Shape(), texture.vec;
      RectOutlineRows(L, v0, x, y, width, height, c);
      DrawScanline(x, y, width - 1, c);
      DrawScanline(x, y + height - 1, width, c);
      DrawRectSides(x, y, width, height, c, v0);
    }

    /** The loop of `drawRectEmpty` over the rows of the sides: the left
        pixel, then the right one. `v0` is the storage before the outline. */
    method DrawRectSides(x: nat, y: nat, width: nat, height: nat, c: Color, ghost v0: seq<byte>)
      requires width >= 1 && |texture.vec| == |v0|
      requires AllFit(texture.Shape(), |v0|, RectOutlinePoints(x, y, width, height), c)
      requires texture.vec == Painted(texture.Shape(), v0, OutlineUpTo(x, y, width, height, 0), c)
      modifies texture`vec, imageView`changed
      ensures imageView.changed
      ensures texture.vec == Painted(texture.Shape(), v0, RectOutlinePoints(x, y, width, height), c)
    {
      PaintStart();
      ghost var L := texture.Shape();
      for i := 0 to height
        invariant texture.Shape() == L
        invariant texture.vec == Painted(L, v0, OutlineUpTo(x, y, width, height, i), c)
        invariant imageView.changed
      {
        DrawSideRow(x, y, width, height, i, c, v0);
      }
    }

    /** One row of the sides of `drawRectEmpty`: the left pixel, then the
        right one. */
    method DrawSideRow(x: nat, y: nat, width: nat, height: nat, i: nat, c: Color, ghost v0: seq<byte>)
      requires width >= 1 && i < height && |texture.vec| == |v0|
      requires AllFit(texture.Shape(), |v0|, RectOutlinePoints(x, y, width, height), c)
      requires texture.vec == Painted(texture.Shape(), v0, OutlineUpTo(x, y, width, height, i), c)
      modifies texture`vec, imageView`changed
      ensures imageView.changed
      ensures texture.vec == Painted(texture.Shape(), v0, OutlineUpTo(x, y, width, height, i + 1), c)
    {
      ghost var L := texture.Shape();
      RectOutlineSideFits(L, |v0|, x, y, width, height, i, c);
      RectOutlineSide(L, v0, x, y, width, height, i, c);
      DrawPixel(x, y + i, c);
      assert texture.Shape() == L;
      DrawPixel(x + width - 1, y + i, c);
      assert texture.Shape() == L;
    }

    // -------------------------------------------------------------------
    // Lines.

    /** `drawLine(x1, y1, x2, y2, color)`: Bresenham's line, every pixel
        written with `drawPixel`. */
    method DrawLine(x1: int, y1: int, x2: int, y2: int, c: Color)
      requires AllFit(texture.Shape(), |texture.vec|, LinePoints(x1, y1, x2, y2), c)
      modifies texture`vec, imageView`changed
      ensures imageView.changed
      ensures texture.vec == Painted(texture.Shape(), old(texture.vec), LinePoints(x1, y1, x2, y2), c)
    {
      Stroke(x1, y1, x2, y2, c, false);
    }

    /** `drawLineSafe(x1, y1, x2, y2, color)`: the same pixels, each written
        with `drawPixelSafe`, so those the bounds test rejects are skipped. */
    method DrawLineSafe(x1: int, y1: int, x2: int, y2: int, c: Color)
      requires AllFit(texture.Shape(), |texture.vec|, Clip(texture.Shape(), LinePoints(x1, y1, x2, y2), c), c)
      modifies texture`vec, imageView`changed
      ensures imageView.changed
      ensures texture.vec == Painted(texture.Shape(), old(texture.vec), Clip(texture.Shape(), LinePoints(x1, y1, x2, y2), c), c)
    {
      Stroke(x1, y1, x2, y2, c, true);
    }

    /** Pixel `k` of a list of writes: `drawPixelSafe` when `safe`, else
        `drawPixel`. The storage goes from the painting of the first `k`
        pixels of `pts` to the painting of the first `k + 1`. */
    method Plot(x: int, y: int, c: Color, safe: bool, ghost L: Layout, ghost v0: seq<byte>, ghost pts: seq<Pixel>, ghost k: nat)
      requires texture.Shape() == L && |texture.vec| == |v0|
      requires k < |pts| && pts[k] == Pixel(x, y) && AllFit(L, |v0|, Drawn(L, pts, c, safe), c)
      requires texture.vec == Painted(L, v0, Drawn(L, pts[..k], c, safe), c)
      modifies texture`vec, imageView`changed
      ensures imageView.changed && texture.Shape() == L
      ensures texture.vec == Painted(L, v0, Drawn(L, pts[..k + 1], c, safe), c)
    {
      LineStep(L, v0, pts, k, Pixel(x, y), c, safe);
      if safe {
        DrawPixelSafe(x, y, c);
      } else {
        DrawPixel(x, y, c);
      }
      assert texture.Shape() == L;
    }

    /** The body shared by `drawLine` (`safe` false) and `drawLineSafe`
        (`safe` true): the steps are the signs of the differences, and the
        longer axis is the major one; on a tie it is `y`. */
    method Stroke(x1: int, y1: int, x2: int, y2: int, c: Color, safe: bool)
      requires AllFit(texture.Shape(), |texture.vec|, Drawn(texture.Shape(), LinePoints(x1, y1, x2, y2), c, safe), c)
      modifies texture`vec, imageView`changed
      ensures imageView.changed
      ensures texture.vec == Painted(texture.Shape(), old(texture.vec), Drawn(texture.Shape(), LinePoints(x1, y1, x2, y2), c, safe), c)
    {
      PaintStart();
      var dx, dy := Abs(x2 - x1), Abs(y2 - y1);
      var stepX := if x2 == x1 then 0 else (x2 - x1) / dx;
      var stepY := if y2 == y1 then 0 else (y2 - y1) / dy;
      StepIsSign(x1, x2);
      StepIsSign(y1, y2);
      if dx > dy {
        StrokeAlongX(x1, y1, x2, y2, dx, dy, stepX, stepY, c, safe);
      } else {
        StrokeAlongY(x1, y1, x2, y2, dx, dy, stepX, stepY, c, safe);
      }
    }

    /** The loop of a line whose `x` extent is the longer: one pixel per
        column, the error term `isDelta` deciding when `y` steps, which puts
        each pixel at the rounded `Minor` offset of `LinePoints`. */
    method StrokeAlongX(x1: int, y1: int, x2: int, y2: int, dx: nat, dy: nat, stepX: int, stepY: int, c: Color, safe: bool)
      requires dx == Abs(x2 - x1) && dy == Abs(y2 - y1) && stepX == Sign(x2 - x1) && stepY == Sign(y2 - y1) && dx > dy
      requires AllFit(texture.Shape(), |texture.vec|, Drawn(texture.Shape(), LinePoints(x1, y1, x2, y2), c, safe), c)
      modifies texture`vec, imageView`changed
      ensures imageView.changed
      ensures texture.vec == Painted(texture.Shape(), old(texture.vec), Drawn(texture.Shape(), LinePoints(x1, y1, x2, y2), c, safe), c)
    {
      PaintStart();
      ghost var L, v0 := texture.Shape(), texture.vec;
      ghost var pts := LinePoints(x1, y1, x2, y2);
      LineShape(x1, y1, x2, y2);
      var xi, yi := x1, y1;
      ghost var k := 0;
      var isDelta := 2 * dy - dx;
      MinorEnds(dy, dx);
      while xi != x2 + stepX
        invariant |pts| == dx + 1
        invariant k <= |pts| && xi == x1 + stepX * k
        invariant yi == y1 + stepY * Minor(dy, dx, k) && isDelta == Delta(dy, dx, k)
        invariant texture.vec == Painted(L, v0, Drawn(L, pts[..k], c, safe), c)
        invariant imageView.changed
        decreases |pts| - k
      {
        assert k < |pts| && pts[k] == Pixel(xi, yi) by {
          StepHits(x1, x2, k);
          LineAt(x1, y1, x2, y2, k);
        }
        Plot(xi, yi, c, safe, L, v0, pts, k);
        yi, isDelta := LineAdvance(dy, dx, stepY, y1, yi, isDelta, k);
        assert xi + stepX == x1 + stepX * (k + 1);
        xi := xi + stepX;
        k := k + 1;
      }
      assert pts[..k] == pts by { StepHits(x1, x2, k); }
    }

    /** The loop of a line whose `y` extent is at least its `x` extent: one
        pixel per row. Equal end points stop it before any pixel. */
    method StrokeAlongY(x1: int, y1: int, x2: int, y2: int, dx: nat, dy: nat, stepX: int, stepY: int, c: Color, safe: bool)
      requires dx == Abs(x2 - x1) && dy == Abs(y2 - y1) && stepX == Sign(x2 - x1) && stepY == Sign(y2 - y1) && dx <= dy
      requires AllFit(texture.Shape(), |texture.vec|, Drawn(texture.Shape(), LinePoints(x1, y1, x2, y2), c, safe), c)
      modifies texture`vec, imageView`changed
      ensures imageView.changed
      ensures texture.vec == Painted(texture.Shape(), old(texture.vec), Drawn(texture.Shape(), LinePoints(x1, y1, x2, y2), c, safe), c)
    {
      PaintStart();
      ghost var L, v0 := texture.Shape(), texture.vec;
      ghost var pts := LinePoints(x1, y1, x2, y2);
      LineShape(x1, y1, x2, y2);
      var xi, yi := x1, y1;
      ghost var k := 0;
      var isDelta := 2 * dx - dy;
      if dy > 0 {
        MinorEnds(dx, dy);
      }
      while yi != y2 + stepY
        invariant |pts| == (if dy > 0 then dy + 1 else 0)
        invariant k <= |pts| && yi == y1 + stepY * k
        invariant dy > 0 ==> xi == x1 + stepX * Minor(dx, dy, k) && isDelta == Delta(dx, dy, k)
        invariant texture.vec == Painted(L, v0, Drawn(L, pts[..k], c, safe), c)
        invariant imageView.changed
        decreases |pts| - k
      {
        assert dy > 0 && k < |pts| && pts[k] == Pixel(xi, yi) by {
          StepHits(y1, y2, k);
          LineAt(x1, y1, x2, y2, k);
        }
        Plot(xi, yi, c, safe, L, v0, pts, k);
        xi, isDelta := LineAdvance(dx, dy, stepX, x1, xi, isDelta, k);
        assert yi + stepY == y1 + stepY * (k + 1);
        yi := yi + stepY;
        k := k + 1;
      }
      assert pts[..k] == pts by {
        if dy > 0 {
          StepHits(y1, y2, k);
        }
      }
    }

    // -------------------------------------------------------------------
    // Polygons.

    /** `drawPolygon(p, color)`: on every scanline from the smallest vertex
        y up to (not including) the largest, the span between each pair of
        crossings; then the stroke of every edge. An empty polygon has no
        vertex to start `range()` from. */
    method DrawPolygon(poly: Polygon2D, c: Color)
      requires |poly.points| > 0
      requires AllFit(texture.Shape(), |texture.vec|, PolygonPoints(poly), c)
      modifies texture`vec, imageView`changed
      ensures imageView.changed
      ensures texture.vec == Painted(texture.Shape(), old(texture.vec), PolygonPoints(poly), c)
    {
      PaintStart();
      ghost var L, v0 := texture.Shape(), texture.vec;
      var range := poly.Range();
      AllFitAppend(L, |v0|, PolygonFill(poly), OutlinePoints(poly, |poly.points|), c);
      FillScanlines(poly, range, c);
      assert PolygonFill(poly) + OutlinePoints(poly, 0) == PolygonFill(poly);
      for i := 0 to |poly.points|
        invariant texture.Shape() == L && |texture.vec| == |v0|
        invariant texture.vec == Painted(L, v0, PolygonFill(poly) + OutlinePoints(poly, i), c)
        invariant imageView.changed
      {
        var l := poly.GetLine(i);
        DrawEdge(poly, i, l, c, PolygonFill(poly), v0);
      }
    }

    /** The stroke of edge `i` of `poly`, drawn after `before` and the
        strokes of the edges ahead of it. */
    method DrawEdge(poly: Polygon2D, i: nat, l: Line2D, c: Color, ghost before: seq<Pixel>, ghost v0: seq<byte>)
      requires i < |poly.points| && l == poly.GetLine(i)
      requires AllFit(texture.Shape(), |v0|, OutlinePoints(poly, |poly.points|), c)
      requires |texture.vec| == |v0| && texture.vec == Painted(texture.Shape(), v0, before + OutlinePoints(poly, i), c)
      modifies texture`vec, imageView`changed
      ensures imageView.changed
      ensures texture.vec == Painted(texture.Shape(), v0, before + OutlinePoints(poly, i + 1), c)
    {
      EdgeFits(texture.Shape(), |v0|, poly, i, c);
      EdgePaint(texture.Shape(), v0, before, poly, i, c);
      DrawLine(l.p1.x, l.p1.y, l.p2.x, l.p2.y, c);
    }

    /** The fill loop of `drawPolygon`, over the scanlines `range[1]` up to
        (not including) `range[3]`. */
    method FillScanlines(poly: Polygon2D, range: Range2D, c: Color)
      requires AllFit(texture.Shape(), |texture.vec|, FillFrom(poly, range.minY, FillRows(range)), c)
      requires imageView.changed
      modifies texture`vec, imageView`changed
      ensures imageView.changed && texture.Shape() == old(texture.Shape())
      ensures texture.vec == Painted(texture.Shape(), old(texture.vec), FillFrom(poly, range.minY, FillRows(range)), c)
    {
      ghost var L, v0 := texture.Shape(), texture.vec;
      var y := range.minY;
      ghost var k := 0;
      while y < range.maxY
        invariant y == range.minY + k && k <= FillRows(range)
        invariant texture.Shape() == L && |texture.vec| == |v0|
        invariant texture.vec == Painted(L, v0, FillFrom(poly, range.minY, k), c)
        invariant imageView.changed
      {
        FillRow(poly, y, c, range.minY, FillRows(range), k, v0);
        y := y + 1;
        k := k + 1;
      }
      assert k == FillRows(range);
    }

    /** One scanline of the fill loop of `drawPolygon`, drawn after the
        scanlines from `minY` above it. */
    method FillRow(poly: Polygon2D, y: nat, c: Color, ghost minY: nat, ghost rows: nat, ghost k: nat, ghost v0: seq<byte>)
      requires y == minY + k && k < rows
      requires |texture.vec| == |v0| && AllFit(texture.Shape(), |v0|, FillFrom(poly, minY, rows), c)
      requires texture.vec == Painted(texture.Shape(), v0, FillFrom(poly, minY, k), c)
      modifies texture`vec, imageView`changed
      ensures old(imageView.changed) ==> imageView.changed
      ensures texture.Shape() == old(texture.Shape())
      ensures texture.vec == Painted(texture.Shape(), v0, FillFrom(poly, minY, k + 1), c)
    {
      var pointList := poly.Intersection(y);
      RowFillOf(poly, y, pointList);
      FillRowStep(texture.Shape(), v0, poly, minY, rows, k, y, SpanPoints(pointList, y, |pointList| / 2), c);
      FillSpans(pointList, y, c);
    }

    /** The inner loop of `drawPolygon` on scanline `y`: the span between
        crossings `j - 1` and `j` for every odd `j`. */
    method FillSpans(pointList: seq<Point2D>, y: nat, c: Color)
      requires SortedByX(pointList)
      requires AllFit(texture.Shape(), |texture.vec|, SpanPoints(pointList, y, |pointList| / 2), c)
      modifies texture`vec, imageView`changed
      ensures old(imageView.changed) ==> imageView.changed
      ensures texture.Shape() == old(texture.Shape())
      ensures texture.vec == Painted(texture.Shape(), old(texture.vec), SpanPoints(pointList, y, |pointList| / 2), c)
    {
      ghost var L, v0 := texture.Shape(), texture.vec;
      ghost var n := 0;
      var j := 1;
      while j < |pointList|
        invariant j == 2 * n + 1 && 2 * n <= |pointList|
        invariant texture.Shape() == L && |texture.vec| == |v0|
        invariant texture.vec == Painted(L, v0, SpanPoints(pointList, y, n), c)
        invariant old(imageView.changed) ==> imageView.changed
      {
        DrawSpan(pointList, y, j, c, n, v0);
        j := j + 2;
        n := n + 1;
      }
      assert n == |pointList| / 2;
    }

    /** One iteration of the inner loop of `drawPolygon`: the span between
        crossings `j - 1 = 2n` and `j`, drawn after the spans before it. */
    method DrawSpan(pointList: seq<Point2D>, y: nat, j: nat, c: Color, ghost n: nat, ghost v0: seq<byte>)
      requires SortedByX(pointList) && j == 2 * n + 1 && j < |pointList|
      requires |texture.vec| == |v0| && AllFit(texture.Shape(), |v0|, SpanPoints(pointList, y, |pointList| / 2), c)
      requires texture.vec == Painted(texture.Shape(), v0, SpanPoints(pointList, y, n), c)
      modifies texture`vec, imageView`changed
      ensures imageView.changed && texture.Shape() == old(texture.Shape()) && |texture.vec| == |v0|
      ensures texture.vec == Painted(texture.Shape(), v0, SpanPoints(pointList, y, n + 1), c)
    {
      ghost var L := texture.Shape();
      SpanFits(L, |v0|, pointList, y, n, j, c);
      SpanPaint(L, v0, pointList, y, n, j, c);
      var startX := pointList[j - 1].x;
      var endX := pointList[j].x;
      DrawScanline(startX, y, endX - startX + 1, c);
      assert texture.Shape() == L;
    }

    /** `drawPolygonEmpty(p, color)`: the stroke of every edge of
        `getLineList`, in order. */
    method DrawPolygonEmpty(poly: Polygon2D, c: Color)
      requires AllFit(texture.Shape(), |texture.vec|, OutlinePoints(poly, |poly.points|), c)
      modifies texture`vec, imageView`changed
      ensures imageView.changed
      ensures texture.vec == Painted(texture.Shape(), old(texture.vec), OutlinePoints(poly, |poly.points|), c)
    {
      PaintStart();
      ghost var L, v0 := texture.Shape(), texture.vec;
      var lineList := poly.GetLineList();
      assert [] + OutlinePoints(poly, 0) == [];
      for i := 0 to |lineList|
        invariant texture.Shape() == L && |texture.vec| == |v0|
        invariant texture.vec == Painted(L, v0, [] + OutlinePoints(poly, i), c)
        invariant imageView.changed
      {
        DrawEdge(poly, i, lineList[i], c, [], v0);
      }
      assert [] + OutlinePoints(poly, |poly.points|) == OutlinePoints(poly, |poly.points|);
    }

    // -------------------------------------------------------------------
    // Circles.

    /** `drawCircle(originX, originY, radius, color)`: the midpoint circle
        loop; at each visited point (x, y) it fills the rows `originY ± y`
        from `originX - x` to `originX + x`, then the rows `originY ± x`
        from `originX - y` to `originX + y`. */
    method DrawCircle(originX: int, originY: int, radius: int, c: Color)
      requires AllFit(texture.Shape(), |texture.vec|, DiscPoints(originX, originY, radius), c)
      modifies texture`vec, imageView`changed
      ensures imageView.changed
      ensures texture.vec == Painted(texture.Shape(), old(texture.vec), DiscPoints(originX, originY, radius), c)
    {
      PaintStart();
      ghost var L, v0 := texture.Shape(), texture.vec;
      ghost var target := Painted(L, v0, DiscPoints(originX, originY, radius), c);
      var x, y := radius, 0;
      var dx, dy := 1 - 2 * radius, 1;
      var err := 0;
      while x >= y
        invariant err == x * x + y * y - radius * radius && dx == 1 - 2 * x && dy == 2 * y + 1
        invariant texture.Shape() == L && |texture.vec| == |v0|
        invariant AllFit(L, |v0|, DiscFrom(originX, originY, radius, x, y), c)
        invariant Painted(L, texture.vec, DiscFrom(originX, originY, radius, x, y), c) == target
        invariant imageView.changed
        decreases x - y + 2
      {
        ghost var rest := DiscFrom(originX, originY, radius, NextX(radius, x, y), y + 1);
        assert DiscFrom(originX, originY, radius, x, y) == DiscRows(originX, originY, Octant(x, y)) + rest;
        DrawDiscStep(originX, originY, x, y, c, rest, target);
        x, y, err, dx, dy := CircleAdvance(radius, x, y, err, dx, dy);
      }
      assert DiscFrom(originX, originY, radius, x, y) == [];
    }

    /** One iteration of `drawCircle` at the visited point (x, y): of the
        writes still to come, its two row loops are done and `rest`
        remains. */
    method DrawDiscStep(ox: int, oy: int, x: int, y: int, c: Color, ghost rest: seq<Pixel>, ghost target: seq<byte>)
      requires AllFit(texture.Shape(), |texture.vec|, DiscRows(ox, oy, Octant(x, y)) + rest, c)
      requires Painted(texture.Shape(), texture.vec, DiscRows(ox, oy, Octant(x, y)) + rest, c) == target
      modifies texture`vec, imageView`changed
      ensures old(imageView.changed) ==> imageView.changed
      ensures texture.Shape() == old(texture.Shape()) && |texture.vec| == old(|texture.vec|)
      ensures AllFit(texture.Shape(), |texture.vec|, rest, c)
      ensures Painted(texture.Shape(), texture.vec, rest, c) == target
    {
      ghost var L, v0 := texture.Shape(), texture.vec;
      ghost var r1 := RowPairs(ox - x, Columns(ox - x, ox + x), oy + y, oy - y);
      ghost var r2 := RowPairs(ox - y, Columns(ox - y, ox + y), oy + x, oy - x);
      assert DiscRows(ox, oy, Octant(x, y)) == r1 + r2;
      PaintAppend3(L, v0, r1, r2, rest, c);
      DrawRowPairs(ox - x, ox + x, oy + y, oy - y, c);
      assert texture.Shape() == L && texture.vec == Painted(L, v0, r1, c);
      DrawRowPairs(ox - y, ox + y, oy + x, oy - x, c);
      assert texture.Shape() == L && texture.vec == Painted(L, Painted(L, v0, r1, c), r2, c);
    }

    /** The row loop of `drawCircle`: for every column from `lo` to `hi`,
        the pixel on row `ya`, then the one on row `yb`. */
    method DrawRowPairs(lo: int, hi: int, ya: int, yb: int, c: Color)
      requires AllFit(texture.Shape(), |texture.vec|, RowPairs(lo, Columns(lo, hi), ya, yb), c)
      modifies texture`vec, imageView`changed
      ensures old(imageView.changed) ==> imageView.changed
      ensures texture.Shape() == old(texture.Shape())
      ensures texture.vec == Painted(texture.Shape(), old(texture.vec), RowPairs(lo, Columns(lo, hi), ya, yb), c)
    {
      ghost var L, v0 := texture.Shape(), texture.vec;
      ghost var pts := RowPairs(lo, Columns(lo, hi), ya, yb);
      var i := lo;
      while i <= hi
        invariant lo <= i && i - lo <= Columns(lo, hi)
        invariant texture.Shape() == L && |texture.vec| == |v0|
        invariant texture.vec == Painted(L, v0, pts[..2 * (i - lo)], c)
        invariant old(imageView.changed) ==> imageView.changed
      {
        RowPairsAt(lo, Columns(lo, hi), ya, yb, i - lo);
        Plot(i, ya, c, false, L, v0, pts, 2 * (i - lo));
        Plot(i, yb, c, false, L, v0, pts, 2 * (i - lo) + 1);
        i := i + 1;
      }
      assert pts[..2 * (i - lo)] == pts;
    }

    /** `drawCircleEmpty(originX, originY, radius, color)`: the midpoint
        circle loop; at each visited point (x, y) the eight pixels
        `(originX ± x, originY ± y)` and `(originX ± y, originY ± x)`. */
    method DrawCircleEmpty(originX: int, originY: int, radius: int, c: Color)
      requires AllFit(texture.Shape(), |texture.vec|, RingPoints(originX, originY, radius), c)
      modifies texture`vec, imageView`changed
      ensures imageView.changed
      ensures texture.vec == Painted(texture.Shape(), old(texture.vec), RingPoints(originX, originY, radius), c)
    {
      PaintStart();
      ghost var L, v0 := texture.Shape(), texture.vec;
      ghost var target := Painted(L, v0, RingPoints(originX, originY, radius), c);
      var x, y := radius, 0;
      var dx, dy := 1 - 2 * radius, 1;
      var err := 0;
      while x >= y
        invariant err == x * x + y * y - radius * radius && dx == 1 - 2 * x && dy == 2 * y + 1
        invariant texture.Shape() == L && |texture.vec| == |v0|
        invariant AllFit(L, |v0|, RingFrom(originX, originY, radius, x, y), c)
        invariant Painted(L, texture.vec, RingFrom(originX, originY, radius, x, y), c) == target
        invariant imageView.changed
        decreases x - y + 2
      {
        ghost var rest := RingFrom(originX, originY, radius, NextX(radius, x, y), y + 1);
        assert RingFrom(originX, originY, radius, x, y) == EightWay(originX, originY, Octant(x, y)) + rest;
        DrawRingStep(originX, originY, x, y, c, rest, target);
        x, y, err, dx, dy := CircleAdvance(radius, x, y, err, dx, dy);
      }
      assert RingFrom(originX, originY, radius, x, y) == [];
    }

    /** One iteration of `drawCircleEmpty` at the visited point (x, y): of
        the writes still to come, its eight pixels are done and `rest`
        remains. */
    method DrawRingStep(ox: int, oy: int, x: int, y: int, c: Color, ghost rest: seq<Pixel>, ghost target: seq<byte>)
      requires AllFit(texture.Shape(), |texture.vec|, EightWay(ox, oy, Octant(x, y)) + rest, c)
      requires Painted(texture.Shape(), texture.vec, EightWay(ox, oy, Octant(x, y)) + rest, c) == target
      modifies texture`vec, imageView`changed
      ensures imageView.changed
      ensures texture.Shape() == old(texture.Shape()) && |texture.vec| == old(|texture.vec|)
      ensures AllFit(texture.Shape(), |texture.vec|, rest, c)
      ensures Painted(texture.Shape(), texture.vec, rest, c) == target
    {
      AllFitAppend(texture.Shape(), |texture.vec|, EightWay(ox, oy, Octant(x, y)), rest, c);
      PaintAppend(texture.Shape(), texture.vec, EightWay(ox, oy, Octant(x, y)), rest, c);
      DrawEightWay(ox, oy, x, y, c);
    }

    /** The eight writes of one `drawCircleEmpty` iteration, in the order
        of the source. */
    method DrawEightWay(ox: int, oy: int, x: int, y: int, c: Color)
      requires AllFit(texture.Shape(), |texture.vec|, EightWay(ox, oy, Octant(x, y)), c)
      modifies texture`vec, imageView`changed
      ensures imageView.changed
      ensures texture.Shape() == old(texture.Shape())
      ensures texture.vec == Painted(texture.Shape(), old(texture.vec), EightWay(ox, oy, Octant(x, y)), c)
    {
      ghost var L, v0 := texture.Shape(), texture.vec;
      AllFitAppend(L, |v0|, FourWay(ox, oy, x, y), FourWay(ox, oy, y, x), c);
      PaintAppend(L, v0, FourWay(ox, oy, x, y), FourWay(ox, oy, y, x), c);
      DrawFourWay(ox, oy, x, y, c);
      DrawFourWay(ox, oy, y, x, c);
    }

    /** Four writes of `drawCircleEmpty`: `(ox ± a, oy ± b)`. */
    method DrawFourWay(ox: int, oy: int, a: int, b: int, c: Color)
      requires AllFit(texture.Shape(), |texture.vec|, FourWay(ox, oy, a, b), c)
      modifies texture`vec, imageView`changed
      ensures imageView.changed && texture.Shape() == old(texture.Shape())
      ensures texture.vec == Painted(texture.Shape(), old(texture.vec), FourWay(ox, oy, a, b), c)
    {
      ghost var L, v0 := texture.Shape(), texture.vec;
      ghost var pts := FourWay(ox, oy, a, b);
      assert pts[..0] == [];
      Plot(ox + a, oy + b, c, false, L, v0, pts, 0);
      Plot(ox - a, oy + b, c, false, L, v0, pts, 1);
      Plot(ox + a, oy - b, c, false, L, v0, pts, 2);
      Plot(ox - a, oy - b, c, false, L, v0, pts, 3);
      assert pts[..4] == pts;
    }
  }
}
