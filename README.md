# Rainbow Engine software rasteriser, modelled in Dafny

This project models the CPU-side image core of Rainbow Engine, a small C++
software renderer. It proves properties of that model. The core covers:

- **Buffer**: `RawImage<T>`, a flat, channel-interleaved pixel buffer (width,
  height, channel count, one `std::vector<T>`), with its index arithmetic
  (`getIndex`, `getRow`, `getCol`), `setSize`, `setZero`, `clear`, `copyFrom`
  and `mix`.
- **Texture**: `TextureBase<T>`, which reads and writes three or four
  consecutive samples as an RGB or RGBA pixel. There is an 8-bit and an HDR
  (`float`) variant.
- **Texture**: `ImageView` and its `Sampler`. The view owns a texture, an
  undersampling-fix policy and a dirty flag. The sampler handles the wrap modes
  repeat, clamp and mirror, and the filters nearest, bilinear and the bicubic
  placeholder.
- **REMath**: the scalar helpers of `RE_math.h`, namely `camp` (a clamp),
  `lerp` and the colour `lerp`.
- **Paint** and **Shapes**: the pixel-level semantics of the `Painter`. Paint
  covers single writes, the `alphaMix` compositing and the "safe" clipped
  writes. Shapes gives, for every primitive, the sequence of pixels it
  writes: scanline, rectangle, rectangle outline, Bresenham line, midpoint
  circle and ring, and scanline polygon fill and outline.
- **Geometry**: `Polygon2D`, which covers edges with wrap-around, scanline
  intersections sorted by x, and the bounding box.
- **Painter**: the `Painter` class itself. Each drawing method is an
  imperative loop, as in the source. Its postcondition says that the new
  buffer is the old one with exactly the pixel sequence from Shapes painted
  in order.
- **Perlin** and **NoiseGenerator**: classic 2-D Perlin noise, which covers
  the gradient set, the fade curve, the doubled permutation table, the
  lattice cell and offset, and the fractal sum of octaves. NoiseGenerator
  also holds the painter methods that fill a texture with Perlin, fractal or
  uniform noise.

Integers are Dafny's unbounded `int`/`nat`. Bytes are the subset type `byte`
(0..255). Floating-point values are modelled as exact reals. Every cast from a
float to an integer is made explicit: `Trunc`, `ByteCast`, `TexelCoord`.
A C++ read through an unchecked `std::vector` index that could fall outside
the storage becomes an `Option` result, with `None` where C++ has undefined
behaviour. Otherwise it becomes a precondition of the operation, because the
C++ caller must guarantee it.

Behaviour of the code that the model keeps as written:

- `copyFrom(T* arr)` copies the buffer out into `arr`.
- The RGBA overload of `drawPixelSafe` rejects row 0 and column 0 (`x > 0 &&
  y > 0`); the RGB overload accepts them. Clip and SafeAccepts model both
  checks as written.
- `Sampler::getPixel` calls `update()` when the view is dirty but never clears
  the flag.
- Under clamp, the coordinate `u = 1` maps to column `width`. That column lies
  one past the last one (`ClampEdgeReadsPastEnd`).
- Mirror always computes `1 - fmod(t, 1)`.
- `alphaMix` weights by the alpha of its first argument, and `drawPixel`
  passes the pixel already in the buffer, `getRGBA(x, y)`, as that argument.
- `generateCommonNoise` writes one value per pixel of `area()` into the first
  `area()` samples of the buffer.
- The static permutation table and the values of `rand()` are parameters.

## Model

| member | source | states |
|---|---|---|
| REMath.Camp | src/RE_math.h:4-7 | the result lies in [lo, hi], equals x inside the range, lo below it and hi above it |
| REMath.CampIdempotent | src/RE_math.h:4-7 | clamping twice is the same as clamping once |
| REMath.Lerp | src/RE_math.h:9-11 | t = 0 gives x1, t = 1 gives x2, and t in [0,1] stays between the two ends |
| REMath.CampInterp | src/RE_math.h:22-24 | the clamped interpolation always stays between the two ends and saturates at x1 for t <= 0 and at x2 for t >= 1 |
| REMath.Trunc | src/RE_math.h:29-31 | truncation toward zero: the largest integer not above a non-negative v, the smallest not below a non-positive v |
| REMath.ByteCast | src/RE_math.h:29-31 | the float-to-uint8 cast is defined exactly for -1 < v < 256 and is then the truncation |
| REMath.LerpChannel | src/RE_math.h:27-32 | for t in [0,1] the channel is defined and lies between the two input channels; t = 0 gives the first |
| REMath.LerpRgb | src/RE_math.h:27-32 | for t in [0,1] every channel of the colour lerp is defined and between the inputs; t = 0 returns the first colour |
| Buffer.RawImage.GetIndex | src/core/RE_RawImage.hpp:133-136 | no contract of its own; `getIndex`: row * (width * channel) + col * channel; IndexIsScaledPosition, IndexRoundTrip, IndexMonotone and PixelsDisjoint state its properties |
| Buffer.RawImage.GetRow | src/core/RE_RawImage.hpp:123-126 | no contract of its own; `getRow`: (index / channel) / width; IndexRoundTrip, IndexOfColRow and ColRowInBounds state its properties |
| Buffer.RawImage.GetCol | src/core/RE_RawImage.hpp:128-131 | no contract of its own; `getCol`: (index / channel) % width; IndexRoundTrip, IndexOfColRow and ColRowInBounds state its properties |
| Buffer.RawImage.At | src/core/RE_RawImage.hpp:138-141 | no contract of its own; `operator[]`: sample `index` of the vector, which must lie inside it |
| Buffer.IndexIsScaledPosition | src/core/RE_RawImage.hpp:133-136 | getIndex(col,row) is the row-major pixel position times the channel count |
| Buffer.IndexRoundTrip | src/core/RE_RawImage.hpp:123-136 | getCol and getRow recover (col,row) from getIndex for every col < width |
| Buffer.IndexOfColRow | src/core/RE_RawImage.hpp:123-136 | getIndex(getCol(i), getRow(i)) == i for every channel-aligned index |
| Buffer.PixelInBuffer | src/core/RE_RawImage.hpp:133-136 | an in-bounds pixel's samples lie inside the buffer length |
| Buffer.ColRowInBounds | src/core/RE_RawImage.hpp:123-131 | every index below the length maps to an in-bounds (col,row) |
| Buffer.IndexMonotone | src/core/RE_RawImage.hpp:133-136 | getIndex grows with both column and row |
| Buffer.PixelsDisjoint | src/core/RE_RawImage.hpp:133-136 | two distinct pixels in row-major order have non-overlapping sample ranges |
| Buffer.Resize | src/core/RE_RawImage.hpp:120 | `vector::resize` keeps the old prefix and zero-fills any new tail, giving exactly n elements |
| Buffer.RawImage.constructor | src/core/RE_RawImage.hpp:163-168 | width, height and channel are stored, and length and area are their products; the buffer is zero-filled |
| Buffer.RawImage.SetSize | src/core/RE_RawImage.hpp:113-121 | the new shape and bookkeeping are set, the vector is resized, and the buffer invariant holds again |
| Buffer.RawImage.SetZero | src/core/RE_RawImage.hpp:108-111 | the first width*height*channel samples become zero and the rest are unchanged |
| Buffer.RawImage.Clear | src/core/RE_RawImage.hpp:103-106 | the vector is emptied while the dimensions are kept, so a non-empty image no longer satisfies its invariant |
| Buffer.RawImage.CopyFrom | src/core/RE_RawImage.hpp:88-91 | the first `length` entries of the external array receive the buffer's samples, and the rest of the array is untouched |
| Buffer.RawImage.CopyFromBuffer | src/core/RE_RawImage.hpp:93-96 | the destination's first `length` samples become this buffer's samples, and its tail is untouched |
| Buffer.RawImage.Mix | src/core/RE_RawImage.hpp:16-19 | each sample of `result` below the length of `a` is func of the two inputs' samples, and the rest of `result` is unchanged |
| Texture.Put3 | src/core/RE_Texture.hpp:209-213 | writing three samples makes them readable back and changes no other sample |
| Texture.Put4 | src/core/RE_Texture.hpp:223-228 | writing four samples makes them readable back and changes no other sample |
| Texture.PutGet3 | src/core/RE_Texture.hpp:209-213 | writing back the RGB value just read leaves the buffer equal to before |
| Texture.PutGet4 | src/core/RE_Texture.hpp:223-228 | writing back the RGBA value just read leaves the buffer equal to before |
| Texture.GetRGB | src/core/RE_Texture.hpp:150-153 | getRGB(x,y) returns samples i, i+1, i+2 for i = getIndex(x,y), the same as the index overload at i |
| Texture.GetRGBA | src/core/RE_Texture.hpp:159-162 | getRGBA(x,y) returns samples i .. i+3 for i = getIndex(x,y), the same as the index overload at i |
| Texture.GetRGBAt | src/core/RE_Texture.hpp:155-157 | no contract of its own; the index overload of `getRGB`: samples index .. index+2; GetRGB, PutGet3 and SetPixelRGBAt state what it reads |
| Texture.GetRGBAAt | src/core/RE_Texture.hpp:164-166 | no contract of its own; the index overload of `getRGBA`: samples index .. index+3; GetRGBA, PutGet4 and SetPixelRGBAAt state what it reads |
| Texture.RGBReadable | src/core/RE_Texture.hpp:150-153 | every in-bounds pixel of a valid texture with at least 3 channels can be read as RGB |
| Texture.RGBAReadable | src/core/RE_Texture.hpp:159-162 | every in-bounds pixel of a valid texture with at least 4 channels can be read as RGBA |
| Texture.SetPixelRGB | src/core/RE_Texture.hpp:202-207 | after setPixel(x,y,rgb), getRGB(x,y) returns that colour and only those three samples change |
| Texture.SetPixelRGBAt | src/core/RE_Texture.hpp:209-213 | after setPixel(index,rgb), the RGB read at that index returns the colour and only those samples change |
| Texture.SetPixelRGBA | src/core/RE_Texture.hpp:215-221 | after setPixel(x,y,rgba), getRGBA(x,y) returns that colour and only those four samples change |
| Texture.SetPixelRGBAAt | src/core/RE_Texture.hpp:223-228 | after setPixel(index,rgba), the RGBA read at that index returns the colour and only those samples change |
| Texture.SetPixelLeavesOthers | src/core/RE_Texture.hpp:215-221 | writing one pixel never changes what another in-bounds pixel reads |
| Texture.Fmod1 | src/core/RE_Texture.hpp:333 | fmod(t,1) lies in [0,1) for t >= 0 and in (-1,0] for t <= 0, and t minus it is an integer |
| Texture.WrapCoord | src/core/RE_Texture.hpp:329-340 | clamp always lands in [0,1], repeat maps t >= 0 into [0,1), and mirror maps t >= 0 into (0,1] |
| Texture.TexelCoord | src/core/RE_Texture.hpp:320-327 | the size_t conversion is defined exactly when t*size > -1, and is then the floor of t*size for t >= 0 |
| Texture.ReadRGB | src/core/RE_Texture.hpp:268-271 | a texel read is defined exactly when its three samples lie in the vector, and it then returns getRGB |
| Texture.Neighbour | src/core/RE_Texture.hpp:280-281 | min(x+1, w-1) stays inside a non-empty row: it is x+1 when that fits and the last column otherwise |
| Texture.BilinearAtTexelIsNearest | src/core/RE_Texture.hpp:273-295 | at a UV aligned to a texel, the bilinear filter returns exactly the nearest filter's texel |
| Texture.ClampEdgeReadsPastEnd | src/core/RE_Texture.hpp:268-271 | under clamp, u = 1 maps to column `width`, one past the last, and the nearest read at (1, 1) is undefined |
| Texture.RepeatNegativeUndefined | src/core/RE_Texture.hpp:320-333 | repeat keeps a negative u negative, so the texel conversion of u = -0.5 is undefined |
| Texture.ImageView.constructor | src/core/RE_Texture.hpp:234-235 | the policy and sampler configuration are stored, the view is clean, and the texture is empty and valid |
| Texture.ImageView.Update | src/core/RE_Texture.hpp:242-254 | dispatching on the policy changes no state, because both recompute hooks are empty |
| Texture.ImageView.UpdateMipmap | src/core/RE_Texture.hpp:342-344 | the mipmap hook leaves the mipmap texture unchanged |
| Texture.ImageView.UpdateAnisotropy | src/core/RE_Texture.hpp:346-348 | the anisotropy hook leaves its texture unchanged |
| Texture.NearestFilter | src/core/RE_Texture.hpp:268-271 | no contract of its own; `nearestFilter`: wrap, convert to a texel, read it (None when the conversion or the read is undefined); ReadRGB, ClampEdgeReadsPastEnd and RepeatNegativeUndefined state its cases |
| Texture.BilinearFilter | src/core/RE_Texture.hpp:273-294 | no contract of its own; `bilinearFilter`: the texel and its clamped right/lower neighbours blended by the fractional offsets; BilinearAtTexelIsNearest and LerpRgb state its properties |
| Texture.BicubicFilter | src/core/RE_Texture.hpp:296-298 | no contract of its own; `bicubicFilter`: black for every coordinate |
| Texture.Sample | src/core/RE_Texture.hpp:310-317 | no contract of its own; the `switch (filter)` of `Sampler::getPixel`; Sampler.GetPixel and ImageView.GetPixel state their results through it |
| Texture.ImageView.GetPixel | src/core/RE_Texture.hpp:261-264 | forwards to the sampler: wrap, then the configured filter on the view's texture; bicubic returns black |
| Texture.Sampler.constructor | src/core/RE_Texture.hpp:266-267 | the sampler is bound to its view with the given wrap and filter |
| Texture.Sampler.GetPixel | src/core/RE_Texture.hpp:305-318 | the result is the configured filter applied to the wrapped coordinates, bicubic gives black, and the dirty flag is not cleared |
| Paint.MixChannel | src/core/RE_Painter.hpp:367-377 | the blended channel lies between the source and destination channels; alpha 255 gives the source, alpha 0 the destination |
| Paint.MixChannelIsTruncatedBlend | src/core/RE_Painter.hpp:368-374 | the integer channel equals the truncation of the real formula s*(a/255) + d*(1 - a/255) |
| Paint.MixChannelIsQuotient | src/core/RE_Painter.hpp:371 | the channel is the integer quotient (s*a + d*(255-a)) / 255 |
| Paint.AlphaMix | src/core/RE_Painter.hpp:367-377 | every channel, alpha included, lies between the two inputs; an opaque source wins and a transparent one keeps the destination |
| Paint.WriteAt | src/core/RE_Painter.hpp:95-134 | the store of one `drawPixel`; its result has the length of the buffer, and WriteAtEffect states exactly which samples change and to what |
| Paint.WriteAtEffect | src/core/RE_Painter.hpp:95-134 | one drawPixel stores an RGB colour or the alpha-mix of the existing RGBA pixel at its index, and changes no other sample |
| Paint.PaintFrame | src/core/RE_Painter.hpp:84-134 | painting a pixel sequence leaves every sample outside the written pixels unchanged |
| Paint.PaintRgbPixel | src/core/RE_Painter.hpp:119-126 | after painting an RGB sequence, a pixel reads as the colour if it was in the sequence and as its old value otherwise |
| Paint.ClipMembers | src/core/RE_Painter.hpp:105-146 | a safe draw writes exactly the requested pixels its bounds check accepts |
| Paint.ClipFits | src/core/RE_Painter.hpp:105-146 | every pixel accepted by the safe bounds check lies inside the buffer |
| Shapes.ScanlineCovers | src/core/RE_Painter.hpp:156-161 | a scanline covers exactly the pixels x..x+width-1 of row y |
| Shapes.ColumnCovers | src/core/RE_Painter.hpp:269-271 | one rectangle column covers exactly rows y..y+height-1 of column x |
| Shapes.RectCovers | src/core/RE_Painter.hpp:266-273 | the filled rectangle has width*height writes and covers exactly the box [x,x+width)x[y,y+height) |
| Shapes.SideCovers | src/core/RE_Painter.hpp:258-261 | the side loop covers exactly the left and right columns over the rows |
| Shapes.RectOutlineCovers | src/core/RE_Painter.hpp:254-262 | the outline covers exactly the border pixels of the box; the top run stops one short, and the right side supplies that corner |
| Shapes.MinorDecision | src/core/RE_Painter.hpp:181-193 | the Bresenham error term stays in range and its sign decides whether the minor coordinate of the closed-form line advances |
| Shapes.LineAdvance | src/core/RE_Painter.hpp:186-191 | one loop step of the error update keeps the minor coordinate and error equal to the closed form |
| Shapes.MinorEnds | src/core/RE_Painter.hpp:182 | the closed-form minor offset is 0 at the start and the full minor delta at the end, and the error starts at 2a - b |
| Shapes.LineShape | src/core/RE_Painter.hpp:170-208 | a line writes major-delta + 1 pixels, or none when both ends coincide |
| Shapes.LineAt | src/core/RE_Painter.hpp:170-208 | the k-th pixel written is the closed-form point k of the line |
| Shapes.LineEnds | src/core/RE_Painter.hpp:170-208 | the first pixel is (x1,y1) and the last is (x2,y2), and a degenerate line writes nothing |
| Shapes.LineSteps | src/core/RE_Painter.hpp:181-207 | consecutive pixels move by exactly one along the major axis and by at most one along the minor, so there are no gaps |
| Shapes.StepIsSign | src/core/RE_Painter.hpp:175-176 | the source's step (v2-v1)/abs(v2-v1), or 0, is the sign of the delta |
| Shapes.StepHits | src/core/RE_Painter.hpp:181-197 | the loop's exit test `!= end + step` is reached exactly after delta + 1 steps |
| Shapes.CircleStatesShape | src/core/RE_Painter.hpp:315-333 | the midpoint loop visits y = 0, 1, 2, ... in order, with x never increasing and x >= y at every visited state |
| Shapes.CircleIterations | src/core/RE_Painter.hpp:308-334 | the circle loop runs at most r + 1 times and not at all for a negative radius |
| Shapes.MidpointStep | src/core/RE_Painter.hpp:325-332 | one update of the decision variable keeps the point within half a pixel of the circle |
| Shapes.CircleStatesMidpoint | src/core/RE_Painter.hpp:315-333 | every state the loop visits from a midpoint state is a midpoint state |
| Shapes.CircleMidpoint | src/core/RE_Painter.hpp:308-334 | every octant point the circle loop visits is the lattice point nearest the circle of radius r |
| Shapes.CircleZero | src/core/RE_Painter.hpp:311-315 | a zero radius visits only the centre |
| Shapes.RowPairsCovers | src/core/RE_Painter.hpp:316-323 | one filled-circle step covers exactly the columns lo..lo+n-1 on the two mirrored rows |
| Shapes.CircleWrites | src/core/RE_Painter.hpp:308-364 | the filled and the empty circle write the disc rows and the eight-way points of exactly the states the midpoint loop visits |
| Shapes.CircleInBox | src/core/RE_Painter.hpp:308-364 | every pixel of the disc and of the ring lies in the bounding box of radius r; radius 0 touches only the centre |
| Shapes.RowPairsAt | src/core/RE_Painter.hpp:316-319 | write 2m is column lo+m on the first row and write 2m+1 is the same column on the mirrored row |
| Shapes.CircleAdvance | src/core/RE_Painter.hpp:325-332 | the incremental err/dx/dy update keeps err = x^2 + y^2 - r^2 and moves to the loop's next state |
| Shapes.SpanCovers | src/core/RE_Painter.hpp:283-288 | the spans cover a pixel exactly when it lies between the two crossings of some (odd, even) pair of the sorted list |
| Shapes.OutlineThroughEdge | src/core/RE_Painter.hpp:290-293 | both end vertices of every non-degenerate edge stroked so far are in the outline |
| Geometry.SortByX | src/core/RE_Geometry2D.hpp:62 | no contract of its own; the `std::sort` by x, as an insertion sort; SortByXSorted and SortedPermutationUnique state its result |
| Geometry.SortByXSorted | src/core/RE_Geometry2D.hpp:62 | the sort by x returns a sorted permutation of its input |
| Geometry.SortedPermutationUnique | src/core/RE_Geometry2D.hpp:62 | on one scanline, any two orderings by x of the same crossings are equal, so the choice of sort does not matter |
| Geometry.Crossing | src/core/RE_Geometry2D.hpp:42-46 | no contract of its own; `addIntersectionPoint`: the truncated lerp from the lower to the upper end at the scanline; CrossingBetween states its bounds |
| Geometry.CrossingBetween | src/core/RE_Geometry2D.hpp:42-46 | the crossing lies on the scanline, between the edge's end x values, and at the upper end when the scanline passes through it |
| Geometry.EdgeCrossings | src/core/RE_Geometry2D.hpp:48-60 | no contract of its own; the points one edge adds in the loop of `intersection`; EdgeCrossingsShape states its three cases |
| Geometry.EdgeCrossingsShape | src/core/RE_Geometry2D.hpp:48-60 | an edge gives one crossing iff it strictly changes side, both ends when it lies on the scanline, and none otherwise |
| Geometry.Successor | src/core/RE_Geometry2D.hpp:24 | the index after `index` in a closed loop of n vertices is (index + 1) mod n, always a valid index |
| Geometry.Polygon2D.GetLine | src/core/RE_Geometry2D.hpp:23-29 | edge i runs from vertex i to vertex (i+1) mod n |
| Geometry.Polygon2D.GetLineList | src/core/RE_Geometry2D.hpp:30-36 | the list has one edge per vertex, edge i being getLine(i) |
| Geometry.Polygon2D.Intersection | src/core/RE_Geometry2D.hpp:38-64 | the result is the crossings of all edges, sorted by x, as a permutation of them |
| Geometry.Polygon2D.CrossingsBound | src/core/RE_Geometry2D.hpp:48-60 | k edges give at most 2k crossings, all on the scanline |
| Geometry.Polygon2D.IntersectionBound | src/core/RE_Geometry2D.hpp:38-64 | the intersection list has at most twice as many points as the polygon has vertices, all on the scanline |
| Geometry.Polygon2D.IntersectionOrderUnique | src/core/RE_Geometry2D.hpp:62 | every x-sorted permutation of the crossings equals the modelled intersection list |
| Geometry.Polygon2D.ScanlineZero | src/core/RE_Geometry2D.hpp:43 | at scanline 0 every crossing is a vertex of the polygon |
| Geometry.Polygon2D.Range | src/core/RE_Geometry2D.hpp:66-75 | the loop returns the bounding box of all vertices |
| Geometry.BoundsOf | src/core/RE_Geometry2D.hpp:66-75 | no contract of its own; the min/max fold over the vertices that `range` computes; BoundsOfBox states the box and Polygon2D.Range ties the loop to it |
| Geometry.BoundsOfBox | src/core/RE_Geometry2D.hpp:66-75 | the box contains every vertex, and each side is attained by some vertex |
| Geometry.LineListClosed | src/core/RE_Geometry2D.hpp:23-36 | the edge list is a closed loop: each edge ends where the next begins, and the last ends at the first vertex |
| Perlin.GradientOf | src/extends/drawing/REX_NoiseGenerator.hpp:5-26 | the eight gradients have components in {-1,0,1} and are never zero |
| Perlin.Grad | src/extends/drawing/REX_NoiseGenerator.hpp:5-26 | no contract of its own; `grad`: the eight-way switch on hash % 8; GradIsDot and GradientOf state it |
| Perlin.GradIsDot | src/extends/drawing/REX_NoiseGenerator.hpp:5-26 | grad(hash,x,y) is the dot product of gradient hash & 7 with (x,y) |
| Perlin.Fade | src/extends/drawing/REX_NoiseGenerator.hpp:28-30 | no contract of its own; `perlinFade`: 6t^5 - 15t^4 + 10t^3; FadeEnds, FadeSymmetric and FadeBetween state its properties |
| Perlin.FadeEnds | src/extends/drawing/REX_NoiseGenerator.hpp:28-30 | the fade curve fixes 0 and 1 |
| Perlin.FadeSymmetric | src/extends/drawing/REX_NoiseGenerator.hpp:28-30 | fade(1 - t) = 1 - fade(t) |
| Perlin.FadeBetween | src/extends/drawing/REX_NoiseGenerator.hpp:28-30 | fade maps [0,1] into [0,1] |
| Perlin.DoubledIsTable | src/extends/drawing/REX_NoiseGenerator.hpp:32-40 | a doubled permutation is a 512-entry table of values in 0..255 |
| Perlin.GridSize | src/extends/drawing/REX_NoiseGenerator.hpp:45 | the grid size is at least 1 whenever freq is at most the larger side |
| Perlin.GridSizeBound | src/extends/drawing/REX_NoiseGenerator.hpp:45 | gridSize * freq never exceeds the larger side |
| Perlin.Cell | src/extends/drawing/REX_NoiseGenerator.hpp:47-48 | the lattice cell index is below 256 |
| Perlin.OffsetInCell | src/extends/drawing/REX_NoiseGenerator.hpp:47-53 | inside the first 256 cells, the cell is x / gridSize and the offset lies in [0,1), 0 on a lattice line |
| Perlin.Hash | src/extends/drawing/REX_NoiseGenerator.hpp:58-61 | the corner hash perm[x + perm[y]] is a valid index in 0..255 |
| Perlin.PerlinNoise | src/extends/drawing/REX_NoiseGenerator.hpp:42-68 | no contract of its own; `perlinNoise`: cell, offset, faded weights and the interpolated corner dots, remapped to (v + 1) / 2; PerlinBetweenCorners and PerlinAtLattice state its properties |
| Perlin.PerlinBetweenCorners | src/extends/drawing/REX_NoiseGenerator.hpp:42-68 | inside the first 256 cells (x / gridSize < 256 and y / gridSize < 256) the noise value lies between the remapped smallest and largest of the four corner gradient dots |
| Perlin.PerlinAtLattice | src/extends/drawing/REX_NoiseGenerator.hpp:42-68 | inside the first 256 cells (x / gridSize < 256 and y / gridSize < 256) a lattice point gives exactly 0.5 |
| NoiseGenerator.GeneratePermutationTable | src/extends/drawing/REX_NoiseGenerator.hpp:32-40 | the table holds the shuffled order in its first half and repeats it in the second |
| NoiseGenerator.NoiseValueAt | src/extends/drawing/REX_NoiseGenerator.hpp:82-86 | the row-major noise value of pixel (x,y) is that pixel's grey noise byte |
| NoiseGenerator.GreyFillPixel | src/extends/drawing/REX_NoiseGenerator.hpp:86 | filled pixel j reads as the grey colour of value j |
| NoiseGenerator.GreyFillKeeps | src/extends/drawing/REX_NoiseGenerator.hpp:86 | samples past the filled pixels and channels from 3 upward are untouched |
| NoiseGenerator.NoiseFillPixel | src/extends/drawing/REX_NoiseGenerator.hpp:79-88 | after a noise fill, pixel (x,y) reads as the grey of its own noise value |
| NoiseGenerator.NoiseFillKeeps | src/extends/drawing/REX_NoiseGenerator.hpp:79-88 | a noise fill never changes samples past the image or channels from 3 upward |
| NoiseGenerator.FractalValue | src/extends/drawing/REX_NoiseGenerator.hpp:96-99 | the octave loop computes the fractal sum over freq = 4, 8, ..., 128 |
| Perlin.OctavesFrom | src/extends/drawing/REX_NoiseGenerator.hpp:97-99 | no contract of its own; the octaves from `freq` up to 128, each perlinNoise(freq) / freq * 2; FractalValue and FractalNoiseOctaves state it |
| Perlin.FractalNoise | src/extends/drawing/REX_NoiseGenerator.hpp:96-99 | no contract of its own; the fractal value at a pixel, the octaves from 4; FractalValue ties the float loop to it and FractalNoiseOctaves writes out the six terms |
| NoiseGenerator.FractalNoiseOctaves | src/extends/drawing/REX_NoiseGenerator.hpp:97-99 | the fractal value is the explicit sum of the six octaves perlin(f)/f*2 |
| NoiseGenerator.PixelNoise | src/extends/drawing/REX_NoiseGenerator.hpp:85-99 | the per-pixel value is the Perlin or fractal noise the pattern selects |
| NoiseGenerator.FillNoise | src/extends/drawing/REX_NoiseGenerator.hpp:82-87 | after `paintStart` the view is marked changed; the loop over samples writes each pixel's grey noise value and leaves every other sample unchanged |
| NoiseGenerator.FillPixels | src/extends/drawing/REX_NoiseGenerator.hpp:82-86 | over a non-empty buffer, stepping `i` by the channel count visits pixel k at sample k * channel, so the buffer ends as the grey fill of all noise values in row-major order |
| NoiseGenerator.NoisePixel | src/extends/drawing/REX_NoiseGenerator.hpp:83-86 | the sample index maps to pixel (getCol, getRow) and its row-major noise byte |
| NoiseGenerator.DrawNoisePixel | src/extends/drawing/REX_NoiseGenerator.hpp:83-86 | one loop iteration extends the grey fill by exactly one pixel |
| NoiseGenerator.GeneratePerlinNoise | src/extends/drawing/REX_NoiseGenerator.hpp:79-88 | the buffer becomes the grey Perlin fill at the given frequency, and the dirty flag is set |
| NoiseGenerator.GenerateFractalPerlinNoise | src/extends/drawing/REX_NoiseGenerator.hpp:90-103 | the buffer becomes the grey fractal-noise fill, and the dirty flag is set |
| NoiseGenerator.GenerateCommonNoise | src/extends/drawing/REX_NoiseGenerator.hpp:70-77 | the first area() samples take the given random values and the rest are unchanged |
| Painter.Painter.constructor | src/core/RE_Painter.hpp:76-77 | the painter is bound to the view and its texture |
| Painter.Painter.PaintStart | src/core/RE_Painter.hpp:380-382 | marks the view dirty |
| Painter.Painter.Finish | src/core/RE_Painter.hpp:78-82 | the session end updates the view and clears the dirty flag without touching pixels |
| Painter.Painter.DrawPixelAt | src/core/RE_Painter.hpp:95-134 | the write at a flat index stores the colour, or the alpha-mix for RGBA |
| Painter.Painter.DrawPixel | src/core/RE_Painter.hpp:84-126 | drawPixel(x,y) performs the write at getIndex(x,y); for RGB, getRGB(x,y) then returns the colour |
| Painter.Painter.DrawPixelSafe | src/core/RE_Painter.hpp:105-146 | writes when the bounds check accepts, and otherwise leaves the buffer unchanged |
| Painter.Painter.ClearImage | src/core/RE_Painter.hpp:149-152 | every sample of the image becomes zero and the view is dirty |
| Painter.Painter.SetSize | src/core/RE_Painter.hpp:164-166 | the texture takes the new shape, its vector is resized, and it stays valid |
| Painter.Painter.DrawScanline | src/core/RE_Painter.hpp:156-161 | the buffer becomes the old one with the scanline's pixels painted in order |
| Painter.Painter.DrawRect | src/core/RE_Painter.hpp:266-273 | the buffer becomes the old one with the rectangle's pixels painted column by column |
| Painter.Painter.DrawRectColumn | src/core/RE_Painter.hpp:269-271 | the inner loop extends the painted rectangle by one column |
| Painter.Painter.DrawRectEmpty | src/core/RE_Painter.hpp:254-262 | the buffer becomes the old one with the outline's pixels painted in the source's order |
| Painter.Painter.DrawRectSides | src/core/RE_Painter.hpp:258-261 | the side loop completes the outline after the two horizontal runs |
| Painter.Painter.DrawSideRow | src/core/RE_Painter.hpp:259-260 | one side iteration paints the left and right pixel of the next row |
| Painter.Painter.DrawLine | src/core/RE_Painter.hpp:170-208 | the buffer becomes the old one with the Bresenham pixels painted from (x1,y1) to (x2,y2) |
| Painter.Painter.DrawLineSafe | src/core/RE_Painter.hpp:212-250 | the buffer becomes the old one with exactly the in-bounds Bresenham pixels painted |
| Painter.Painter.Plot | src/core/RE_Painter.hpp:184-198 | one plot extends the painted prefix of the line by its next pixel, clipped when safe |
| Painter.Painter.Stroke | src/core/RE_Painter.hpp:170-181 | picks the major axis and paints the whole line |
| Painter.Painter.StrokeAlongX | src/core/RE_Painter.hpp:181-193 | the x-major loop paints every pixel of the line in order |
| Painter.Painter.StrokeAlongY | src/core/RE_Painter.hpp:194-207 | the y-major loop paints every pixel of the line in order |
| Painter.Painter.DrawPolygon | src/core/RE_Painter.hpp:277-294 | the buffer becomes the old one with the even-odd fill of every scanline of the box, then the outline, painted |
| Painter.Painter.DrawEdge | src/core/RE_Painter.hpp:290-293 | one edge stroke extends the painted outline by edge i |
| Painter.Painter.FillScanlines | src/core/RE_Painter.hpp:279-289 | the scanline loop paints the fill of every row from minY to maxY |
| Painter.Painter.FillRow | src/core/RE_Painter.hpp:280-288 | one scanline paints the spans of its sorted intersection list |
| Painter.Painter.FillSpans | src/core/RE_Painter.hpp:282-288 | the pair loop paints every (odd, even) span of the sorted list |
| Painter.Painter.DrawSpan | src/core/RE_Painter.hpp:284-287 | one span is painted from the left crossing to the right one inclusive |
| Painter.Painter.DrawPolygonEmpty | src/core/RE_Painter.hpp:298-304 | the buffer becomes the old one with one line per edge painted, the closing edge included |
| Painter.Painter.DrawCircle | src/core/RE_Painter.hpp:308-334 | the buffer becomes the old one with the midpoint disc rows painted |
| Painter.Painter.DrawDiscStep | src/core/RE_Painter.hpp:316-323 | one loop step paints its four mirrored rows and leaves the rest of the disc to paint |
| Painter.Painter.DrawRowPairs | src/core/RE_Painter.hpp:316-319 | the inner loop paints the two mirrored rows column by column |
| Painter.Painter.DrawCircleEmpty | src/core/RE_Painter.hpp:338-364 | the buffer becomes the old one with the eight-way midpoint ring painted |
| Painter.Painter.DrawRingStep | src/core/RE_Painter.hpp:346-353 | one loop step paints its eight mirrored points and leaves the rest of the ring to paint |
| Painter.Painter.DrawEightWay | src/core/RE_Painter.hpp:346-353 | the eight mirrored points of one octant state are painted in the source's order |
| Painter.Painter.DrawFourWay | src/core/RE_Painter.hpp:346-349 | four mirrored points are painted in the source's order |

## Copies

The repository holds several copies of the same code. Each is modelled once,
by the member in the right-hand column.

| copy | modelled by |
|---|---|
| src/core/RE_Buffer3D.hpp:6-176 (same as RE_RawImage.hpp, storage named `_data`) | Buffer.RawImage and its members |
| src/RETexture.h:19-131 (`RawImage`: mix 42-45, copyFrom 47-52, clear 58-60, setZero 62-64, setSize 66-73, index 76-88, constructors 118-131) | Buffer.RawImage and its members, Buffer.IndexRoundTrip |
| src/RETexture.h:140-247 (`TextureBase`: getRGB 163-170, getRGBA 172-179, HDR getters 207-214, setPixel 216-242) | Texture.GetRGB, Texture.GetRGBA, Texture.SetPixelRGB, Texture.SetPixelRGBA and their indexed forms |
| src/RETexture.h:268-404 (`ImageView`, `Sampler`: update 282-293, getPixel 316-331, uv2xy 335-341, wrapUV 343-353, filters 355-386, hooks 400-403) | Texture.ImageView and Texture.Sampler members, Texture.WrapCoord, Texture.TexelCoord |
| src/RETexture.h:417-482 (`Polygon2D`, same as RE_Geometry2D.hpp:14-79) | Geometry.Polygon2D members |
| src/core/RE_Geometry2D.hpp:81-478 and src/RETexture.h:484-872 (an older `Painter` with drawing methods and built-in noise) | Painter.Painter members, Paint.AlphaMix (alphaMix at 362-372 and 765-775) |
| src/core/RE_Geometry2D.hpp:374-477 and src/RETexture.h:777-871 (generateCommonNoise, generatePerlinNoise, generateFractalPerlinNoise, grad, perlinFade, generatePermutationTable, perlinNoise) | the NoiseGenerator and Perlin members |

## Left out

- Image I/O: `writePicture` and `loadPicture` go through the stb codec. No
  model of it is included.
- Randomness: `rand()` values become the `values` parameter of
  GenerateCommonNoise. The `random_device`/`mt19937`/`shuffle` order becomes
  the `order` parameter of GeneratePermutationTable. The static permutation
  table is a parameter of the noise functions.
- `generateCommonNoise`'s `seed` argument is never read, so it is not a
  parameter. The unused local `r2` of `drawCircle` is not modelled.
- Floating point: `float` arithmetic is modelled over exact reals. `alphaMix`
  is modelled as exact rational arithmetic truncated to an integer
  (MixChannelIsTruncatedBlend), so float rounding differences are not
  captured.
- Fixed-width integers: `size_t`, `int` and `int64_t` are unbounded, so
  wrap-around of negative coordinates passed as `size_t` and overflow of
  products such as `radius * radius` or `width * height * channel` are not
  captured. The unchecked draws require coordinates whose samples lie in the
  buffer.
- Copy and move constructors and assignment operators are not modelled. The
  copy constructor memcpys `_length` samples from the new object's
  still-empty vector into the argument, and the move constructor overwrites
  the argument's vector with that empty one. The assignment operators copy
  or move in the same direction, into the argument, and return nothing, so
  their effect is undefined.
- The `(arr, width, height, channel)` constructor is not modelled. It calls
  `copyFrom` before `_length` is set.
- Accessors `getTexture`, `data()`, `width()`, `length()` and
  `attributeCopy` are plain field reads; the model uses the fields directly.
  The destructor's `delete sampler` is not modelled.
- `TextureBase<T>::init` for a generic `T` is not modelled; the 8-bit and
  `float` specialisations both zero-fill.
- The `u64` overload of `lerp` at src/RE_math.h:33-37 is not modelled.
- Texture.Sampler.GetPixel: bicubic is the placeholder `rgb(0,0,0)` of the
  source. The mipmap and anisotropy recompute hooks are empty.
- Texture.WrapCoord: the repeat and mirror bounds are stated only for
  non-negative coordinates; `fmod` of a negative value stays negative and the
  later conversion to `size_t` is then undefined (RepeatNegativeUndefined).
- Perlin.OffsetInCell: the cell and offset facts hold only while
  `x / gridSize < 256`, because the source wraps the cell with `% 256` but
  computes the offset without it.
- Perlin.PerlinBetweenCorners: the bound is stated only inside the first 256
  cells of both axes. Past them the wrapped cell and the unwrapped offset no
  longer describe the same point.
- Perlin.PerlinAtLattice: the value 0.5 is stated only inside the first 256
  cells of both axes, for the same reason. Past them the offset at a lattice
  point is a multiple of 256, not 0.
- NoiseGenerator.GeneratePermutationTable: `p.insert(p.end(), p.begin(),
  p.end())` inserts a vector into itself, which is undefined behaviour in C++.
  The model instead appends a copy of the first 256 entries, the table the
  noise functions index.
- NoiseGenerator.GeneratePerlinNoise: the range of the noise value is not
  proved, so the cast of `noise * 255` to `uint8_t` is a precondition
  (Castable). A non-empty buffer must have at least 3 channels because each
  pixel is written as RGB.
- NoiseGenerator.GenerateFractalPerlinNoise: the range of the fractal sum is
  not proved either, so the byte cast is the same Castable precondition.
- The Painter is modelled over 8-bit textures only, since `getRGBA` and
  `alphaMix` exist only for `uint8_t`. The HDR texture's pixel accessors are
  modelled in Texture.
