/** The earlier rasterizer of the single-file renderer: the same edge-function
    scan, but `min`/`max` return `uint32_t`, the `SDL_clamp` results are
    discarded, the texel index is not clamped, the depth buffer holds
    `uint32_t`, and the depth test keeps the equal-or-farther fragment. */
module EarlyRenderer {
  import opened Machine
  import opened Screen
  import opened Geometry
  import opened Texturing
  import opened DepthTest
  import Rendering

  /** `min` of the earlier renderer: the least `int32_t` argument, returned as
      `uint32_t`. */
  function MinU32(a: i32, b: i32, c: i32): (r: u32)
    ensures WrapI32(r) == Min3(a, b, c)
    ensures a >= 0 && b >= 0 && c >= 0 ==> r == Min3(a, b, c)
  {
    I32ThroughU32(Min3(a, b, c));
    WrapU32(Min3(a, b, c))
  }

  /** `max` of the earlier renderer. */
  function MaxU32(a: i32, b: i32, c: i32): (r: u32)
    ensures WrapI32(r) == Max3(a, b, c)
    ensures a >= 0 && b >= 0 && c >= 0 ==> r == Max3(a, b, c)
  {
    I32ThroughU32(Max3(a, b, c));
    WrapU32(Max3(a, b, c))
  }

  /** The box the earlier renderer scans: the `uint32_t` results of `min` and
      `max` stored back into `int32_t` variables. The four `SDL_clamp` calls
      that follow are expression statements whose results are dropped. */
  function ScanBox(t: RawTriangle): Box {
    Box(WrapI32(MinU32(t.v1.x, t.v2.x, t.v3.x)), WrapI32(MinU32(t.v1.y, t.v2.y, t.v3.y)),
        WrapI32(MaxU32(t.v1.x, t.v2.x, t.v3.x)), WrapI32(MaxU32(t.v1.y, t.v2.y, t.v3.y)))
  }

  /** Because the clamps are discarded, the bounds the scan starts from are
      the unclamped bounding box for every triangle. */
  lemma ScanBoxIsBoundingBox(t: RawTriangle)
    ensures ScanBox(t) == BoundingBox(t)
  {
  }

  /** A loop `for (uint32_t v = lo; v < hi; v++)` with `int32_t` bounds
      converts both bounds to `uint32_t`: the counter takes the value v
      exactly when WrapU32(lo) <= v < WrapU32(hi). The guard is strict, so the
      counter never wraps. */
  predicate CounterVisits(lo: int, hi: int, v: int) {
    WrapU32(lo) <= v < WrapU32(hi)
  }

  /** The coordinate the edge values have reached when the counter of a loop
      that started from `lo` holds v: one step per increment. */
  function Coord(lo: int, v: int): int {
    lo + (v - WrapU32(lo))
  }

  /** The counter pair (x, y) is visited by the row loop and the column loop
      of the earlier scan. */
  predicate Scanned(t: RawTriangle, x: int, y: int) {
    var b := ScanBox(t);
    CounterVisits(b.minX, b.maxX, x) && CounterVisits(b.minY, b.maxY, y)
  }

  /** One of the two loops runs zero times, so the scan writes nothing. */
  predicate ScanEmpty(t: RawTriangle) {
    var b := ScanBox(t);
    WrapU32(b.maxX) <= WrapU32(b.minX) || WrapU32(b.maxY) <= WrapU32(b.minY)
  }

  /** A negative `int32_t` becomes 2^32 + v as a `uint32_t`. */
  lemma WrapU32Negative(v: int)
    requires -TWO_31 <= v < 0
    ensures WrapU32(v) == v + TWO_32
  {
    FloorUnique(v, TWO_32, -1, v + TWO_32);
  }

  /** For a counter value below 2^31 (every on-screen coordinate), the loop
      visits it exactly when the lower bound is non-negative and the value lies
      in [lo, hi): a negative lower bound wraps to at least 2^31. */
  lemma CounterVisitsSmall(lo: int, hi: int, v: int)
    requires IsI32(lo) && IsI32(hi) && lo <= hi && 0 <= v < TWO_31
    ensures CounterVisits(lo, hi, v) <==> 0 <= lo && lo <= v < hi
  {
    if lo < 0 {
      WrapU32Negative(lo);
    }
  }

  /** Which on-screen pixels the earlier scan visits: those of the bounding
      box, provided neither minimum is negative. A box that starts left of or
      above the screen is not scanned at all. */
  lemma ScannedIffNonNegativeBox(t: RawTriangle, x: int, y: int)
    requires OnScreen(x, y)
    ensures Scanned(t, x, y)
            <==> InBox(BoundingBox(t), x, y) && BoundingBox(t).minX >= 0 && BoundingBox(t).minY >= 0
  {
    var b := ScanBox(t);
    ScanBoxIsBoundingBox(t);
    CounterVisitsSmall(b.minX, b.maxX, x);
    CounterVisitsSmall(b.minY, b.maxY, y);
  }

  /** A triangle whose bounding box crosses the left or the top edge of the
      screen is skipped entirely by the unsigned loop guards. */
  lemma CrossingTriangleSkipped(t: RawTriangle)
    requires || BoundingBox(t).minX < 0 <= BoundingBox(t).maxX
             || BoundingBox(t).minY < 0 <= BoundingBox(t).maxY
    ensures ScanEmpty(t)
    ensures forall x, y :: !Scanned(t, x, y)
  {
    var b := ScanBox(t);
    ScanBoxIsBoundingBox(t);
    if b.minX < 0 <= b.maxX {
      WrapU32Negative(b.minX);
    } else {
      WrapU32Negative(b.minY);
    }
  }

  /** The triangle (-5,0), (20,0), (0,20) covers the on-screen pixel (1, 1) of
      its bounding box, yet the earlier renderer scans nothing for it. */
  lemma LeftCrossingExample()
    ensures var t := RawTriangle(RawVertex(-5, 0, 0), RawVertex(20, 0, 0), RawVertex(0, 20, 0));
            && OnScreen(1, 1) && InBox(BoundingBox(t), 1, 1) && Inside(t, 1, 1)
            && ScanEmpty(t) && !Scanned(t, 1, 1)
  {
    var t := RawTriangle(RawVertex(-5, 0, 0), RawVertex(20, 0, 0), RawVertex(0, 20, 0));
    assert BoundingBox(t) == Box(-5, 0, 20, 20);
    CrossingTriangleSkipped(t);
    EdgeValue(Point(-5, 0), Point(0, 20), Point(1, 1), 115);
    EdgeValue(Point(0, 20), Point(20, 0), Point(1, 1), 360);
    EdgeValue(Point(20, 0), Point(-5, 0), Point(1, 1), 25);
  }

  /** The unclamped box lets the scan reach pixels off the right edge of the
      screen whose slot `y * SCREEN_WIDTH + x` belongs to a pixel of the next
      row: (430, 1) lies inside the triangle (0,0), (500,0), (0,10) and shares
      slot 857 with the on-screen pixel (3, 2). */
  lemma UnclampedScanBoxAliases()
    ensures var t := RawTriangle(RawVertex(0, 0, 0), RawVertex(500, 0, 0), RawVertex(0, 10, 0));
            && Scanned(t, 430, 1) && Inside(t, 430, 1) && !OnScreen(430, 1)
            && OnScreen(3, 2) && Inside(t, 3, 2)
            && Idx(430, 1) == Idx(3, 2) && 0 <= Idx(430, 1) < PIXEL_COUNT
  {
    var t := RawTriangle(RawVertex(0, 0, 0), RawVertex(500, 0, 0), RawVertex(0, 10, 0));
    ExampleCovers();
    ScanBoxIsBoundingBox(t);
    assert BoundingBox(t) == Box(0, 0, 500, 10);
  }

  /** Both pixels of the aliasing example are inside its triangle. */
  lemma ExampleCovers()
    ensures var t := RawTriangle(RawVertex(0, 0, 0), RawVertex(500, 0, 0), RawVertex(0, 10, 0));
            Inside(t, 430, 1) && Inside(t, 3, 2)
  {
    OffScreenPixelCovered();
    OnScreenPixelCovered();
  }

  lemma OffScreenPixelCovered()
    ensures Inside(RawTriangle(RawVertex(0, 0, 0), RawVertex(500, 0, 0), RawVertex(0, 10, 0)), 430, 1)
  {
    EdgeValues(430, 1, 4300, 200, 500);
  }

  lemma OnScreenPixelCovered()
    ensures Inside(RawTriangle(RawVertex(0, 0, 0), RawVertex(500, 0, 0), RawVertex(0, 10, 0)), 3, 2)
  {
    EdgeValues(3, 2, 30, 3970, 1000);
  }

  /** The three edge values of the example triangle at one pixel, when they
      are small enough not to wrap. */
  lemma EdgeValues(x: int, y: int, e1: int, e2: int, e3: int)
    requires Edge(Point(0, 0), Point(0, 10), Point(x, y)) == e1 && 0 <= e1 < 10000
    requires Edge(Point(0, 10), Point(500, 0), Point(x, y)) == e2 && 0 <= e2 < 10000
    requires Edge(Point(500, 0), Point(0, 0), Point(x, y)) == e3 && 0 <= e3 < 10000
    ensures Inside(RawTriangle(RawVertex(0, 0, 0), RawVertex(500, 0, 0), RawVertex(0, 10, 0)), x, y)
  {
    EdgeValue(Point(0, 0), Point(0, 10), Point(x, y), e1);
    EdgeValue(Point(0, 10), Point(500, 0), Point(x, y), e2);
    EdgeValue(Point(500, 0), Point(0, 0), Point(x, y), e3);
  }

  /** A small edge value is computed without wrap-around. */
  lemma EdgeValue(a: Point, b: Point, c: Point, v: int)
    requires Edge(a, b, c) == v && IsI32(v)
    ensures EdgeI32(a, b, c) == v
  {
  }

  /** A triangle whose vertices lie in [0, SCREEN_WIDTH] x [0, SCREEN_HEIGHT]
      needs no clamp: its bounding box is already the clamped box. */
  predicate OnScreenTriangle(t: RawTriangle) {
    && 0 <= t.v1.x <= SCREEN_WIDTH && 0 <= t.v2.x <= SCREEN_WIDTH && 0 <= t.v3.x <= SCREEN_WIDTH
    && 0 <= t.v1.y <= SCREEN_HEIGHT && 0 <= t.v2.y <= SCREEN_HEIGHT && 0 <= t.v3.y <= SCREEN_HEIGHT
  }

  lemma OnScreenTriangleNeedsNoClamp(t: RawTriangle)
    requires OnScreenTriangle(t)
    ensures ScanBox(t) == ClampedBox(t)
    ensures forall x, y :: Scanned(t, x, y) <==> InBox(ClampedBox(t), x, y)
  {
    ScanBoxIsBoundingBox(t);
  }

  /** What the earlier scan can reach without leaving the buffers: either
      nothing at all, or a box whose vertices all lie on the screen. */
  predicate ScanStaysOnScreen(t: RawTriangle) {
    OnScreenTriangle(t) || ScanEmpty(t)
  }

  /** What the floating-point stage yields at a covered pixel: the depth and
      the flat texel index, both already converted to `uint32_t`. */
  datatype Fragment = Fragment(depth: u32, texel: u32)

  /** The vertex depths as the earlier renderer hands them on: unclamped,
      since the depth clamps are discarded too. */
  function RawDepths(t: RawTriangle): Rendering.Depths {
    Rendering.Depths(t.v1.z, t.v2.z, t.v3.z)
  }

  /** Reference definition of one pixel after the earlier renderer draws the
      triangle: untouched unless both loops visit it and it is inside the
      triangle; otherwise the
      fragment goes through the equal-or-farther depth test, or is written as
      colour only when depth testing is off. */
  function PixelAfter(t: RawTriangle, tex: Texture, depthTest: bool, shade: (int, int, Rendering.Depths) -> Fragment,
                      x: int, y: int, before: Sample): Sample
    requires ValidTexture(tex)
    requires Scanned(t, x, y) && Inside(t, x, y) ==> shade(x, y, RawDepths(t)).texel < TexelCount(tex)
  {
    if Scanned(t, x, y) && Inside(t, x, y) then
      var f := shade(x, y, RawDepths(t));
      var frag := Sample(SampleColor(tex, f.texel), f.depth);
      if depthTest then WriteFarther(before, frag) else Sample(frag.color, before.depth)
    else
      before
  }

  /** The texel indices the floating-point stage produces at covered pixels
      are inside the texture; the source reads `data[index * channels]`
      without a check. */
  ghost predicate TexelsInRange(t: RawTriangle, tex: Texture, shade: (int, int, Rendering.Depths) -> Fragment) {
    forall x, y :: Scanned(t, x, y) && Inside(t, x, y) ==> shade(x, y, RawDepths(t)).texel < TexelCount(tex)
  }

  /** The body of the earlier scan at one pixel, given the outcome of the
      inside test `(e1 >= 0) && (e2 >= 0) && (e3 >= 0)`. */
  method ShadePixel(pixels: PixelBuffer, depth: DepthBufferU, t: RawTriangle, tex: Texture,
                    depthTest: bool, shade: (int, int, Rendering.Depths) -> Fragment, x: int, y: int, covered: bool)
    returns (pixels': PixelBuffer, depth': DepthBufferU)
    requires ValidTexture(tex) && OnScreenTriangle(t) && TexelsInRange(t, tex, shade)
    requires Scanned(t, x, y)
    requires covered <==> Inside(t, x, y)
    ensures Sample(pixels'[Idx(x, y)], depth'[Idx(x, y)])
            == PixelAfter(t, tex, depthTest, shade, x, y, Sample(pixels[Idx(x, y)], depth[Idx(x, y)]))
    ensures forall px, py :: OnScreen(px, py) && (px != x || py != y) ==>
      pixels'[Idx(px, py)] == pixels[Idx(px, py)] && depth'[Idx(px, py)] == depth[Idx(px, py)]
  {
    OnScreenTriangleNeedsNoClamp(t);
    ClampedBoxIsOnScreenPart(t, x, y);
    forall px, py | OnScreen(px, py) && Idx(px, py) == Idx(x, y)
      ensures px == x && py == y
    {
      IdxInjective(px, py, x, y);
    }
    pixels', depth' := pixels, depth;
    if covered {
      var f := shade(x, y, RawDepths(t));
      // `index *= channels` in `uint32_t`: no wrap, the index is in range.
      TexelOffsetInData(tex, f.texel);
      var offset := WrapU32(f.texel * Channels(tex.format));
      assert offset == f.texel * Channels(tex.format);
      var color := SampleColor(tex, f.texel);
      if depthTest {
        var i := Idx(x, y);
        if FartherPasses(depth[i], f.depth) {
          depth' := depth[i := f.depth];
          pixels' := SetPixel(pixels, x, y, color);
        }
      } else {
        pixels' := SetPixel(pixels, x, y, color);
      }
    }
  }

  /** One scanline of the earlier renderer: the column counter runs from
      `(uint32_t) min_x` while it is below `(uint32_t) max_x`. */
  method DrawRow(pixels: PixelBuffer, depth: DepthBufferU, t: RawTriangle, tex: Texture,
                 depthTest: bool, shade: (int, int, Rendering.Depths) -> Fragment, y: u32, e1Start: i32, e2Start: i32, e3Start: i32)
    returns (pixels': PixelBuffer, depth': DepthBufferU)
    requires ValidTexture(tex) && TexelsInRange(t, tex, shade)
    requires CounterVisits(ScanBox(t).minY, ScanBox(t).maxY, y)
    requires WrapU32(ScanBox(t).minX) < WrapU32(ScanBox(t).maxX) ==> OnScreenTriangle(t)
    requires e1Start == EdgeI32(P(t.v1), P(t.v3), Point(ScanBox(t).minX, Coord(ScanBox(t).minY, y)))
    requires e2Start == EdgeI32(P(t.v3), P(t.v2), Point(ScanBox(t).minX, Coord(ScanBox(t).minY, y)))
    requires e3Start == EdgeI32(P(t.v2), P(t.v1), Point(ScanBox(t).minX, Coord(ScanBox(t).minY, y)))
    ensures forall px, py :: OnScreen(px, py) && py == y ==>
      Sample(pixels'[Idx(px, py)], depth'[Idx(px, py)])
        == PixelAfter(t, tex, depthTest, shade, px, py, Sample(pixels[Idx(px, py)], depth[Idx(px, py)]))
    ensures forall px, py :: OnScreen(px, py) && py != y ==>
      pixels'[Idx(px, py)] == pixels[Idx(px, py)] && depth'[Idx(px, py)] == depth[Idx(px, py)]
  {
    var b := ScanBox(t);
    var a1, a2, a3 := P(t.v1), P(t.v2), P(t.v3);
    var e1, e2, e3 := e1Start, e2Start, e3Start;
    pixels', depth' := pixels, depth;
    var lo, hi := WrapU32(b.minX), WrapU32(b.maxX);
    var row, col := Coord(b.minY, y), b.minX;
    var x: u32 := lo;
    while x < hi
      invariant lo <= x && col == b.minX + (x - lo)
      invariant e1 == EdgeI32(a1, a3, Point(col, row))
      invariant e2 == EdgeI32(a3, a2, Point(col, row))
      invariant e3 == EdgeI32(a2, a1, Point(col, row))
      invariant forall px, py :: OnScreen(px, py) ==>
        Sample(pixels'[Idx(px, py)], depth'[Idx(px, py)])
          == var before := Sample(pixels[Idx(px, py)], depth[Idx(px, py)]);
             if py == y && px < x then PixelAfter(t, tex, depthTest, shade, px, py, before) else before
    {
      pixels', depth', e1, e2, e3 := ScanPixel(pixels', depth', t, tex, depthTest, shade, x, y, col, row, e1, e2, e3);
      x, col := x + 1, col + 1;
    }
  }

  /** One iteration of the column loop: the pixel at the counters is shaded
      when the edge values accept it, and the edge values advance by one
      column. */
  method ScanPixel(pixels: PixelBuffer, depth: DepthBufferU, t: RawTriangle, tex: Texture,
                   depthTest: bool, shade: (int, int, Rendering.Depths) -> Fragment, x: int, y: int,
                   col: int, row: int, e1: i32, e2: i32, e3: i32)
    returns (pixels': PixelBuffer, depth': DepthBufferU, f1: i32, f2: i32, f3: i32)
    requires ValidTexture(tex) && TexelsInRange(t, tex, shade)
    requires WrapU32(ScanBox(t).minX) < WrapU32(ScanBox(t).maxX) ==> OnScreenTriangle(t)
    requires Scanned(t, x, y)
    requires col == Coord(ScanBox(t).minX, x) && row == Coord(ScanBox(t).minY, y)
    requires e1 == EdgeI32(P(t.v1), P(t.v3), Point(col, row))
    requires e2 == EdgeI32(P(t.v3), P(t.v2), Point(col, row))
    requires e3 == EdgeI32(P(t.v2), P(t.v1), Point(col, row))
    ensures f1 == EdgeI32(P(t.v1), P(t.v3), Point(col + 1, row))
    ensures f2 == EdgeI32(P(t.v3), P(t.v2), Point(col + 1, row))
    ensures f3 == EdgeI32(P(t.v2), P(t.v1), Point(col + 1, row))
    ensures Sample(pixels'[Idx(x, y)], depth'[Idx(x, y)])
            == PixelAfter(t, tex, depthTest, shade, x, y, Sample(pixels[Idx(x, y)], depth[Idx(x, y)]))
    ensures forall px, py :: OnScreen(px, py) && (px != x || py != y) ==>
      pixels'[Idx(px, py)] == pixels[Idx(px, py)] && depth'[Idx(px, py)] == depth[Idx(px, py)]
  {
    ScannedCountersAreCoords(t, x, y);
    pixels', depth' := ShadePixel(pixels, depth, t, tex, depthTest, shade, x, y, e1 >= 0 && e2 >= 0 && e3 >= 0);
    f1, f2, f3 := Rendering.StepRight(t, col, row, e1, e2, e3);
  }

  /** When both loops run the scan is not empty, so the vertices are on the
      screen and the counters are the coordinates themselves. */
  lemma ScannedCountersAreCoords(t: RawTriangle, x: int, y: int)
    requires WrapU32(ScanBox(t).minX) < WrapU32(ScanBox(t).maxX) ==> OnScreenTriangle(t)
    requires Scanned(t, x, y)
    ensures OnScreenTriangle(t)
    ensures Coord(ScanBox(t).minX, x) == x && Coord(ScanBox(t).minY, y) == y
  {
    ScanBoxIsBoundingBox(t);
  }

  /** `draw_triangle_raw` of the earlier renderer: every on-screen pixel ends
      as `PixelAfter` of its value before the call. The row counter runs from
      `(uint32_t) min_y` while it is below `(uint32_t) max_y`, so a box that
      starts left of or above the screen is skipped. The scan must stay on
      the screen: its depth access is unguarded. */
  method DrawTriangleRaw(pixels: PixelBuffer, depth: DepthBufferU, t: RawTriangle, tex: Texture,
                         depthTest: bool, shade: (int, int, Rendering.Depths) -> Fragment)
    returns (pixels': PixelBuffer, depth': DepthBufferU)
    requires ValidTexture(tex) && ScanStaysOnScreen(t) && TexelsInRange(t, tex, shade)
    ensures forall x, y :: OnScreen(x, y) ==>
      Sample(pixels'[Idx(x, y)], depth'[Idx(x, y)])
        == PixelAfter(t, tex, depthTest, shade, x, y, Sample(pixels[Idx(x, y)], depth[Idx(x, y)]))
  {
    var b := ScanBox(t);
    var a1, a2, a3 := P(t.v1), P(t.v2), P(t.v3);

    var eRow1 := EdgeI32(a1, a3, Point(b.minX, b.minY));
    var eRow2 := EdgeI32(a3, a2, Point(b.minX, b.minY));
    var eRow3 := EdgeI32(a2, a1, Point(b.minX, b.minY));

    pixels', depth' := pixels, depth;
    var lo, hi := WrapU32(b.minY), WrapU32(b.maxY);
    var y: u32 := lo;
    var row := b.minY;
    UnscannedRowsUnchanged(t, tex, depthTest, shade, 0, lo);
    while y < hi
      invariant lo <= y && row == b.minY + (y - lo)
      invariant eRow1 == EdgeI32(a1, a3, Point(b.minX, row))
      invariant eRow2 == EdgeI32(a3, a2, Point(b.minX, row))
      invariant eRow3 == EdgeI32(a2, a1, Point(b.minX, row))
      invariant forall px, py :: OnScreen(px, py) && py < y ==>
        Sample(pixels'[Idx(px, py)], depth'[Idx(px, py)])
          == PixelAfter(t, tex, depthTest, shade, px, py, Sample(pixels[Idx(px, py)], depth[Idx(px, py)]))
      invariant forall px, py :: OnScreen(px, py) && py >= y ==>
        pixels'[Idx(px, py)] == pixels[Idx(px, py)] && depth'[Idx(px, py)] == depth[Idx(px, py)]
    {
      VisitedRowStaysOnScreen(t, y);
      assert Coord(b.minY, y) == row;
      pixels', depth' := DrawRow(pixels', depth', t, tex, depthTest, shade, y, eRow1, eRow2, eRow3);
      eRow1, eRow2, eRow3 := Rendering.StepDown(t, b.minX, row, eRow1, eRow2, eRow3);
      y, row := y + 1, row + 1;
    }
    UnscannedRowsUnchanged(t, tex, depthTest, shade, y, SCREEN_HEIGHT);
  }

  /** Once the row loop runs, a column loop that runs too means the scan is
      not empty, so the vertices are on the screen. */
  lemma VisitedRowStaysOnScreen(t: RawTriangle, y: int)
    requires ScanStaysOnScreen(t) && CounterVisits(ScanBox(t).minY, ScanBox(t).maxY, y)
    ensures WrapU32(ScanBox(t).minX) < WrapU32(ScanBox(t).maxX) ==> OnScreenTriangle(t)
  {
  }

  /** Rows [from, to) that the row loop does not visit keep their pixels. */
  lemma UnscannedRowsUnchanged(t: RawTriangle, tex: Texture, depthTest: bool,
                               shade: (int, int, Rendering.Depths) -> Fragment, from: int, to: int)
    requires ValidTexture(tex)
    requires to <= WrapU32(ScanBox(t).minY) || WrapU32(ScanBox(t).maxY) <= from
    ensures forall x, y, before :: from <= y < to ==> PixelAfter(t, tex, depthTest, shade, x, y, before) == before
  {
  }

  /** A skipped scan leaves every pixel and depth value as it was. */
  lemma EmptyScanChangesNothing(t: RawTriangle, tex: Texture, depthTest: bool,
                                shade: (int, int, Rendering.Depths) -> Fragment, x: int, y: int, before: Sample)
    requires ValidTexture(tex) && ScanEmpty(t)
    ensures PixelAfter(t, tex, depthTest, shade, x, y, before) == before
  {
  }

  /** The counter of a `for (uint32_t x = x1; x <= x2; x++)` loop after n
      increments. */
  function CounterAfter(x1: u32, n: nat): u32 {
    WrapU32(x1 + n)
  }

  /** With `x2 == UINT32_MAX` the guard `x <= x2` holds for every counter
      value, and after 2^32 increments the counter is back where it started:
      `draw_rect_raw` revisits the same columns (or rows) forever. */
  lemma RectLoopNeverExits(x1: u32, n: nat)
    ensures CounterAfter(x1, n) <= 0xFFFF_FFFF
    ensures CounterAfter(x1, n + TWO_32) == CounterAfter(x1, n)
  {
  }

  /** `draw_rect_raw` with loop counters that cannot wrap: every on-screen
      pixel of the inclusive rectangle [x1, x2] x [y1, y2] gets the colour and
      no other pixel changes. */
  method DrawRectRaw(pixels: PixelBuffer, x1: u32, y1: u32, x2: u32, y2: u32, color: Color)
    returns (pixels': PixelBuffer)
    ensures forall x, y :: OnScreen(x, y) ==>
      pixels'[Idx(x, y)] == if x1 <= x <= x2 && y1 <= y <= y2 then color else pixels[Idx(x, y)]
  {
    pixels' := pixels;
    var x: int := x1;
    while x <= x2
      invariant x1 <= x <= x2 + 1 || (x == x1 && x1 > x2)
      invariant forall px, py :: OnScreen(px, py) ==>
        pixels'[Idx(px, py)] == if x1 <= px < x && y1 <= py <= y2 then color else pixels[Idx(px, py)]
    {
      var y: int := y1;
      while y <= y2
        invariant y1 <= y <= y2 + 1 || (y == y1 && y1 > y2)
        invariant forall px, py :: OnScreen(px, py) ==>
          pixels'[Idx(px, py)] == if (x1 <= px < x || (px == x && py < y)) && y1 <= py <= y2 then color else pixels[Idx(px, py)]
      {
        forall px, py | OnScreen(px, py) && Idx(px, py) == Idx(x, y) && OnScreen(x, y)
          ensures px == x && py == y
        {
          IdxInjective(px, py, x, y);
        }
        pixels' := SetPixel(pixels', x, y, color);
        y := y + 1;
      }
      x := x + 1;
    }
  }
}
