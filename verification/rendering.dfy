/** The integer kernel of the current triangle rasterizer: scan of the
    clamped bounding box with incrementally updated edge values, depth
    clamping, texel clamping and colour fetch, and the depth-tested write.
    The floating-point stage (perspective-correct barycentrics, the depth and
    texture coordinate they interpolate) is the `shade` parameter. */
module Rendering {
  import opened Machine
  import opened Screen
  import opened Geometry
  import opened Texturing
  import opened DepthTest

  /** `DEPTH_PRECISION`, `1 << 12`. */
  const DEPTH_PRECISION: int := 4096

  /** The three vertex depths after clamping, as handed to interpolation. */
  datatype Depths = Depths(z1: int, z2: int, z3: int)

  /** What the floating-point stage yields at a covered pixel: the
      interpolated depth and the flat texel index before clamping. */
  datatype Fragment = Fragment(depth: i32, texel: i32)

  /** `SDL_clamp(z, 0, DEPTH_PRECISION)`. */
  function ClampDepth(z: int): (r: int)
    ensures 0 <= r <= DEPTH_PRECISION
    ensures 0 <= z <= DEPTH_PRECISION ==> r == z
  {
    Clamp(z, 0, DEPTH_PRECISION)
  }

  /** The vertex depths z1..z3 after clamping into [0, DEPTH_PRECISION]. */
  function ClampedDepths(t: RawTriangle): (d: Depths)
    ensures 0 <= d.z1 <= DEPTH_PRECISION && 0 <= d.z2 <= DEPTH_PRECISION && 0 <= d.z3 <= DEPTH_PRECISION
  {
    Depths(ClampDepth(t.v1.z), ClampDepth(t.v2.z), ClampDepth(t.v3.z))
  }

  /** The colour a covered pixel receives: texel index clamped into the
      texture, then fetched and packed. */
  function FragmentColor(t: RawTriangle, tex: Texture, shade: (int, int, Depths) -> Fragment, x: int, y: int): Color
    requires ValidTexture(tex)
  {
    SampleColor(tex, ClampTexel(tex, shade(x, y, ClampedDepths(t)).texel))
  }

  /** Reference definition of one pixel after the triangle is drawn, from
      the directly evaluated edge functions: untouched outside the clamped
      box or outside the triangle; otherwise the fragment goes through the
      depth test (or is written as colour only when depth testing is off). */
  function PixelAfter(t: RawTriangle, tex: Texture, depthTest: bool, shade: (int, int, Depths) -> Fragment,
                      x: int, y: int, before: Sample): Sample
    requires ValidTexture(tex)
  {
    if InBox(ClampedBox(t), x, y) && Inside(t, x, y) then
      var frag := Sample(FragmentColor(t, tex, shade, x, y), shade(x, y, ClampedDepths(t)).depth);
      if depthTest then WriteNearer(before, frag) else Sample(frag.color, before.depth)
    else
      before
  }

  /** The body of the scan at one pixel of the clamped box, given the outcome
      of the inside test: a covered pixel has its texel fetched and goes
      through the depth-tested (or untested) write at `y * SCREEN_WIDTH + x`.
      Only that pixel can change. */
  method ShadePixel(pixels: PixelBuffer, depth: DepthBuffer, t: RawTriangle, tex: Texture,
                    depthTest: bool, shade: (int, int, Depths) -> Fragment, x: int, y: int, covered: bool)
    returns (pixels': PixelBuffer, depth': DepthBuffer)
    requires ValidTexture(tex)
    requires InBox(ClampedBox(t), x, y)
    requires covered <==> Inside(t, x, y)
    ensures Sample(pixels'[Idx(x, y)], depth'[Idx(x, y)])
            == PixelAfter(t, tex, depthTest, shade, x, y, Sample(pixels[Idx(x, y)], depth[Idx(x, y)]))
    ensures forall px, py :: OnScreen(px, py) && (px != x || py != y) ==>
      pixels'[Idx(px, py)] == pixels[Idx(px, py)] && depth'[Idx(px, py)] == depth[Idx(px, py)]
  {
    ClampedBoxIsOnScreenPart(t, x, y);
    forall px, py | OnScreen(px, py) && Idx(px, py) == Idx(x, y)
      ensures px == x && py == y
    {
      IdxInjective(px, py, x, y);
    }
    pixels', depth' := pixels, depth;
    if covered {
      var f := shade(x, y, ClampedDepths(t));
      var index := ClampTexel(tex, f.texel);
      var color := SampleColor(tex, index);
      var i := Idx(x, y);
      if depthTest {
        if NearerPasses(depth[i], f.depth) {
          pixels' := SetPixel(pixels, x, y, color);
          depth' := depth[i := f.depth];
        }
      } else {
        pixels' := SetPixel(pixels, x, y, color);
      }
    }
  }

  /** The inside test of the scan, `(e1 | e2 | e3) >= 0` on the 32-bit edge
      values: it accepts exactly when all three are non-negative. */
  method SignTest(e1: i32, e2: i32, e3: i32) returns (inside: bool)
    ensures inside <==> e1 >= 0 && e2 >= 0 && e3 >= 0
  {
    OrNonNegativeIff(e1, e2, e3);
    inside := OrNonNegative(e1, e2, e3);
  }

  /** The per-pixel update `e += (i32)b.y - (i32)a.y` of the three edge
      values: they move from (x, y) to (x + 1, y). */
  method StepRight(t: RawTriangle, x: int, y: int, e1: i32, e2: i32, e3: i32) returns (f1: i32, f2: i32, f3: i32)
    requires e1 == EdgeI32(P(t.v1), P(t.v3), Point(x, y))
    requires e2 == EdgeI32(P(t.v3), P(t.v2), Point(x, y))
    requires e3 == EdgeI32(P(t.v2), P(t.v1), Point(x, y))
    ensures f1 == EdgeI32(P(t.v1), P(t.v3), Point(x + 1, y))
    ensures f2 == EdgeI32(P(t.v3), P(t.v2), Point(x + 1, y))
    ensures f3 == EdgeI32(P(t.v2), P(t.v1), Point(x + 1, y))
  {
    var a1, a2, a3 := P(t.v1), P(t.v2), P(t.v3);
    EdgeI32StepX(a1, a3, Point(x, y));
    EdgeI32StepX(a3, a2, Point(x, y));
    EdgeI32StepX(a2, a1, Point(x, y));
    f1 := WrapI32(e1 + WrapI32(a3.y - a1.y));
    f2 := WrapI32(e2 + WrapI32(a2.y - a3.y));
    f3 := WrapI32(e3 + WrapI32(a1.y - a2.y));
  }

  /** The per-row update `e_row += (i32)a.x - (i32)b.x`: the edge values at
      the start of a row move from (x, y) to (x, y + 1). */
  method StepDown(t: RawTriangle, x: int, y: int, e1: i32, e2: i32, e3: i32) returns (f1: i32, f2: i32, f3: i32)
    requires e1 == EdgeI32(P(t.v1), P(t.v3), Point(x, y))
    requires e2 == EdgeI32(P(t.v3), P(t.v2), Point(x, y))
    requires e3 == EdgeI32(P(t.v2), P(t.v1), Point(x, y))
    ensures f1 == EdgeI32(P(t.v1), P(t.v3), Point(x, y + 1))
    ensures f2 == EdgeI32(P(t.v3), P(t.v2), Point(x, y + 1))
    ensures f3 == EdgeI32(P(t.v2), P(t.v1), Point(x, y + 1))
  {
    var a1, a2, a3 := P(t.v1), P(t.v2), P(t.v3);
    EdgeI32StepY(a1, a3, Point(x, y));
    EdgeI32StepY(a3, a2, Point(x, y));
    EdgeI32StepY(a2, a1, Point(x, y));
    f1 := WrapI32(e1 + WrapI32(a1.x - a3.x));
    f2 := WrapI32(e2 + WrapI32(a3.x - a2.x));
    f3 := WrapI32(e3 + WrapI32(a2.x - a1.x));
  }

  /** One scanline of the clamped box, with the edge values at its first
      pixel handed in: pixels of row y become `PixelAfter` of their previous
      value, every other row is left as it was. */
  method DrawRow(pixels: PixelBuffer, depth: DepthBuffer, t: RawTriangle, tex: Texture,
                 depthTest: bool, shade: (int, int, Depths) -> Fragment, y: int, e1Start: i32, e2Start: i32, e3Start: i32)
    returns (pixels': PixelBuffer, depth': DepthBuffer)
    requires ValidTexture(tex)
    requires ClampedBox(t).minY <= y < ClampedBox(t).maxY
    requires e1Start == EdgeI32(P(t.v1), P(t.v3), Point(ClampedBox(t).minX, y))
    requires e2Start == EdgeI32(P(t.v3), P(t.v2), Point(ClampedBox(t).minX, y))
    requires e3Start == EdgeI32(P(t.v2), P(t.v1), Point(ClampedBox(t).minX, y))
    ensures forall px, py :: OnScreen(px, py) && py == y ==>
      Sample(pixels'[Idx(px, py)], depth'[Idx(px, py)])
        == PixelAfter(t, tex, depthTest, shade, px, py, Sample(pixels[Idx(px, py)], depth[Idx(px, py)]))
    ensures forall px, py :: OnScreen(px, py) && py != y ==>
      pixels'[Idx(px, py)] == pixels[Idx(px, py)] && depth'[Idx(px, py)] == depth[Idx(px, py)]
  {
    var b := ClampedBox(t);
    var a1, a2, a3 := P(t.v1), P(t.v2), P(t.v3);
    var e1, e2, e3 := e1Start, e2Start, e3Start;
    pixels', depth' := pixels, depth;
    var x := b.minX;
    while x < b.maxX
      invariant b.minX <= x <= b.maxX
      invariant e1 == EdgeI32(a1, a3, Point(x, y))
      invariant e2 == EdgeI32(a3, a2, Point(x, y))
      invariant e3 == EdgeI32(a2, a1, Point(x, y))
      invariant forall px, py :: OnScreen(px, py) ==>
        Sample(pixels'[Idx(px, py)], depth'[Idx(px, py)])
          == var before := Sample(pixels[Idx(px, py)], depth[Idx(px, py)]);
             if py == y && px < x then PixelAfter(t, tex, depthTest, shade, px, py, before) else before
    {
      var covered := SignTest(e1, e2, e3);
      pixels', depth' := ShadePixel(pixels', depth', t, tex, depthTest, shade, x, y, covered);
      e1, e2, e3 := StepRight(t, x, y, e1, e2, e3);
      x := x + 1;
    }
  }

  /** `draw_triangle_raw`: every on-screen pixel ends as `PixelAfter` of its
      value before the call; in particular nothing outside the clamped box
      or outside the triangle changes, and a depth-tested pixel changes its
      colour and depth together or not at all. */
  method DrawTriangleRaw(pixels: PixelBuffer, depth: DepthBuffer, t: RawTriangle, tex: Texture,
                         depthTest: bool, shade: (int, int, Depths) -> Fragment)
    returns (pixels': PixelBuffer, depth': DepthBuffer)
    requires ValidTexture(tex)
    ensures forall x, y :: OnScreen(x, y) ==>
      Sample(pixels'[Idx(x, y)], depth'[Idx(x, y)])
        == PixelAfter(t, tex, depthTest, shade, x, y, Sample(pixels[Idx(x, y)], depth[Idx(x, y)]))
  {
    var b := ClampedBox(t);
    var a1, a2, a3 := P(t.v1), P(t.v2), P(t.v3);

    var eRow1 := EdgeI32(a1, a3, Point(b.minX, b.minY));
    var eRow2 := EdgeI32(a3, a2, Point(b.minX, b.minY));
    var eRow3 := EdgeI32(a2, a1, Point(b.minX, b.minY));

    pixels', depth' := pixels, depth;
    var y := b.minY;
    while y < b.maxY
      invariant b.minY <= y <= b.maxY
      invariant eRow1 == EdgeI32(a1, a3, Point(b.minX, y))
      invariant eRow2 == EdgeI32(a3, a2, Point(b.minX, y))
      invariant eRow3 == EdgeI32(a2, a1, Point(b.minX, y))
      invariant forall px, py :: OnScreen(px, py) && py < y ==>
        Sample(pixels'[Idx(px, py)], depth'[Idx(px, py)])
          == PixelAfter(t, tex, depthTest, shade, px, py, Sample(pixels[Idx(px, py)], depth[Idx(px, py)]))
      invariant forall px, py :: OnScreen(px, py) && py >= y ==>
        pixels'[Idx(px, py)] == pixels[Idx(px, py)] && depth'[Idx(px, py)] == depth[Idx(px, py)]
    {
      pixels', depth' := DrawRow(pixels', depth', t, tex, depthTest, shade, y, eRow1, eRow2, eRow3);
      eRow1, eRow2, eRow3 := StepDown(t, b.minX, y, eRow1, eRow2, eRow3);
      y := y + 1;
    }
  }
}
