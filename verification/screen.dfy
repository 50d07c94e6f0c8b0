/** The fixed-resolution frame: a packed-colour pixel buffer and a depth
    buffer of SCREEN_WIDTH x SCREEN_HEIGHT entries, addressed row-major. */
module Screen {
  import opened Machine

  const SCREEN_WIDTH: int := 427
  const SCREEN_HEIGHT: int := 240
  const PIXEL_COUNT: int := SCREEN_WIDTH * SCREEN_HEIGHT

  /** Packed 0xBBGGRRAA colour word. */
  type Color = bv32

  type PixelBuffer = s: seq<Color> | |s| == PIXEL_COUNT
    witness seq(PIXEL_COUNT, i => 0 as bv32)

  /** A depth buffer of `int32_t` entries (the current renderer). */
  type DepthBuffer = s: seq<i32> | |s| == PIXEL_COUNT
    witness seq(PIXEL_COUNT, i => 0)

  /** A depth buffer of `uint32_t` entries (the earlier renderer). */
  type DepthBufferU = s: seq<u32> | |s| == PIXEL_COUNT
    witness seq(PIXEL_COUNT, i => 0)

  predicate OnScreen(x: int, y: int) {
    0 <= x < SCREEN_WIDTH && 0 <= y < SCREEN_HEIGHT
  }

  /** Buffer slot of pixel (x, y): `y * SCREEN_WIDTH + x`. */
  function Idx(x: int, y: int): int {
    y * SCREEN_WIDTH + x
  }

  /** Every on-screen pixel has a slot inside the buffer. */
  lemma IdxInBounds(x: int, y: int)
    requires OnScreen(x, y)
    ensures 0 <= Idx(x, y) < PIXEL_COUNT
  {
  }

  /** Distinct on-screen pixels have distinct slots. */
  lemma IdxInjective(x1: int, y1: int, x2: int, y2: int)
    requires OnScreen(x1, y1) && OnScreen(x2, y2)
    requires Idx(x1, y1) == Idx(x2, y2)
    ensures x1 == x2 && y1 == y2
  {
  }

  /** Every buffer slot is the slot of exactly the pixel (i % W, i / W). */
  lemma IdxSurjective(i: int)
    requires 0 <= i < PIXEL_COUNT
    ensures OnScreen(i % SCREEN_WIDTH, i / SCREEN_WIDTH)
    ensures Idx(i % SCREEN_WIDTH, i / SCREEN_WIDTH) == i
  {
  }

  /** The SET_PIXEL macro: the write happens only for on-screen (x, y). */
  function SetPixel(pixels: PixelBuffer, x: int, y: int, c: Color): (r: PixelBuffer)
    ensures OnScreen(x, y) ==> r[Idx(x, y)] == c
    ensures forall i :: 0 <= i < PIXEL_COUNT && (!OnScreen(x, y) || i != Idx(x, y)) ==> r[i] == pixels[i]
  {
    if OnScreen(x, y) then pixels[Idx(x, y) := c] else pixels
  }

  /** The buffer clear in `present`: the frame handed to the display is the
      buffer as drawn, after which every pixel is 0 and, when depth testing is
      on, every depth slot is 0 ("unwritten"). */
  function Present<D>(pixels: PixelBuffer, depth: seq<D>, depthTest: bool, zero: D): (r: (seq<Color>, PixelBuffer, seq<D>))
    ensures r.0 == pixels
    ensures forall i :: 0 <= i < PIXEL_COUNT ==> r.1[i] == 0
    ensures |r.2| == |depth|
    ensures forall i :: 0 <= i < |depth| ==> r.2[i] == if depthTest then zero else depth[i]
  {
    (pixels, seq(PIXEL_COUNT, i => 0 as bv32), if depthTest then seq(|depth|, i => zero) else depth)
  }
}
