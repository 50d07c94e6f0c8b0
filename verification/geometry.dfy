/** Integer screen-space geometry shared by both rasterizers: three-way
    minimum and maximum, the edge function and its incremental stepping, the
    bounding-box clamp and the two area formulas. */
module Geometry {
  import opened Machine
  import opened Screen

  datatype Point = Point(x: int, y: int)

  /** Screen-space vertex of a triangle after the perspective divide: integer
      pixel position and quantized depth (`RawVertex.pos`). */
  datatype RawVertex = RawVertex(x: i32, y: i32, z: i32)

  datatype RawTriangle = RawTriangle(v1: RawVertex, v2: RawVertex, v3: RawVertex)

  function P(v: RawVertex): Point { Point(v.x, v.y) }

  /** Three-way `min` (the first of the minimal arguments). */
  function Min3(a: int, b: int, c: int): (m: int)
    ensures m == a || m == b || m == c
    ensures m <= a && m <= b && m <= c
  {
    if a <= b && a <= c then a
    else if b <= a && b <= c then b
    else c
  }

  /** Three-way `max` (the first of the maximal arguments). */
  function Max3(a: int, b: int, c: int): (m: int)
    ensures m == a || m == b || m == c
    ensures m >= a && m >= b && m >= c
  {
    if a >= b && a >= c then a
    else if b >= a && b >= c then b
    else c
  }

  /** `edge_function(a, b, c)` over exact integers: twice the signed area of
      the triangle (a, c, b), zero when c lies on the line through a and b. */
  function Edge(a: Point, b: Point, c: Point): int {
    (c.x - a.x) * (b.y - a.y) - (c.y - a.y) * (b.x - a.x)
  }

  /** `edge_function` as the source computes it, in 32-bit arithmetic. */
  function EdgeI32(a: Point, b: Point, c: Point): i32 {
    WrapI32(Edge(a, b, c))
  }

  /** Reversing the edge negates the value; a point on the edge's line gives 0. */
  lemma EdgeAntisymmetric(a: Point, b: Point, c: Point)
    ensures Edge(b, a, c) == -Edge(a, b, c)
    ensures Edge(a, b, a) == 0 && Edge(a, b, b) == 0
  {
  }

  /** One column to the right changes the edge value by `b.y - a.y`. */
  lemma EdgeStepX(a: Point, b: Point, c: Point)
    ensures Edge(a, b, Point(c.x + 1, c.y)) == Edge(a, b, c) + (b.y - a.y)
  {
  }

  /** One row down changes the edge value by `a.x - b.x`. */
  lemma EdgeStepY(a: Point, b: Point, c: Point)
    ensures Edge(a, b, Point(c.x, c.y + 1)) == Edge(a, b, c) + (a.x - b.x)
  {
  }

  /** The per-column update `e += (i32)b.y - (i32)a.y`, in 32-bit wrapping
      arithmetic, turns the 32-bit edge value at c into the one at the next
      column. */
  lemma EdgeI32StepX(a: Point, b: Point, c: Point)
    ensures EdgeI32(a, b, Point(c.x + 1, c.y)) == WrapI32(EdgeI32(a, b, c) + WrapI32(b.y - a.y))
  {
    EdgeStepX(a, b, c);
    WrapI32Add(Edge(a, b, c), b.y - a.y);
  }

  /** The per-row update `e_row += (i32)a.x - (i32)b.x` likewise moves the
      32-bit edge value one row down. */
  lemma EdgeI32StepY(a: Point, b: Point, c: Point)
    ensures EdgeI32(a, b, Point(c.x, c.y + 1)) == WrapI32(EdgeI32(a, b, c) + WrapI32(a.x - b.x))
  {
    EdgeStepY(a, b, c);
    WrapI32Add(Edge(a, b, c), a.x - b.x);
  }

  /** The numerator `x1*(y2-y3) + x2*(y3-y1) + x3*(y1-y2)` of the area formula. */
  function AreaNumerator(t: RawTriangle): int {
    t.v1.x * (t.v2.y - t.v3.y) + t.v2.x * (t.v3.y - t.v1.y) + t.v3.x * (t.v1.y - t.v2.y)
  }

  /** The three edge values scanned by the rasterizer sum, at every point,
      to the area numerator: they are the three sub-areas of the triangle. */
  lemma EdgesSumToArea(t: RawTriangle, p: Point)
    ensures Edge(P(t.v1), P(t.v3), p) + Edge(P(t.v3), P(t.v2), p) + Edge(P(t.v2), P(t.v1), p) == AreaNumerator(t)
  {
  }

  /** A point inside all three edges of a triangle with positive area
      numerator has every edge value at most that numerator. */
  lemma InsideEdgesBounded(t: RawTriangle, p: Point)
    requires Edge(P(t.v1), P(t.v3), p) >= 0 && Edge(P(t.v3), P(t.v2), p) >= 0 && Edge(P(t.v2), P(t.v1), p) >= 0
    ensures 0 <= Edge(P(t.v1), P(t.v3), p) <= AreaNumerator(t)
    ensures AreaNumerator(t) >= 0
  {
    EdgesSumToArea(t, p);
  }

  /** The inside test: the three 32-bit edge values of edges v1->v3, v3->v2
      and v2->v1 are all non-negative at (x, y). */
  predicate Inside(t: RawTriangle, x: int, y: int) {
    && EdgeI32(P(t.v1), P(t.v3), Point(x, y)) >= 0
    && EdgeI32(P(t.v3), P(t.v2), Point(x, y)) >= 0
    && EdgeI32(P(t.v2), P(t.v1), Point(x, y)) >= 0
  }

  /** `(e1 | e2 | e3) >= 0` on 32-bit two's-complement words. */
  predicate OrNonNegative(e1: i32, e2: i32, e3: i32) {
    Bits(e1) | Bits(e2) | Bits(e3) < 0x8000_0000
  }

  /** The bitwise-or sign test accepts exactly when all three values are
      non-negative, so it is the inside test written with one comparison. */
  lemma OrNonNegativeIff(e1: i32, e2: i32, e3: i32)
    ensures OrNonNegative(e1, e2, e3) <==> e1 >= 0 && e2 >= 0 && e3 >= 0
  {
    SignBitClear(e1);
    SignBitClear(e2);
    SignBitClear(e3);
    OrSignBit(Bits(e1), Bits(e2), Bits(e3));
  }

  /** The top bit of an or is set iff it is set in one of the operands. */
  lemma OrSignBit(a: bv32, b: bv32, c: bv32)
    ensures a | b | c < 0x8000_0000 <==> a < 0x8000_0000 && b < 0x8000_0000 && c < 0x8000_0000
  {
  }

  /** `SDL_clamp(v, lo, hi)`. */
  function Clamp(v: int, lo: int, hi: int): (r: int)
    requires lo <= hi
    ensures lo <= r <= hi
    ensures lo <= v <= hi ==> r == v
    ensures v < lo ==> r == lo
    ensures v > hi ==> r == hi
  {
    if v < lo then lo else if v > hi then hi else v
  }

  /** A half-open scan rectangle [minX, maxX) x [minY, maxY). */
  datatype Box = Box(minX: int, minY: int, maxX: int, maxY: int)

  predicate InBox(b: Box, x: int, y: int) {
    b.minX <= x < b.maxX && b.minY <= y < b.maxY
  }

  /** The bounding box of the triangle's vertices, unclamped. */
  function BoundingBox(t: RawTriangle): (b: Box)
    ensures b.minX <= b.maxX && b.minY <= b.maxY
  {
    Box(Min3(t.v1.x, t.v2.x, t.v3.x), Min3(t.v1.y, t.v2.y, t.v3.y),
        Max3(t.v1.x, t.v2.x, t.v3.x), Max3(t.v1.y, t.v2.y, t.v3.y))
  }

  /** The bounding box clamped to [0, SCREEN_WIDTH] x [0, SCREEN_HEIGHT], as
      the current renderer scans it. */
  function ClampedBox(t: RawTriangle): (b: Box)
    ensures 0 <= b.minX <= b.maxX <= SCREEN_WIDTH
    ensures 0 <= b.minY <= b.maxY <= SCREEN_HEIGHT
  {
    var raw := BoundingBox(t);
    Box(Clamp(raw.minX, 0, SCREEN_WIDTH), Clamp(raw.minY, 0, SCREEN_HEIGHT),
        Clamp(raw.maxX, 0, SCREEN_WIDTH), Clamp(raw.maxY, 0, SCREEN_HEIGHT))
  }

  /** The clamped box scans exactly the on-screen part of the bounding box,
      so every scanned pixel has a slot `y * SCREEN_WIDTH + x` in the buffers. */
  lemma ClampedBoxIsOnScreenPart(t: RawTriangle, x: int, y: int)
    ensures InBox(ClampedBox(t), x, y) <==> InBox(BoundingBox(t), x, y) && OnScreen(x, y)
    ensures InBox(ClampedBox(t), x, y) ==> 0 <= Idx(x, y) < PIXEL_COUNT
  {
  }

  /** Twice the triangle's area, halved with `>> 1` (the current renderer). */
  function TriangleArea(t: RawTriangle): (a: nat)
    ensures 2 * a <= if AreaNumerator(t) >= 0 then AreaNumerator(t) else -AreaNumerator(t)
    ensures 2 * a + 1 >= if AreaNumerator(t) >= 0 then AreaNumerator(t) else -AreaNumerator(t)
  {
    var n := AreaNumerator(t);
    (if n >= 0 then n else -n) / 2
  }

  /** Half the bounding-box area, `((max_x-min_x)*(max_y-min_y)) >> 1` (the
      earlier renderer). */
  function BoxArea(t: RawTriangle): int
  {
    var b := BoundingBox(t);
    ((b.maxX - b.minX) * (b.maxY - b.minY)) / 2
  }

  /** The triangle never has more than half its bounding box's area, so the
      earlier renderer's `area` is at least the current one's, and the two
      differ on ordinary triangles. */
  lemma BoxAreaBoundsTriangleArea(t: RawTriangle)
    ensures TriangleArea(t) <= BoxArea(t)
  {
    var b := BoundingBox(t);
    var n := AreaNumerator(t);
    TwiceAreaWithinBox(t);
  }

  /** Twice a triangle's area is at most its bounding box's area. */
  lemma TwiceAreaWithinBox(t: RawTriangle)
    ensures var b := BoundingBox(t);
            var n := AreaNumerator(t);
            -(b.maxX - b.minX) * (b.maxY - b.minY) <= n <= (b.maxX - b.minX) * (b.maxY - b.minY)
  {
    var b := BoundingBox(t);
    BoxedAreaBound(t.v1.x, t.v1.y, t.v2.x, t.v2.y, t.v3.x, t.v3.y, b.minX, b.minY, b.maxX, b.maxY);
  }

  /** The area bound for any box containing the three vertices. */
  lemma BoxedAreaBound(ax: int, ay: int, qx: int, qy: int, cx: int, cy: int,
                       minX: int, minY: int, maxX: int, maxY: int)
    requires minX <= ax <= maxX && minX <= qx <= maxX && minX <= cx <= maxX
    requires minY <= ay <= maxY && minY <= qy <= maxY && minY <= cy <= maxY
    ensures var n := ax * (qy - cy) + qx * (cy - ay) + cx * (ay - qy);
            -((maxX - minX) * (maxY - minY)) <= n <= (maxX - minX) * (maxY - minY)
  {
    // Translate so the box's corner is the origin; then every coordinate lies
    // in [0, w] x [0, h] and the numerator is a sum of bounded products.
    var w, h := maxX - minX, maxY - minY;
    var d1, d2, d3 := qy - cy, cy - ay, ay - qy;
    NumeratorTranslates(ax, qx, cx, d1, d2, d3, minX);
    TranslatedAreaBound(ax - minX, qx - minX, cx - minX, ay - minY, qy - minY, cy - minY, d1, d2, d3, w, h);
  }

  /** Weights of differences that sum to zero are unchanged by a common
      shift, so the area numerator is unchanged by translating the x
      coordinates. */
  lemma NumeratorTranslates(ax: int, qx: int, cx: int, d1: int, d2: int, d3: int, ox: int)
    requires d1 + d2 + d3 == 0
    ensures ax * d1 + qx * d2 + cx * d3 == (ax - ox) * d1 + (qx - ox) * d2 + (cx - ox) * d3
  {
    assert (ax - ox) * d1 == ax * d1 - ox * d1;
    assert (qx - ox) * d2 == qx * d2 - ox * d2;
    assert (cx - ox) * d3 == cx * d3 - ox * d3;
    assert ox * d1 + ox * d2 + ox * d3 == ox * (d1 + d2 + d3);
  }

  lemma TranslatedAreaBound(ax: int, qx: int, cx: int, ay: int, qy: int, cy: int,
                            d1: int, d2: int, d3: int, w: int, h: int)
    requires 0 <= ax <= w && 0 <= qx <= w && 0 <= cx <= w
    requires 0 <= ay <= h && 0 <= qy <= h && 0 <= cy <= h
    requires d1 == qy - cy && d2 == cy - ay && d3 == ay - qy
    ensures -(w * h) <= ax * d1 + qx * d2 + cx * d3 <= w * h
  {
    // The numerator is x-weighted by three y-differences that sum to zero;
    // their positive parts, and likewise their negative parts, add up to
    // max(y) - min(y) <= h, and each x is at most w.
    ScaledPart(ax, d1, w);
    ScaledPart(qx, d2, w);
    ScaledPart(cx, d3, w);
    PartsWithinRange(ay, qy, cy, h);
    var pos := PosPart(d1) + PosPart(d2) + PosPart(d3);
    var neg := PosPart(-d1) + PosPart(-d2) + PosPart(-d3);
    Distribute3(w, PosPart(d1), PosPart(d2), PosPart(d3));
    Distribute3(w, PosPart(-d1), PosPart(-d2), PosPart(-d3));
    MulMonotone(w, pos, h);
    MulMonotone(w, neg, h);
  }

  /** The three cyclic differences of values in [0, h] have positive parts,
      and negative parts, that each add up to at most h. */
  lemma PartsWithinRange(ay: int, qy: int, cy: int, h: int)
    requires 0 <= ay <= h && 0 <= qy <= h && 0 <= cy <= h
    ensures PosPart(qy - cy) + PosPart(cy - ay) + PosPart(ay - qy) <= h
    ensures PosPart(-(qy - cy)) + PosPart(-(cy - ay)) + PosPart(-(ay - qy)) <= h
  {
  }

  lemma Distribute3(w: int, a: int, b: int, c: int)
    ensures w * a + w * b + w * c == w * (a + b + c)
  {
  }

  function PosPart(d: int): nat { if d >= 0 then d else 0 }

  /** For 0 <= a <= w, the product a * d lies between -w * (negative part of d)
      and w * (positive part of d). */
  lemma ScaledPart(a: int, d: int, w: int)
    requires 0 <= a <= w
    ensures -(w * PosPart(-d)) <= a * d <= w * PosPart(d)
  {
    if d >= 0 {
      assert (w - a) * d >= 0;
      assert a * d >= 0;
    } else {
      assert (w - a) * (-d) >= 0;
      assert a * (-d) >= 0;
    }
  }

  /** A triangle on which the two area formulas differ: (0,0), (4,2), (2,4)
      has area 6 but half its bounding box is 8. */
  lemma AreaFormulasDiffer()
    ensures var t := RawTriangle(RawVertex(0, 0, 0), RawVertex(4, 2, 0), RawVertex(2, 4, 0));
            TriangleArea(t) == 6 && BoxArea(t) == 8
  {
  }
}
