/** `draw_line_raw`, the integer Bresenham line of both renderers: the line is
    normalised so that it runs left to right along its major axis, then one
    pixel is plotted per major-axis step while an error term decides when the
    minor coordinate moves. */
module Line {
  import opened Machine
  import opened Screen
  import opened Geometry

  /** The line after the steep/swap normalisation: in the normalised frame the
      loop runs over x from `x1` to `x2`; `major` and `minor` are the deltas the
      error term adds and subtracts. */
  datatype Plan = Plan(steep: bool, x1: u32, y1: u32, x2: u32, y2: u32, major: u32, minor: u32)

  /** The distance between two `uint32_t` values, taken without wrap-around. */
  function Dist(a: u32, b: u32): (r: u32)
    ensures r == a - b || r == b - a
  {
    if a > b then a - b else b - a
  }

  /** The screen pixel for normalised coordinates: a steep line plots with
      the coordinates exchanged back. */
  function Plot(steep: bool, x: int, y: int): Point {
    if steep then Point(y, x) else Point(x, y)
  }

  /** The normalisation at the top of `draw_line_raw`: exchange x and y when
      the line is steep (|dy| > |dx|), then exchange the endpoints when they
      run right to left. The major delta is the larger of |dx| and |dy|, the
      minor delta the smaller, and the two endpoints are preserved. */
  function Normalize(x1: u32, y1: u32, x2: u32, y2: u32): (p: Plan)
    ensures p.steep <==> Dist(y1, y2) > Dist(x1, x2)
    ensures p.major == Max2(Dist(x1, x2), Dist(y1, y2)) && p.minor <= p.major
    ensures p.minor == Min2(Dist(x1, x2), Dist(y1, y2))
    ensures p.x1 <= p.x2 && p.x2 - p.x1 == p.major
    ensures p.minor == Dist(p.y1, p.y2)
    ensures || (Plot(p.steep, p.x1, p.y1) == Point(x1, y1) && Plot(p.steep, p.x2, p.y2) == Point(x2, y2))
            || (Plot(p.steep, p.x1, p.y1) == Point(x2, y2) && Plot(p.steep, p.x2, p.y2) == Point(x1, y1))
  {
    var dx, dy := Dist(x1, x2), Dist(y1, y2);
    var steep := dy > dx;
    var a1, b1, a2, b2 := if steep then y1 else x1, if steep then x1 else y1,
                          if steep then y2 else x2, if steep then x2 else y2;
    var major, minor := if steep then dy else dx, if steep then dx else dy;
    if a1 > a2 then Plan(steep, a2, b2, a1, b1, major, minor)
    else Plan(steep, a1, b1, a2, b2, major, minor)
  }

  function Max2(a: int, b: int): int { if a >= b then a else b }

  function Min2(a: int, b: int): int { if a <= b then a else b }

  /** The buffer after SET_PIXEL of `color` at each point in turn. */
  function Paint(pixels: PixelBuffer, points: seq<Point>, color: Color): PixelBuffer
  {
    if |points| == 0 then pixels
    else
      var q := points[|points| - 1];
      SetPixel(Paint(pixels, points[..|points| - 1], color), q.x, q.y, color)
  }

  /** Painting a list of points colours exactly the on-screen pixels among
      them; every other slot keeps its value. */
  lemma {:induction false} PaintSpec(pixels: PixelBuffer, points: seq<Point>, color: Color, x: int, y: int)
    requires OnScreen(x, y)
    ensures Paint(pixels, points, color)[Idx(x, y)] == if Point(x, y) in points then color else pixels[Idx(x, y)]
  {
    if |points| > 0 {
      var init, q := points[..|points| - 1], points[|points| - 1];
      assert points == init + [q];
      PaintSpec(pixels, init, color, x, y);
      if q != Point(x, y) && OnScreen(q.x, q.y) && Idx(q.x, q.y) == Idx(x, y) {
        IdxInjective(x, y, q.x, q.y);
      }
    }
  }

  /** Pixels painted off the screen leave the buffer unchanged. */
  lemma {:induction false} PaintOffScreen(pixels: PixelBuffer, points: seq<Point>, color: Color)
    requires forall k :: 0 <= k < |points| ==> !OnScreen(points[k].x, points[k].y)
    ensures Paint(pixels, points, color) == pixels
  {
    if |points| > 0 {
      PaintOffScreen(pixels, points[..|points| - 1], color);
    }
  }

  /** The minor-axis offset of the k-th plotted pixel: the number of times the
      error term has reached the major delta, which is floor(k * minor / major). */
  function Offset(p: Plan, k: nat): int
    requires p.major > 0
  {
    k * p.minor / p.major
  }

  /** The k-th pixel of the ideal line: one major step per pixel, the minor
      coordinate moving towards `y2` by `Offset`. */
  function Ideal(p: Plan, k: nat): Point
    requires p.major > 0
  {
    var y := if p.y2 > p.y1 then p.y1 + Offset(p, k) else p.y1 - Offset(p, k);
    Plot(p.steep, p.x1 + k, y)
  }

  /** The error term never wraps: it stays below `major`, so adding `minor`
      fits in 32 bits exactly when major + minor <= 2^32. */
  predicate NoWrap(p: Plan) {
    p.major + p.minor <= TWO_32
  }

  /** `Offset` is the floor of k * minor / major: it under-approximates the
      exact minor coordinate by less than one pixel, and never passes `minor`
      while k stays below `major`. */
  lemma OffsetIsFloor(p: Plan, k: nat)
    requires p.major > 0 && p.minor <= p.major && k <= p.major
    ensures Offset(p, k) * p.major <= k * p.minor < Offset(p, k) * p.major + p.major
    ensures 0 <= Offset(p, k) <= p.minor
  {
    FloorOfProduct(k, p.minor, p.major);
  }

  /** floor(k * a / m) for 0 <= k <= m and 0 <= a <= m lies in [0, a]. */
  lemma FloorOfProduct(k: nat, a: nat, m: nat)
    requires m > 0 && a <= m && k <= m
    ensures var q := k * a / m; q * m <= k * a < q * m + m && 0 <= q <= a
  {
    var n := k * a;
    var q := n / m;
    DivBounds(n, m);
    MulMonotone(a, k, m);
    if q > a {
      MulMonotone(m, a + 1, q);
    }
  }

  /** The ideal line is 8-connected: each pixel moves exactly one step along
      the major axis and at most one step along the minor axis, towards `y2`. */
  lemma IdealStepsByAtMostOne(p: Plan, k: nat)
    requires p.major > 0 && p.minor <= p.major && k + 1 <= p.major
    ensures var d := Offset(p, k + 1) - Offset(p, k); d == 0 || d == 1
  {
    ConsecutiveFloors(k, p.minor, p.major);
  }

  /** floor((k + 1) * a / m) - floor(k * a / m) is 0 or 1 when a <= m. */
  lemma ConsecutiveFloors(k: nat, a: nat, m: nat)
    requires m > 0 && a <= m && k + 1 <= m
    ensures var d := (k + 1) * a / m - k * a / m; d == 0 || d == 1
  {
    assert (k + 1) * a == k * a + a;
    StepFloor(k * a, a, m);
  }

  /** Adding a <= m to n moves the quotient by m up by one exactly when the
      remainder overflows past m. */
  lemma StepFloor(n: int, a: int, m: int)
    requires m > 0 && 0 <= a <= m
    ensures var r := n % m + a;
            && (r < m ==> (n + a) / m == n / m && (n + a) % m == r)
            && (r >= m ==> (n + a) / m == n / m + 1 && (n + a) % m == r - m)
  {
    var q, r := n / m, n % m;
    DivBounds(n, m);
    if r + a < m {
      FloorUnique(n + a, m, q, r + a);
    } else {
      assert (q + 1) * m == q * m + m;
      FloorUnique(n + a, m, q + 1, r + a - m);
    }
  }

  /** The loop state after k pixels, while the error term does not wrap:
      the error term is the remainder of k * minor by major, and `y` has moved
      `Offset` pixels from `y1` towards `y2`. */
  ghost predicate Tracks(p: Plan, k: nat, y: int, decision: int)
    requires p.major > 0
  {
    && decision == k * p.minor % p.major
    && y == (if p.y2 > p.y1 then p.y1 + Offset(p, k) else p.y1 - Offset(p, k))
  }

  /** `draw_line_raw`: `points` lists the pixels handed to SET_PIXEL, in
      order. The loop runs `major` times (once per column of the normalised
      frame, the far endpoint excluded) and the buffer is the old one with
      those points painted. When the error term cannot wrap, the k-th point
      is the k-th pixel of the ideal line. */
  method DrawLineRaw(pixels: PixelBuffer, x1: u32, y1: u32, x2: u32, y2: u32, color: Color)
    returns (pixels': PixelBuffer, points: seq<Point>)
    ensures var p := Normalize(x1, y1, x2, y2);
            && |points| == p.major
            && pixels' == Paint(pixels, points, color)
            && (NoWrap(p) ==> forall k :: 0 <= k < |points| ==> points[k] == Ideal(p, k))
  {
    var p := Normalize(x1, y1, x2, y2);
    var y: u32 := p.y1;
    var decision: u32 := 0;
    pixels', points := pixels, [];
    var x: u32 := p.x1;
    if p.major > 0 {
      TracksAtStart(p);
    }
    while x < p.x2
      invariant p.x1 <= x <= p.x2 && |points| == x - p.x1
      invariant pixels' == Paint(pixels, points, color)
      invariant NoWrap(p) && p.major > 0 ==> Tracks(p, x - p.x1, y, decision)
      invariant NoWrap(p) ==> forall k :: 0 <= k < |points| ==> points[k] == Ideal(p, k)
    {
      var q := Plot(p.steep, x, y);
      PaintAppend(pixels, points, q, color);
      if NoWrap(p) {
        ExtendIdeal(p, points, x, y, decision);
      }
      points := points + [q];
      pixels' := SetPixel(pixels', q.x, q.y, color);
      decision, y := Advance(p, x, y, decision);
      x := x + 1;
    }
  }

  /** One update of the error term after a pixel is plotted: add `minor`,
      and when the sum reaches `major`, step `y` towards `y2` and subtract
      `major`. Without wrap-around this moves the loop state from k to k + 1
      pixels. */
  method Advance(p: Plan, x: u32, y: u32, decision: u32) returns (decision': u32, y': u32)
    requires p.x1 <= x < p.x2 && p.x2 - p.x1 == p.major && p.minor <= p.major && p.minor == Dist(p.y1, p.y2)
    requires NoWrap(p) ==> Tracks(p, x - p.x1, y, decision)
    ensures NoWrap(p) ==> Tracks(p, x + 1 - p.x1, y', decision')
  {
    decision' := WrapU32(decision + p.minor);
    y' := y;
    if decision' >= p.major {
      if p.y2 > p.y1 {
        y' := WrapU32(y + 1);
      } else {
        y' := WrapU32(y - 1);
      }
      decision' := WrapU32(decision' - p.major);
    }
    if NoWrap(p) {
      StepTracks(p, x - p.x1, y, decision);
    }
  }

  /** Painting one more point is one more SET_PIXEL. */
  lemma PaintAppend(pixels: PixelBuffer, points: seq<Point>, q: Point, color: Color)
    ensures Paint(pixels, points + [q], color) == SetPixel(Paint(pixels, points, color), q.x, q.y, color)
  {
    assert (points + [q])[..|points|] == points;
  }

  /** The pixel plotted from a tracking loop state is the next ideal pixel. */
  lemma ExtendIdeal(p: Plan, points: seq<Point>, x: int, y: int, decision: int)
    requires p.major > 0 && p.x1 <= x && |points| == x - p.x1
    requires Tracks(p, x - p.x1, y, decision)
    requires forall k :: 0 <= k < |points| ==> points[k] == Ideal(p, k)
    ensures forall k :: 0 <= k < |points| + 1 ==> (points + [Plot(p.steep, x, y)])[k] == Ideal(p, k)
  {
  }

  /** Before the first pixel the error term is 0 and `y` is `y1`. */
  lemma TracksAtStart(p: Plan)
    requires p.major > 0
    ensures Tracks(p, 0, p.y1, 0)
  {
    assert 0 * p.minor == 0;
  }

  /** The arithmetic behind `Advance`, on exact integers. */
  lemma StepTracks(p: Plan, k: nat, y: int, decision: int)
    requires p.major > 0 && k < p.major && p.minor <= p.major && p.minor == Dist(p.y1, p.y2)
    requires Tracks(p, k, y, decision)
    ensures var sum := decision + p.minor;
            var stepped := sum >= p.major;
            var dy := if p.y2 > p.y1 then 1 else -1;
            && 0 <= sum < 2 * p.major
            && Tracks(p, k + 1, if stepped then y + dy else y, if stepped then sum - p.major else sum)
            && Min2(p.y1, p.y2) <= (if stepped then y + dy else y) <= Max2(p.y1, p.y2)
  {
    assert (k + 1) * p.minor == k * p.minor + p.minor;
    StepFloor(k * p.minor, p.minor, p.major);
    FloorOfProduct(k + 1, p.minor, p.major);
  }
}
