/** Normalized-device-coordinate triangles and `sort_cw`, the winding
    normalizer applied before rasterization. Single-precision floats are
    modelled as exact reals. */
module Winding {

  datatype Vec3 = Vec3(x: real, y: real, z: real)

  datatype Uv = Uv(u: real, v: real)

  /** A vertex: position, the clip-space `w` kept for perspective-correct
      interpolation, and texture coordinates. */
  datatype Vertex = Vertex(pos: Vec3, w: real, uv: Uv)

  datatype Triangle = Triangle(v0: Vertex, v1: Vertex, v2: Vertex)

  /** The orientation value `a` of `sort_cw`: negative when vertices 1 and 2
      are counter-clockwise around vertex 0. */
  function Orientation(t: Triangle): real {
    (t.v0.pos.x - t.v1.pos.x) * (t.v2.pos.y - t.v1.pos.y)
      - (t.v0.pos.y - t.v1.pos.y) * (t.v2.pos.x - t.v1.pos.x)
  }

  /** Exchange vertices 1 and 2. */
  function Swap12(t: Triangle): Triangle {
    Triangle(t.v0, t.v2, t.v1)
  }

  predicate AllXEqual(t: Triangle) {
    t.v0.pos.x == t.v1.pos.x && t.v1.pos.x == t.v2.pos.x
  }

  predicate AllYEqual(t: Triangle) {
    t.v0.pos.y == t.v1.pos.y && t.v1.pos.y == t.v2.pos.y
  }

  /** `sort_cw`: triangles with all x equal or all y equal are returned as
      they are; otherwise vertices 1 and 2 are exchanged when the orientation
      is negative. */
  function SortCw(t: Triangle): (r: Triangle)
    ensures r.v0 == t.v0
    ensures r == t || r == Swap12(t)
    ensures Orientation(r) >= 0.0
    ensures AllXEqual(t) || AllYEqual(t) ==> r == t
  {
    SwapNegatesOrientation(t);
    if AllXEqual(t) then t
    else if AllYEqual(t) then t
    else if Orientation(t) < 0.0 then Swap12(t)
    else t
  }

  /** Exchanging vertices 1 and 2 negates the orientation value. */
  lemma SwapNegatesOrientation(t: Triangle)
    ensures Orientation(Swap12(t)) == -Orientation(t)
    ensures AllXEqual(t) || AllYEqual(t) ==> Orientation(t) == 0.0
  {
    var ax, ay := t.v0.pos.x - t.v1.pos.x, t.v0.pos.y - t.v1.pos.y;
    var cx, cy := t.v2.pos.x - t.v1.pos.x, t.v2.pos.y - t.v1.pos.y;
    // Relative to vertex 2 instead of vertex 1: (v0 - v2) = a - b, (v1 - v2) = -b.
    assert Orientation(Swap12(t)) == (ax - cx) * (-cy) - (ay - cy) * (-cx);
    assert (ax - cx) * (-cy) - (ay - cy) * (-cx) == -(ax * cy - ay * cx);
  }

  /** The two early returns change nothing: a triangle with all x or all y
      equal has orientation 0 and would not be swapped anyway, so `sort_cw`
      swaps exactly when the orientation is negative. */
  lemma SortCwSwapsIffNegative(t: Triangle)
    ensures SortCw(t) == (if Orientation(t) < 0.0 then Swap12(t) else t)
  {
    SwapNegatesOrientation(t);
  }

  /** Normalizing twice is normalizing once. */
  lemma SortCwIdempotent(t: Triangle)
    ensures SortCw(SortCw(t)) == SortCw(t)
  {
    var r := SortCw(t);
    SortCwSwapsIffNegative(r);
  }
}

/** The control flow of `draw_triangles`: each triangle of the batch is
    transformed to clip space, divided by `w`, checked against the near side,
    normalized with `sort_cw` and handed to the rasterizer. The matrix
    product is the `clip` parameter. */
module Batch {
  import opened Winding

  /** A clip-space position (x, y, z, w). */
  datatype Clip = Clip(x: real, y: real, z: real, w: real)

  /** `v.w == 0.0f ? 0.0f : a / v.w`. */
  function Divide(a: real, w: real): real {
    if w == 0.0 then 0.0 else a / w
  }

  /** The vertex after the perspective divide; `w` keeps the clip-space value
      and the texture coordinates are unchanged. */
  function Project(v: Vertex, c: Clip): (r: Vertex)
    ensures r.w == c.w && r.uv == v.uv
    ensures c.w != 0.0 ==> r.pos.x * c.w == c.x && r.pos.y * c.w == c.y && r.pos.z * c.w == c.z
    ensures c.w == 0.0 ==> r.pos == Vec3(0.0, 0.0, 0.0)
  {
    Vertex(Vec3(Divide(c.x, c.w), Divide(c.y, c.w), Divide(c.z, c.w)), c.w, v.uv)
  }

  /** The guard that ends the whole batch: depth or `w` not positive. */
  predicate Rejected(v: Vertex) {
    v.pos.z <= 0.0 || v.w <= 0.0
  }

  /** After the divide, a vertex passes the guard exactly when its clip-space
      z and w are both positive; in particular `w == 0` is always rejected. */
  lemma VisibleIffPositive(v: Vertex, c: Clip)
    ensures !Rejected(Project(v, c)) <==> c.z > 0.0 && c.w > 0.0
  {
    if c.w > 0.0 {
      var z := Project(v, c).pos.z;
      assert z * c.w == c.z;
      if z <= 0.0 {
        assert z * c.w <= 0.0;
      } else {
        assert z * c.w > 0.0;
      }
    }
  }

  /** The i-th triangle of the vertex array, `vertices[i * 3 .. i * 3 + 3]`. */
  function TriangleAt(vertices: seq<Vertex>, i: nat): Triangle
    requires 3 * i + 3 <= |vertices|
  {
    Triangle(vertices[3 * i], vertices[3 * i + 1], vertices[3 * i + 2])
  }

  function ProjectTriangle(t: Triangle, clip: Vertex -> Clip): Triangle {
    Triangle(Project(t.v0, clip(t.v0)), Project(t.v1, clip(t.v1)), Project(t.v2, clip(t.v2)))
  }

  /** A triangle all three of whose projected vertices pass the guard. */
  predicate Visible(t: Triangle, clip: Vertex -> Clip) {
    var p := ProjectTriangle(t, clip);
    !Rejected(p.v0) && !Rejected(p.v1) && !Rejected(p.v2)
  }

  /** The normalized form in which a visible triangle reaches the rasterizer. */
  function Normalized(t: Triangle, clip: Vertex -> Clip): Triangle {
    SortCw(ProjectTriangle(t, clip))
  }

  /** The triangles of a batch of `count`, in order. */
  function Triangles(vertices: seq<Vertex>, count: nat): (ts: seq<Triangle>)
    requires 3 * count <= |vertices|
    ensures |ts| == count
    ensures forall i :: 0 <= i < count ==> ts[i] == TriangleAt(vertices, i)
  {
    seq(count, i requires 0 <= i < count => TriangleAt(vertices, i))
  }

  /** The longest prefix of `xs` whose elements satisfy `ok`, mapped through
      `f`: the shape of a loop that returns at the first failure. */
  function MapWhile<T, U>(xs: seq<T>, ok: T -> bool, f: T -> U): seq<U> {
    if |xs| == 0 || !ok(xs[0]) then [] else [f(xs[0])] + MapWhile(xs[1..], ok, f)
  }

  /** `MapWhile` keeps exactly a prefix: every kept element passed `ok` and
      is mapped in place, and the element right after the prefix, if any,
      failed `ok`. */
  lemma {:induction false} MapWhileIsPrefix<T, U>(xs: seq<T>, ok: T -> bool, f: T -> U)
    ensures var d := MapWhile(xs, ok, f);
            && |d| <= |xs|
            && (forall k :: 0 <= k < |d| ==> ok(xs[k]) && d[k] == f(xs[k]))
            && (|d| < |xs| ==> !ok(xs[|d|]))
  {
    if |xs| > 0 && ok(xs[0]) {
      MapWhileIsPrefix(xs[1..], ok, f);
      var d := MapWhile(xs, ok, f);
      var rest := MapWhile(xs[1..], ok, f);
      assert d == [f(xs[0])] + rest;
      forall k | 0 <= k < |d|
        ensures ok(xs[k]) && d[k] == f(xs[k])
      {
        if k > 0 {
          assert d[k] == rest[k - 1] && xs[k] == xs[1..][k - 1];
        }
      }
    }
  }

  /** Reference definition: the normalized visible triangles of the batch up
      to the first invisible one. */
  function Drawn(vertices: seq<Vertex>, count: nat, clip: Vertex -> Clip): seq<Triangle>
    requires 3 * count <= |vertices|
  {
    MapWhile(Triangles(vertices, count), t => Visible(t, clip), t => Normalized(t, clip))
  }

  /** The batch stops at the first invisible triangle: the drawn triangles
      are the normalized first |drawn| triangles of the batch, each of them
      visible, and when the batch was cut short the triangle at the cut is
      invisible, so no later triangle is drawn whatever it is. */
  lemma DrawnIsVisiblePrefix(vertices: seq<Vertex>, count: nat, clip: Vertex -> Clip)
    requires 3 * count <= |vertices|
    ensures var d := Drawn(vertices, count, clip);
            && |d| <= count
            && (forall k :: 0 <= k < |d| ==>
                  Visible(TriangleAt(vertices, k), clip) && d[k] == Normalized(TriangleAt(vertices, k), clip))
            && (|d| < count ==> !Visible(TriangleAt(vertices, |d|), clip))
  {
    var ts := Triangles(vertices, count);
    MapWhileIsPrefix(ts, t => Visible(t, clip), t => Normalized(t, clip));
  }

  /** The vertex loop of `draw_triangles` for one triangle: vertices are
      projected one at a time, and the loop stops at the first one the guard
      rejects. `visible` is false exactly when it stopped early; otherwise
      `p` is the projected triangle. */
  method ProjectVertices(t: Triangle, clip: Vertex -> Clip) returns (p: Triangle, visible: bool)
    ensures visible <==> Visible(t, clip)
    ensures visible ==> p == ProjectTriangle(t, clip)
  {
    var local := [t.v0, t.v1, t.v2];
    var j := 0;
    while j < 3
      invariant 0 <= j <= 3 && |local| == 3
      invariant forall k :: 0 <= k < j ==> local[k] == Project([t.v0, t.v1, t.v2][k], clip([t.v0, t.v1, t.v2][k]))
      invariant forall k :: 0 <= k < j ==> !Rejected(local[k])
      invariant forall k :: j <= k < 3 ==> local[k] == [t.v0, t.v1, t.v2][k]
    {
      local := local[j := Project(local[j], clip(local[j]))];
      if Rejected(local[j]) {
        return t, false;
      }
      j := j + 1;
    }
    p := Triangle(local[0], local[1], local[2]);
    visible := true;
  }

  /** `draw_triangles`: each triangle of the batch is projected, and the
      whole call returns at the first triangle with a rejected vertex; a
      triangle that survives is normalized and drawn. */
  method DrawTriangles(count: nat, vertices: seq<Vertex>, clip: Vertex -> Clip) returns (drawn: seq<Triangle>)
    requires 3 * count <= |vertices|
    ensures drawn == Drawn(vertices, count, clip)
  {
    ghost var ts := Triangles(vertices, count);
    ghost var ok := t => Visible(t, clip);
    ghost var f := t => Normalized(t, clip);
    drawn := [];
    var i := 0;
    while i < count
      invariant 0 <= i <= count
      invariant drawn + MapWhile(ts[i..], ok, f) == MapWhile(ts, ok, f)
    {
      var local := Triangle(vertices[3 * i], vertices[3 * i + 1], vertices[3 * i + 2]);
      assert ts[i..][0] == local;
      var projected, visible := ProjectVertices(local, clip);
      if !visible {
        return;
      }
      assert ts[i..][1..] == ts[i + 1..];
      drawn := drawn + [SortCw(projected)];
      i := i + 1;
    }
    assert ts[i..] == [];
  }
}
