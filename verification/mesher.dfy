/** The chunk mesher: `push_vertex`, the six `try_mesh_*_face` rules and
    `mesh_chunk`, which walks the chunk in x, y, z order and emits two
    triangles for every face of a non-air block that the face rule accepts. */
module Mesher {
  import opened Machine
  import opened Winding
  import opened World

  /** The initial allocation of `push_vertex`. */
  const INITIAL_CAPACITY: nat := 128

  /** A capacity `push_vertex` can produce: 0 (no buffer yet) or 128 * 2^k. */
  predicate ReachableCapacity(c: nat)
    decreases c
  {
    c == 0 || c == INITIAL_CAPACITY || (c > INITIAL_CAPACITY && c % 2 == 0 && ReachableCapacity(c / 2))
  }

  /** The mesh buffer invariant: the vertices fit in the allocation, and
      there are none while no buffer is allocated. */
  predicate ValidMesh(m: Mesh) {
    && |m.vertices| <= m.capacity
    && (m.capacity == 0 ==> |m.vertices| == 0)
    && ReachableCapacity(m.capacity)
  }

  /** `push_vertex`: allocate 128 slots on first use, double the allocation
      when it is full, then store the vertex at the old count. */
  function PushVertex(m: Mesh, v: Vertex): (r: Mesh)
    requires ValidMesh(m)
    ensures ValidMesh(r)
    ensures r.vertices == m.vertices + [v]
    ensures r.capacity >= INITIAL_CAPACITY
    ensures m.capacity == 0 ==> r.capacity == INITIAL_CAPACITY
    ensures m.capacity > 0 ==> r.capacity == if |m.vertices| == m.capacity then 2 * m.capacity else m.capacity
  {
    var cap := if m.capacity == 0 then INITIAL_CAPACITY else m.capacity;
    var cap' := if |m.vertices| >= cap then cap * 2 else cap;
    assert |m.vertices| >= cap ==> cap' / 2 == cap;
    Mesh(m.vertices + [v], cap')
  }

  /** The six faces of a block, in the order `mesh_chunk` tries them. */
  datatype Face = Left | Right | Front | Back | Bottom | Top

  /** The neighbour of (x, y, z) across a face, with the `uint8_t` wrap of the
      coordinate arguments: `x - 1` at x = 0 is 255. */
  function Neighbour(face: Face, x: u8, y: u8, z: u8): (u8, u8, u8) {
    match face
    case Left => (WrapU8(x - 1), y, z)
    case Right => (WrapU8(x + 1), y, z)
    case Front => (x, y, WrapU8(z - 1))
    case Back => (x, y, WrapU8(z + 1))
    case Bottom => (x, WrapU8(y - 1), z)
    case Top => (x, WrapU8(y + 1), z)
  }

  /** The neighbour test every rule shares: the neighbour is of type air and
      not solid. */
  predicate Open(c: Chunk, face: Face, x: u8, y: u8, z: u8) {
    var (nx, ny, nz) := Neighbour(face, x, y, z);
    var b := ChunkGet(c, nx, ny, nz);
    b.kind == Air && !b.solid
  }

  /** The face rule as written, with the extra coordinate guard of each
      `try_mesh_*_face`: the negative faces bail out whenever the coordinate
      is positive (`x > 0`), the positive faces only at the chunk size. */
  predicate EmitsAsWritten(c: Chunk, face: Face, x: u8, y: u8, z: u8) {
    match face
    case Left => !(x > 0) && Open(c, face, x, y, z)
    case Right => x != CHUNK_WIDTH && Open(c, face, x, y, z)
    case Front => !(z > 0) && Open(c, face, x, y, z)
    case Back => z != CHUNK_DEPTH && Open(c, face, x, y, z)
    case Bottom => !(y > 0) && Open(c, face, x, y, z)
    case Top => y != CHUNK_HEIGHT && Open(c, face, x, y, z)
  }

  /** The evidently intended rule: a face is emitted exactly when the
      neighbour across it is air; the boundary of the chunk reads as air. */
  predicate EmitsSymmetric(c: Chunk, face: Face, x: u8, y: u8, z: u8) {
    Open(c, face, x, y, z)
  }

  /** Which face rule a mesh is built with. */
  datatype FaceRule = AsWritten | Symmetric

  predicate Emits(rule: FaceRule, c: Chunk, face: Face, x: u8, y: u8, z: u8) {
    match rule
    case AsWritten => EmitsAsWritten(c, face, x, y, z)
    case Symmetric => EmitsSymmetric(c, face, x, y, z)
  }

  /** A block position as the float the vertex stores. */
  function Pos(x: int, y: int, z: int): Vec3 {
    Vec3(x as real, y as real, z as real)
  }

  /** The four corners of a face in emission order. */
  function Corners(face: Face, x: int, y: int, z: int): seq<Vec3> {
    match face
    case Left => [Pos(x, y, z + 1), Pos(x, y, z), Pos(x, y + 1, z), Pos(x, y + 1, z + 1)]
    case Right => [Pos(x + 1, y, z), Pos(x + 1, y, z + 1), Pos(x + 1, y + 1, z + 1), Pos(x + 1, y + 1, z)]
    case Front => [Pos(x, y, z), Pos(x + 1, y, z), Pos(x + 1, y + 1, z), Pos(x, y + 1, z)]
    case Back => [Pos(x + 1, y, z + 1), Pos(x, y, z + 1), Pos(x, y + 1, z + 1), Pos(x + 1, y + 1, z + 1)]
    case Bottom => [Pos(x, y, z), Pos(x + 1, y, z), Pos(x + 1, y, z + 1), Pos(x, y, z + 1)]
    case Top => [Pos(x, y + 1, z + 1), Pos(x + 1, y + 1, z + 1), Pos(x + 1, y + 1, z), Pos(x, y + 1, z)]
  }

  /** The texture-atlas origin of a face of a block. */
  function FaceUv(b: Block, face: Face): Uv {
    match face
    case Left => b.tex.negX
    case Right => b.tex.posX
    case Front => b.tex.negZ
    case Back => b.tex.posZ
    case Bottom => b.tex.negY
    case Top => b.tex.posY
  }

  /** One atlas tile is 1/8 of the texture in each direction. */
  const TILE: real := 0.125

  /** The six vertices `try_mesh_*_face` pushes for a face: the quad's
      corners 0, 1, 2, 2, 3, 0 with the atlas offsets (0,0), (1,0), (1,1),
      (1,1), (0,1), (0,0) tiles, and w = 1. */
  function FaceVertices(face: Face, x: int, y: int, z: int, uv: Uv): seq<Vertex> {
    var k := Corners(face, x, y, z);
    var t0, t1, t2, t3 := uv, Uv(uv.u + TILE, uv.v), Uv(uv.u + TILE, uv.v + TILE), Uv(uv.u, uv.v + TILE);
    [Vertex(k[0], 1.0, t0), Vertex(k[1], 1.0, t1), Vertex(k[2], 1.0, t2),
     Vertex(k[2], 1.0, t2), Vertex(k[3], 1.0, t3), Vertex(k[0], 1.0, t0)]
  }

  /** The plane of a face of the unit cube at (x, y, z): the axis it is
      perpendicular to and the coordinate on that axis. */
  function PlaneCoord(face: Face, p: Vec3): real {
    match face
    case Left => p.x
    case Right => p.x
    case Front => p.z
    case Back => p.z
    case Bottom => p.y
    case Top => p.y
  }

  function PlaneValue(face: Face, x: int, y: int, z: int): int {
    match face
    case Left => x
    case Right => x + 1
    case Front => z
    case Back => z + 1
    case Bottom => y
    case Top => y + 1
  }

  predicate InUnitCube(p: Vec3, x: int, y: int, z: int) {
    && x as real <= p.x <= (x + 1) as real
    && y as real <= p.y <= (y + 1) as real
    && z as real <= p.z <= (z + 1) as real
  }

  /** A face is two triangles sharing the diagonal from corner 0 to corner 2,
      every vertex lies on the cube's side for that face and inside the unit
      cube of the block, w is 1, and the texture coordinates stay in one atlas
      tile. The four corners are distinct, so neither triangle is degenerate. */
  lemma FaceGeometry(face: Face, x: int, y: int, z: int, uv: Uv)
    ensures var vs := FaceVertices(face, x, y, z, uv);
            && |vs| == 6 && vs[2] == vs[3] && vs[5] == vs[0]
            && (forall i :: 0 <= i < 6 ==>
                  && PlaneCoord(face, vs[i].pos) == PlaneValue(face, x, y, z) as real
                  && InUnitCube(vs[i].pos, x, y, z)
                  && vs[i].w == 1.0
                  && uv.u <= vs[i].uv.u <= uv.u + TILE && uv.v <= vs[i].uv.v <= uv.v + TILE)
            && vs[0].pos != vs[1].pos && vs[0].pos != vs[2].pos && vs[0].pos != vs[4].pos
            && vs[1].pos != vs[2].pos && vs[1].pos != vs[4].pos && vs[2].pos != vs[4].pos
  {
    var vs := FaceVertices(face, x, y, z, uv);
    assert forall i :: 0 <= i < 6 ==> vs[i] in [vs[0], vs[1], vs[2], vs[4]];
  }

  /** The vertices one `try_mesh_*_face` call appends: six when the rule
      accepts the face, none otherwise. The texture comes from the block at
      (x, y, z) itself. */
  function TryFace(rule: FaceRule, c: Chunk, face: Face, x: u8, y: u8, z: u8): seq<Vertex> {
    if Emits(rule, c, face, x, y, z) then FaceVertices(face, x, y, z, FaceUv(ChunkGet(c, x, y, z), face))
    else []
  }

  /** The vertices one block contributes: none for air, otherwise the six
      face attempts in the order left, right, front, back, bottom, top. */
  function CellVertices(rule: FaceRule, c: Chunk, x: u8, y: u8, z: u8): seq<Vertex> {
    if ChunkGet(c, x, y, z).kind == Air then [] else
      TryFace(rule, c, Left, x, y, z) + TryFace(rule, c, Right, x, y, z) + TryFace(rule, c, Front, x, y, z)
       + TryFace(rule, c, Back, x, y, z) + TryFace(rule, c, Bottom, x, y, z) + TryFace(rule, c, Top, x, y, z)
  }

  /** 1 when the rule accepts the face, 0 otherwise. */
  function Accepted(rule: FaceRule, c: Chunk, face: Face, x: u8, y: u8, z: u8): nat {
    if Emits(rule, c, face, x, y, z) then 1 else 0
  }

  /** A face attempt appends six vertices when the rule accepts the face and
      none otherwise. */
  lemma TryFaceLength(rule: FaceRule, c: Chunk, face: Face, x: u8, y: u8, z: u8)
    ensures |TryFace(rule, c, face, x, y, z)| == 6 * Accepted(rule, c, face, x, y, z)
  {
  }

  /** A block contributes whole faces: six vertices for each accepted face. */
  lemma CellMultipleOf6(rule: FaceRule, c: Chunk, x: u8, y: u8, z: u8)
    ensures |CellVertices(rule, c, x, y, z)| % 6 == 0
  {
    if ChunkGet(c, x, y, z).kind != Air {
      TryFaceLength(rule, c, Left, x, y, z);
      TryFaceLength(rule, c, Right, x, y, z);
      TryFaceLength(rule, c, Front, x, y, z);
      TryFaceLength(rule, c, Back, x, y, z);
      TryFaceLength(rule, c, Bottom, x, y, z);
      TryFaceLength(rule, c, Top, x, y, z);
      var k := Accepted(rule, c, Left, x, y, z) + Accepted(rule, c, Right, x, y, z)
        + Accepted(rule, c, Front, x, y, z) + Accepted(rule, c, Back, x, y, z)
        + Accepted(rule, c, Bottom, x, y, z) + Accepted(rule, c, Top, x, y, z);
      assert |CellVertices(rule, c, x, y, z)| == 6 * k;
      MultipleOf6(k);
    }
  }

  /** Kept apart so the modulus is reasoned about without the cell's context. */
  lemma MultipleOf6(k: int)
    ensures (6 * k) % 6 == 0
  {
  }

  /** The position of block (x, y, z) in the visiting order of `mesh_chunk`
      (x outermost, z innermost). */
  function Order(x: int, y: int, z: int): int {
    x * (CHUNK_HEIGHT * CHUNK_DEPTH) + y * CHUNK_DEPTH + z
  }

  /** The block visited n-th. */
  function CellAt(n: int): (p: (u8, u8, u8))
    requires 0 <= n < BLOCK_COUNT
    ensures InRange(p.0, p.1, p.2)
  {
    (n / (CHUNK_HEIGHT * CHUNK_DEPTH), (n / CHUNK_DEPTH) % CHUNK_HEIGHT, n % CHUNK_DEPTH)
  }

  /** `Order` and `CellAt` are inverse: the n-th visited block is (x, y, z)
      exactly when n == Order(x, y, z). */
  lemma CellAtOrder(x: int, y: int, z: int)
    requires InRange(x, y, z)
    ensures 0 <= Order(x, y, z) < BLOCK_COUNT && CellAt(Order(x, y, z)) == (x, y, z)
  {
    var n := Order(x, y, z);
    FloorUnique(n, CHUNK_HEIGHT * CHUNK_DEPTH, x, y * CHUNK_DEPTH + z);
    FloorUnique(n, CHUNK_DEPTH, x * CHUNK_HEIGHT + y, z);
    FloorUnique(x * CHUNK_HEIGHT + y, CHUNK_HEIGHT, x, y);
  }

  /** The vertices of every block, indexed by visiting order. */
  ghost function Cells(rule: FaceRule, c: Chunk): (cs: seq<seq<Vertex>>)
    ensures |cs| == BLOCK_COUNT
  {
    seq(BLOCK_COUNT, n requires 0 <= n < BLOCK_COUNT => var p := CellAt(n); CellVertices(rule, c, p.0, p.1, p.2))
  }

  /** The concatenation of a list of vertex lists. */
  function Flatten(ss: seq<seq<Vertex>>): seq<Vertex> {
    if |ss| == 0 then [] else Flatten(ss[..|ss| - 1]) + ss[|ss| - 1]
  }

  lemma FlattenSnoc(ss: seq<seq<Vertex>>, k: nat)
    requires k < |ss|
    ensures Flatten(ss[..k + 1]) == Flatten(ss[..k]) + ss[k]
  {
    assert ss[..k + 1][..k] == ss[..k];
  }

  /** Reference definition of the mesh of a chunk: every block in x, y, z
      order, each contributing its accepted faces. */
  ghost function MeshOf(rule: FaceRule, c: Chunk): seq<Vertex> {
    Flatten(Cells(rule, c))
  }

  /** Successive `push_vertex` calls append the vertices in order. */
  method PushAll(m: Mesh, vs: seq<Vertex>) returns (m': Mesh)
    requires ValidMesh(m)
    ensures ValidMesh(m') && m'.capacity >= m.capacity
    ensures m'.vertices == m.vertices + vs
  {
    m' := m;
    var i := 0;
    while i < |vs|
      invariant 0 <= i <= |vs| && ValidMesh(m') && m'.capacity >= m.capacity
      invariant m'.vertices == m.vertices + vs[..i]
    {
      m' := PushVertex(m', vs[i]);
      assert vs[..i + 1] == vs[..i] + [vs[i]];
      i := i + 1;
    }
    assert vs[..i] == vs;
  }

  /** `try_mesh_*_face` on the mesh buffer: push the six vertices of the face
      when the rule accepts it. */
  method TryMeshFace(rule: FaceRule, c: Chunk, m: Mesh, face: Face, x: u8, y: u8, z: u8) returns (m': Mesh)
    requires ValidMesh(m)
    ensures ValidMesh(m') && m'.capacity >= m.capacity
    ensures m'.vertices == m.vertices + TryFace(rule, c, face, x, y, z)
  {
    m' := m;
    if !Emits(rule, c, face, x, y, z) {
      return;
    }
    m' := PushAll(m, FaceVertices(face, x, y, z, FaceUv(ChunkGet(c, x, y, z), face)));
  }

  /** The loop body of `mesh_chunk` for one block. */
  method MeshCell(rule: FaceRule, c: Chunk, m: Mesh, x: u8, y: u8, z: u8) returns (m': Mesh)
    requires ValidMesh(m)
    ensures ValidMesh(m') && m'.capacity >= m.capacity
    ensures m'.vertices == m.vertices + CellVertices(rule, c, x, y, z)
  {
    m' := m;
    if ChunkGet(c, x, y, z).kind == Air {
      return;
    }
    m' := TryMeshFace(rule, c, m', Left, x, y, z);
    m' := TryMeshFace(rule, c, m', Right, x, y, z);
    m' := TryMeshFace(rule, c, m', Front, x, y, z);
    m' := TryMeshFace(rule, c, m', Back, x, y, z);
    m' := TryMeshFace(rule, c, m', Bottom, x, y, z);
    m' := TryMeshFace(rule, c, m', Top, x, y, z);
    ConcatAssoc(m.vertices, TryFace(rule, c, Left, x, y, z), TryFace(rule, c, Right, x, y, z),
                TryFace(rule, c, Front, x, y, z), TryFace(rule, c, Back, x, y, z),
                TryFace(rule, c, Bottom, x, y, z), TryFace(rule, c, Top, x, y, z));
  }

  /** Six appends in a row append the six pieces together. */
  lemma ConcatAssoc<T>(s: seq<T>, a: seq<T>, b: seq<T>, c: seq<T>, d: seq<T>, e: seq<T>, f: seq<T>)
    ensures s + a + b + c + d + e + f == s + (a + b + c + d + e + f)
  {
  }

  /** The z loop of `mesh_chunk`. */
  method MeshColumn(rule: FaceRule, c: Chunk, m: Mesh, x: u8, y: u8) returns (m': Mesh)
    requires x < CHUNK_WIDTH && y < CHUNK_HEIGHT
    requires ValidMesh(m) && m.vertices == Flatten(Cells(rule, c)[..Order(x, y, 0)])
    ensures ValidMesh(m') && m'.capacity >= m.capacity
    ensures m'.vertices == Flatten(Cells(rule, c)[..Order(x, y, CHUNK_DEPTH)])
  {
    m' := m;
    var z: u8 := 0;
    while z < CHUNK_DEPTH
      invariant 0 <= z <= CHUNK_DEPTH && ValidMesh(m') && m'.capacity >= m.capacity
      invariant m'.vertices == Flatten(Cells(rule, c)[..Order(x, y, z)])
    {
      CellAtOrder(x, y, z);
      FlattenSnoc(Cells(rule, c), Order(x, y, z));
      m' := MeshCell(rule, c, m', x, y, z);
      z := z + 1;
    }
  }

  /** The y loop of `mesh_chunk`. */
  method MeshSlice(rule: FaceRule, c: Chunk, m: Mesh, x: u8) returns (m': Mesh)
    requires x < CHUNK_WIDTH
    requires ValidMesh(m) && m.vertices == Flatten(Cells(rule, c)[..Order(x, 0, 0)])
    ensures ValidMesh(m') && m'.capacity >= m.capacity
    ensures m'.vertices == Flatten(Cells(rule, c)[..Order(x + 1, 0, 0)])
  {
    m' := m;
    var y: u8 := 0;
    while y < CHUNK_HEIGHT
      invariant 0 <= y <= CHUNK_HEIGHT && ValidMesh(m') && m'.capacity >= m.capacity
      invariant m'.vertices == Flatten(Cells(rule, c)[..Order(x, y, 0)])
    {
      m' := MeshColumn(rule, c, m', x, y);
      y := y + 1;
    }
  }

  /** `mesh_chunk`: reset the vertex count (the buffer is kept) and mesh
      every block in x, y, z order. The result is the reference mesh, whose
      length is a multiple of 6. */
  method MeshChunk(rule: FaceRule, c: Chunk) returns (c': Chunk)
    requires ValidMesh(c.mesh)
    ensures c'.blocks == c.blocks
    ensures ValidMesh(c'.mesh) && c'.mesh.capacity >= c.mesh.capacity
    ensures c'.mesh.vertices == MeshOf(rule, c)
    ensures |c'.mesh.vertices| % 6 == 0
  {
    var m := Mesh([], c.mesh.capacity);
    var x: u8 := 0;
    while x < CHUNK_WIDTH
      invariant 0 <= x <= CHUNK_WIDTH && ValidMesh(m) && m.capacity >= c.mesh.capacity
      invariant m.vertices == Flatten(Cells(rule, c)[..Order(x, 0, 0)])
    {
      m := MeshSlice(rule, c, m, x);
      x := x + 1;
    }
    MeshComplete(rule, c);
    c' := c.(mesh := m);
  }

  /** The blocks visited before x reaches CHUNK_WIDTH are all the blocks. */
  lemma MeshComplete(rule: FaceRule, c: Chunk)
    ensures Flatten(Cells(rule, c)[..Order(CHUNK_WIDTH, 0, 0)]) == MeshOf(rule, c)
    ensures |MeshOf(rule, c)| % 6 == 0
  {
    assert Cells(rule, c)[..Order(CHUNK_WIDTH, 0, 0)] == Cells(rule, c);
    MeshMultipleOf6(rule, c);
  }

  /** Every block contributes whole faces, so the mesh holds a multiple of
      6 vertices. */
  lemma MeshMultipleOf6(rule: FaceRule, c: Chunk)
    ensures |MeshOf(rule, c)| % 6 == 0
  {
    var cs := Cells(rule, c);
    forall k | 0 <= k < |cs|
      ensures |cs[k]| % 6 == 0
    {
      var p := CellAt(k);
      CellMultipleOf6(rule, c, p.0, p.1, p.2);
    }
    FlattenMultipleOf6(cs);
  }

  lemma {:induction false} FlattenMultipleOf6(ss: seq<seq<Vertex>>)
    requires forall k :: 0 <= k < |ss| ==> |ss[k]| % 6 == 0
    ensures |Flatten(ss)| % 6 == 0
  {
    if |ss| > 0 {
      FlattenMultipleOf6(ss[..|ss| - 1]);
    }
  }

  /** A chunk that holds no grass has an empty mesh. */
  lemma EmptyChunkHasEmptyMesh(rule: FaceRule, c: Chunk)
    requires forall i :: 0 <= i < BLOCK_COUNT ==> c.blocks[i] != Id(Grass)
    ensures MeshOf(rule, c) == []
  {
    var cs := Cells(rule, c);
    forall k | 0 <= k < |cs|
      ensures cs[k] == []
    {
      var p := CellAt(k);
      BlockIndexInjective(p.0, p.1, p.2, p.0, p.1, p.2);
    }
    FlattenEmpty(cs);
  }

  lemma {:induction false} FlattenEmpty(ss: seq<seq<Vertex>>)
    requires forall k :: 0 <= k < |ss| ==> ss[k] == []
    ensures Flatten(ss) == []
  {
    if |ss| > 0 {
      FlattenEmpty(ss[..|ss| - 1]);
    }
  }

  /** The as-written negative faces depend only on the coordinate: for an
      in-range block, the left face is emitted exactly at x = 0, where the
      wrapped neighbour coordinate 255 reads as air; front and bottom alike. */
  lemma NegativeFacesOnlyAtZero(c: Chunk, x: u8, y: u8, z: u8)
    requires InRange(x, y, z)
    ensures EmitsAsWritten(c, Left, x, y, z) <==> x == 0
    ensures EmitsAsWritten(c, Front, x, y, z) <==> z == 0
    ensures EmitsAsWritten(c, Bottom, x, y, z) <==> y == 0
  {
  }

  /** For in-range blocks the as-written positive faces follow the intended
      rule: the size guards are never reached inside the loops. */
  lemma PositiveFacesAgree(c: Chunk, x: u8, y: u8, z: u8)
    requires InRange(x, y, z)
    ensures EmitsAsWritten(c, Right, x, y, z) <==> EmitsSymmetric(c, Right, x, y, z)
    ensures EmitsAsWritten(c, Back, x, y, z) <==> EmitsSymmetric(c, Back, x, y, z)
    ensures EmitsAsWritten(c, Top, x, y, z) <==> EmitsSymmetric(c, Top, x, y, z)
  {
  }

  /** The face opposite to `face`. */
  function Opposite(face: Face): Face {
    match face
    case Left => Right
    case Right => Left
    case Front => Back
    case Back => Front
    case Bottom => Top
    case Top => Bottom
  }

  function IsSolidAt(c: Chunk, x: u8, y: u8, z: u8): bool {
    ChunkGet(c, x, y, z).kind != Air
  }

  /** The intended rule culls shared faces: between two in-range
      neighbouring blocks, a face is drawn (by one block towards the other)
      exactly when one of them is air and the other is not. */
  lemma SymmetricCullsSharedFaces(c: Chunk, face: Face, x: u8, y: u8, z: u8)
    requires InRange(x, y, z)
    requires var (nx, ny, nz) := Neighbour(face, x, y, z); InRange(nx, ny, nz)
    ensures var (nx, ny, nz) := Neighbour(face, x, y, z);
            var drawn := (IsSolidAt(c, x, y, z) && EmitsSymmetric(c, face, x, y, z))
                      || (IsSolidAt(c, nx, ny, nz) && EmitsSymmetric(c, Opposite(face), nx, ny, nz));
            drawn <==> IsSolidAt(c, x, y, z) != IsSolidAt(c, nx, ny, nz)
  {
    var (nx, ny, nz) := Neighbour(face, x, y, z);
    assert Neighbour(Opposite(face), nx, ny, nz) == (x, y, z);
  }

  /** The as-written rule breaks that: with air at (0, 0, 0) and grass at
      (1, 0, 0), the shared face is drawn by neither block, though the
      intended rule draws the left face of the grass block. */
  lemma AsWrittenMissesSharedFace()
    ensures var c := ChunkSet(Chunk(Mesh([], 0), seq(BLOCK_COUNT, i => Id(Grass))), AIR_BLOCK, 0, 0, 0);
            && !IsSolidAt(c, 0, 0, 0) && IsSolidAt(c, 1, 0, 0)
            && !EmitsAsWritten(c, Left, 1, 0, 0)
            && EmitsSymmetric(c, Left, 1, 0, 0)
  {
    var full := Chunk(Mesh([], 0), seq(BLOCK_COUNT, i => Id(Grass)));
    var c := ChunkSet(full, AIR_BLOCK, 0, 0, 0);
    GetAfterSet(full, AIR_BLOCK, 0, 0, 0, 0, 0, 0);
    GetAfterSet(full, AIR_BLOCK, 0, 0, 0, 1, 0, 0);
    assert Neighbour(Left, 1, 0, 0) == (0, 0, 0);
  }

  /** Whether (x, y, z) lies on the chunk's boundary layer on a face's side. */
  predicate OnBoundary(face: Face, x: int, y: int, z: int) {
    match face
    case Left => x == 0
    case Right => x == CHUNK_WIDTH - 1
    case Front => z == 0
    case Back => z == CHUNK_DEPTH - 1
    case Bottom => y == 0
    case Top => y == CHUNK_HEIGHT - 1
  }

  /** In a chunk full of grass both rules emit a face exactly on the chunk's
      boundary layer on that face's side: the asymmetry does not show. */
  lemma FullChunkEmitsBoundary(rule: FaceRule, c: Chunk, face: Face, x: u8, y: u8, z: u8)
    requires forall i :: 0 <= i < BLOCK_COUNT ==> c.blocks[i] == Id(Grass)
    requires InRange(x, y, z)
    ensures Emits(rule, c, face, x, y, z) <==> OnBoundary(face, x, y, z)
  {
    var (nx, ny, nz) := Neighbour(face, x, y, z);
    if InRange(nx, ny, nz) {
      InitChunkIsGrass(c, nx, ny, nz);
    }
  }
}
