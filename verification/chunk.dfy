/** The voxel chunk store: a 16 x 32 x 16 array of `uint8_t` block ids, the
    block table the ids index, and `chunk_get` / `chunk_set` / `init_chunk`. */
module World {
  import opened Machine
  import opened Winding

  const CHUNK_WIDTH: int := 16
  const CHUNK_HEIGHT: int := 32
  const CHUNK_DEPTH: int := 16
  const BLOCK_COUNT: int := CHUNK_WIDTH * CHUNK_HEIGHT * CHUNK_DEPTH

  /** The block ids of one chunk, `x + z * CHUNK_WIDTH + y * CHUNK_WIDTH * CHUNK_DEPTH`. */
  type Cells = s: seq<u8> | |s| == BLOCK_COUNT
    witness seq(BLOCK_COUNT, i => 0)

  datatype BlockType = Air | Grass

  /** Texture-atlas origin of each of the six faces. */
  datatype FaceTex = FaceTex(negX: Uv, posX: Uv, negY: Uv, posY: Uv, negZ: Uv, posZ: Uv)

  datatype Block = Block(kind: BlockType, tex: FaceTex, solid: bool)

  /** The enum value stored in a chunk for each block type. */
  function Id(kind: BlockType): u8 {
    match kind
    case Air => 0
    case Grass => 1
  }

  const AIR_BLOCK: Block := Block(Air, FaceTex(Uv(0.0, 0.0), Uv(0.0, 0.0), Uv(0.0, 0.0), Uv(0.0, 0.0), Uv(0.0, 0.0), Uv(0.0, 0.0)), false)

  const GRASS_BLOCK: Block := Block(Grass, FaceTex(Uv(0.375, 0.0), Uv(0.375, 0.0), Uv(0.25, 0.0), Uv(0.0, 0.0), Uv(0.375, 0.0), Uv(0.375, 0.0)), true)

  /** The block table after `init_blocks`: entries 0 and 1 are air and grass;
      the other entries of the zero-initialised table have type 0 (air), no
      solidity and zero texture coordinates, which is the air entry again. */
  function BlockById(id: u8): (b: Block)
    ensures id == Id(Grass) ==> b == GRASS_BLOCK
    ensures id != Id(Grass) ==> b == AIR_BLOCK
  {
    if id == 1 then GRASS_BLOCK else AIR_BLOCK
  }

  /** Every id the table can hold names a block with that id: the table is
      consistent with `Id`. */
  lemma BlockTableConsistent(kind: BlockType)
    ensures BlockById(Id(kind)).kind == kind
    ensures BlockById(Id(kind)).solid <==> kind == Grass
  {
  }

  /** The mesh buffer: the first `vertex_count` entries and the allocated
      capacity, 0 while the buffer pointer is NULL. */
  datatype Mesh = Mesh(vertices: seq<Vertex>, capacity: nat)

  datatype Chunk = Chunk(mesh: Mesh, blocks: Cells)

  predicate InRange(x: int, y: int, z: int) {
    0 <= x < CHUNK_WIDTH && 0 <= y < CHUNK_HEIGHT && 0 <= z < CHUNK_DEPTH
  }

  /** The flat index shared by `chunk_get` and `chunk_set`. */
  function BlockIndex(x: int, y: int, z: int): int {
    x + z * CHUNK_WIDTH + y * CHUNK_WIDTH * CHUNK_DEPTH
  }

  /** The index maps in-range coordinates into the block array, and two
      in-range coordinates share an index only when they are equal. */
  lemma BlockIndexInjective(x1: int, y1: int, z1: int, x2: int, y2: int, z2: int)
    requires InRange(x1, y1, z1) && InRange(x2, y2, z2)
    ensures 0 <= BlockIndex(x1, y1, z1) < BLOCK_COUNT
    ensures BlockIndex(x1, y1, z1) == BlockIndex(x2, y2, z2) ==> x1 == x2 && y1 == y2 && z1 == z2
  {
  }

  /** The coordinates of a block index: the inverse of `BlockIndex`. */
  function Coords(i: int): (int, int, int) {
    (i % CHUNK_WIDTH, i / (CHUNK_WIDTH * CHUNK_DEPTH), (i / CHUNK_WIDTH) % CHUNK_DEPTH)
  }

  /** Every slot of the block array is the index of exactly the in-range
      coordinates `Coords(i)`, so the index is a bijection onto [0, 8192). */
  lemma BlockIndexSurjective(i: int)
    requires 0 <= i < BLOCK_COUNT
    ensures var (x, y, z) := Coords(i); InRange(x, y, z) && BlockIndex(x, y, z) == i
  {
    // i = 16 q + x and q = 16 y + z, so i = 256 y + (16 z + x) with the
    // remainder below 256.
    var q, x := i / CHUNK_WIDTH, i % CHUNK_WIDTH;
    var y, z := q / CHUNK_DEPTH, q % CHUNK_DEPTH;
    DivBounds(i, CHUNK_WIDTH);
    DivBounds(q, CHUNK_DEPTH);
    assert i == y * (CHUNK_WIDTH * CHUNK_DEPTH) + (z * CHUNK_WIDTH + x);
    FloorUnique(i, CHUNK_WIDTH * CHUNK_DEPTH, y, z * CHUNK_WIDTH + x);
  }

  /** Decoding the index of in-range coordinates gives them back. */
  lemma CoordsOfIndex(x: int, y: int, z: int)
    requires InRange(x, y, z)
    ensures Coords(BlockIndex(x, y, z)) == (x, y, z)
  {
    var i := BlockIndex(x, y, z);
    BlockIndexSurjective(i);
    var (x', y', z') := Coords(i);
    BlockIndexInjective(x, y, z, x', y', z');
  }

  /** `chunk_get`: the block at (x, y, z), or the air block for any
      out-of-range coordinate. */
  function ChunkGet(c: Chunk, x: u8, y: u8, z: u8): (b: Block)
    ensures !InRange(x, y, z) ==> b == AIR_BLOCK
    ensures InRange(x, y, z) ==> b == BlockById(c.blocks[BlockIndex(x, y, z)])
  {
    if x >= CHUNK_WIDTH || y >= CHUNK_HEIGHT || z >= CHUNK_DEPTH then BlockById(Id(Air))
    else BlockById(c.blocks[BlockIndex(x, y, z)])
  }

  /** `chunk_set`: store the block's type at (x, y, z); out of range nothing
      changes. */
  function ChunkSet(c: Chunk, b: Block, x: u8, y: u8, z: u8): (r: Chunk)
    ensures r.mesh == c.mesh
    ensures !InRange(x, y, z) ==> r == c
  {
    if x >= CHUNK_WIDTH || y >= CHUNK_HEIGHT || z >= CHUNK_DEPTH then c
    else c.(blocks := c.blocks[BlockIndex(x, y, z) := Id(b.kind)])
  }

  /** After `chunk_set` in range, `chunk_get` at the same coordinates returns
      a block of the stored type, and every other coordinate reads as before. */
  lemma GetAfterSet(c: Chunk, b: Block, x: u8, y: u8, z: u8, x': u8, y': u8, z': u8)
    ensures var r := ChunkSet(c, b, x, y, z);
            if InRange(x, y, z) && x' == x && y' == y && z' == z
            then ChunkGet(r, x', y', z').kind == b.kind
            else ChunkGet(r, x', y', z') == ChunkGet(c, x', y', z')
  {
    if InRange(x, y, z) && InRange(x', y', z') {
      BlockIndexInjective(x, y, z, x', y', z');
    }
  }

  /** `init_chunk`: a zeroed chunk (all air, no mesh buffer) on which every
      in-range coordinate is set to grass. */
  method InitChunk() returns (c: Chunk)
    ensures c.mesh == Mesh([], 0)
    ensures forall i :: 0 <= i < BLOCK_COUNT ==> c.blocks[i] == Id(Grass)
  {
    c := Chunk(Mesh([], 0), seq(BLOCK_COUNT, i => 0));
    var x: u8 := 0;
    while x < CHUNK_WIDTH
      invariant 0 <= x <= CHUNK_WIDTH && c.mesh == Mesh([], 0)
      invariant FilledBefore(c, x, 0, 0)
    {
      var y: u8 := 0;
      while y < CHUNK_HEIGHT
        invariant 0 <= y <= CHUNK_HEIGHT && c.mesh == Mesh([], 0)
        invariant FilledBefore(c, x, y, 0)
      {
        c := FillColumn(c, x, y);
        y := y + 1;
      }
      x := x + 1;
    }
    AllFilled(c);
  }

  /** The innermost loop of `init_chunk`: set grass at z = 0 .. CHUNK_DEPTH - 1. */
  method FillColumn(c: Chunk, x: u8, y: u8) returns (c': Chunk)
    requires x < CHUNK_WIDTH && y < CHUNK_HEIGHT
    requires FilledBefore(c, x, y, 0)
    ensures c'.mesh == c.mesh
    ensures FilledBefore(c', x, y + 1, 0)
  {
    c' := c;
    var z: u8 := 0;
    while z < CHUNK_DEPTH
      invariant 0 <= z <= CHUNK_DEPTH && c'.mesh == c.mesh
      invariant FilledBefore(c', x, y, z)
    {
      c' := ChunkSet(c', GRASS_BLOCK, x, y, z);
      z := z + 1;
    }
  }

  /** Exactly the slots visited before (x, y, z) hold grass. */
  ghost predicate FilledBefore(c: Chunk, x: int, y: int, z: int) {
    forall x', y', z' :: InRange(x', y', z') ==>
      (c.blocks[BlockIndex(x', y', z')] == Id(Grass) <==> Before((x', y', z'), x, y, z))
  }

  /** Once every coordinate is visited, every slot holds grass. */
  lemma AllFilled(c: Chunk)
    requires FilledBefore(c, CHUNK_WIDTH, 0, 0)
    ensures forall i :: 0 <= i < BLOCK_COUNT ==> c.blocks[i] == Id(Grass)
  {
    forall i | 0 <= i < BLOCK_COUNT
      ensures c.blocks[i] == Id(Grass)
    {
      BlockIndexSurjective(i);
      var (x, y, z) := Coords(i);
      assert c.blocks[BlockIndex(x, y, z)] == Id(Grass);
    }
  }

  /** Coordinates visited before (x, y, z) by the x-outer, z-inner loops. */
  predicate Before(p: (int, int, int), x: int, y: int, z: int) {
    p.0 < x || (p.0 == x && (p.1 < y || (p.1 == y && p.2 < z)))
  }

  /** After `init_chunk`, every in-range coordinate reads back as grass. */
  lemma InitChunkIsGrass(c: Chunk, x: u8, y: u8, z: u8)
    requires forall i :: 0 <= i < BLOCK_COUNT ==> c.blocks[i] == Id(Grass)
    requires InRange(x, y, z)
    ensures ChunkGet(c, x, y, z) == GRASS_BLOCK
  {
    BlockIndexInjective(x, y, z, x, y, z);
  }
}
