# Software voxel renderer: rasterizer, chunk mesher, xorshift32, task queue

This project models the integer core of a small software-rendered voxel
engine in C and proves properties of that core. The model covers five parts.

- **Rasterizer.** It covers `draw_triangle_raw` of the current renderer (`src/rendering.c`) and of
  the earlier single-file renderer (`src/main.c`). Each is a scan of a
  bounding box in which three incrementally updated 32-bit edge values decide
  coverage. The scan is followed by a texel fetch, colour packing and a
  depth-tested write into a 427 x 240 frame. The model also covers the Bresenham
  `draw_line_raw`, `draw_rect_raw`, the `SET_PIXEL` macro and the buffer clear in
  `present`. From the triangle batch it covers `sort_cw` and the control flow of `draw_triangles`.
- **Chunk store.** It covers the 16 x 32 x 16 `uint8_t` block array with
  `chunk_get`, `chunk_set`, `init_chunk` and the block table of `init_blocks` (`src/world.c`).
- **Mesher.** It covers `push_vertex` with its doubling allocation, the six
  `try_mesh_*_face` rules and `mesh_chunk`.
- **xorshift32.** This is the 13/17/5 generator of `src/xorshift.c`.
- **Task queue.** It covers the bookkeeping of the thread pool (`src/thread_pool.c`):
  `create_task`, `destroy_task`, `push_task`, `next_task`, the queue
  initialisation of `init_thread_pool`, and the pending-task walk of
  `destroy_thread_pool`.

The C integer types are modelled as `int` subset types. The conversions that
decide what the rasterizers draw are written out as explicit wrap-arounds:
`WrapU8`, `WrapU32` and `WrapI32` in module `Machine`. Edge values are
therefore exact integers reduced to `int32_t`. The `uint32_t` loop counters
of the earlier rasterizer start at the wrapped `int32_t` bounds. A few
counters and products stay unbounded integers; each is named under
"## Left out". The proofs show that the incremental updates of the
scan reproduce the directly evaluated, wrapped edge function at every pixel.
The floating-point stage of the rasterizer (barycentric interpolation of depth
and texture coordinates) is a function parameter `shade`. The integer code
around it (clamps, index arithmetic, colour packing, depth rule) is modelled
exactly.

The task queue is a singly linked list in a heap `map<Ref, Task>`.
`malloc` is a fresh address supplied by the caller and `free` removes an entry.
The list is read in the source's orientation: `last_task` is the head that
`next_task` takes from, and `first_task` is the tail that `push_task` appends to.

An xorshift word is a sequence of 32 bits rather than a `bv32`. The inverse
proofs reason one bit position at a time, and on a bit sequence each position
is a plain boolean. The three shift-xor steps are bitwise definitions on it.
The state update is shown to be a bijection through an explicit inverse.
`ToBv` maps a word back to the native `bv32`, and a known-answer lemma
checks one draw against the C expression on a native word.

## Model

| member | source | states |
|---|---|---|
| Winding.SortCw | src/rendering.c:41-62 | vertex 0 stays; the result is the triangle or the triangle with vertices 1 and 2 exchanged; its orientation value is non-negative; a triangle with all x or all y equal is returned unchanged |
| Winding.SwapNegatesOrientation | src/rendering.c:53-60 | exchanging vertices 1 and 2 negates the orientation value; a triangle with all x or all y equal has orientation 0 |
| Winding.SortCwSwapsIffNegative | src/rendering.c:41-62 | the two early returns are redundant: `sort_cw` swaps exactly when the orientation is negative |
| Winding.SortCwIdempotent | src/rendering.c:41-62 | normalizing an already normalized triangle changes nothing |
| Batch.Project | src/rendering.c:239-242 | the divided position times w gives back the clip coordinates when w is nonzero; at w = 0 the position is the origin; w is kept and uv is unchanged |
| Batch.VisibleIffPositive | src/rendering.c:239-247 | after the divide a vertex passes the near-side guard exactly when its clip z and w are both positive, so w = 0 is always rejected |
| Batch.Triangles | src/rendering.c:226-227 | triangle i of the batch is `vertices[3i .. 3i+3]` |
| Batch.DrawnIsVisiblePrefix | src/rendering.c:226-251 | the triangles drawn are a prefix of the batch, each visible and normalized; when the batch is cut short, the triangle at the cut is invisible |
| Batch.ProjectVertices | src/rendering.c:229-248 | the vertex loop reports visible exactly when all three projected vertices pass the guard, and in that case yields the projected triangle |
| Batch.DrawTriangles | src/rendering.c:215-252 | the sequence of triangles handed to the rasterizer equals the reference visible-prefix definition, which stops at the first rejected vertex |
| Screen.IdxInBounds | src/rendering.c:7 | every on-screen pixel has a slot `y * SCREEN_WIDTH + x` inside the buffer |
| Screen.IdxInjective | src/rendering.c:7 | distinct on-screen pixels have distinct slots |
| Screen.IdxSurjective | src/rendering.c:7 | every buffer slot is the slot of exactly one on-screen pixel |
| Screen.SetPixel | src/rendering.c:7 | an on-screen pixel gets the colour; every other slot is unchanged, and an off-screen write changes nothing |
| Screen.Present | src/rendering.c:97-116 | the frame shown is the buffer as drawn; afterwards every pixel is 0, and every depth slot is 0 exactly when depth testing is on |
| Geometry.Min3 | src/rendering.c:21-31 | the result is one of the arguments and no argument is smaller |
| Geometry.Max3 | src/rendering.c:9-19 | the result is one of the arguments and no argument is larger |
| Geometry.EdgeAntisymmetric | src/rendering.c:211-213 | reversing the edge negates the edge function; both endpoints lie on the edge |
| Geometry.EdgeStepX | src/rendering.c:396-398 | one column to the right adds `b.y - a.y` to the exact edge value |
| Geometry.EdgeStepY | src/rendering.c:405-407 | one row down adds `a.x - b.x` to the exact edge value |
| Geometry.EdgeI32StepX | src/rendering.c:396-398 | the wrapping per-column update turns the 32-bit edge value at a pixel into the 32-bit value at the next column |
| Geometry.EdgeI32StepY | src/rendering.c:405-407 | the wrapping per-row update turns the 32-bit edge value into the one a row down |
| Geometry.EdgesSumToArea | src/rendering.c:301-315 | the three scanned edge values sum at every point to the area numerator of line 301 |
| Geometry.InsideEdgesBounded | src/rendering.c:301-350 | at a covered point each edge value lies between 0 and the area numerator, which is then non-negative |
| Geometry.OrNonNegativeIff | src/rendering.c:350 | the sign test on the bitwise or of the three 32-bit words passes exactly when all three values are non-negative |
| Geometry.Clamp | src/rendering.c:304-310 | the result lies in [lo, hi], equals v inside the range, and equals the violated bound outside it |
| Geometry.BoundingBox | src/rendering.c:293-299 | the minima do not exceed the maxima |
| Geometry.ClampedBox | src/rendering.c:304-307 | the scanned box lies within [0, SCREEN_WIDTH] x [0, SCREEN_HEIGHT] |
| Geometry.ClampedBoxIsOnScreenPart | src/rendering.c:304-307 | a pixel is scanned exactly when it lies in the unclamped bounding box and on the screen, so every scanned slot is inside the buffers |
| Geometry.TriangleArea | src/rendering.c:301 | twice the result is the absolute area numerator, rounded down to even |
| Geometry.BoxAreaBoundsTriangleArea | src/main.c:311 | the earlier renderer's half-box area is never below the triangle area of the current renderer |
| Geometry.AreaFormulasDiffer | src/main.c:311 | on (0,0), (4,2), (2,4) the two area formulas give 6 and 8 |
| DepthTest.WriteNearer | src/rendering.c:384-393 | a fragment replaces colour and depth together when the slot is unwritten (<= 0) or the fragment is strictly nearer; otherwise neither changes |
| DepthTest.WriteFarther | src/main.c:363-376 | a fragment replaces colour and depth together when the stored depth is <= the fragment's; otherwise neither changes |
| DepthTest.RulesAreOpposite | src/main.c:370 | on a written slot the earlier rule accepts exactly the fragments the current rule rejects |
| DepthTest.ClearedSlotAcceptsAnything | src/rendering.c:108-110 | after the clear to 0 both rules accept any non-negative fragment |
| DepthTest.NearerWinsEitherOrder | src/rendering.c:384-393 | two fragments with distinct positive depths over a cleared slot leave the nearer one, in either order |
| DepthTest.FartherWinsEitherOrder | src/main.c:363-373 | under the earlier rule the same two fragments leave the farther one, in either order |
| DepthTest.ZeroDepthIsOverwritten | src/rendering.c:387 | a fragment written at depth 0 leaves the slot unwritten, so any later fragment replaces it |
| Texturing.ClampTexel | src/rendering.c:367 | the texel index ends inside the texture, and an index already inside is unchanged |
| Texturing.UnpackPackRgb | src/rendering.c:369-382 | the packed word has 0xFF in byte 0 and red, green and blue in bytes 1, 2 and 3 |
| Texturing.AlphaIsAbsorbed | src/rendering.c:371-376 | or-ing the alpha byte into the low byte changes nothing: an RGBA texel packs like its RGB part |
| Texturing.TexelOffsetInData | src/main.c:349-356 | for an in-range texel index, the byte offset `index * channels` and the texel's bytes lie inside the texture data |
| Texturing.SampleColorChannels | src/rendering.c:369-382 | for either layout, the fetched colour is opaque and carries the texel's first three bytes in channels 1 to 3 |
| Line.Dist | src/rendering.c:159-160 | the distance is a - b or b - a and fits in `uint32_t` |
| Line.Normalize | src/rendering.c:158-179 | the line is steep exactly when abs(dy) > abs(dx); the major delta is the larger and the minor the smaller distance; the normalized endpoints run left to right over the major delta; plotting them gives back the two endpoints |
| Line.OffsetIsFloor | src/rendering.c:184-208 | the minor-axis offset after k pixels is the floor of k * minor / major and stays within [0, minor] |
| Line.IdealStepsByAtMostOne | src/rendering.c:184-208 | consecutive pixels of the ideal line move 0 or 1 along the minor axis, so the line is 8-connected |
| Line.PaintSpec | src/rendering.c:186-197 | painting a list of points colours exactly the on-screen pixels among them and keeps every other slot |
| Line.PaintOffScreen | src/rendering.c:7 | points that are all off the screen leave the buffer unchanged |
| Line.StepTracks | src/rendering.c:187-206 | without wrap-around, one error-term update moves the loop state from k to k + 1 pixels and keeps y between y1 and y2 |
| Line.Advance | src/rendering.c:187-206 | the `uint32_t` error-term update preserves the loop-state relation to the ideal line whenever the term cannot wrap |
| Line.DrawLineRaw | src/rendering.c:158-209 | one pixel is plotted per major-axis step (the far endpoint excluded); the buffer is the old one with those points painted; without wrap-around the k-th point is the k-th pixel of the ideal line |
| Rendering.ClampDepth | src/rendering.c:308-310 | the vertex depth ends in [0, DEPTH_PRECISION] and is unchanged when already there |
| Rendering.ClampedDepths | src/rendering.c:308-310 | all three clamped depths lie in [0, DEPTH_PRECISION] |
| Rendering.SignTest | src/rendering.c:350 | the inside test accepts exactly when all three edge values are non-negative |
| Rendering.StepRight | src/rendering.c:396-398 | the per-pixel updates turn the three 32-bit edge values at (x, y) into those at (x + 1, y) |
| Rendering.StepDown | src/rendering.c:405-407 | the per-row updates turn the three row-start edge values at (x, y) into those at (x, y + 1) |
| Rendering.ShadePixel | src/rendering.c:350-394 | the scanned pixel ends as the reference `PixelAfter` of its previous colour and depth; no other pixel changes |
| Rendering.DrawRow | src/rendering.c:343-403 | every pixel of the row becomes `PixelAfter` of its previous value; every other row is untouched |
| Rendering.DrawTriangleRaw | src/rendering.c:278-412 | every on-screen pixel ends as `PixelAfter` of its value before the call: untouched outside the clamped box or the triangle, otherwise depth-tested with the nearer rule, with colour and depth written together |
| EarlyRenderer.MinU32 | src/main.c:116-126 | the `uint32_t` result read back as `int32_t` is the least argument, and equals it when all arguments are non-negative |
| EarlyRenderer.MaxU32 | src/main.c:104-114 | the `uint32_t` result read back as `int32_t` is the greatest argument, and equals it when all are non-negative |
| EarlyRenderer.ScanBoxIsBoundingBox | src/main.c:297-309 | because the clamp results are discarded, the `int32_t` bounds the scan loops start from are the unclamped bounding box |
| EarlyRenderer.ScannedIffNonNegativeBox | src/main.c:297-325 | the two `uint32_t` loops visit an on-screen pixel exactly when it lies in the bounding box and neither minimum is negative |
| EarlyRenderer.CrossingTriangleSkipped | src/main.c:320-325 | a box whose x or y range crosses 0 from below makes a loop guard compare 2^32 + min with max, so nothing is scanned |
| EarlyRenderer.LeftCrossingExample | src/main.c:320-325 | the triangle (-5,0), (20,0), (0,20) covers the on-screen pixel (1, 1) of its box, yet the scan is empty |
| EarlyRenderer.EmptyScanChangesNothing | src/main.c:320-325 | when either loop runs zero times, every pixel keeps its colour and depth |
| EarlyRenderer.UnclampedScanBoxAliases | src/main.c:303-306 | the triangle (0,0), (500,0), (0,10) is scanned at the off-screen pixel (430, 1), which shares slot 857 with the covered on-screen pixel (3, 2) |
| EarlyRenderer.OnScreenTriangleNeedsNoClamp | src/main.c:297-325 | for vertices within [0, W] x [0, H] the bounds are the clamped box, and the loops visit exactly the pixels of that box |
| EarlyRenderer.ShadePixel | src/main.c:326-376 | the scanned pixel ends as the earlier renderer's `PixelAfter`, which has no texel clamp and uses the equal-or-farther rule; no other pixel changes |
| EarlyRenderer.ScanPixel | src/main.c:325-382 | one column step: the pixel at the counters ends as `PixelAfter`, nothing else changes, and the edge values move to the next column |
| EarlyRenderer.DrawRow | src/main.c:325-382 | with the column counter running over the `uint32_t`-converted bounds, every pixel of the row becomes `PixelAfter` of its previous value; other rows are untouched |
| EarlyRenderer.DrawTriangleRaw | src/main.c:280-388 | for a triangle whose scan is empty or whose vertices lie on the screen, every on-screen pixel ends as the earlier renderer's `PixelAfter` of its previous value, which honours the unsigned loop guards |
| EarlyRenderer.RectLoopNeverExits | src/main.c:191-197 | a `uint32_t` counter always satisfies `x <= UINT32_MAX` and returns to its start after 2^32 increments |
| EarlyRenderer.DrawRectRaw | src/main.c:191-197 | with non-wrapping counters, exactly the on-screen pixels of the inclusive rectangle get the colour and every other pixel is unchanged |
| World.BlockById | src/world.c:5-30 | id 1 is the grass block; every other id of the zero-initialised table reads as the air block |
| World.BlockTableConsistent | src/world.c:5-30 | the table entry of each type's id has that type, and only grass is solid |
| World.BlockIndexInjective | src/world.c:347-360 | the flat index of in-range coordinates is inside the block array, and distinct coordinates have distinct indices |
| World.BlockIndexSurjective | src/world.c:351 | every slot of the block array is the index of in-range coordinates |
| World.CoordsOfIndex | src/world.c:351 | decoding the index of in-range coordinates gives them back |
| World.ChunkGet | src/world.c:347-352 | out-of-range coordinates read as the air block; in range, the result is the table entry of the stored id |
| World.ChunkSet | src/world.c:354-360 | out of range nothing changes; the mesh is never touched |
| World.GetAfterSet | src/world.c:347-360 | after an in-range set, a get at the same coordinates returns the stored type, and every other coordinate reads as before |
| World.InitChunk | src/world.c:32-42 | the new chunk has no mesh buffer and grass in every slot |
| World.FillColumn | src/world.c:36-38 | the inner loop extends the grass-filled region by one column in visiting order |
| World.AllFilled | src/world.c:34-40 | once every coordinate has been visited, every slot holds grass |
| World.InitChunkIsGrass | src/world.c:32-42 | after `init_chunk` every in-range coordinate reads back as the grass block |
| Mesher.PushVertex | src/world.c:54-67 | the vertex is appended. The capacity is 128 on first use, doubles when full and is otherwise unchanged. The vertices always fit in the allocation |
| Mesher.PushAll | src/world.c:54-67 | successive pushes append the vertices in order and keep the buffer invariant |
| Mesher.FaceGeometry | src/world.c:69-110 | a face is two triangles sharing a diagonal with four distinct corners. All six vertices lie on the face's plane within the block's unit cube, with w = 1 and texture coordinates in one atlas tile |
| Mesher.TryFaceLength | src/world.c:69-72 | a face attempt appends six vertices when the rule accepts the face and none otherwise |
| Mesher.TryMeshFace | src/world.c:69-110 | the buffer gains exactly the face's vertices when the rule accepts it |
| Mesher.MeshCell | src/world.c:333-341 | a non-air block appends its six face attempts in the order left, right, front, back, bottom, top; an air block appends nothing |
| Mesher.CellMultipleOf6 | src/world.c:333-341 | a block contributes a multiple of 6 vertices |
| Mesher.CellAtOrder | src/world.c:330-332 | the visiting position and the n-th visited block are inverse maps over the chunk |
| Mesher.MeshColumn | src/world.c:332-342 | the z loop appends the vertices of the column's blocks in visiting order |
| Mesher.MeshSlice | src/world.c:331-343 | the y loop appends the vertices of the slice's blocks in visiting order |
| Mesher.MeshChunk | src/world.c:327-345 | the mesh is rebuilt from empty, keeping the buffer, into the reference mesh of every block in x, y, z order; its length is a multiple of 6 and the blocks are unchanged |
| Mesher.MeshComplete | src/world.c:330-344 | the blocks visited by the end of the x loop are all the blocks |
| Mesher.MeshMultipleOf6 | src/world.c:327-345 | every mesh holds whole faces, so its length is a multiple of 6 |
| Mesher.EmptyChunkHasEmptyMesh | src/world.c:333-334 | a chunk without grass produces an empty mesh |
| Mesher.NegativeFacesOnlyAtZero | src/world.c:70 | for an in-range block, the as-written left, front and bottom faces are emitted exactly at coordinate 0, whatever the neighbours |
| Mesher.PositiveFacesAgree | src/world.c:113 | for in-range blocks the as-written right, back and top guards never fire, so those faces follow the neighbour rule |
| Mesher.SymmetricCullsSharedFaces | src/world.c:69-72 | under the intended rule, the face between two in-range neighbours is drawn exactly when one of them is air and the other is not |
| Mesher.AsWrittenMissesSharedFace | src/world.c:70 | with air at (0,0,0) and grass at (1,0,0), the as-written rule draws no face between them, while the intended rule draws the grass block's left face |
| Mesher.FullChunkEmitsBoundary | src/world.c:69-325 | in a chunk full of grass both rules emit a face exactly on the chunk's boundary layer on that face's side |
| Xorshift.Left13Inverse | src/xorshift.c:13 | `x ^= x << 13` is undone by xoring with the shifts by 13 and 26 |
| Xorshift.Left13Section | src/xorshift.c:13 | the undo is also a right inverse, so the step is onto |
| Xorshift.Right17Involution | src/xorshift.c:14 | `x ^= x >> 17` undoes itself on 32-bit words |
| Xorshift.Left5Inverse | src/xorshift.c:15 | `x ^= x << 5` is undone by xoring with the shifts by 5, 10, ..., 30 |
| Xorshift.Left5Section | src/xorshift.c:15 | that undo is also a right inverse |
| Xorshift.StepBijective | src/xorshift.c:11-17 | the state update is a bijection: `Unstep` undoes it on both sides, and no two states share a successor |
| Xorshift.ZeroOnlyFixedAtZero | src/xorshift.c:11-17 | a state is updated to zero exactly when it is zero |
| Xorshift.SetSeed | src/xorshift.c:7-9 | the seed is the state that the next draw comes from |
| Xorshift.Next | src/xorshift.c:11-17 | the value returned is the new state, and undoing it gives back the old state |
| Xorshift.DrawsNext | src/xorshift.c:11-17 | drawing n + 1 values is one call followed by n draws from the state it leaves |
| Xorshift.DrawsIterate | src/xorshift.c:7-17 | the i-th draw after seeding is the seed updated i + 1 times |
| Xorshift.ZeroIffZeroSeed | src/xorshift.c:7-17 | a zero seed draws only zeros; any other seed never draws zero |
| Xorshift.KnownAnswer | src/xorshift.c:11-17 | seeded with 1, the first draw is 0x00042021, both for the bitwise model read back as a `bv32` and for the C expression on a native word |
| Xorshift.Run | src/xorshift.c:7-17 | seeding and drawing n values yields exactly the reference draws, and leaves the seed updated n times as the state |
| TaskQueue.CreateTask | src/thread_pool.c:4-16 | NULL exactly for a NULL function; otherwise an unlinked task carrying the function and argument |
| TaskQueue.DestroyTask | src/thread_pool.c:18-22 | freeing NULL changes nothing; otherwise exactly that task leaves the heap and every other task is unchanged |
| TaskQueue.InitPool | src/thread_pool.c:82-95 | with no threads the pool is untouched; otherwise the pool is active with an empty, valid queue |
| TaskQueue.PushTask | src/thread_pool.c:150-175 | false exactly for a NULL pool or NULL function, and then nothing changes |
| TaskQueue.PushAppends | src/thread_pool.c:163-169 | a push on a valid pool succeeds and appends the new task at the tail; the queue stays valid; the head stays unless the queue was empty |
| TaskQueue.NextTask | src/thread_pool.c:24-43 | a NULL pool gives NULL; otherwise the head is returned and `first_task` and `active` are untouched |
| TaskQueue.NextTaskFixed | src/thread_pool.c:24-43 | a NULL pool gives NULL; otherwise the head is returned, with `active` untouched |
| TaskQueue.NextFixedPops | src/thread_pool.c:24-43 | on a valid pool the intended pop returns the head (NULL when empty) and leaves the rest of the queue valid |
| TaskQueue.NextAsWrittenPops | src/thread_pool.c:36-40 | `next_task` agrees with the intended pop except on a one-task queue, where `first_task` keeps naming the task just taken |
| TaskQueue.DrainFixed | src/thread_pool.c:24-43 | n intended pops return min(n, queue length) tasks |
| TaskQueue.DrainInOrder | src/thread_pool.c:24-43 | the queue is first in, first out: draining returns the tasks in push order |
| TaskQueue.StrandedAbsorbs | src/thread_pool.c:36-40 | a pool with a tail but no head stays that way: `next_task` returns NULL and a push links the task where no pop reaches it |
| TaskQueue.LostPushAsWritten | src/thread_pool.c:36-40 | push A, take A, push B: the second push reports success, yet the next `next_task` returns NULL |
| TaskQueue.PushAfterDrainFixed | src/thread_pool.c:24-43 | with the intended pop the same sequence returns B |
| TaskQueue.DestroyThreadPool | src/thread_pool.c:123-148 | a NULL pool is untouched. Otherwise every queued task is freed, nothing else is freed, and `last_task` and `active` are cleared |

## Left out

- Floating point: `ndc_to_pixels`, `draw_triangle`, and the barycentric, depth and texture-coordinate interpolation of both `draw_triangle_raw`s are outside the model. The interpolation is the `shade` parameter, which supplies a depth and a texel index per covered pixel. Single-precision arithmetic in `sort_cw`, `draw_triangles` and the mesher's vertex data is modelled as exact reals.
- The matrix product of `draw_triangles` (`glms_mat4_mul`, `glms_mat4_mulv`) is the `clip` parameter.
- SDL: the window, texture locking, `SDL_RenderClear` and presenting. `present` is modelled only as the hand-off of the buffer and the clears.
- Image loading (`load_texture`, `destroy_texture`, stb_image) is out; a texture is a decoded byte array.
- The wrappers `draw_line` and `draw_rect` only convert float coordinates, and are left out.
- `destroy_chunk` only calls `free`; the `faces` buffer of the mesh is never used by the core.
- `malloc`/`realloc` failure is not modelled; allocation always succeeds.
- Threads: `thread_func`, `pool_wait`, the mutex and condition variables, and the thread creation in `init_thread_pool` are not modelled. The queue operations are modelled as the critical sections they run in.
- `camera.c`, `player.c`, `window.c`, `util.c` and `noise.h` are not part of this model.
- Mesher.PushVertex: the `uint32_t` counters `vertex_count` and `vertex_count_alloc` are unbounded, because a chunk produces at most 8192 * 36 vertices, far below 2^32.
- Line.DrawLineRaw: when major + minor exceeds 2^32 the `uint32_t` error term wraps. The contract then states only the number of points and the painting, not their positions.
- Line.Advance: states its relation to the ideal line only when the error term cannot wrap.
- EarlyRenderer.DrawTriangleRaw: requires that the scan be empty or that all vertices lie within [0, SCREEN_WIDTH] x [0, SCREEN_HEIGHT]. A box that crosses the left or top edge is covered, because the unsigned loop guards skip it entirely. Excluded are boxes that reach past the right or bottom edge, and boxes lying wholly at negative coordinates, whose counters start near 2^32. With depth testing on, the unguarded depth access then reads or writes outside the buffer or aliases another row (see Findings). With it off, `SET_PIXEL` drops those writes, but the model does not cover that case either.
- EarlyRenderer.DrawTriangleRaw: also requires `TexelsInRange`: at every scanned covered pixel, the texel index the floating-point stage yields is below width * height. The source reads `texture->data[index * channels]` without a check, so an out-of-range index reads outside the texture. For example, `tex_coords.x == 1.0` in the last texel row gives index == width * height. The model excludes that read.
- EarlyRenderer.DrawRow: requires `TexelsInRange`, for the reason given for `EarlyRenderer.DrawTriangleRaw`.
- EarlyRenderer.ScanPixel: requires `TexelsInRange`, for the reason given for `EarlyRenderer.DrawTriangleRaw`.
- EarlyRenderer.ShadePixel: requires `TexelsInRange` and vertices on the screen, for the reasons given for `EarlyRenderer.DrawTriangleRaw`.
- Geometry.TriangleArea: the products of `src/rendering.c:301` are exact integers in the model. In C they are `int32_t` and overflow, which is undefined behaviour, only for coordinates of about 2^15 and beyond, far outside the screen.
- Geometry.BoxAreaBoundsTriangleArea: compares the two areas as exact integers, for the reason given for `Geometry.TriangleArea`.
- EarlyRenderer.DrawRectRaw: the loop counters are unbounded. With `x2` or `y2` equal to `UINT32_MAX` the source loops forever (see Findings).
- Rendering.DrawTriangleRaw: texture byte offsets are assumed to fit in `int32_t` (`ValidTexture` bounds the data below 2^31 bytes), so `index *= channels` does not wrap.
- TaskQueue.PushTask: requires the new address to be fresh, as `malloc` guarantees. It also requires a non-NULL `first_task` to name a live task. After a queue is emptied by workers that free their tasks, the stale `first_task` of the finding below names freed memory, so the next push writes through a dangling pointer. The model excludes that use-after-free through this requirement rather than modelling it.
- TaskQueue.DestroyThreadPool: `first_task` is not reset by the source, and the model keeps it as it was.

## Findings

| source | as written | input that shows it | evidently intended | confidence | as-written member | corrected member |
|---|---|---|---|---|---|---|
| src/thread_pool.c:36-40 | taking the only task clears `last_task` but leaves `first_task` naming it | push A, take A, push B: the push reports success and links B after A, but `next_task` returns NULL forever | clear `first_task` too when the queue runs empty | high; not executed | TaskQueue.LostPushAsWritten | TaskQueue.NextTaskFixed |
| src/main.c:303-306 | the results of the four `SDL_clamp` calls on the bounding box are discarded | triangle (0,0), (500,0), (0,10): the scan visits (430, 1), which writes slot 857 of pixel (3, 2) | scan only the on-screen part of the bounding box, as `src/rendering.c:304-307` does | high; not executed | EarlyRenderer.UnclampedScanBoxAliases | Geometry.ClampedBoxIsOnScreenPart |
| src/world.c:70 | the left, front and bottom faces return early when the coordinate is positive (`x > 0`), so they are drawn only at coordinate 0 | air at (0,0,0), grass at (1,0,0): no face separates them | a face is drawn when the neighbour is air, symmetric with the right, back and top faces | medium; not executed | Mesher.AsWrittenMissesSharedFace | Mesher.SymmetricCullsSharedFaces |
| src/main.c:191-197 | `for (u32 x = x1; x <= x2; x++)` with `x2 == UINT32_MAX` | `draw_rect_raw(0, 0, 0xFFFFFFFF, 0, c)`: the guard always holds and the counter wraps back | the inclusive rectangle is painted once and the loop ends | medium; not executed | EarlyRenderer.RectLoopNeverExits | EarlyRenderer.DrawRectRaw |
| src/main.c:311 | `area` is half the bounding-box area | triangle (0,0), (4,2), (2,4): `area` is 8, the triangle's area is 6 | the triangle's own area, as `src/rendering.c:301` computes it | high; not executed | Geometry.AreaFormulasDiffer | Geometry.TriangleArea |
