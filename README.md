# Voxel world: chunked storage and face-culling mesher

A Dafny model of the voxel engine of the three-voxel project:

- `VoxelWorld` stores an unbounded voxel grid as a sparse map from chunk
  coordinates to dense `chunkSize`³ byte buffers, Y-major, then Z, then X.
- World coordinates are split into a chunk key (floor division) and a local
  offset (Euclidean modulo). These work for negative coordinates too.
- `generateGeometryDataForChunk` walks every cell of a chunk. For each set
  voxel it emits one textured quad per face whose neighbour is empty, even when
  that neighbour lies in another chunk. The result is four flat buffers:
  positions, normals, uvs and triangle indices.
- It also models the iteration helpers underneath: `createRange`,
  `createSimpleRanges`, `getRangesFromMax`, `deepLoop` and
  `getOffsetFromPosition`.

Files:

- `voxel_types.dfy` (module `VoxelTypes`): `byte`, the 0..255 range of a
  `Uint8Array` cell, and `pos`, a strictly positive size.
- `basic_utils.dfy` (module `BasicUtils`), covering `src/utils/basicUtils.ts`:
  - `createRange` is the iterator class `RangeIterator`, driven to the end by
    `CreateRange`; its specification is `RangeValues`.
  - `deepLoop` is the mutually recursive `DeepLoop` / `RecursiveLoop` /
    `LoopEach`, each returning the argument lists passed to the callback in
    call order. Its reference definition is the lexicographic Cartesian
    product `Product`.
  - `getOffsetFromPosition`.
- `faces.dfy` (module `FaceTable`): the static table `VoxelWorld.faces`, with
  the facts the mesher relies on.
- `geometry.dfy` (module `Geometry`): the four mesh buffers and their
  specification. `AppendQuad` is what emitting one face does to them, and
  `MeshOf` is the buffers after a sequence of emitted quads.
- `voxel_world.dfy` (module `Voxels`): the class `VoxelWorld`.
  - Its `chunks` field is a `map<ChunkId, array<byte>>` whose buffers are
    updated in place.
  - `Contents()` is the value snapshot of those buffers.
  - `VoxelAt` and `StoreVoxel` specify reads and writes on that snapshot.
  - The mesher is imperative, like the source. Its result is
    `MeshOf(TileAtlas(), ChunkQuads(Contents(), ...))`, where `ChunkQuads` is
    the sequence of exposed faces in visiting order. Its length is tied to the
    independently defined set `ExposedFaces`.

## Model

| member | source | states |
|---|---|---|
| BasicUtils.RangeIterator.constructor | src/utils/basicUtils.ts:3-6 | A fresh iterator starts with `counter = 0` and `nextIndex = start`, keeping `end` and `step`. |
| BasicUtils.RangeIterator.Next | src/utils/basicUtils.ts:7-15 | Below `end`, it yields the current index and advances it by `step`. Otherwise it reports done with the never-advanced counter (0) and does not move. |
| BasicUtils.CreateRange | src/utils/basicUtils.ts:1-19 | Driving a fresh iterator until done collects exactly `RangeValues(start, end, step)`. A non-positive step with `start < end` never terminates and is excluded. |
| BasicUtils.RangeProperties | src/utils/basicUtils.ts:1-19 | With a positive step, value k is `start + k*step`. Every value is below `end` and the next one would not be. The values strictly increase. |
| BasicUtils.RangeUnitLength | src/utils/basicUtils.ts:1-19 | With the default step 1 the range has `max(0, end - start)` values. |
| BasicUtils.IotaRange | src/utils/basicUtils.ts:1-19 | `createRange(0, max)` yields 0, 1, …, max-1. |
| BasicUtils.CreateSimpleRanges | src/utils/basicUtils.ts:21-23 | One range per argument, in order. Range i holds 0 … maxes[i]-1 and has length max(0, maxes[i]). |
| BasicUtils.GetRangesFromMax | src/utils/basicUtils.ts:62-64 | Yields the same ranges as `createSimpleRanges` on the same arguments. |
| BasicUtils.DeepLoop | src/utils/basicUtils.ts:43-53 | The callback's argument lists in call order. There are none for no range. With one or more ranges there are as many as the product of the range lengths. Every list holds one value drawn from each range, in range order. |
| BasicUtils.RecursiveLoop | src/utils/basicUtils.ts:29-41 | `recursiveLoop(values, ranges)` makes as many calls as the product of the range lengths. Each call receives `values` followed by one value drawn from each range, in order. |
| BasicUtils.LoopEach | src/utils/basicUtils.ts:37-39 | The `forEach` over one range that recurses on the rest makes (length of `range`) × (product of the remaining lengths) calls. Each call receives `values`, then a value of `range`, then one value from each remaining range. |
| BasicUtils.RecursiveLoopIsProduct | src/utils/basicUtils.ts:29-41 | `recursiveLoop(values, ranges)` calls back with `values` followed by each tuple of the product of `ranges`, in lexicographic order. |
| BasicUtils.LoopEachIsProduct | src/utils/basicUtils.ts:35-39 | Looping over one range and recursing on the rest calls back with `values` followed by each tuple of `range × product(rest)`. |
| BasicUtils.DeepLoopIsProduct | src/utils/basicUtils.ts:43-53 | With no range the callback is never called. Otherwise its calls are exactly the Cartesian product of the ranges, first range outermost. |
| BasicUtils.ProductLength | src/utils/basicUtils.ts:25-53 | The reference product has as many tuples as the product of the range lengths (1 for no range). With one or more ranges that is deepLoop's call count; with none, deepLoop makes no call. |
| BasicUtils.ProductMember | src/utils/basicUtils.ts:25-53 | A tuple is in the reference product iff it has one entry per range and each entry comes from its range. With one or more ranges these are exactly the tuples deepLoop passes to its callback; with none, the product holds the empty tuple but deepLoop makes no call. |
| BasicUtils.ProductSorted | src/utils/basicUtils.ts:25-53 | With strictly increasing ranges the calls come in strict lexicographic order. |
| BasicUtils.DeepLoopOrder | src/utils/basicUtils.ts:25-53 | For one or more strictly increasing ranges the call count is the product of the lengths. Membership matches the product, order is lexicographic and no tuple repeats. |
| BasicUtils.GetOffsetFromPosition | src/utils/basicUtils.ts:58-60 | A position inside the cube of edge `length` maps to an index in `[0, length³)`. |
| BasicUtils.OffsetDecode | src/utils/basicUtils.ts:58-60 | From the index, x is `o % L`, z is `o / L % L` and y is `o / L / L`: the layout is Y-major, then Z, then X. |
| BasicUtils.OffsetInjective | src/utils/basicUtils.ts:58-60 | Distinct in-cube positions get distinct indices. |
| FaceTable.FacesTable | src/voxels/VoxelWorld.ts:176-237 | There are six faces in the order -x, +x, -y, +y, -z, +z. Each has a unit outward direction, atlas row 0..2 and four corners with 0/1 coordinates on the face's side of the cube. The directions are pairwise distinct. |
| Geometry.PushAllCorners | src/voxels/VoxelWorld.ts:148-156 | Pushing the four corners appends the quad's 12 position numbers, 12 normal numbers and 8 uv numbers, and leaves the indices unchanged. |
| Geometry.MeshOfSizes | src/voxels/VoxelWorld.ts:145-161 | Each emitted face adds 12 position, 12 normal, 8 uv and 6 index entries. |
| Geometry.MeshOfSnoc | src/voxels/VoxelWorld.ts:145-161 | Emitting one more face extends the earlier buffers by exactly that face's data. |
| Geometry.MeshOfLast | src/voxels/VoxelWorld.ts:147-160 | The last face's indices start at `ndx = positions.length / 3`, which is 4 × the number of earlier faces. |
| Geometry.QuadSlices | src/voxels/VoxelWorld.ts:145-161 | Face k owns positions and normals [12k, 12k+12), uvs [8k, 8k+8) and indices [6k, 6k+6). Its indices are `4k, 4k+1, 4k+2, 4k+2, 4k+1, 4k+3`. |
| Geometry.MeshIndicesInRange | src/voxels/VoxelWorld.ts:158-160 | Every index names a vertex that exists: it is below `positions.length / 3`. |
| Geometry.MeshNormals | src/voxels/VoxelWorld.ts:150 | Each of a face's four normals is that face's direction. |
| Geometry.QuadPositionsInCube | src/voxels/VoxelWorld.ts:149 | For a cell in `[0, size)³` every emitted position component lies in `[0, size]`. |
| Geometry.MeshPositionsInCube | src/voxels/VoxelWorld.ts:149 | When every emitted cell lies in `[0, size)³`, every position in the buffer lies in `[0, size]`. |
| Voxels.FloorDiv | src/voxels/VoxelWorld.ts:51-53 | `Math.floor(n / m)` equals integer division rounding down: `q*m <= n < q*m + m`. |
| Voxels.EuclideanModulo | src/voxels/VoxelWorld.ts:59-61 | `((n % m) + m) % m` with JavaScript's truncating `%` is the remainder in `[0, m)`, for negative n too. |
| Voxels.VoxelWorld.constructor | src/voxels/VoxelWorld.ts:34-47 | Stores the options, sets `chunkSliceSize = chunkSize²` and starts with no chunks. |
| Voxels.VoxelWorld.ComputeChunkId | src/voxels/VoxelWorld.ts:49-55 | On each axis the coordinate lies in `[id*chunkSize, id*chunkSize + chunkSize)`. |
| Voxels.VoxelWorld.ComputeVoxelOffset | src/voxels/VoxelWorld.ts:57-63 | The offset lies in `[0, chunkSize³)` and is the Y-major index of the coordinate's local position in its chunk. |
| Voxels.VoxelWorld.AddressDecomposition | src/voxels/VoxelWorld.ts:49-63 | On each axis a coordinate is its chunk coordinate × `chunkSize` plus its local coordinate. |
| Voxels.VoxelWorld.AddressInjective | src/voxels/VoxelWorld.ts:49-63 | Chunk key and buffer offset together determine the world coordinate, so no two coordinates share a cell. |
| Voxels.VoxelWorld.LocalAddress | src/voxels/VoxelWorld.ts:49-63 | Local cell (x, y, z) of chunk (cx, cy, cz) is addressed to that chunk, at offset `getOffsetFromPosition(x, y, z)`. |
| Voxels.VoxelWorld.GetChunkForVoxel | src/voxels/VoxelWorld.ts:65-67 | Returns the buffer stored under the coordinate's chunk key, or nothing when that key is absent. |
| Voxels.VoxelWorld.GetVoxel | src/voxels/VoxelWorld.ts:69-84 | Reads 0 for a coordinate whose chunk does not exist. Otherwise it reads the cell at its offset, i.e. `VoxelAt(Contents(), x, y, z)`. It changes nothing. |
| Voxels.VoxelWorld.AddChunkForVoxel | src/voxels/VoxelWorld.ts:98-109 | Get-or-insert. An existing buffer is returned and nothing changes. Otherwise a fresh zero-filled buffer of `chunkSize³` cells is stored under the key and returned. |
| Voxels.VoxelWorld.SetVoxel | src/voxels/VoxelWorld.ts:86-96 | The new contents are `StoreVoxel(old contents, x, y, z, v mod 256)`: the chunk is added zero-filled if missing, then its cell is written. Existing buffers keep their identity, and a buffer it adds is freshly allocated. |
| Voxels.VoxelWorld.WriteCell | src/voxels/VoxelWorld.ts:95 | The in-place store changes only that cell of that chunk; every other buffer is untouched. |
| Voxels.VoxelWorld.LoadAfterStore | src/voxels/VoxelWorld.ts:69-96 | After a write, the written coordinate reads the written value and every other coordinate reads what it read before. |
| Voxels.VoxelWorld.StoreIdempotent | src/voxels/VoxelWorld.ts:86-96 | Writing the same value twice equals writing it once. |
| Voxels.VoxelWorld.StoreCommutes | src/voxels/VoxelWorld.ts:86-96 | Writes to two different coordinates commute. |
| Voxels.VoxelWorld.ChunkCellsFacts | src/voxels/VoxelWorld.ts:121-127 | The loop visits exactly the `chunkSize³` local cells, each once, in (y, z, x) lexicographic order. |
| Voxels.VoxelWorld.GenerateGeometryDataForChunk | src/voxels/VoxelWorld.ts:111-173 | The buffers are the mesh of the exposed faces in visiting order. They hold 12, 12, 8 and 6 numbers per exposed face, every index names an emitted vertex, and every position lies in `[0, chunkSize]`. The world is unchanged. |
| Voxels.VoxelWorld.MeshCells | src/voxels/VoxelWorld.ts:121-165 | Applying the cell callback to each cell in order gives the mesh of `CellsQuads` of those cells, starting from empty buffers. |
| Voxels.VoxelWorld.MeshCell | src/voxels/VoxelWorld.ts:127-164 | The callback for one cell appends the faces of that cell: none for an empty voxel, otherwise those of its exposed faces in table order. |
| Voxels.VoxelWorld.MeshFaces | src/voxels/VoxelWorld.ts:138-162 | The face loop of a set voxel appends exactly its exposed faces, in table order. |
| Voxels.VoxelWorld.MeshFace | src/voxels/VoxelWorld.ts:139-161 | One face is appended iff the neighbour across it is empty, the neighbour being read in world space. |
| Voxels.VoxelWorld.EmitFace | src/voxels/VoxelWorld.ts:147-160 | The corner loop plus the index push equals `AppendQuad`. That means four corner positions offset by the cell, the face normal four times, the atlas uvs and the two triangles starting at `positions.length / 3`. |
| Voxels.VoxelWorld.FaceQuadsMember | src/voxels/VoxelWorld.ts:138-145 | A face is emitted for a voxel iff its index is in the table range looped so far and the neighbour across it is empty. |
| Voxels.VoxelWorld.FaceQuadsDistinct | src/voxels/VoxelWorld.ts:138-162 | A voxel never emits the same face twice. |
| Voxels.VoxelWorld.CellQuadsMember | src/voxels/VoxelWorld.ts:127-164 | A cell emits a quad iff the quad is for that cell and that voxel, the voxel is set and the face is exposed. |
| Voxels.VoxelWorld.CellsQuadsMember | src/voxels/VoxelWorld.ts:121-165 | Over a list of cells, a quad is emitted iff its cell is listed, its voxel is set and its face is exposed. |
| Voxels.VoxelWorld.CellsQuadsDistinct | src/voxels/VoxelWorld.ts:121-165 | When no cell is listed twice, no quad is emitted twice. |
| Voxels.VoxelWorld.ChunkQuadsMember | src/voxels/VoxelWorld.ts:111-173 | A quad is emitted for the chunk iff it is in `ExposedFaces`: a cell in the chunk, a set voxel and an empty neighbour across the face. |
| Voxels.VoxelWorld.ChunkQuadsCount | src/voxels/VoxelWorld.ts:111-173 | Exactly one quad per exposed (voxel, face) pair: no duplicates, the same elements as `ExposedFaces`, and the same count. |
| Voxels.VoxelWorld.ChunkQuadsInCube | src/voxels/VoxelWorld.ts:127-130 | Every emitted quad's cell is a local cell in `[0, chunkSize)³`. |
| Voxels.VoxelWorld.ChunkMeshFacts | src/voxels/VoxelWorld.ts:111-173 | The buffer sizes are 12, 12, 8 and 6 × the number of exposed faces. Indices are in range and positions lie in `[0, chunkSize]`. |
| Voxels.VoxelWorld.EmptyChunkMeshesNothing | src/voxels/VoxelWorld.ts:132-134 | A chunk whose cells are all 0 has no exposed faces and yields four empty buffers. |
| Voxels.VoxelWorld.MissingChunkMeshesNothing | src/voxels/VoxelWorld.ts:69-74 | A chunk that was never created reads 0 everywhere and so yields four empty buffers. |
| Voxels.VoxelWorld.IsolatedVoxelSixQuads | src/voxels/VoxelWorld.ts:138-161 | A lone set voxel with six empty neighbours yields six quads: 24 vertices (72 position numbers) and 36 indices. |

## Left out

- Numbers: JavaScript numbers are doubles. The model uses unbounded integers for coordinates, chunk keys and buffer contents, and exact reals for the uv values. Non-integer coordinates and rounding of the uv division are not modelled.
- Voxels.VoxelWorld.ComputeVoxelOffset: drops the `| 0` int32 truncation of the Euclidean remainder. It is the identity on `[0, chunkSize)` whenever `chunkSize` is below 2³¹; larger chunk sizes are not modelled.
- `Uint8Array` conversion: the store of an integer is modelled as `v mod 256`. The conversion of non-integer, NaN and infinite values is not modelled.
- The chunk key is the string `"x,y,z"` in the source. It is modelled as the triple `ChunkId(x, y, z)`. For integer chunk coordinates two keys give the same `"x,y,z"` string exactly when their triples are equal, so the two representations identify the same chunks.
- `chunkSize`, `tileTextureWidth` and `tileTextureHeight` are strictly positive (the `pos` type). The source does not check them; with 0 it divides by zero.
- `generateGeometryDataForChunk` takes a `THREE.Vector3` chunk position. It is modelled as three integer chunk coordinates.
- `deepLoop` prints a `console.warn` for zero or one range. Console output is I/O and is left out; the callbacks that are made are modelled.
- Callbacks: `deepLoop`'s `fn` is modelled by the sequence of argument lists it receives. The mesher's two closures are the methods `MeshCell` and `MeshFace`, with `MeshCells` and `MeshFaces` as the loops that drive them. Arbitrary side effects of other callbacks are not modelled.
- BasicUtils.CreateRange: a range with a non-positive step and `start < end` never ends in the source. That case is excluded by a precondition.
- Iterator protocol: `createRange` returns an iterable whose `[Symbol.iterator]()` makes a fresh iterator. The model constructs that iterator (`RangeIterator`) and drains it, as every caller spreads the range. A caller that stops early is not modelled.
- `VoxelWorld.faces` is a static field assigned once. It is modelled as a constant.
- `getVoxel` recomputes the offset inline instead of calling `computeVoxelOffset`. The model writes the same inline computation, and its contract states the result through `VoxelAt`, which addresses cells the way `ComputeVoxelOffset` does.
- Ray traversal, voxel placement and the mesh cache (`intersectRay`, `placeVoxel`, `getMeshes`, `init`, `updateVoxelGeometry`) are called from other files, but their code is not part of this model. The ray walk is floating-point in any case.
- UI and rendering are not part of this model. That covers the selector widgets, camera, controls, lighting, materials, canvas and React components, texture loading (`loadTexture`), and the terrain generators in `src/voxels/worldGenEx.ts` and `src/voxels/cautionaryEx.ts`.
