/**
 * The chunked voxel store and face-culling mesher of src/voxels/VoxelWorld.ts:
 * a sparse map from chunk coordinates to dense chunkSize^3 byte buffers, world
 * to chunk/local addressing, and the mesher that emits one quad per exposed
 * voxel face.
 */
module Voxels {
  import opened VoxelTypes
  import opened BasicUtils
  import opened FaceTable
  import opened Geometry

  /** The key of a chunk: its coordinate on each axis (the source formats it as "x,y,z"). */
  datatype ChunkId = ChunkId(x: int, y: int, z: int)

  datatype Option<T> = None | Some(value: T)

  // ---------------------------------------------------------------------------
  // The arithmetic the addressing uses
  // ---------------------------------------------------------------------------

  /** JavaScript's `n % m` on integers: the remainder takes the sign of the dividend. */
  function JsRemainder(n: int, m: pos): int {
    if n >= 0 then n % m else -((-n) % m)
  }

  /**
   * THREE.MathUtils.euclideanModulo(n, m), that is ((n % m) + m) % m with
   * JavaScript's %: the remainder in [0, m) that Dafny's own % computes.
   */
  function EuclideanModulo(n: int, m: pos): (r: int)
    ensures r == n % m
    ensures 0 <= r < m
  {
    EuclideanModuloIsMod(n, m);
    JsRemainder(JsRemainder(n, m) + m, m)
  }

  lemma EuclideanModuloIsMod(n: int, m: pos)
    ensures JsRemainder(JsRemainder(n, m) + m, m) == n % m
  {
    var t := JsRemainder(n, m);
    if n >= 0 {
      DivModUnique(t + m, 1, t, m);
    } else {
      var a := -n;
      var q, s := a / m, a % m;
      assert t == -s;
      if s == 0 {
        DivModUnique(m, 1, 0, m);
        DivModUnique(n, -q, 0, m);
      } else {
        DivModUnique(m - s, 0, m - s, m);
        DivModUnique(n, -q - 1, m - s, m);
      }
    }
  }

  lemma DivModParts(n: int, m: pos)
    ensures n == (n / m) * m + n % m
  {
  }

  /** Math.floor(n / m): the real quotient rounded down, which is Dafny's n / m. */
  function FloorDiv(n: int, m: pos): (q: int)
    ensures q == n / m
    ensures q * m <= n < q * m + m
  {
    FloorDivIsDiv(n, m);
    ((n as real) / (m as real)).Floor
  }

  lemma FloorDivIsDiv(n: int, m: pos)
    ensures ((n as real) / (m as real)).Floor == n / m
  {
    var q, r := n / m, n % m;
    var x := (n as real) / (m as real);
    assert n as real == (q as real) * (m as real) + (r as real);
    assert x == (q as real) + (r as real) / (m as real);
    assert 0.0 <= (r as real) / (m as real) < 1.0;
  }


  // ---------------------------------------------------------------------------
  // The world
  // ---------------------------------------------------------------------------

  /** The chunk map as values: chunk key -> the cells of its buffer. */
  type ChunkContents = map<ChunkId, seq<byte>>

  class VoxelWorld {
    const chunkSize: pos
    const tileSize: int
    const tileTextureWidth: pos
    const tileTextureHeight: pos
    const chunkSliceSize: int
    /** chunk key -> Uint8Array of chunkSize^3 voxel ids, mutated in place */
    var chunks: map<ChunkId, array<byte>>

    /** Every buffer has chunkSize^3 cells and no two keys share a buffer. */
    ghost predicate Valid()
      reads this
    {
      && chunkSliceSize == chunkSize * chunkSize
      && (forall id :: id in chunks ==> chunks[id].Length == chunkSize * chunkSize * chunkSize)
      && (forall id1, id2 :: id1 in chunks && id2 in chunks && id1 != id2 ==> chunks[id1] != chunks[id2])
    }

    /** Every chunk of w has chunkSize^3 cells. */
    predicate WellSized(w: ChunkContents) {
      forall id :: id in w ==> |w[id]| == chunkSize * chunkSize * chunkSize
    }

    /** The current cells of every chunk, as values. */
    ghost function Contents(): (w: ChunkContents)
      requires Valid()
      reads this, chunks.Values
      ensures WellSized(w)
      ensures w.Keys == chunks.Keys
    {
      map id | id in chunks :: chunks[id][..]
    }

    constructor (chunkSize: pos, tileSize: int, tileTextureWidth: pos, tileTextureHeight: pos)
      ensures Valid()
      ensures this.chunkSize == chunkSize && this.tileSize == tileSize
      ensures this.tileTextureWidth == tileTextureWidth && this.tileTextureHeight == tileTextureHeight
      ensures chunks == map[]
    {
      this.chunkSize := chunkSize;
      this.tileSize := tileSize;
      this.tileTextureWidth := tileTextureWidth;
      this.tileTextureHeight := tileTextureHeight;
      chunkSliceSize := chunkSize * chunkSize;
      chunks := map[];
    }

    function TileAtlas(): Atlas {
      Atlas(tileSize, tileTextureWidth, tileTextureHeight)
    }

    // -------------------------------------------------------------------------
    // Addressing
    // -------------------------------------------------------------------------

    /** The chunk whose cube [id * chunkSize, id * chunkSize + chunkSize) holds the coordinate, per axis. */
    function ComputeChunkId(x: int, y: int, z: int): (id: ChunkId)
      ensures id.x * chunkSize <= x < id.x * chunkSize + chunkSize
      ensures id.y * chunkSize <= y < id.y * chunkSize + chunkSize
      ensures id.z * chunkSize <= z < id.z * chunkSize + chunkSize
    {
      ChunkId(FloorDiv(x, chunkSize), FloorDiv(y, chunkSize), FloorDiv(z, chunkSize))
    }

    /** The slot of the coordinate in its chunk's buffer: the Y-major index of its local position. */
    function ComputeVoxelOffset(x: int, y: int, z: int): (offset: int)
      ensures 0 <= offset < chunkSize * chunkSize * chunkSize
      ensures offset == GetOffsetFromPosition(x % chunkSize, y % chunkSize, z % chunkSize, chunkSize)
    {
      var voxelX := EuclideanModulo(x, chunkSize);
      var voxelY := EuclideanModulo(y, chunkSize);
      var voxelZ := EuclideanModulo(z, chunkSize);
      GetOffsetFromPosition(voxelX, voxelY, voxelZ, chunkSize)
    }

    /**
     * On each axis a coordinate is its chunk coordinate times chunkSize plus a
     * local coordinate in [0, chunkSize), negative coordinates included.
     */
    lemma AddressDecomposition(x: int, y: int, z: int)
      ensures var id := ComputeChunkId(x, y, z);
        && x == id.x * chunkSize + EuclideanModulo(x, chunkSize)
        && y == id.y * chunkSize + EuclideanModulo(y, chunkSize)
        && z == id.z * chunkSize + EuclideanModulo(z, chunkSize)
    {
      DivModParts(x, chunkSize);
      DivModParts(y, chunkSize);
      DivModParts(z, chunkSize);
    }

    /** Chunk key and buffer slot together determine the world coordinate. */
    lemma AddressInjective(x1: int, y1: int, z1: int, x2: int, y2: int, z2: int)
      requires ComputeChunkId(x1, y1, z1) == ComputeChunkId(x2, y2, z2)
      requires ComputeVoxelOffset(x1, y1, z1) == ComputeVoxelOffset(x2, y2, z2)
      ensures x1 == x2 && y1 == y2 && z1 == z2
    {
      var L := chunkSize;
      OffsetInjective(x1 % L, y1 % L, z1 % L, x2 % L, y2 % L, z2 % L, L);
      AddressDecomposition(x1, y1, z1);
      AddressDecomposition(x2, y2, z2);
    }

    /** The coordinates inside chunk (cx, cy, cz) are addressed to that chunk, at their local offset. */
    lemma LocalAddress(cx: int, cy: int, cz: int, x: int, y: int, z: int)
      requires 0 <= x < chunkSize && 0 <= y < chunkSize && 0 <= z < chunkSize
      ensures ComputeChunkId(cx * chunkSize + x, cy * chunkSize + y, cz * chunkSize + z) == ChunkId(cx, cy, cz)
      ensures ComputeVoxelOffset(cx * chunkSize + x, cy * chunkSize + y, cz * chunkSize + z)
           == GetOffsetFromPosition(x, y, z, chunkSize)
    {
      DivModUnique(cx * chunkSize + x, cx, x, chunkSize);
      DivModUnique(cy * chunkSize + y, cy, y, chunkSize);
      DivModUnique(cz * chunkSize + z, cz, z, chunkSize);
    }

    // -------------------------------------------------------------------------
    // Storage, as values
    // -------------------------------------------------------------------------

    /** The voxel id at a world coordinate of w: 0 when its chunk is missing, else the cell at its offset. */
    function VoxelAt(w: ChunkContents, x: int, y: int, z: int): byte
      requires WellSized(w)
    {
      var id := ComputeChunkId(x, y, z);
      if id in w then w[id][ComputeVoxelOffset(x, y, z)] else 0
    }

    /** A freshly allocated Uint8Array of chunkSize^3 cells. */
    function EmptyChunk(): (c: seq<byte>)
      ensures |c| == chunkSize * chunkSize * chunkSize
      ensures forall i :: 0 <= i < |c| ==> c[i] == 0
    {
      seq(chunkSize * chunkSize * chunkSize, _ => 0)
    }

    /** w after writing v at the coordinate, its chunk added zero-filled when missing. */
    function StoreVoxel(w: ChunkContents, x: int, y: int, z: int, v: byte): (w': ChunkContents)
      requires WellSized(w)
      ensures WellSized(w')
      ensures w'.Keys == w.Keys + {ComputeChunkId(x, y, z)}
    {
      var id := ComputeChunkId(x, y, z);
      var chunk := if id in w then w[id] else EmptyChunk();
      w[id := chunk[ComputeVoxelOffset(x, y, z) := v]]
    }

    /** Reading after a write: the written coordinate reads v and every other coordinate reads as before. */
    lemma LoadAfterStore(w: ChunkContents, x: int, y: int, z: int, v: byte, a: int, b: int, c: int)
      requires WellSized(w)
      ensures VoxelAt(StoreVoxel(w, x, y, z, v), a, b, c) == if (a, b, c) == (x, y, z) then v else VoxelAt(w, a, b, c)
    {
      if (a, b, c) != (x, y, z) && ComputeChunkId(a, b, c) == ComputeChunkId(x, y, z) {
        if ComputeVoxelOffset(a, b, c) == ComputeVoxelOffset(x, y, z) {
          AddressInjective(a, b, c, x, y, z);
        }
      }
    }

    /** Writing the same value twice is writing it once. */
    lemma StoreIdempotent(w: ChunkContents, x: int, y: int, z: int, v: byte)
      requires WellSized(w)
      ensures StoreVoxel(StoreVoxel(w, x, y, z, v), x, y, z, v) == StoreVoxel(w, x, y, z, v)
    {
      var id, off := ComputeChunkId(x, y, z), ComputeVoxelOffset(x, y, z);
      var cells: seq<byte> := StoreVoxel(w, x, y, z, v)[id];
      assert cells[off := v] == cells;
    }

    /** Writes to two different coordinates commute. */
    lemma StoreCommutes(w: ChunkContents, x1: int, y1: int, z1: int, v1: byte, x2: int, y2: int, z2: int, v2: byte)
      requires WellSized(w)
      requires (x1, y1, z1) != (x2, y2, z2)
      ensures StoreVoxel(StoreVoxel(w, x1, y1, z1, v1), x2, y2, z2, v2)
           == StoreVoxel(StoreVoxel(w, x2, y2, z2, v2), x1, y1, z1, v1)
    {
      var id1, off1 := ComputeChunkId(x1, y1, z1), ComputeVoxelOffset(x1, y1, z1);
      var id2, off2 := ComputeChunkId(x2, y2, z2), ComputeVoxelOffset(x2, y2, z2);
      if id1 == id2 {
        if off1 == off2 {
          AddressInjective(x1, y1, z1, x2, y2, z2);
        }
        var base: seq<byte> := if id1 in w then w[id1] else EmptyChunk();
        assert base[off1 := v1][off2 := v2] == base[off2 := v2][off1 := v1];
      }
    }

    // -------------------------------------------------------------------------
    // Storage
    // -------------------------------------------------------------------------

    function GetChunkForVoxel(x: int, y: int, z: int): (chunk: Option<array<byte>>)
      reads this
      ensures chunk.Some? <==> ComputeChunkId(x, y, z) in chunks
      ensures chunk.Some? ==> chunk.value == chunks[ComputeChunkId(x, y, z)]
    {
      var id := ComputeChunkId(x, y, z);
      if id in chunks then Some(chunks[id]) else None
    }

    /**
     * The voxel id at a world coordinate: 0 when its chunk does not exist,
     * otherwise the buffer cell at the offset ComputeVoxelOffset gives (the
     * source recomputes that offset inline).
     */
    function GetVoxel(x: int, y: int, z: int): (v: byte)
      requires Valid()
      reads this, chunks.Values
      ensures ComputeChunkId(x, y, z) !in chunks ==> v == 0
      ensures v == VoxelAt(Contents(), x, y, z)
    {
      match GetChunkForVoxel(x, y, z)
      case None => 0
      case Some(chunk) =>
        var voxelX := EuclideanModulo(x, chunkSize);
        var voxelY := EuclideanModulo(y, chunkSize);
        var voxelZ := EuclideanModulo(z, chunkSize);
        chunk[GetOffsetFromPosition(voxelX, voxelY, voxelZ, chunkSize)]
    }

    /**
     * Get-or-insert: an existing chunk buffer is returned and nothing changes;
     * otherwise a zero-filled buffer of chunkSize^3 cells is stored under the
     * coordinate's chunk key.
     */
    method AddChunkForVoxel(x: int, y: int, z: int) returns (chunk: array<byte>)
      requires Valid()
      modifies this
      ensures Valid()
      ensures var id := ComputeChunkId(x, y, z);
        id in chunks && chunk == chunks[id]
      ensures var id := ComputeChunkId(x, y, z);
        id in old(chunks) ==> chunks == old(chunks)
      ensures var id := ComputeChunkId(x, y, z);
        id !in old(chunks) ==> fresh(chunk) && chunks == old(chunks)[id := chunk]
      ensures var id := ComputeChunkId(x, y, z);
        Contents() == if id in old(chunks) then old(Contents()) else old(Contents())[id := EmptyChunk()]
    {
      var chunkId := ComputeChunkId(x, y, z);
      if chunkId in chunks {
        chunk := chunks[chunkId];
      } else {
        chunk := new byte[chunkSize * chunkSize * chunkSize](_ => 0);
        assert chunk[..] == EmptyChunk();
        chunks := chunks[chunkId := chunk];
      }
    }

    /**
     * Writes v at the coordinate, creating its chunk first if needed; existing
     * buffers are updated in place and keep their identity. The Uint8Array
     * store keeps v modulo 256.
     */
    method SetVoxel(x: int, y: int, z: int, v: int)
      requires Valid()
      modifies this, chunks.Values
      ensures Valid()
      ensures Contents() == StoreVoxel(old(Contents()), x, y, z, v % 256)
      ensures forall id :: id in old(chunks) ==> id in chunks && chunks[id] == old(chunks[id])
      ensures forall id :: id in chunks && id !in old(chunks) ==> fresh(chunks[id])
    {
      ghost var w := Contents();
      var chunk := GetChunkForVoxel(x, y, z);
      var buffer: array<byte>;
      if chunk.None? {
        buffer := AddChunkForVoxel(x, y, z);
      } else {
        buffer := chunk.value;
      }
      ghost var id := ComputeChunkId(x, y, z);
      ghost var added := Contents();
      assert added == w[id := if id in w then w[id] else EmptyChunk()];
      var voxelOffset := ComputeVoxelOffset(x, y, z);
      ghost var cells: seq<byte> := added[id];
      assert added[id := cells[voxelOffset := v % 256]] == StoreVoxel(w, x, y, z, v % 256);
      WriteCell(id, buffer, voxelOffset, v % 256);
    }

    /** The in-place store chunk[offset] = v into the buffer of chunk id; every other buffer is untouched. */
    method WriteCell(ghost id: ChunkId, buffer: array<byte>, offset: int, v: byte)
      requires Valid()
      requires id in chunks && chunks[id] == buffer
      requires 0 <= offset < buffer.Length
      modifies buffer
      ensures Valid() && chunks == old(chunks)
      ensures var cells: seq<byte> := old(Contents())[id];
        Contents() == old(Contents())[id := cells[offset := v]]
    {
      ghost var before := Contents();
      ghost var cells := buffer[..];
      buffer[offset] := v;
      assert buffer[..] == cells[offset := v];
      forall k | k in chunks
        ensures Contents()[k] == before[id := cells[offset := v]][k]
      {
        if k != id {
          assert chunks[k] != buffer;
        }
      }
    }

    // -------------------------------------------------------------------------
    // Mesher specification, over the chunk contents w
    // -------------------------------------------------------------------------

    /** The world coordinate of local cell (0, 0, 0) of chunk (cx, cy, cz). */
    function ChunkStart(cx: int, cy: int, cz: int): Vec3 {
      Vec3(cx * chunkSize, cy * chunkSize, cz * chunkSize)
    }

    /** The local cells the mesher visits, as deepLoop's [y, z, x] argument lists. */
    function ChunkCells(): seq<seq<int>> {
      var r := RangeValues(0, chunkSize, 1);
      DeepLoop([r, r, r])
    }

    predicate AllTriples(cells: seq<seq<int>>) {
      forall k :: 0 <= k < |cells| ==> |cells[k]| == 3
    }

    predicate IsLocalCell(c: seq<int>) {
      |c| == 3 && 0 <= c[0] < chunkSize && 0 <= c[1] < chunkSize && 0 <= c[2] < chunkSize
    }

    /**
     * The mesher visits every local cell of the chunk exactly once, Y outermost,
     * then Z, then X.
     */
    lemma ChunkCellsFacts()
      ensures forall c :: c in ChunkCells() <==> IsLocalCell(c)
      ensures forall i, j :: 0 <= i < j < |ChunkCells()| ==> ChunkCells()[i] != ChunkCells()[j]
      ensures LexSorted(ChunkCells())
      ensures |ChunkCells()| == chunkSize * chunkSize * chunkSize
      ensures AllTriples(ChunkCells())
    {
      var r := RangeValues(0, chunkSize, 1);
      var rs := [r, r, r];
      RangeProperties(0, chunkSize, 1);
      DeepLoopOrder(rs);
      IotaRange(chunkSize);
      CubeLength(r);
      forall c
        ensures c in ChunkCells() <==> IsLocalCell(c)
      {
        if |c| == 3 {
          IotaMember(c[0], chunkSize);
          IotaMember(c[1], chunkSize);
          IotaMember(c[2], chunkSize);
        }
      }
      var cells := ChunkCells();
      forall k | 0 <= k < |cells|
        ensures |cells[k]| == 3
      {
        assert cells[k] in cells;
      }
    }

    /** The voxel id at local (x, y, z) of the chunk starting at s. */
    function LocalVoxel(w: ChunkContents, s: Vec3, x: int, y: int, z: int): byte
      requires WellSized(w)
    {
      VoxelAt(w, s.x + x, s.y + y, s.z + z)
    }

    /** The voxel id of the neighbour across face f of local (x, y, z), read in world space. */
    function NeighborVoxel(w: ChunkContents, s: Vec3, x: int, y: int, z: int, f: FaceIndex): byte
      requires WellSized(w)
    {
      var d := FaceDir(f);
      VoxelAt(w, s.x + x + d.x, s.y + y + d.y, s.z + z + d.z)
    }

    /** Face f of local (x, y, z) is drawn: the voxel is set and its neighbour across f is empty. */
    predicate LocalExposed(w: ChunkContents, s: Vec3, x: int, y: int, z: int, f: FaceIndex)
      requires WellSized(w)
    {
      LocalVoxel(w, s, x, y, z) != 0 && NeighborVoxel(w, s, x, y, z, f) == 0
    }

    /** The quad emitted for face f of the voxel at local (x, y, z): none when the neighbour across f is set. */
    function FaceQuad(w: ChunkContents, s: Vec3, x: int, y: int, z: int, voxel: byte, f: FaceIndex): seq<Quad>
      requires WellSized(w)
    {
      if NeighborVoxel(w, s, x, y, z, f) == 0 then [Quad(x, y, z, f, voxel)] else []
    }

    /** The quads emitted for faces 0 .. n-1 of the voxel at local (x, y, z), with id voxel. */
    function FaceQuads(w: ChunkContents, s: Vec3, x: int, y: int, z: int, voxel: byte, n: int): seq<Quad>
      requires WellSized(w)
      requires 0 <= n <= 6
    {
      if n == 0 then []
      else
        FaceQuads(w, s, x, y, z, voxel, n - 1) + FaceQuad(w, s, x, y, z, voxel, n - 1)
    }

    /** The quads emitted by the mesher's callback for local cell [y, z, x]. */
    function CellQuads(w: ChunkContents, s: Vec3, cell: seq<int>): seq<Quad>
      requires WellSized(w)
      requires |cell| == 3
    {
      var y, z, x := cell[0], cell[1], cell[2];
      var voxel := LocalVoxel(w, s, x, y, z);
      if voxel == 0 then [] else FaceQuads(w, s, x, y, z, voxel, 6)
    }

    /** The quads emitted for the cells in the order given. */
    function CellsQuads(w: ChunkContents, s: Vec3, cells: seq<seq<int>>): seq<Quad>
      requires WellSized(w)
      requires AllTriples(cells)
    {
      if cells == [] then []
      else CellsQuads(w, s, cells[..|cells| - 1]) + CellQuads(w, s, cells[|cells| - 1])
    }

    /** The quads the mesher emits for chunk (cx, cy, cz), in emission order. */
    function ChunkQuads(w: ChunkContents, cx: int, cy: int, cz: int): seq<Quad>
      requires WellSized(w)
    {
      ChunkCellsFacts();
      CellsQuads(w, ChunkStart(cx, cy, cz), ChunkCells())
    }

    /** The exposed (voxel, face) pairs of chunk (cx, cy, cz), as the quads that draw them. */
    ghost function ExposedFaces(w: ChunkContents, cx: int, cy: int, cz: int): set<Quad>
      requires WellSized(w)
    {
      var s := ChunkStart(cx, cy, cz);
      set x: int, y: int, z: int, f: FaceIndex |
        0 <= x < chunkSize && 0 <= y < chunkSize && 0 <= z < chunkSize && LocalExposed(w, s, x, y, z, f)
        :: Quad(x, y, z, f, LocalVoxel(w, s, x, y, z))
    }

    predicate IsExposedQuad(w: ChunkContents, cx: int, cy: int, cz: int, q: Quad)
      requires WellSized(w)
    {
      var s := ChunkStart(cx, cy, cz);
      && 0 <= q.x < chunkSize && 0 <= q.y < chunkSize && 0 <= q.z < chunkSize
      && LocalExposed(w, s, q.x, q.y, q.z, q.face)
      && q.voxel == LocalVoxel(w, s, q.x, q.y, q.z)
    }

    lemma ExposedFacesMember(w: ChunkContents, cx: int, cy: int, cz: int, q: Quad)
      requires WellSized(w)
      ensures q in ExposedFaces(w, cx, cy, cz) <==> IsExposedQuad(w, cx, cy, cz, q)
    {
      if IsExposedQuad(w, cx, cy, cz, q) {
        var s := ChunkStart(cx, cy, cz);
        assert LocalExposed(w, s, q.x, q.y, q.z, q.face);
      }
    }

    // -------------------------------------------------------------------------
    // The mesher
    // -------------------------------------------------------------------------

    /**
     * generateGeometryDataForChunk: visits every local cell in Y, Z, X order
     * (deepLoop over three ranges [0, chunkSize)) and meshes each with MeshCell.
     * It only reads the chunks.
     */
    method GenerateGeometryDataForChunk(chunkX: int, chunkY: int, chunkZ: int) returns (g: GeometryData)
      requires Valid()
      ensures g == MeshOf(TileAtlas(), ChunkQuads(Contents(), chunkX, chunkY, chunkZ))
      ensures var q := |ExposedFaces(Contents(), chunkX, chunkY, chunkZ)|;
        && |g.positions| == 12 * q && |g.normals| == 12 * q
        && |g.uvs| == 8 * q && |g.indices| == 6 * q
      ensures forall i :: i in g.indices ==> 0 <= i < |g.positions| / 3
      ensures forall p :: p in g.positions ==> 0 <= p <= chunkSize
    {
      var startX, startY, startZ := chunkX * chunkSize, chunkY * chunkSize, chunkZ * chunkSize;
      ghost var w := Contents();
      var range := CreateRange(0, chunkSize, 1);
      var cells := DeepLoop([range, range, range]);
      assert cells == ChunkCells() && AllTriples(cells) by {
        ChunkCellsFacts();
      }
      g := MeshCells(startX, startY, startZ, cells, w);
      ChunkMeshFacts(w, chunkX, chunkY, chunkZ);
    }

    /**
     * The traversal deepLoop performs: the callback MeshCell applied to each
     * [y, z, x] of cells in order, threading the buffers from empty arrays.
     */
    method MeshCells(startX: int, startY: int, startZ: int, cells: seq<seq<int>>, ghost w: ChunkContents)
      returns (g: GeometryData)
      requires Valid() && w == Contents()
      requires AllTriples(cells)
      ensures Valid() && Contents() == w
      ensures g == MeshOf(TileAtlas(), CellsQuads(w, Vec3(startX, startY, startZ), cells))
    {
      g := NoGeometry;
      ghost var s := Vec3(startX, startY, startZ);
      ghost var quads: seq<Quad> := [];
      for i := 0 to |cells|
        invariant w == Contents()
        invariant AllTriples(cells[..i])
        invariant quads == CellsQuads(w, s, cells[..i])
        invariant g == MeshOf(TileAtlas(), quads)
      {
        var y, z, x := cells[i][0], cells[i][1], cells[i][2];
        ghost var next := quads + CellQuads(w, s, [y, z, x]);
        assert AllTriples(cells[..i + 1]) && next == CellsQuads(w, s, cells[..i + 1]) by {
          CellsQuadsStep(w, s, cells, i);
        }
        g := MeshCell(startX, startY, startZ, y, z, x, g, w, quads);
        quads := next;
      }
      assert cells[..|cells|] == cells;
    }

    /**
     * The deepLoop callback of generateGeometryDataForChunk for local cell
     * (x, y, z) of the chunk starting at world (startX, startY, startZ): the
     * faces of a set voxel go to MeshFaces, an empty cell emits nothing.
     */
    method MeshCell(startX: int, startY: int, startZ: int, y: int, z: int, x: int,
                    g: GeometryData, ghost w: ChunkContents, ghost quads: seq<Quad>) returns (g': GeometryData)
      requires Valid() && w == Contents()
      requires g == MeshOf(TileAtlas(), quads)
      ensures Valid() && Contents() == w
      ensures g' == MeshOf(TileAtlas(), quads + CellQuads(w, Vec3(startX, startY, startZ), [y, z, x]))
    {
      ghost var s := Vec3(startX, startY, startZ);
      var voxY, voxZ, voxX := startY + y, startZ + z, startX + x;
      var voxel := GetVoxel(voxX, voxY, voxZ);
      assert voxel == LocalVoxel(w, s, x, y, z);
      CellQuadsOf(quads, w, s, x, y, z);
      if voxel == 0 {
        g' := g;
      } else {
        g' := MeshFaces(startX, startY, startZ, y, z, x, voxel, g, w, quads);
      }
    }

    /**
     * The loop over the face table for the set voxel at local (x, y, z): each
     * face in order goes to MeshFace.
     */
    method MeshFaces(startX: int, startY: int, startZ: int, y: int, z: int, x: int, voxel: byte,
                     g: GeometryData, ghost w: ChunkContents, ghost quads: seq<Quad>) returns (g': GeometryData)
      requires Valid() && w == Contents()
      requires g == MeshOf(TileAtlas(), quads)
      ensures Valid() && Contents() == w
      ensures g' == MeshOf(TileAtlas(), quads + FaceQuads(w, Vec3(startX, startY, startZ), x, y, z, voxel, |Faces|))
    {
      ghost var s := Vec3(startX, startY, startZ);
      g' := g;
      ghost var done := quads;
      assert done == quads + FaceQuads(w, s, x, y, z, voxel, 0);
      for f := 0 to |Faces|
        invariant w == Contents()
        invariant done == quads + FaceQuads(w, s, x, y, z, voxel, f)
        invariant g' == MeshOf(TileAtlas(), done)
      {
        ghost var next := done + FaceQuad(w, s, x, y, z, voxel, f);
        assert next == quads + FaceQuads(w, s, x, y, z, voxel, f + 1) by {
          FaceQuadsStep(quads, w, s, x, y, z, voxel, f);
        }
        g' := MeshFace(startX, startY, startZ, y, z, x, voxel, f, g', w, done);
        done := next;
      }
    }

    /**
     * The face-loop callback for face f of the voxel at local (x, y, z): the
     * face is emitted when the neighbour across it, read in world space and so
     * possibly in another chunk, is empty; otherwise nothing changes.
     */
    method MeshFace(startX: int, startY: int, startZ: int, y: int, z: int, x: int, voxel: byte, f: FaceIndex,
                    g: GeometryData, ghost w: ChunkContents, ghost done: seq<Quad>) returns (g': GeometryData)
      requires Valid() && w == Contents()
      requires g == MeshOf(TileAtlas(), done)
      ensures Valid() && Contents() == w
      ensures g' == MeshOf(TileAtlas(), done + FaceQuad(w, Vec3(startX, startY, startZ), x, y, z, voxel, f))
    {
      var voxY, voxZ, voxX := startY + y, startZ + z, startX + x;
      var face := Faces[f];
      var neighbor := GetVoxel(voxX + face.dir.x, voxY + face.dir.y, voxZ + face.dir.z);
      NeighborOfFace(w, Vec3(startX, startY, startZ), x, y, z, f);
      ghost var quad := FaceQuad(w, Vec3(startX, startY, startZ), x, y, z, voxel, f);
      if neighbor == 0 {
        g' := EmitFace(g, x, y, z, f, voxel);
        assert g' == MeshOf(TileAtlas(), done + quad) by {
          MeshOfSnoc(TileAtlas(), done, Quad(x, y, z, f, voxel));
        }
      } else {
        g' := g;
        assert done + quad == done;
      }
    }

    /**
     * The body of the face loop for an exposed face f of local cell (x, y, z)
     * holding voxel: pushes, for each corner of the face, its position in the
     * chunk, the face normal and its atlas uv, then the indices of the quad's
     * two triangles.
     */
    method EmitFace(g: GeometryData, x: int, y: int, z: int, f: FaceIndex, voxel: byte) returns (g': GeometryData)
      ensures g' == AppendQuad(TileAtlas(), g, Quad(x, y, z, f, voxel))
    {
      var positions, normals, uvs, indices := g.positions, g.normals, g.uvs, g.indices;
      var face := Faces[f];
      var uvVoxel := voxel - 1;
      var ndx := |positions| / 3;
      ghost var q := Quad(x, y, z, f, voxel);
      assert face == FaceOf(q) && |face.corners| == 4;
      for c := 0 to |face.corners|
        invariant GeometryData(positions, normals, uvs, indices) == PushCorners(TileAtlas(), g, q, c)
      {
        ghost var before := GeometryData(positions, normals, uvs, indices);
        var corner := face.corners[c];
        positions := positions + [corner.pos.x + x, corner.pos.y + y, corner.pos.z + z];
        normals := normals + [face.dir.x, face.dir.y, face.dir.z];
        uvs := uvs + [((uvVoxel + corner.u) * tileSize) as real / tileTextureWidth as real,
                      1.0 - ((face.uvRow + 1 - corner.v) * tileSize) as real / tileTextureHeight as real];
        assert GeometryData(positions, normals, uvs, indices) == PushCorner(TileAtlas(), before, q, c);
      }
      indices := indices + [ndx, ndx + 1, ndx + 2, ndx + 2, ndx + 1, ndx + 3];
      g' := GeometryData(positions, normals, uvs, indices);
    }

    // -------------------------------------------------------------------------
    // Lemmas about the mesher specification
    // -------------------------------------------------------------------------

    /** NeighborVoxel reads the cell one step along the direction the face table gives face f. */
    lemma NeighborOfFace(w: ChunkContents, s: Vec3, x: int, y: int, z: int, f: FaceIndex)
      requires WellSized(w)
      ensures NeighborVoxel(w, s, x, y, z, f) ==
        VoxelAt(w, s.x + x + Faces[f].dir.x, s.y + y + Faces[f].dir.y, s.z + z + Faces[f].dir.z)
    {
    }

    /** One more cell appends the quads of that cell. */
    lemma CellsQuadsStep(w: ChunkContents, s: Vec3, cells: seq<seq<int>>, i: int)
      requires WellSized(w)
      requires AllTriples(cells)
      requires 0 <= i < |cells|
      ensures AllTriples(cells[..i]) && AllTriples(cells[..i + 1])
      ensures cells[i] == [cells[i][0], cells[i][1], cells[i][2]]
      ensures CellsQuads(w, s, cells[..i + 1]) == CellsQuads(w, s, cells[..i]) + CellQuads(w, s, cells[i])
    {
      assert cells[..i + 1][..i] == cells[..i];
    }

    /** Appending the quads of local cell [y, z, x]: none for an empty voxel, else those of its six faces. */
    lemma CellQuadsOf(quads: seq<Quad>, w: ChunkContents, s: Vec3, x: int, y: int, z: int)
      requires WellSized(w)
      ensures LocalVoxel(w, s, x, y, z) == 0 ==> quads + CellQuads(w, s, [y, z, x]) == quads
      ensures LocalVoxel(w, s, x, y, z) != 0 ==>
        quads + CellQuads(w, s, [y, z, x]) == quads + FaceQuads(w, s, x, y, z, LocalVoxel(w, s, x, y, z), |Faces|)
      ensures quads + FaceQuads(w, s, x, y, z, LocalVoxel(w, s, x, y, z), 0) == quads
    {
      assert quads + [] == quads;
    }

    /** One more face of the table appends its quad exactly when the neighbour across it is empty. */
    lemma FaceQuadsStep(quads: seq<Quad>, w: ChunkContents, s: Vec3, x: int, y: int, z: int, voxel: byte, f: FaceIndex)
      requires WellSized(w)
      ensures quads + FaceQuads(w, s, x, y, z, voxel, f + 1) == quads + FaceQuads(w, s, x, y, z, voxel, f) + FaceQuad(w, s, x, y, z, voxel, f)
    {
    }

    lemma {:induction false} FaceQuadsMember(w: ChunkContents, s: Vec3, x: int, y: int, z: int, voxel: byte, n: int, q: Quad)
      requires WellSized(w)
      requires 0 <= n <= 6
      ensures q in FaceQuads(w, s, x, y, z, voxel, n) <==>
        q.x == x && q.y == y && q.z == z && q.face < n && q.voxel == voxel && NeighborVoxel(w, s, x, y, z, q.face) == 0
    {
      if n > 0 {
        FaceQuadsMember(w, s, x, y, z, voxel, n - 1, q);
      }
    }

    lemma {:induction false} FaceQuadsDistinct(w: ChunkContents, s: Vec3, x: int, y: int, z: int, voxel: byte, n: int)
      requires WellSized(w)
      requires 0 <= n <= 6
      ensures NoDuplicates(FaceQuads(w, s, x, y, z, voxel, n))
    {
      if n > 0 {
        var prev := FaceQuads(w, s, x, y, z, voxel, n - 1);
        FaceQuadsDistinct(w, s, x, y, z, voxel, n - 1);
        var next: seq<Quad> := if NeighborVoxel(w, s, x, y, z, n - 1) == 0 then [Quad(x, y, z, n - 1, voxel)] else [];
        forall i, j | 0 <= i < |prev| && 0 <= j < |next|
          ensures prev[i] != next[j]
        {
          FaceQuadsMember(w, s, x, y, z, voxel, n - 1, prev[i]);
        }
        NoDuplicatesConcat(prev, next);
      }
    }

    /** The quads of one cell are those of its exposed faces. */
    lemma CellQuadsMember(w: ChunkContents, s: Vec3, cell: seq<int>, q: Quad)
      requires WellSized(w)
      requires |cell| == 3
      ensures q in CellQuads(w, s, cell) <==>
        && cell == [q.y, q.z, q.x]
        && LocalExposed(w, s, q.x, q.y, q.z, q.face)
        && q.voxel == LocalVoxel(w, s, q.x, q.y, q.z)
    {
      var y, z, x := cell[0], cell[1], cell[2];
      assert cell == [y, z, x];
      FaceQuadsMember(w, s, x, y, z, LocalVoxel(w, s, x, y, z), 6, q);
    }

    /** A quad is emitted for a list of cells exactly when its cell is listed and its face is exposed. */
    lemma {:induction false} CellsQuadsMember(w: ChunkContents, s: Vec3, cells: seq<seq<int>>, q: Quad)
      requires WellSized(w)
      requires AllTriples(cells)
      ensures q in CellsQuads(w, s, cells) <==>
        && [q.y, q.z, q.x] in cells
        && LocalExposed(w, s, q.x, q.y, q.z, q.face)
        && q.voxel == LocalVoxel(w, s, q.x, q.y, q.z)
    {
      if cells != [] {
        var init, last := cells[..|cells| - 1], cells[|cells| - 1];
        assert cells == init + [last];
        CellsQuadsMember(w, s, init, q);
        CellQuadsMember(w, s, last, q);
      }
    }

    /** No quad is emitted twice when no cell is listed twice. */
    lemma {:induction false} CellsQuadsDistinct(w: ChunkContents, s: Vec3, cells: seq<seq<int>>)
      requires WellSized(w)
      requires AllTriples(cells)
      requires forall i, j :: 0 <= i < j < |cells| ==> cells[i] != cells[j]
      ensures NoDuplicates(CellsQuads(w, s, cells))
    {
      if cells != [] {
        var init, last := cells[..|cells| - 1], cells[|cells| - 1];
        CellsQuadsDistinct(w, s, init);
        var a, b := CellsQuads(w, s, init), CellQuads(w, s, last);
        var y, z, x := last[0], last[1], last[2];
        FaceQuadsDistinct(w, s, x, y, z, LocalVoxel(w, s, x, y, z), 6);
        assert NoDuplicates(b);
        assert last !in init;
        forall i, j | 0 <= i < |a| && 0 <= j < |b|
          ensures a[i] != b[j]
        {
          CellsQuadsMember(w, s, init, a[i]);
          CellQuadsMember(w, s, last, b[j]);
        }
        NoDuplicatesConcat(a, b);
      }
    }

    /** Every quad's cell lies in [0, chunkSize)^3. */
    lemma ChunkQuadsInCube(w: ChunkContents, cx: int, cy: int, cz: int)
      requires WellSized(w)
      ensures forall k :: 0 <= k < |ChunkQuads(w, cx, cy, cz)| ==> CellInCube(ChunkQuads(w, cx, cy, cz)[k], chunkSize)
    {
      ChunkCellsFacts();
      var qs := ChunkQuads(w, cx, cy, cz);
      forall k | 0 <= k < |qs|
        ensures CellInCube(qs[k], chunkSize)
      {
        CellsQuadsMember(w, ChunkStart(cx, cy, cz), ChunkCells(), qs[k]);
        assert IsLocalCell([qs[k].y, qs[k].z, qs[k].x]);
      }
    }

    /** A quad is emitted for the chunk exactly when it draws an exposed face of the chunk. */
    lemma ChunkQuadsMember(w: ChunkContents, cx: int, cy: int, cz: int, q: Quad)
      requires WellSized(w)
      ensures q in ChunkQuads(w, cx, cy, cz) <==> q in ExposedFaces(w, cx, cy, cz)
    {
      ChunkCellsFacts();
      CellsQuadsMember(w, ChunkStart(cx, cy, cz), ChunkCells(), q);
      ExposedFacesMember(w, cx, cy, cz, q);
      assert IsLocalCell([q.y, q.z, q.x]) <==> 0 <= q.x < chunkSize && 0 <= q.y < chunkSize && 0 <= q.z < chunkSize;
    }

    /** The mesher emits exactly one quad per exposed (voxel, face) pair of the chunk. */
    lemma ChunkQuadsCount(w: ChunkContents, cx: int, cy: int, cz: int)
      requires WellSized(w)
      ensures NoDuplicates(ChunkQuads(w, cx, cy, cz))
      ensures forall q :: q in ChunkQuads(w, cx, cy, cz) <==> q in ExposedFaces(w, cx, cy, cz)
      ensures |ChunkQuads(w, cx, cy, cz)| == |ExposedFaces(w, cx, cy, cz)|
    {
      var qs := ChunkQuads(w, cx, cy, cz);
      ChunkCellsFacts();
      CellsQuadsDistinct(w, ChunkStart(cx, cy, cz), ChunkCells());
      forall q
        ensures q in qs <==> q in ExposedFaces(w, cx, cy, cz)
      {
        ChunkQuadsMember(w, cx, cy, cz, q);
      }
      DistinctCardinality(qs);
      assert (set q | q in qs) == ExposedFaces(w, cx, cy, cz);
    }

    /**
     * The mesh of a chunk has 12, 12, 8 and 6 numbers per exposed face, its
     * indices address its own vertices and every position lies in the
     * chunk's cube [0, chunkSize]^3.
     */
    lemma ChunkMeshFacts(w: ChunkContents, cx: int, cy: int, cz: int)
      requires WellSized(w)
      ensures var g, q := MeshOf(TileAtlas(), ChunkQuads(w, cx, cy, cz)), |ExposedFaces(w, cx, cy, cz)|;
        && |g.positions| == 12 * q && |g.normals| == 12 * q
        && |g.uvs| == 8 * q && |g.indices| == 6 * q
      ensures var g := MeshOf(TileAtlas(), ChunkQuads(w, cx, cy, cz));
        forall i :: i in g.indices ==> 0 <= i < |g.positions| / 3
      ensures forall p :: p in MeshOf(TileAtlas(), ChunkQuads(w, cx, cy, cz)).positions ==> 0 <= p <= chunkSize
    {
      var qs := ChunkQuads(w, cx, cy, cz);
      ChunkQuadsCount(w, cx, cy, cz);
      MeshOfSizes(TileAtlas(), qs);
      MeshIndicesInRange(TileAtlas(), qs);
      ChunkQuadsInCube(w, cx, cy, cz);
      MeshPositionsInCube(TileAtlas(), qs, chunkSize);
    }

    /** A chunk whose cells are all empty meshes to four empty arrays. */
    lemma EmptyChunkMeshesNothing(w: ChunkContents, cx: int, cy: int, cz: int)
      requires WellSized(w)
      requires forall x, y, z :: 0 <= x < chunkSize && 0 <= y < chunkSize && 0 <= z < chunkSize ==>
        LocalVoxel(w, ChunkStart(cx, cy, cz), x, y, z) == 0
      ensures ExposedFaces(w, cx, cy, cz) == {}
      ensures ChunkQuads(w, cx, cy, cz) == []
      ensures MeshOf(TileAtlas(), ChunkQuads(w, cx, cy, cz)) == NoGeometry
    {
      forall q | q in ExposedFaces(w, cx, cy, cz)
        ensures false
      {
        ExposedFacesMember(w, cx, cy, cz, q);
      }
      ChunkQuadsCount(w, cx, cy, cz);
    }

    /** In particular a chunk that was never written meshes to nothing. */
    lemma MissingChunkMeshesNothing(w: ChunkContents, cx: int, cy: int, cz: int)
      requires WellSized(w)
      requires ChunkId(cx, cy, cz) !in w
      ensures ChunkQuads(w, cx, cy, cz) == []
      ensures MeshOf(TileAtlas(), ChunkQuads(w, cx, cy, cz)) == NoGeometry
    {
      forall x, y, z | 0 <= x < chunkSize && 0 <= y < chunkSize && 0 <= z < chunkSize
        ensures LocalVoxel(w, ChunkStart(cx, cy, cz), x, y, z) == 0
      {
        LocalAddress(cx, cy, cz, x, y, z);
      }
      EmptyChunkMeshesNothing(w, cx, cy, cz);
    }

    /**
     * A set voxel whose six neighbours are empty, alone in its chunk, meshes
     * to six quads: 24 vertices and 36 indices.
     */
    lemma IsolatedVoxelSixQuads(w: ChunkContents, cx: int, cy: int, cz: int, x: int, y: int, z: int)
      requires WellSized(w)
      requires 0 <= x < chunkSize && 0 <= y < chunkSize && 0 <= z < chunkSize
      requires LocalVoxel(w, ChunkStart(cx, cy, cz), x, y, z) != 0
      requires forall f: FaceIndex :: NeighborVoxel(w, ChunkStart(cx, cy, cz), x, y, z, f) == 0
      requires forall a, b, c :: 0 <= a < chunkSize && 0 <= b < chunkSize && 0 <= c < chunkSize && (a, b, c) != (x, y, z) ==>
        LocalVoxel(w, ChunkStart(cx, cy, cz), a, b, c) == 0
      ensures |ChunkQuads(w, cx, cy, cz)| == 6
      ensures |MeshOf(TileAtlas(), ChunkQuads(w, cx, cy, cz)).positions| == 3 * 24
      ensures |MeshOf(TileAtlas(), ChunkQuads(w, cx, cy, cz)).indices| == 36
    {
      var s := ChunkStart(cx, cy, cz);
      var v := LocalVoxel(w, s, x, y, z);
      var six := [Quad(x, y, z, 0, v), Quad(x, y, z, 1, v), Quad(x, y, z, 2, v),
                  Quad(x, y, z, 3, v), Quad(x, y, z, 4, v), Quad(x, y, z, 5, v)];
      forall q
        ensures q in ExposedFaces(w, cx, cy, cz) <==> q in six
      {
        ExposedFacesMember(w, cx, cy, cz, q);
      }
      assert ExposedFaces(w, cx, cy, cz) == set q | q in six;
      assert NoDuplicates(six);
      DistinctCardinality(six);
      ChunkQuadsCount(w, cx, cy, cz);
      MeshOfSizes(TileAtlas(), ChunkQuads(w, cx, cy, cz));
    }
  }

  // Sequence helpers
  // ---------------------------------------------------------------------------

  lemma CubeLength(r: seq<int>)
    ensures LengthProduct([r, r, r]) == |r| * |r| * |r|
  {
    var rs := [r, r, r];
    assert rs[1..] == [r, r] && rs[1..][1..] == [r];
    assert LengthProduct([r]) == |r| by {
      assert [r][1..] == [];
    }
  }

  lemma IotaMember(v: int, n: int)
    ensures v in RangeValues(0, n, 1) <==> 0 <= v < n
  {
    IotaRange(n);
    if 0 <= v < n {
      assert RangeValues(0, n, 1)[v] == v;
    }
  }

  predicate NoDuplicates<T(==)>(s: seq<T>) {
    forall i, j :: 0 <= i < j < |s| ==> s[i] != s[j]
  }

  lemma NoDuplicatesConcat<T>(a: seq<T>, b: seq<T>)
    requires NoDuplicates(a) && NoDuplicates(b)
    requires forall i, j :: 0 <= i < |a| && 0 <= j < |b| ==> a[i] != b[j]
    ensures NoDuplicates(a + b)
  {
    var c := a + b;
    forall i, j | 0 <= i < j < |c|
      ensures c[i] != c[j]
    {
      if j < |a| {
        assert c[i] == a[i] && c[j] == a[j];
      } else if i >= |a| {
        assert c[i] == b[i - |a|] && c[j] == b[j - |a|];
      } else {
        assert c[i] == a[i] && c[j] == b[j - |a|];
      }
    }
  }

  /** A sequence without repetitions has as many elements as the set of its elements. */
  lemma {:induction false} DistinctCardinality<T>(s: seq<T>)
    requires NoDuplicates(s)
    ensures |set x | x in s| == |s|
  {
    if s != [] {
      var init := s[..|s| - 1];
      DistinctCardinality(init);
      assert (set x | x in s) == (set x | x in init) + {s[|s| - 1]};
      assert s[|s| - 1] !in (set x | x in init);
    }
  }
}
