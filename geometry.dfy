/**
 * The four mesh buffers that generateGeometryDataForChunk fills, and what
 * pushing one quad does to them (src/voxels/VoxelWorld.ts:145-161).
 */
module Geometry {
  import opened VoxelTypes
  import opened FaceTable

  /** The texture atlas layout: tile edge length and atlas dimensions, in pixels. */
  datatype Atlas = Atlas(tileSize: int, tileTextureWidth: pos, tileTextureHeight: pos)

  /** One emitted face: the voxel's local cell in its chunk, the face index and the voxel id. */
  datatype Quad = Quad(x: int, y: int, z: int, face: FaceIndex, voxel: int)

  /** positions and normals hold 3 numbers per vertex, uvs 2, indices 3 per triangle. */
  datatype GeometryData = GeometryData(positions: seq<int>, normals: seq<int>, uvs: seq<real>, indices: seq<int>)

  const NoGeometry := GeometryData([], [], [], [])

  /** The two triangles of a quad, relative to its first vertex. */
  const QuadIndexPattern: seq<int> := [0, 1, 2, 2, 1, 3]

  /** Component j (0 = x, 1 = y, 2 = z) of a vector. */
  function Component(v: Vec3, j: int): int {
    if j == 0 then v.x else if j == 1 then v.y else v.z
  }

  function Cell(q: Quad): Vec3 {
    Vec3(q.x, q.y, q.z)
  }

  function FaceOf(q: Quad): Face
  {
    Faces[q.face]
  }

  /** The u coordinate of a corner: the column of tile voxel - 1 plus the corner's u offset, scaled to [0, 1]. */
  function CornerU(atlas: Atlas, q: Quad, c: Corner): real {
    ((q.voxel - 1 + c.u) * atlas.tileSize) as real / atlas.tileTextureWidth as real
  }

  /** The v coordinate of a corner in the face's atlas row, measured from the atlas top and flipped so 1 is the top. */
  function CornerV(atlas: Atlas, q: Quad, c: Corner): real {
    1.0 - ((FaceOf(q).uvRow + 1 - c.v) * atlas.tileSize) as real / atlas.tileTextureHeight as real
  }

  /** The three numbers pushed onto positions for corner c: the corner offset plus the local cell. */
  function CornerPosition(q: Quad, c: int): seq<int>
    requires 0 <= c < 4
  {
    var corner := FaceOf(q).corners[c];
    [corner.pos.x + q.x, corner.pos.y + q.y, corner.pos.z + q.z]
  }

  /** The three normal numbers pushed per corner: the face direction. */
  function FaceNormal(q: Quad): seq<int> {
    [FaceOf(q).dir.x, FaceOf(q).dir.y, FaceOf(q).dir.z]
  }

  function CornerUv(atlas: Atlas, q: Quad, c: int): seq<real>
    requires 0 <= c < 4
  {
    [CornerU(atlas, q, FaceOf(q).corners[c]), CornerV(atlas, q, FaceOf(q).corners[c])]
  }

  /** The pushes for corner c of quad q: its position, the face normal and its uv. */
  function PushCorner(atlas: Atlas, g: GeometryData, q: Quad, c: int): GeometryData
    requires 0 <= c < 4
  {
    GeometryData(g.positions + CornerPosition(q, c), g.normals + FaceNormal(q),
                 g.uvs + CornerUv(atlas, q, c), g.indices)
  }

  /** The pushes for the first n corners of quad q. */
  function PushCorners(atlas: Atlas, g: GeometryData, q: Quad, n: int): GeometryData
    requires 0 <= n <= 4
  {
    if n == 0 then g else PushCorner(atlas, PushCorners(atlas, g, q, n - 1), q, n - 1)
  }

  /** The two triangles of a quad whose first vertex is number ndx. */
  function QuadIndices(ndx: int): seq<int> {
    [ndx, ndx + 1, ndx + 2, ndx + 2, ndx + 1, ndx + 3]
  }

  /** Emitting quad q: four corners, then the indices of its two triangles. */
  function AppendQuad(atlas: Atlas, g: GeometryData, q: Quad): GeometryData
  {
    var ndx := |g.positions| / 3;
    var h := PushCorners(atlas, g, q, 4);
    h.(indices := h.indices + QuadIndices(ndx))
  }

  /** The buffers after emitting the quads qs in order, starting from empty arrays. */
  function MeshOf(atlas: Atlas, qs: seq<Quad>): GeometryData
  {
    if qs == [] then NoGeometry else AppendQuad(atlas, MeshOf(atlas, qs[..|qs| - 1]), qs[|qs| - 1])
  }

  // What one quad contributes to each buffer, all four corners at once.

  function QuadPositions(q: Quad): seq<int> {
    CornerPosition(q, 0) + CornerPosition(q, 1) + CornerPosition(q, 2) + CornerPosition(q, 3)
  }

  function QuadNormals(q: Quad): seq<int> {
    FaceNormal(q) + FaceNormal(q) + FaceNormal(q) + FaceNormal(q)
  }

  function QuadUvs(atlas: Atlas, q: Quad): seq<real> {
    CornerUv(atlas, q, 0) + CornerUv(atlas, q, 1) + CornerUv(atlas, q, 2) + CornerUv(atlas, q, 3)
  }

  // ---------------------------------------------------------------------------
  // Lemmas
  // ---------------------------------------------------------------------------

  lemma PushAllCorners(atlas: Atlas, g: GeometryData, q: Quad)
    ensures PushCorners(atlas, g, q, 4) ==
      GeometryData(g.positions + QuadPositions(q), g.normals + QuadNormals(q), g.uvs + QuadUvs(atlas, q), g.indices)
  {
    var h1 := PushCorners(atlas, g, q, 1);
    var h2 := PushCorners(atlas, g, q, 2);
    var h3 := PushCorners(atlas, g, q, 3);
    var h4 := PushCorners(atlas, g, q, 4);
    assert PushCorners(atlas, g, q, 0) == g;
    assert h1 == PushCorner(atlas, g, q, 0);
    assert h2 == PushCorner(atlas, h1, q, 1);
    assert h3 == PushCorner(atlas, h2, q, 2);
    assert h4 == PushCorner(atlas, h3, q, 3);
    assert h4.positions == g.positions + QuadPositions(q);
    assert h4.normals == g.normals + QuadNormals(q);
    assert h4.uvs == g.uvs + QuadUvs(atlas, q);
  }

  /** Each quad adds 12 position numbers, 12 normal numbers, 8 uv numbers and 6 indices. */
  lemma {:induction false} MeshOfSizes(atlas: Atlas, qs: seq<Quad>)
    ensures |MeshOf(atlas, qs).positions| == 12 * |qs|
    ensures |MeshOf(atlas, qs).normals| == 12 * |qs|
    ensures |MeshOf(atlas, qs).uvs| == 8 * |qs|
    ensures |MeshOf(atlas, qs).indices| == 6 * |qs|
  {
    if qs != [] {
      MeshOfSizes(atlas, qs[..|qs| - 1]);
      PushAllCorners(atlas, MeshOf(atlas, qs[..|qs| - 1]), qs[|qs| - 1]);
    }
  }

  /** Emitting one more quad extends the mesh of the earlier ones by that quad. */
  lemma MeshOfSnoc(atlas: Atlas, qs: seq<Quad>, q: Quad)
    ensures MeshOf(atlas, qs + [q]) == AppendQuad(atlas, MeshOf(atlas, qs), q)
  {
    assert (qs + [q])[..|qs|] == qs;
  }

  /** The last quad's data follows the earlier quads', with ndx = 4 * (number of earlier quads). */
  lemma MeshOfLast(atlas: Atlas, qs: seq<Quad>)
    requires qs != []
    ensures var g, init, q := MeshOf(atlas, qs), MeshOf(atlas, qs[..|qs| - 1]), qs[|qs| - 1];
      && g.positions == init.positions + QuadPositions(q)
      && g.normals == init.normals + QuadNormals(q)
      && g.uvs == init.uvs + QuadUvs(atlas, q)
      && g.indices == init.indices + QuadIndices(4 * (|qs| - 1))
  {
    var init, q := MeshOf(atlas, qs[..|qs| - 1]), qs[|qs| - 1];
    MeshOfSizes(atlas, qs[..|qs| - 1]);
    assert |init.positions| / 3 == 4 * (|qs| - 1);
    PushAllCorners(atlas, init, q);
    assert MeshOf(atlas, qs) == AppendQuad(atlas, init, q);
  }

  /**
   * Quad k of qs owns positions[12k..12k+12], normals[12k..12k+12],
   * uvs[8k..8k+8] and indices[6k..6k+6]; its indices are ndx, ndx+1, ndx+2,
   * ndx+2, ndx+1, ndx+3 with ndx = 4k, the vertex count before it.
   */
  lemma QuadSlices(atlas: Atlas, qs: seq<Quad>, k: int)
    requires 0 <= k < |qs|
    ensures var g := MeshOf(atlas, qs);
      && |g.positions| == 12 * |qs| && |g.normals| == 12 * |qs|
      && |g.uvs| == 8 * |qs| && |g.indices| == 6 * |qs|
      && g.positions[12 * k .. 12 * k + 12] == QuadPositions(qs[k])
      && g.normals[12 * k .. 12 * k + 12] == QuadNormals(qs[k])
      && g.uvs[8 * k .. 8 * k + 8] == QuadUvs(atlas, qs[k])
      && g.indices[6 * k .. 6 * k + 6] == QuadIndices(4 * k)
  {
    PositionsSlice(atlas, qs, k);
    NormalsSlice(atlas, qs, k);
    UvsSlice(atlas, qs, k);
    IndicesSlice(atlas, qs, k);
  }

  lemma {:induction false} PositionsSlice(atlas: Atlas, qs: seq<Quad>, k: int)
    requires 0 <= k < |qs|
    ensures |MeshOf(atlas, qs).positions| == 12 * |qs|
    ensures MeshOf(atlas, qs).positions[12 * k .. 12 * k + 12] == QuadPositions(qs[k])
  {
    var init := qs[..|qs| - 1];
    MeshOfSizes(atlas, qs);
    MeshOfSizes(atlas, init);
    MeshOfLast(atlas, qs);
    var h := MeshOf(atlas, init);
    if k < |qs| - 1 {
      PositionsSlice(atlas, init, k);
      assert init[k] == qs[k];
      SliceOfPrefix(h.positions, QuadPositions(qs[|qs| - 1]), 12 * k, 12 * k + 12);
    } else {
      SliceOfSuffix(h.positions, QuadPositions(qs[k]));
    }
  }

  lemma {:induction false} NormalsSlice(atlas: Atlas, qs: seq<Quad>, k: int)
    requires 0 <= k < |qs|
    ensures |MeshOf(atlas, qs).normals| == 12 * |qs|
    ensures MeshOf(atlas, qs).normals[12 * k .. 12 * k + 12] == QuadNormals(qs[k])
  {
    var init := qs[..|qs| - 1];
    MeshOfSizes(atlas, qs);
    MeshOfSizes(atlas, init);
    MeshOfLast(atlas, qs);
    var h := MeshOf(atlas, init);
    if k < |qs| - 1 {
      NormalsSlice(atlas, init, k);
      assert init[k] == qs[k];
      SliceOfPrefix(h.normals, QuadNormals(qs[|qs| - 1]), 12 * k, 12 * k + 12);
    } else {
      SliceOfSuffix(h.normals, QuadNormals(qs[k]));
    }
  }

  lemma {:induction false} UvsSlice(atlas: Atlas, qs: seq<Quad>, k: int)
    requires 0 <= k < |qs|
    ensures |MeshOf(atlas, qs).uvs| == 8 * |qs|
    ensures MeshOf(atlas, qs).uvs[8 * k .. 8 * k + 8] == QuadUvs(atlas, qs[k])
  {
    var init := qs[..|qs| - 1];
    MeshOfSizes(atlas, qs);
    MeshOfSizes(atlas, init);
    MeshOfLast(atlas, qs);
    var h := MeshOf(atlas, init);
    if k < |qs| - 1 {
      UvsSlice(atlas, init, k);
      assert init[k] == qs[k];
      SliceOfPrefix(h.uvs, QuadUvs(atlas, qs[|qs| - 1]), 8 * k, 8 * k + 8);
    } else {
      SliceOfSuffix(h.uvs, QuadUvs(atlas, qs[k]));
    }
  }

  lemma {:induction false} IndicesSlice(atlas: Atlas, qs: seq<Quad>, k: int)
    requires 0 <= k < |qs|
    ensures |MeshOf(atlas, qs).indices| == 6 * |qs|
    ensures MeshOf(atlas, qs).indices[6 * k .. 6 * k + 6] == QuadIndices(4 * k)
  {
    var init := qs[..|qs| - 1];
    MeshOfSizes(atlas, qs);
    MeshOfSizes(atlas, init);
    MeshOfLast(atlas, qs);
    var h := MeshOf(atlas, init);
    if k < |qs| - 1 {
      IndicesSlice(atlas, init, k);
      assert init[k] == qs[k];
      SliceOfPrefix(h.indices, QuadIndices(4 * (|qs| - 1)), 6 * k, 6 * k + 6);
    } else {
      SliceOfSuffix(h.indices, QuadIndices(4 * k));
    }
  }

  lemma SliceOfPrefix<T>(a: seq<T>, b: seq<T>, lo: int, hi: int)
    requires 0 <= lo <= hi <= |a|
    ensures (a + b)[lo..hi] == a[lo..hi]
  {
  }

  lemma SliceOfSuffix<T>(a: seq<T>, b: seq<T>)
    ensures (a + b)[|a| .. |a| + |b|] == b
  {
  }

  /** Every index names a vertex that exists: it is below the final vertex count. */
  lemma {:induction false} MeshIndicesInRange(atlas: Atlas, qs: seq<Quad>)
    ensures var g := MeshOf(atlas, qs);
      forall i :: i in g.indices ==> 0 <= i < |g.positions| / 3
  {
    MeshOfSizes(atlas, qs);
    if qs != [] {
      MeshIndicesInRange(atlas, qs[..|qs| - 1]);
      MeshOfSizes(atlas, qs[..|qs| - 1]);
      MeshOfLast(atlas, qs);
    }
  }

  /** Within a block of four copies of a 3-element group, copy c sits at 3 * c. */
  lemma GroupOfFour(a: seq<int>, lo: int, n: seq<int>, c: int)
    requires |n| == 3 && 0 <= lo && lo + 12 <= |a| && 0 <= c < 4
    requires a[lo .. lo + 12] == n + n + n + n
    ensures a[lo + 3 * c .. lo + 3 * c + 3] == n
  {
    var b := a[lo .. lo + 12];
    assert b[3 * c] == n[0] && b[3 * c + 1] == n[1] && b[3 * c + 2] == n[2];
  }

  /** Each of a quad's four normals is the direction of its face. */
  lemma MeshNormals(atlas: Atlas, qs: seq<Quad>, k: int, c: int)
    requires 0 <= k < |qs| && 0 <= c < 4
    ensures var g := MeshOf(atlas, qs);
      12 * k + 3 * c + 3 <= |g.normals| &&
      g.normals[12 * k + 3 * c .. 12 * k + 3 * c + 3] == [FaceOf(qs[k]).dir.x, FaceOf(qs[k]).dir.y, FaceOf(qs[k]).dir.z]
  {
    NormalsSlice(atlas, qs, k);
    GroupOfFour(MeshOf(atlas, qs).normals, 12 * k, FaceNormal(qs[k]), c);
  }

  predicate CellInCube(q: Quad, size: int) {
    0 <= q.x < size && 0 <= q.y < size && 0 <= q.z < size
  }

  lemma QuadPositionsInCube(q: Quad, size: int)
    requires CellInCube(q, size)
    ensures forall p :: p in QuadPositions(q) ==> 0 <= p <= size
  {
    var face := FaceOf(q);
    assert WellFormedCorner(face.dir, face.corners[0]);
    assert WellFormedCorner(face.dir, face.corners[1]);
    assert WellFormedCorner(face.dir, face.corners[2]);
    assert WellFormedCorner(face.dir, face.corners[3]);
  }

  /** When every quad's cell lies in [0, size)^3 every position component lies in [0, size]. */
  lemma {:induction false} MeshPositionsInCube(atlas: Atlas, qs: seq<Quad>, size: int)
    requires forall k :: 0 <= k < |qs| ==> CellInCube(qs[k], size)
    ensures forall p :: p in MeshOf(atlas, qs).positions ==> 0 <= p <= size
  {
    if qs != [] {
      MeshPositionsInCube(atlas, qs[..|qs| - 1], size);
      MeshOfLast(atlas, qs);
      QuadPositionsInCube(qs[|qs| - 1], size);
    }
  }
}
