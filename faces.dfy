/** The static face table VoxelWorld.faces: one template per axis-aligned face of a cube. */
module FaceTable {

  datatype Vec3 = Vec3(x: int, y: int, z: int)

  /** A quad corner: its offset inside the unit cube and its texture corner (u, v). */
  datatype Corner = Corner(pos: Vec3, u: int, v: int)

  /** A face: the atlas row of its texture, its outward direction and its four corners. */
  datatype Face = Face(uvRow: int, dir: Vec3, corners: seq<Corner>)

  const Faces: seq<Face> := [
    // left
    Face(0, Vec3(-1, 0, 0), [
      Corner(Vec3(0, 1, 0), 0, 1), Corner(Vec3(0, 0, 0), 0, 0),
      Corner(Vec3(0, 1, 1), 1, 1), Corner(Vec3(0, 0, 1), 1, 0)]),
    // right
    Face(0, Vec3(1, 0, 0), [
      Corner(Vec3(1, 1, 1), 0, 1), Corner(Vec3(1, 0, 1), 0, 0),
      Corner(Vec3(1, 1, 0), 1, 1), Corner(Vec3(1, 0, 0), 1, 0)]),
    // bottom
    Face(1, Vec3(0, -1, 0), [
      Corner(Vec3(1, 0, 1), 1, 0), Corner(Vec3(0, 0, 1), 0, 0),
      Corner(Vec3(1, 0, 0), 1, 1), Corner(Vec3(0, 0, 0), 0, 1)]),
    // top
    Face(2, Vec3(0, 1, 0), [
      Corner(Vec3(0, 1, 1), 1, 1), Corner(Vec3(1, 1, 1), 0, 1),
      Corner(Vec3(0, 1, 0), 1, 0), Corner(Vec3(1, 1, 0), 0, 0)]),
    // back
    Face(0, Vec3(0, 0, -1), [
      Corner(Vec3(1, 0, 0), 0, 0), Corner(Vec3(0, 0, 0), 1, 0),
      Corner(Vec3(1, 1, 0), 0, 1), Corner(Vec3(0, 1, 0), 1, 1)]),
    // front
    Face(0, Vec3(0, 0, 1), [
      Corner(Vec3(0, 0, 1), 0, 0), Corner(Vec3(1, 0, 1), 1, 0),
      Corner(Vec3(0, 1, 1), 0, 1), Corner(Vec3(1, 1, 1), 1, 1)])
  ]

  /** An index into the face table. */
  type FaceIndex = f: int | 0 <= f < 6

  /** The outward direction of face f. */
  function FaceDir(f: FaceIndex): Vec3
  {
    Faces[f].dir
  }

  predicate Bit(n: int) {
    n == 0 || n == 1
  }

  /** A unit vector along one axis. */
  predicate UnitAxis(d: Vec3) {
    || d == Vec3(-1, 0, 0) || d == Vec3(1, 0, 0)
    || d == Vec3(0, -1, 0) || d == Vec3(0, 1, 0)
    || d == Vec3(0, 0, -1) || d == Vec3(0, 0, 1)
  }

  /**
   * On the axis of the face direction a corner lies on the face's side of the
   * unit cube: 1 for a positive direction, 0 for a negative one.
   */
  predicate OnFaceSide(d: Vec3, p: Vec3) {
    && (d.x != 0 ==> p.x == (if d.x > 0 then 1 else 0))
    && (d.y != 0 ==> p.y == (if d.y > 0 then 1 else 0))
    && (d.z != 0 ==> p.z == (if d.z > 0 then 1 else 0))
  }

  predicate WellFormedCorner(d: Vec3, c: Corner) {
    Bit(c.pos.x) && Bit(c.pos.y) && Bit(c.pos.z) && OnFaceSide(d, c.pos) && Bit(c.u) && Bit(c.v)
  }

  predicate WellFormedFace(face: Face) {
    && UnitAxis(face.dir)
    && 0 <= face.uvRow <= 2
    && |face.corners| == 4
    && forall c :: 0 <= c < 4 ==> WellFormedCorner(face.dir, face.corners[c])
  }

  /**
   * The table holds six well-formed faces whose directions are the six
   * distinct unit axis vectors, in the order -x, +x, -y, +y, -z, +z.
   */
  lemma FacesTable()
    ensures |Faces| == 6
    ensures forall f :: 0 <= f < 6 ==> WellFormedFace(Faces[f])
    ensures forall f, g :: 0 <= f < g < 6 ==> Faces[f].dir != Faces[g].dir
    ensures Faces[0].dir == Vec3(-1, 0, 0) && Faces[1].dir == Vec3(1, 0, 0)
    ensures Faces[2].dir == Vec3(0, -1, 0) && Faces[3].dir == Vec3(0, 1, 0)
    ensures Faces[4].dir == Vec3(0, 0, -1) && Faces[5].dir == Vec3(0, 0, 1)
  {
    assert WellFormedFace(Faces[0]);
    assert WellFormedFace(Faces[1]);
    assert WellFormedFace(Faces[2]);
    assert WellFormedFace(Faces[3]);
    assert WellFormedFace(Faces[4]);
    assert WellFormedFace(Faces[5]);
  }
}
