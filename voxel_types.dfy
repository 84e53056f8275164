/** Number types shared by the storage engine and the mesher. */
module VoxelTypes {

  /** One cell of a Uint8Array: a voxel id, 0 meaning empty. */
  type byte = v: int | 0 <= v < 256

  /** A strictly positive size: the chunk edge length, texture dimensions. */
  type pos = n: int | n > 0 witness 1
}
