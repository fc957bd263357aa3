/** Compile-time constants shared by the world, the generator and the player:
    grid dimensions, block codes and the player's reach (Constants.h). */
module Constants {

  /** An unsigned 8-bit value, the element type of the voxel grid. */
  type Byte = b: int | 0 <= b < 256

  /** Horizontal extent of the (non-classic) world, in blocks. */
  const WorldSize: int := 512
  /** Vertical extent of the world, in blocks. The y axis grows downward. */
  const WorldHeight: int := 64
  /** Number of cells of the flat grid buffer. */
  const Volume: int := WorldSize * WorldHeight * WorldSize

  /** Width and height of one texture tile, in texels. */
  const TextureRes: int := 16

  const Air: Byte := 0
  const Grass: Byte := 1
  const Dirt: Byte := 2
  const Stone: Byte := 4
  const Bricks: Byte := 5
  const Wood: Byte := 7
  const Leaves: Byte := 8
  const Mirror: Byte := 9

  /** How far the player can reach when picking a block. */
  const PlayerReach: real := 5.0
}
