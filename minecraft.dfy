/**
 The part of the game the checker talks to, reduced to what it uses: block
 positions, the few kinds of block it writes or inspects, the identity of a
 world, and a world as a mutable map from positions to blocks.
 */
module Minecraft {

  /** A block position (BlockPos). */
  datatype Pos = Pos(x: int, y: int, z: int)

  /**
   The blocks the checker writes (redstone blocks and air) or reads (a
   repeater and whether it is powered); every other block is `Other`.
   */
  datatype Block = Air | RedstoneBlock | Repeater(powered: bool) | Other

  /** The persistent identity of a world (its registry key). */
  datatype WorldKey = WorldKey(id: int)

  /** The block stored at `p`; a position the map does not hold is air. */
  function BlockAt(blocks: map<Pos, Block>, p: Pos): Block
  {
    if p in blocks then blocks[p] else Air
  }

  /** A server world: a fixed identity and a block grid that changes in place. */
  class World {
    const key: WorldKey
    var blocks: map<Pos, Block>

    constructor (key: WorldKey, blocks: map<Pos, Block>)
      ensures this.key == key && this.blocks == blocks
    {
      this.key := key;
      this.blocks := blocks;
    }

    /**
     setBlockState: the block stored at `p` becomes `b`. The game's neighbour
     notifications and shape updates that follow such a write are not part
     of this world.
     */
    method SetBlockState(p: Pos, b: Block)
      modifies this
      ensures blocks == old(blocks)[p := b]
    {
      blocks := blocks[p := b];
    }

    /** getBlockState */
    function GetBlockState(p: Pos): Block
      reads this
    {
      BlockAt(blocks, p)
    }
  }
}
