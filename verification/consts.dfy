/** Fixed addresses and interrupt masks the picture-processing unit is parameterised by. */
module Consts {
  import opened Memory

  // Video memory layout
  const TILE_DATA_TABLE_0: nat := 0x8800
  const TILE_DATA_TABLE_1: nat := 0x8000
  const BACKGROUND_MAP_0: nat := 0x9800
  const BACKGROUND_MAP_1: nat := 0x9C00
  const WINDOW_MAP_0: nat := 0x9800
  const WINDOW_MAP_1: nat := 0x9C00
  const OAM_BASE: nat := 0xFE00

  const JOYP: nat := 0xFF00

  // PPU registers
  const LCDC: nat := 0xFF40
  const STAT: nat := 0xFF41
  const SCY: nat := 0xFF42
  const SCX: nat := 0xFF43
  const LY: nat := 0xFF44
  const LCY: nat := 0xFF45
  const DMA: nat := 0xFF46
  const BGP: nat := 0xFF47
  const OBP0: nat := 0xFF48
  const OBP1: nat := 0xFF49
  const WY: nat := 0xFF4A
  const WX: nat := 0xFF4B

  // Interrupt-flag masks of the two requests the PPU raises
  const INT_VBLANK: Byte := 1 << 0
  const INT_STAT: Byte := 1 << 1

  /** The two interrupt requests the PPU raises, each standing for its mask. */
  datatype Interrupt = VBlankRequest | StatRequest {
    function Mask(): Byte {
      match this
      case VBlankRequest => INT_VBLANK
      case StatRequest => INT_STAT
    }
  }

  // Sizes the compositor works with
  const TILE_COUNT: nat := 384
  const TILE_BYTES: nat := 16
  const MAP_SIDE: nat := 32
  const SPRITE_COUNT: nat := 40
  const SPRITE_BYTES: nat := 4

  /** The PPU register block LCDC..WX, in address order. */
  function PpuRegisters(): (regs: seq<nat>)
    ensures |regs| == 12
    ensures forall i :: 0 <= i < |regs| ==> regs[i] == LCDC + i
  {
    [LCDC, STAT, SCY, SCX, LY, LCY, DMA, BGP, OBP0, OBP1, WY, WX]
  }

  /** The registers the tick writes (LY, STAT) are distinct from every other PPU register. */
  lemma RegistersDistinct()
    ensures forall i, j :: 0 <= i < j < |PpuRegisters()| ==> PpuRegisters()[i] != PpuRegisters()[j]
    ensures LY !in {LCDC, SCY, SCX, LCY, DMA, BGP, OBP0, OBP1, WY, WX}
    ensures STAT !in {LCDC, SCY, SCX, LCY, DMA, BGP, OBP0, OBP1, WY, WX}
  {
  }

  /** The tile-data region watched by the cache covers both banks and stops where the maps begin. */
  lemma TileDataLayout()
    ensures TILE_DATA_TABLE_1 + TILE_COUNT * TILE_BYTES == BACKGROUND_MAP_0
    ensures TILE_DATA_TABLE_1 <= TILE_DATA_TABLE_0
    ensures TILE_DATA_TABLE_0 + 256 * TILE_BYTES == TILE_DATA_TABLE_1 + TILE_COUNT * TILE_BYTES
  {
  }

  /** Both 32x32 maps fit below 0xA000, and the window maps are the background maps. */
  lemma MapLayout()
    ensures BACKGROUND_MAP_0 + MAP_SIDE * MAP_SIDE == BACKGROUND_MAP_1
    ensures BACKGROUND_MAP_1 + MAP_SIDE * MAP_SIDE == 0xA000
    ensures WINDOW_MAP_0 == BACKGROUND_MAP_0 && WINDOW_MAP_1 == BACKGROUND_MAP_1
  {
  }

  /** The sprite table ends before the I/O registers begin. */
  lemma OamLayout()
    ensures OAM_BASE + SPRITE_COUNT * SPRITE_BYTES <= JOYP
  {
  }

  /** The two interrupts the PPU raises are distinct single-bit masks. */
  lemma InterruptMasks(i: Interrupt, j: Interrupt)
    ensures i.Mask() != 0 && i.Mask() & (i.Mask() - 1) == 0
    ensures i != j ==> i.Mask() & j.Mask() == 0
  {
  }
}
