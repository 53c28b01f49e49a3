/**
 * The address translator: maps a tile id read from a map or the sprite
 * table to a slot of the 384-tile cache, following LCDC's data-select bit.
 * The cache is built from the unsigned bank (0x8000..0x97FF); the signed
 * bank is reached through an offset of 0xFF, as the source writes it.
 */
module Slots {
  import opened Memory
  import opened Consts
  import opened LcdBits

  /** The slot offset of the bank the data-select bit picks. */
  function TileOffset(lcdc: Byte): nat {
    if Has(lcdc, DATA_SRC) then 0 else 0xFF
  }

  /**
   * The cache slot drawn for tile `id`. Every id lands on a slot below
   * 383; with the unsigned bank selected the slot is the id itself, with
   * the signed bank ids above 0x7F keep their value and the others move
   * up by 0xFF.
   */
  function Slot(lcdc: Byte, id: Byte): (s: nat)
    ensures s < TILE_COUNT - 1
    ensures Has(lcdc, DATA_SRC) ==> s == id as int
    ensures !Has(lcdc, DATA_SRC) && id > 0x7F ==> s == id as int
    ensures !Has(lcdc, DATA_SRC) && id <= 0x7F ==> 0xFF <= s
  {
    var offset := TileOffset(lcdc);
    var tileId := if offset != 0 && id > 0x7F then id as int - 0xFF else id as int;
    offset + tileId
  }

  /**
   * Reference definition: the cache slot of the 16 bytes the hardware
   * fetches for tile `id`, the unsigned bank addressing from
   * TILE_DATA_TABLE_1 and the signed bank from TILE_DATA_TABLE_0 with ids
   * 0x80..0xFF first.
   */
  function HardwareSlot(lcdc: Byte, id: Byte): (s: nat)
    ensures s < TILE_COUNT
  {
    var address := if Has(lcdc, DATA_SRC)
      then TILE_DATA_TABLE_1 + TILE_BYTES * id as int
      else TILE_DATA_TABLE_0 + TILE_BYTES * ((id as int + 0x80) % 0x100);
    (address - TILE_DATA_TABLE_1) / TILE_BYTES
  }

  /**
   * The offset of 0xFF agrees with the hardware except for the signed
   * bank's ids 0x00..0x7F, which land one slot below their tile.
   */
  lemma SlotVersusHardware(lcdc: Byte, id: Byte)
    ensures Has(lcdc, DATA_SRC) || id > 0x7F ==> Slot(lcdc, id) == HardwareSlot(lcdc, id)
    ensures !Has(lcdc, DATA_SRC) && id <= 0x7F ==> Slot(lcdc, id) + 1 == HardwareSlot(lcdc, id)
  {
  }

  /** With the unsigned bank, distinct ids always reach distinct slots. */
  lemma SlotInjectiveUnsigned(lcdc: Byte, a: Byte, b: Byte)
    requires Has(lcdc, DATA_SRC)
    ensures Slot(lcdc, a) == Slot(lcdc, b) <==> a == b
  {
  }

  /**
   * With the signed bank, the only two distinct ids that share a slot
   * are 0x00 and 0xFF (both slot 255); slot 383 is never reached.
   */
  lemma SlotCollisionsSigned(lcdc: Byte, a: Byte, b: Byte)
    requires !Has(lcdc, DATA_SRC) && a < b
    ensures Slot(lcdc, a) == Slot(lcdc, b) <==> a == 0x00 && b == 0xFF
  {
  }
}
