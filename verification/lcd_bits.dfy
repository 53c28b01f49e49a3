/** Bit layout of the LCDC control register and the STAT status register. */
module LcdBits {
  import opened Memory

  // LCDC bits
  const ENABLED: Byte := 1 << 7
  const WINDOW_MAP: Byte := 1 << 6
  const WINDOW_ENABLED: Byte := 1 << 5
  const DATA_SRC: Byte := 1 << 4
  const BG_MAP: Byte := 1 << 3
  const OBJ_SIZE: Byte := 1 << 2
  const OBJ_ENABLED: Byte := 1 << 1
  const BG_WIN_ENABLED: Byte := 1 << 0

  // STAT bits
  const LYC_INTERRUPT: Byte := 1 << 6
  const OAM_INTERRUPT: Byte := 1 << 5
  const VBLANK_INTERRUPT: Byte := 1 << 4
  const HBLANK_INTERRUPT: Byte := 1 << 3
  const LCY_EQUAL: Byte := 1 << 2
  const MODE: Byte := (1 << 1) | (1 << 0)

  // STAT modes
  const HBLANK: Byte := 0x00
  const VBLANK: Byte := 0x01
  const OAM: Byte := 0x02
  const DRAWING: Byte := 0x03

  /** Some bit of `mask` is set in `reg`. */
  predicate Has(reg: Byte, mask: Byte) {
    reg & mask != 0
  }

  /** The mode field of a STAT value. */
  function ModeOf(stat: Byte): Byte {
    stat & MODE
  }

  /**
   * STAT with its two mode bits replaced: the mode reads back as `mode`
   * and every other bit, the LYC-equal flag and the enables included, is kept.
   */
  function WithMode(stat: Byte, mode: Byte): (r: Byte)
    requires mode <= DRAWING
    ensures ModeOf(r) == mode
    ensures r & !MODE == stat & !MODE
  {
    (stat & !MODE) | mode
  }

  /**
   * STAT with the LYC-equal flag set exactly when `equal` holds;
   * every other bit, the mode included, is kept.
   */
  function WithLycEqual(stat: Byte, equal: bool): (r: Byte)
    ensures Has(r, LCY_EQUAL) <==> equal
    ensures r & !LCY_EQUAL == stat & !LCY_EQUAL
    ensures ModeOf(r) == ModeOf(stat)
  {
    if equal then stat | LCY_EQUAL else stat & !LCY_EQUAL
  }

  /** Two values that agree on the bits of `keep` agree on every flag inside `keep`. */
  lemma HasAgrees(a: Byte, b: Byte, keep: Byte, m: Byte)
    requires a & keep == b & keep && m & keep == m
    ensures Has(a, m) <==> Has(b, m)
  {
    assert a & m == (a & keep) & m;
    assert b & m == (b & keep) & m;
  }
}
