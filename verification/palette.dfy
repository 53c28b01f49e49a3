/**
 * The palette resolver: each palette register holds four 2-bit fields,
 * field i naming the shade that colour index i is drawn with.
 */
module Palette {
  import opened Memory
  import opened Consts

  /**
   * A shade: an index into the fixed four-entry colour table, from
   * lightest (0) to darkest (3).
   */
  type Shade = s: int | 0 <= s < 4

  /** A four-entry lookup table from colour index to shade. */
  type Table = p: seq<Shade> | |p| == 4 witness [0, 1, 2, 3]

  /** The colour table itself, used as the palette before the first frame. */
  const COLORS: Table := [0, 1, 2, 3]

  /** The three palettes the PPU keeps. */
  datatype Palettes = Palettes(bgp: Table, obp0: Table, obp1: Table)

  /** The 2-bit field `i` of a palette register. */
  function Field(reg: Byte, i: nat): Shade
    requires i < 4
  {
    ((reg >> (2 * i)) & 0x3) as int
  }

  /** The register value whose fields are the entries of `p`. */
  function PackPalette(p: Table): (reg: Byte)
    ensures forall i :: 0 <= i < 4 ==> Field(reg, i) == p[i]
  {
    (p[0] as Byte) | ((p[1] as Byte) << 2) | ((p[2] as Byte) << 4) | ((p[3] as Byte) << 6)
  }

  /**
   * Decodes a palette register: entry i is the shade in bits 2i+1..2i,
   * and the table packs back to exactly the register it came from.
   */
  function Resolve(reg: Byte): (p: Table)
    ensures forall i :: 0 <= i < 4 ==> p[i] == ((reg >> (2 * i)) & 0x3) as int
    ensures PackPalette(p) == reg
  {
    var p: Table := [Field(reg, 0), Field(reg, 1), Field(reg, 2), Field(reg, 3)];
    assert PackPalette(p) == reg by { PackFields(reg); }
    p
  }

  /** Packing the four fields of a register gives the register back. */
  lemma PackFields(reg: Byte)
    ensures (Field(reg, 0) as Byte) | ((Field(reg, 1) as Byte) << 2)
         | ((Field(reg, 2) as Byte) << 4) | ((Field(reg, 3) as Byte) << 6) == reg
  {
  }

  /** Every table is the resolution of exactly one register value. */
  lemma ResolveEncode(p: Table)
    ensures Resolve(PackPalette(p)) == p
  {
    var q := Resolve(PackPalette(p));
    assert forall i :: 0 <= i < 4 ==> q[i] == p[i];
  }

  /** Resolution is injective: different registers give different tables. */
  lemma ResolveInjective(a: Byte, b: Byte)
    ensures Resolve(a) == Resolve(b) <==> a == b
  {
    if Resolve(a) == Resolve(b) {
      assert a == PackPalette(Resolve(a)) == PackPalette(Resolve(b)) == b;
    }
  }

  /**
   * Recomputes the three palettes from BGP, OBP0 and OBP1: each table
   * packs back to its register, so it reflects the register's latest value.
   */
  function UpdatePalettes(ram: Ram): (ps: Palettes)
    ensures PackPalette(ps.bgp) == ram[BGP]
    ensures PackPalette(ps.obp0) == ram[OBP0]
    ensures PackPalette(ps.obp1) == ram[OBP1]
  {
    Palettes(Resolve(ram[0xFF47]), Resolve(ram[0xFF48]), Resolve(ram[0xFF49]))
  }

  /** The identity register value 0xE4 resolves to the colour table itself. */
  lemma IdentityPalette()
    ensures Resolve(0xE4) == COLORS
  {
  }
}
