/**
 * The tile decoder: 16 bytes hold an 8x8 tile as two bitplanes per row,
 * the even byte of a row carrying the low bit and the odd byte the high
 * bit of each pixel's colour index, most significant bit leftmost.
 */
module Tile {
  import opened Memory
  import opened Palette

  /** The colour index of a pixel, before a palette is applied. */
  type Index = b: Byte | b < 4

  /** An 8x8 grid, rows top to bottom, columns left to right. */
  predicate IsGrid<T>(g: seq<seq<T>>) {
    |g| == 8 && forall y :: 0 <= y < 8 ==> |g[y]| == 8
  }

  /** Colour index of column `x` of a row whose bitplanes are `lo` and `hi`. */
  function PixelIndex(lo: Byte, hi: Byte, x: nat): Index
    requires x < 8
  {
    var lowBit := (lo >> (7 - x)) & 0x1;
    var highBit := (hi >> (7 - x)) & 0x1;
    (highBit << 1) | lowBit
  }

  /** The eight colour indices of one row. */
  function DecodeRow(lo: Byte, hi: Byte): (row: seq<Index>)
    ensures |row| == 8
  {
    seq(8, x requires 0 <= x < 8 => PixelIndex(lo, hi, x))
  }

  /** Bit `plane` (0 = low, 1 = high) of a colour index, as a 0/1 byte. */
  function PlaneBit(v: Index, plane: nat): Byte
    requires plane < 2
  {
    (v >> plane) & 0x1
  }

  /** The bitplane byte `plane` of a row of eight colour indices, leftmost pixel in bit 7. */
  function PlaneByte(row: seq<Index>, plane: nat): Byte
    requires |row| == 8 && plane < 2
  {
    (PlaneBit(row[0], plane) << 7) | (PlaneBit(row[1], plane) << 6)
    | (PlaneBit(row[2], plane) << 5) | (PlaneBit(row[3], plane) << 4)
    | (PlaneBit(row[4], plane) << 3) | (PlaneBit(row[5], plane) << 2)
    | (PlaneBit(row[6], plane) << 1) | PlaneBit(row[7], plane)
  }

  /** The 16 raw bytes of a grid of colour indices: the inverse of decoding. */
  function EncodeTile(g: seq<seq<Index>>): (bytes: seq<Byte>)
    requires IsGrid(g)
    ensures |bytes| == 16
  {
    seq(16, i requires 0 <= i < 16 => PlaneByte(g[i / 2], i % 2))
  }

  /** A colour index is determined by its two bitplane bits. */
  lemma PixelFromBits(lo: Byte, hi: Byte, x: nat, v: Index)
    requires x < 8
    requires (lo >> (7 - x)) & 1 == PlaneBit(v, 0)
    requires (hi >> (7 - x)) & 1 == PlaneBit(v, 1)
    ensures PixelIndex(lo, hi, x) == v
  {
  }

  /** Bit 7-x of a bitplane byte is that plane's bit of pixel x. */
  lemma PlaneByteBit(row: seq<Index>, plane: nat, x: nat)
    requires |row| == 8 && plane < 2 && x < 8
    ensures (PlaneByte(row, plane) >> (7 - x)) & 1 == PlaneBit(row[x], plane)
  {
  }

  /** Re-encoding a decoded row gives back both of its bitplane bytes. */
  lemma RowPlanes(lo: Byte, hi: Byte)
    ensures PlaneByte(DecodeRow(lo, hi), 0) == lo
    ensures PlaneByte(DecodeRow(lo, hi), 1) == hi
  {
  }

  /** Pixel x of a row decoded from re-encoded bitplanes is the original pixel. */
  lemma RowIndexAt(row: seq<Index>, x: nat)
    requires |row| == 8 && x < 8
    ensures PixelIndex(PlaneByte(row, 0), PlaneByte(row, 1), x) == row[x]
  {
    PlaneByteBit(row, 0, x);
    PlaneByteBit(row, 1, x);
    PixelFromBits(PlaneByte(row, 0), PlaneByte(row, 1), x, row[x]);
  }

  /** Decoding re-encoded bitplanes gives back every colour index of the row. */
  lemma RowIndices(row: seq<Index>)
    requires |row| == 8
    ensures DecodeRow(PlaneByte(row, 0), PlaneByte(row, 1)) == row
  {
    forall x | 0 <= x < 8
      ensures DecodeRow(PlaneByte(row, 0), PlaneByte(row, 1))[x] == row[x]
    {
      RowIndexAt(row, x);
    }
  }

  /** Decodes 16 raw bytes, two per row, into an 8x8 grid of colour indices. */
  function Decode(bytes: seq<Byte>): (g: seq<seq<Index>>)
    requires |bytes| == 16
    ensures IsGrid(g)
  {
    seq(8, y requires 0 <= y < 8 => DecodeRow(bytes[2 * y], bytes[2 * y + 1]))
  }

  /** Byte i of the encoding of a decoded tile is byte i of the tile. */
  lemma EncodeDecodedAt(bytes: seq<Byte>, i: nat)
    requires |bytes| == 16 && i < 16
    ensures EncodeTile(Decode(bytes))[i] == bytes[i]
  {
    var y := i / 2;
    assert Decode(bytes)[y] == DecodeRow(bytes[2 * y], bytes[2 * y + 1]);
    RowPlanes(bytes[2 * y], bytes[2 * y + 1]);
  }

  /** A decoded tile encodes back to exactly the bytes it came from: decoding loses nothing. */
  lemma EncodeDecode(bytes: seq<Byte>)
    requires |bytes| == 16
    ensures EncodeTile(Decode(bytes)) == bytes
  {
    forall i | 0 <= i < 16
      ensures EncodeTile(Decode(bytes))[i] == bytes[i]
    {
      EncodeDecodedAt(bytes, i);
    }
  }

  /** Row y of the decoding of a grid's encoding is row y of the grid. */
  lemma DecodeEncodeRow(g: seq<seq<Index>>, y: nat)
    requires IsGrid(g) && y < 8
    ensures Decode(EncodeTile(g))[y] == g[y]
  {
    var e := EncodeTile(g);
    assert e[2 * y] == PlaneByte(g[y], 0);
    assert e[2 * y + 1] == PlaneByte(g[y], 1);
    assert Decode(e)[y] == DecodeRow(e[2 * y], e[2 * y + 1]);
    RowIndices(g[y]);
  }

  /** Every grid of colour indices is the decoding of its own encoding. */
  lemma DecodeEncode(g: seq<seq<Index>>)
    requires IsGrid(g)
    ensures Decode(EncodeTile(g)) == g
  {
    forall y | 0 <= y < 8
      ensures Decode(EncodeTile(g))[y] == g[y]
    {
      DecodeEncodeRow(g, y);
    }
  }

  /** A grid of colour indices drawn with a palette: each pixel gets the shade its index names. */
  function Bake(g: seq<seq<Index>>, pal: Table): (img: seq<seq<Shade>>)
    requires IsGrid(g)
    ensures IsGrid(img)
  {
    seq(8, y requires 0 <= y < 8 => seq(8, x requires 0 <= x < 8 => pal[g[y][x] as int]))
  }

  /** Drawn with the colour table itself, a tile's shades are its colour indices. */
  lemma BakeWithColors(g: seq<seq<Index>>)
    requires IsGrid(g)
    ensures forall y, x :: 0 <= y < 8 && 0 <= x < 8 ==> Bake(g, COLORS)[y][x] == g[y][x] as int
  {
  }

  /** Pixel (x, y) of a decoded, baked tile is the palette entry of its colour index. */
  lemma BakedPixel(bytes: seq<Byte>, pal: Table, y: nat, x: nat)
    requires |bytes| == 16 && y < 8 && x < 8
    ensures Bake(Decode(bytes), pal)[y][x] == pal[PixelIndex(bytes[2 * y], bytes[2 * y + 1], x) as int]
  {
    var g := Decode(bytes);
    var row := DecodeRow(bytes[2 * y], bytes[2 * y + 1]);
    assert g[y] == row;
    assert row[x] == PixelIndex(bytes[2 * y], bytes[2 * y + 1], x);
    assert Bake(g, pal)[y][x] == pal[g[y][x] as int];
  }

  /**
   * The tile `id` of the table at `table`, drawn with `pal`: pixel (x, y)
   * gets the shade that `pal` gives the colour index whose low bit is bit
   * 7-x of byte 2y and whose high bit is bit 7-x of byte 2y+1.
   */
  function GetTile(ram: Ram, table: nat, id: nat, pal: Table): (img: seq<seq<Shade>>)
    requires table + id * 16 + 16 <= ADDRESS_SPACE
    ensures IsGrid(img)
    ensures forall y, x :: 0 <= y < 8 && 0 <= x < 8 ==>
      img[y][x] == pal[PixelIndex(ram[table + id * 16 + 2 * y], ram[table + id * 16 + 2 * y + 1], x) as int]
  {
    var base := table + id * 16;
    var bytes := ram[base .. base + 16];
    forall y, x | 0 <= y < 8 && 0 <= x < 8
      ensures Bake(Decode(bytes), pal)[y][x] == pal[PixelIndex(ram[base + 2 * y], ram[base + 2 * y + 1], x) as int]
    {
      BakedPixel(bytes, pal, y, x);
      assert bytes[2 * y] == ram[base + 2 * y] && bytes[2 * y + 1] == ram[base + 2 * y + 1];
    }
    Bake(Decode(bytes), pal)
  }
}
