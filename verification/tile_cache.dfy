/**
 * The decoded-tile cache: all 384 tiles of the tile-data region, drawn
 * with the background palette in force when the cache was last rebuilt,
 * together with the raw bytes it was rebuilt from.
 */
module TileCache {
  import opened Memory
  import opened Consts
  import opened Palette
  import opened Tile

  /** A tile drawn with a palette: an 8x8 grid of shades. */
  type Image = seq<seq<Shade>>

  /** Cache slots and the raw tile data they were built from. */
  datatype Cache = Cache(tiles: seq<Image>, snapshot: seq<Byte>)

  /** The cache at power-on: no tiles and an empty snapshot. */
  const EMPTY: Cache := Cache([], [])

  /** Length of the watched tile-data region. */
  const REGION_BYTES: nat := TILE_COUNT * TILE_BYTES

  /** A cache is either untouched or holds a full set of tiles and a full snapshot. */
  predicate Valid(c: Cache) {
    || (c.tiles == [] && c.snapshot == [])
    || (|c.tiles| == TILE_COUNT && |c.snapshot| == REGION_BYTES)
  }

  /** The 384 x 16 bytes from TILE_DATA_TABLE_1 that the cache watches. */
  function TileData(ram: Ram): (data: seq<Byte>)
    ensures |data| == REGION_BYTES
    ensures forall i :: 0 <= i < REGION_BYTES ==> data[i] == ram[TILE_DATA_TABLE_1 + i]
  {
    ram[TILE_DATA_TABLE_1 .. TILE_DATA_TABLE_1 + REGION_BYTES]
  }

  /** Every slot holds the tile of its snapshot bytes drawn with `pal`. */
  ghost predicate BakedFrom(c: Cache, pal: Table) {
    && |c.tiles| == TILE_COUNT
    && |c.snapshot| == REGION_BYTES
    && forall i :: 0 <= i < TILE_COUNT ==>
         c.tiles[i] == Bake(Decode(c.snapshot[i * TILE_BYTES .. i * TILE_BYTES + TILE_BYTES]), pal)
  }

  /** All 384 tiles of the region, each decoded from the current RAM and drawn with `pal`. */
  function Build(ram: Ram, pal: Table): (tiles: seq<Image>)
    ensures |tiles| == TILE_COUNT
    ensures BakedFrom(Cache(tiles, TileData(ram)), pal)
  {
    var tiles := seq(TILE_COUNT, i requires 0 <= i < TILE_COUNT => GetTile(ram, TILE_DATA_TABLE_1, i, pal));
    forall i | 0 <= i < TILE_COUNT
      ensures tiles[i] == Bake(Decode(TileData(ram)[i * TILE_BYTES .. i * TILE_BYTES + TILE_BYTES]), pal)
    {
      SliceOfTileData(ram, i);
    }
    tiles
  }

  /** The bytes of tile i read from RAM are the bytes of tile i in the snapshot. */
  lemma SliceOfTileData(ram: Ram, i: nat)
    requires i < TILE_COUNT
    ensures ram[TILE_DATA_TABLE_1 + i * TILE_BYTES .. TILE_DATA_TABLE_1 + i * TILE_BYTES + TILE_BYTES]
         == TileData(ram)[i * TILE_BYTES .. i * TILE_BYTES + TILE_BYTES]
  {
  }

  /**
   * The per-frame cache check: rebuilds every slot with `bgp` exactly when
   * the watched region differs from the snapshot, and otherwise keeps the
   * cache as it is, even if `bgp` has changed. Afterwards the snapshot is
   * the current region.
   */
  function Refresh(c: Cache, ram: Ram, bgp: Table): (r: Cache)
    requires Valid(c)
    ensures Valid(r) && |r.tiles| == TILE_COUNT
    ensures r.snapshot == TileData(ram)
    ensures c.snapshot != TileData(ram) ==> BakedFrom(r, bgp)
    ensures c.snapshot == TileData(ram) ==> r == c
  {
    if c.snapshot != TileData(ram) then Cache(Build(ram, bgp), TileData(ram)) else c
  }

  /** The first check after power-on always rebuilds, because the snapshot starts empty. */
  lemma FirstRefreshRebuilds(ram: Ram, bgp: Table)
    ensures Refresh(EMPTY, ram, bgp).tiles == Build(ram, bgp)
    ensures BakedFrom(Refresh(EMPTY, ram, bgp), bgp)
  {
    assert |TileData(ram)| != |EMPTY.snapshot|;
  }

  /** A second check against the same RAM never rebuilds, whatever the palette. */
  lemma RefreshIdempotent(c: Cache, ram: Ram, p: Table, q: Table)
    requires Valid(c)
    ensures Refresh(Refresh(c, ram, p), ram, q) == Refresh(c, ram, p)
  {
  }

  /**
   * The slots always show the current snapshot, drawn with the palette of
   * the last rebuild: the new one if this check rebuilt, the old one otherwise.
   */
  lemma RefreshKeepsBaking(c: Cache, ram: Ram, p: Table, q: Table)
    requires Valid(c) && BakedFrom(c, q)
    ensures BakedFrom(Refresh(c, ram, p), if c.snapshot == TileData(ram) then q else p)
  {
  }

  /**
   * After a check, changing any byte of the watched region makes the next
   * check rebuild from the new bytes; changing only bytes outside it does not.
   */
  lemma RebuildOnlyOnTileDataChange(c: Cache, ram: Ram, ram': Ram, p: Table, q: Table)
    requires Valid(c)
    ensures var r := Refresh(c, ram, p);
      (exists a :: TILE_DATA_TABLE_1 <= a < TILE_DATA_TABLE_1 + REGION_BYTES && ram'[a] != ram[a])
      <==> Refresh(r, ram', q) == Cache(Build(ram', q), TileData(ram')) && r.snapshot != TileData(ram')
  {
    var r := Refresh(c, ram, p);
    if exists a :: TILE_DATA_TABLE_1 <= a < TILE_DATA_TABLE_1 + REGION_BYTES && ram'[a] != ram[a] {
      var a :| TILE_DATA_TABLE_1 <= a < TILE_DATA_TABLE_1 + REGION_BYTES && ram'[a] != ram[a];
      assert TileData(ram')[a - TILE_DATA_TABLE_1] != TileData(ram)[a - TILE_DATA_TABLE_1];
    } else {
      assert TileData(ram') == TileData(ram);
    }
  }
}
