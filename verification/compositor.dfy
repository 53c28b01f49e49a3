/**
 * The frame compositor. A frame is a fill shade followed by a list of
 * blits, each placing one cache slot with its top-left corner at (x, y);
 * later blits cover earlier ones.
 */
module Compositor {
  import opened Memory
  import opened Consts
  import opened LcdBits
  import opened Palette
  import opened Slots
  import TileCache

  /** Draw cache slot `slot` with its top-left corner at (x, y). */
  datatype Blit = Blit(slot: nat, x: int, y: int)

  /** The framebuffer contents as drawing commands. */
  datatype Frame = Frame(fill: Shade, blits: seq<Blit>)

  /** What one compositor pass leaves behind and reports. */
  datatype DrawResult = DrawResult(cache: TileCache.Cache, palettes: Palettes, frame: Frame, ok: bool)

  /** The grids of tiles the compositor walks, each row by row. */
  datatype Layer =
    | Background(tileMap: nat, scx: Byte, scy: Byte)
    | Window(tileMap: nat, wx: Byte, wy: Byte)
    | VramMap(tileMap: nat)
    | TileStrip(tileCount: nat)
    | Sprites

  /** The layer reads one of the two 32x32 maps when it reads a map at all. */
  predicate ValidLayer(l: Layer) {
    (l.Background? || l.Window? || l.VramMap?) ==>
      l.tileMap == BACKGROUND_MAP_0 || l.tileMap == BACKGROUND_MAP_1
  }

  function Rows(l: Layer): nat {
    match l
    case Background(_, _, _) => 144 / 8
    case Window(_, _, _) => 144 / 8
    case VramMap(_) => MAP_SIDE
    case TileStrip(n) => n / 32
    case Sprites => SPRITE_COUNT
  }

  function Cols(l: Layer): nat {
    match l
    case Background(_, _, _) => 160 / 8
    case Window(_, _, _) => 160 / 8
    case VramMap(_) => MAP_SIDE
    case TileStrip(_) => 32
    case Sprites => 1
  }

  /** Every slot a layer draws lies below this bound. */
  function SlotBound(l: Layer): nat {
    if l.TileStrip? then Rows(l) * 32 else TILE_COUNT - 1
  }

  /**
   * A scrolled background coordinate: positions below -8 move on by one
   * 256-pixel turn of the map. The result is congruent to the input
   * modulo 256, unchanged from -8 up, and in [-8, 247] for every input
   * a 20x18 grid scrolled by a byte can produce.
   */
  function Wrap(p: int): (q: int)
    ensures q % 256 == p % 256
    ensures p >= -8 ==> q == p
    ensures -264 <= p <= 247 ==> -8 <= q <= 247
  {
    if p < -8 then p + 256 else p
  }

  /** The map byte at row i, column j of the map at `tileMap`. */
  function MapEntry(ram: Ram, tileMap: nat, i: nat, j: nat): Byte
    requires tileMap == BACKGROUND_MAP_0 || tileMap == BACKGROUND_MAP_1
    requires i < MAP_SIDE && j < MAP_SIDE
  {
    ram[tileMap + i * MAP_SIDE + j]
  }

  /** The blit for row i, column j of a layer. */
  function Cell(ram: Ram, lcdc: Byte, l: Layer, i: nat, j: nat): (b: Blit)
    requires ValidLayer(l) && i < Rows(l) && j < Cols(l)
    ensures b.slot < SlotBound(l)
  {
    match l
    case Background(m, scx, scy) =>
      Blit(Slot(lcdc, MapEntry(ram, m, i, j)), Wrap(j * 8 - scx as int), Wrap(i * 8 - scy as int))
    case Window(m, wx, wy) =>
      Blit(Slot(lcdc, MapEntry(ram, m, i, j)), j * 8 + wx as int, i * 8 + wy as int)
    case VramMap(m) =>
      Blit(Slot(lcdc, MapEntry(ram, m, i, j)), j * 8, i * 8)
    case TileStrip(_) =>
      Blit(i * 32 + j, 256 + j * 8, i * 8)
    case Sprites =>
      var entry := OAM_BASE + i * SPRITE_BYTES;
      Blit(Slot(lcdc, ram[entry + 2]), ram[entry + 1] as int, ram[entry] as int)
  }

  /** The first `n` blits of row i, in column order. */
  function RowCells(ram: Ram, lcdc: Byte, l: Layer, i: nat, n: nat): (r: seq<Blit>)
    requires ValidLayer(l) && i < Rows(l) && n <= Cols(l)
    ensures |r| == n
    ensures forall k :: 0 <= k < n ==> r[k] == Cell(ram, lcdc, l, i, k)
  {
    if n == 0 then [] else RowCells(ram, lcdc, l, i, n - 1) + [Cell(ram, lcdc, l, i, n - 1)]
  }

  /**
   * The blits of the first `n` rows, in the order of the source's nested
   * loops: `n` full rows, and every slot within the layer's bound.
   */
  function Grid(ram: Ram, lcdc: Byte, l: Layer, n: nat): (g: seq<Blit>)
    requires ValidLayer(l) && n <= Rows(l)
    ensures |g| == n * Cols(l)
    ensures forall k :: 0 <= k < |g| ==> g[k].slot < SlotBound(l)
  {
    if n == 0 then []
    else
      var prefix := Grid(ram, lcdc, l, n - 1);
      assert (n - 1) * Cols(l) + Cols(l) == n * Cols(l);
      prefix + RowCells(ram, lcdc, l, n - 1, Cols(l))
  }

  /** All blits of a layer. */
  function LayerBlits(ram: Ram, lcdc: Byte, l: Layer): (g: seq<Blit>)
    requires ValidLayer(l)
    ensures |g| == Rows(l) * Cols(l)
  {
    Grid(ram, lcdc, l, Rows(l))
  }

  /** Row i comes after every earlier row: i * cols + j lies inside the first n rows. */
  lemma RowMajorIndex(i: nat, j: nat, n: nat, cols: nat)
    requires i < n && j < cols
    ensures i * cols + j < n * cols
    ensures i < n - 1 ==> i * cols + j < (n - 1) * cols
  {
    assert i * cols + j < (i + 1) * cols;
    assert (i + 1) * cols <= n * cols;
    if i < n - 1 {
      assert (i + 1) * cols <= (n - 1) * cols;
    }
  }

  /** The blit at position i * cols + j of the first n rows is the cell (i, j). */
  lemma {:induction false} GridAt(ram: Ram, lcdc: Byte, l: Layer, n: nat, i: nat, j: nat)
    requires ValidLayer(l) && n <= Rows(l) && i < n && j < Cols(l)
    ensures i * Cols(l) + j < |Grid(ram, lcdc, l, n)|
    ensures Grid(ram, lcdc, l, n)[i * Cols(l) + j] == Cell(ram, lcdc, l, i, j)
  {
    var cols := Cols(l);
    RowMajorIndex(i, j, n, cols);
    var prefix := Grid(ram, lcdc, l, n - 1);
    var row := RowCells(ram, lcdc, l, n - 1, cols);
    assert Grid(ram, lcdc, l, n) == prefix + row;
    if i < n - 1 {
      GridAt(ram, lcdc, l, n - 1, i, j);
    } else {
      assert i * cols + j == |prefix| + j;
      assert (prefix + row)[|prefix| + j] == row[j];
    }
  }

  /** The map LCDC's background-map bit selects. */
  function BackgroundMap(lcdc: Byte): (m: nat)
    ensures m == BACKGROUND_MAP_0 || m == BACKGROUND_MAP_1
  {
    if Has(lcdc, BG_MAP) then BACKGROUND_MAP_1 else BACKGROUND_MAP_0
  }

  /** The map LCDC's window-map bit selects. */
  function WindowMap(lcdc: Byte): (m: nat)
    ensures m == BACKGROUND_MAP_0 || m == BACKGROUND_MAP_1
  {
    if Has(lcdc, WINDOW_MAP) then WINDOW_MAP_1 else WINDOW_MAP_0
  }

  /** The background layer, scrolled by SCX and SCY. */
  function BackgroundLayer(ram: Ram, lcdc: Byte): Layer {
    Background(BackgroundMap(lcdc), ram[SCX], ram[SCY])
  }

  /** The window layer, placed at WX and WY. */
  function WindowLayer(ram: Ram, lcdc: Byte): Layer {
    Window(WindowMap(lcdc), ram[WX], ram[WY])
  }

  /** The blits of a layer if its enable bit is set in LCDC, and none otherwise. */
  function IfEnabled(ram: Ram, lcdc: Byte, bit: Byte, l: Layer): (g: seq<Blit>)
    requires ValidLayer(l)
    ensures |g| == if Has(lcdc, bit) then Rows(l) * Cols(l) else 0
    ensures forall k :: 0 <= k < |g| ==> g[k].slot < SlotBound(l)
  {
    if Has(lcdc, bit) then LayerBlits(ram, lcdc, l) else []
  }

  /** The normal view of an enabled display: background, then window, then sprites. */
  function NormalBlits(ram: Ram, lcdc: Byte): (g: seq<Blit>)
    ensures forall k :: 0 <= k < |g| ==> g[k].slot < TILE_COUNT - 1
  {
    var bg := IfEnabled(ram, lcdc, BG_WIN_ENABLED, BackgroundLayer(ram, lcdc));
    var win := IfEnabled(ram, lcdc, WINDOW_ENABLED, WindowLayer(ram, lcdc));
    var obj := IfEnabled(ram, lcdc, OBJ_ENABLED, Sprites);
    SlotsBelow(bg, win, TILE_COUNT - 1);
    SlotsBelow(bg + win, obj, TILE_COUNT - 1);
    bg + win + obj
  }

  /** A bound on the slots of two blit lists bounds the slots of their concatenation. */
  lemma SlotsBelow(a: seq<Blit>, b: seq<Blit>, bound: nat)
    requires forall k :: 0 <= k < |a| ==> a[k].slot < bound
    requires forall k :: 0 <= k < |b| ==> b[k].slot < bound
    ensures forall k :: 0 <= k < |a + b| ==> (a + b)[k].slot < bound
  {
  }

  /** The debug view: the whole background map, then every cached tile in a strip to its right. */
  function DebugBlits(ram: Ram, lcdc: Byte, tileCount: nat): (g: seq<Blit>)
    requires tileCount >= TILE_COUNT - 1
    ensures forall k :: 0 <= k < |g| ==> g[k].slot < tileCount
  {
    var vram := LayerBlits(ram, lcdc, VramMap(BackgroundMap(lcdc)));
    var strip := LayerBlits(ram, lcdc, TileStrip(tileCount));
    assert SlotBound(TileStrip(tileCount)) <= tileCount;
    SlotsBelow(vram, strip, tileCount);
    vram + strip
  }

  /**
   * One compositor pass. It recomputes the palettes, checks the tile
   * cache against the tile data, clears to the shade of colour 0 under
   * BGP and lists the blits of the selected view; with the display
   * disabled the normal view stays blank. Every blit names a slot the
   * refreshed cache holds, and the pass always reports success.
   */
  function Draw(cache: TileCache.Cache, ram: Ram, debug: bool): (r: DrawResult)
    requires TileCache.Valid(cache)
    ensures r.ok
    ensures PackPalette(r.palettes.bgp) == ram[BGP]
    ensures PackPalette(r.palettes.obp0) == ram[OBP0]
    ensures PackPalette(r.palettes.obp1) == ram[OBP1]
    ensures r.frame.fill == (ram[BGP] & 0x3) as int
    ensures r.cache == TileCache.Refresh(cache, ram, r.palettes.bgp)
    ensures TileCache.Valid(r.cache) && |r.cache.tiles| == TILE_COUNT
    ensures forall k :: 0 <= k < |r.frame.blits| ==> r.frame.blits[k].slot < |r.cache.tiles|
    ensures !debug && !Has(ram[LCDC], ENABLED) ==> r.frame.blits == []
    ensures !debug && Has(ram[LCDC], ENABLED) ==> r.frame.blits == NormalBlits(ram, ram[LCDC])
    ensures debug ==> r.frame.blits == DebugBlits(ram, ram[LCDC], TILE_COUNT)
  {
    var palettes := UpdatePalettes(ram);
    assert palettes.bgp[0] == ((ram[BGP] >> 0) & 0x3) as int;
    var lcdc := ram[LCDC];
    var cache' := TileCache.Refresh(cache, ram, palettes.bgp);
    var blits :=
      if !debug then
        if !Has(lcdc, ENABLED) then [] else NormalBlits(ram, lcdc)
      else
        DebugBlits(ram, lcdc, |cache'.tiles|);
    DrawResult(cache', palettes, Frame(palettes.bgp[0], blits), true)
  }

  /**
   * The normal view holds 360 background blits if BG_WIN_ENABLED is set,
   * then 360 window blits if WINDOW_ENABLED is set, then the 40 sprites if
   * OBJ_ENABLED is set, each group in place.
   */
  lemma NormalLayerOrder(ram: Ram, lcdc: Byte)
    ensures var g := NormalBlits(ram, lcdc);
      var bg := if Has(lcdc, BG_WIN_ENABLED) then 360 else 0;
      var win := if Has(lcdc, WINDOW_ENABLED) then 360 else 0;
      var obj := if Has(lcdc, OBJ_ENABLED) then 40 else 0;
      && |g| == bg + win + obj
      && g[..bg] == IfEnabled(ram, lcdc, BG_WIN_ENABLED, BackgroundLayer(ram, lcdc))
      && g[bg .. bg + win] == IfEnabled(ram, lcdc, WINDOW_ENABLED, WindowLayer(ram, lcdc))
      && g[bg + win ..] == IfEnabled(ram, lcdc, OBJ_ENABLED, Sprites)
  {
    var a := IfEnabled(ram, lcdc, BG_WIN_ENABLED, BackgroundLayer(ram, lcdc));
    var b := IfEnabled(ram, lcdc, WINDOW_ENABLED, WindowLayer(ram, lcdc));
    var c := IfEnabled(ram, lcdc, OBJ_ENABLED, Sprites);
    assert Rows(BackgroundLayer(ram, lcdc)) == 18 && Cols(BackgroundLayer(ram, lcdc)) == 20;
    assert Rows(WindowLayer(ram, lcdc)) == 18 && Cols(WindowLayer(ram, lcdc)) == 20;
    assert Rows(Sprites) == 40 && Cols(Sprites) == 1;
    assert NormalBlits(ram, lcdc) == a + b + c;
    ThreeParts(a, b, c);
  }

  /** Each part of a three-part concatenation can be sliced back out. */
  lemma ThreeParts<T>(a: seq<T>, b: seq<T>, c: seq<T>)
    ensures (a + b + c)[..|a|] == a
    ensures (a + b + c)[|a| .. |a| + |b|] == b
    ensures (a + b + c)[|a| + |b| ..] == c
  {
    assert (a + b + c)[..|a|] == a;
    assert (a + b + c)[|a| .. |a| + |b|] == b;
  }

  /**
   * Background tile (tx, ty) is blit number ty*20+tx: the slot of its map
   * entry, at tx*8-SCX and ty*8-SCY wrapped by one 256-pixel turn when
   * below -8, so that both coordinates lie in [-8, 247].
   */
  lemma BackgroundTile(ram: Ram, lcdc: Byte, ty: nat, tx: nat)
    requires ty < 18 && tx < 20
    ensures var g := LayerBlits(ram, lcdc, BackgroundLayer(ram, lcdc));
      var b := g[ty * 20 + tx];
      && b.slot == Slot(lcdc, ram[BackgroundMap(lcdc) + ty * 32 + tx])
      && b.x % 256 == (tx * 8 - ram[SCX] as int) % 256
      && b.y % 256 == (ty * 8 - ram[SCY] as int) % 256
      && -8 <= b.x <= 247 && -8 <= b.y <= 247
  {
    var l := BackgroundLayer(ram, lcdc);
    GridAt(ram, lcdc, l, 18, ty, tx);
    var b := Cell(ram, lcdc, l, ty, tx);
    assert b.x == Wrap(tx * 8 - ram[SCX] as int) && b.y == Wrap(ty * 8 - ram[SCY] as int);
  }

  /** Window tile (tx, ty) is blit number ty*20+tx, at (tx*8+WX, ty*8+WY) with no scroll or wrap. */
  lemma WindowTile(ram: Ram, lcdc: Byte, ty: nat, tx: nat)
    requires ty < 18 && tx < 20
    ensures var g := LayerBlits(ram, lcdc, WindowLayer(ram, lcdc));
      g[ty * 20 + tx] == Blit(Slot(lcdc, ram[WindowMap(lcdc) + ty * 32 + tx]),
                              tx * 8 + ram[WX] as int, ty * 8 + ram[WY] as int)
  {
    GridAt(ram, lcdc, WindowLayer(ram, lcdc), 18, ty, tx);
  }

  /**
   * Sprite k is blit number k, in table order: the slot of its tile byte
   * at (x byte, y byte), all four bytes read below the I/O registers.
   */
  lemma SpriteInTableOrder(ram: Ram, lcdc: Byte, k: nat)
    requires k < SPRITE_COUNT
    ensures var e := OAM_BASE + 4 * k;
      && e + 3 < JOYP
      && LayerBlits(ram, lcdc, Sprites)[k] == Blit(Slot(lcdc, ram[e + 2]), ram[e + 1] as int, ram[e] as int)
  {
    GridAt(ram, lcdc, Sprites, SPRITE_COUNT, k, 0);
  }

  /** In the debug view, map entry (x, y) is drawn unscrolled at (x*8, y*8). */
  lemma DebugMapTile(ram: Ram, lcdc: Byte, y: nat, x: nat)
    requires y < 32 && x < 32
    ensures LayerBlits(ram, lcdc, VramMap(BackgroundMap(lcdc)))[y * 32 + x]
         == Blit(Slot(lcdc, ram[BackgroundMap(lcdc) + y * 32 + x]), x * 8, y * 8)
  {
    GridAt(ram, lcdc, VramMap(BackgroundMap(lcdc)), 32, y, x);
  }

  /** The debug tile strip shows slot k, for every k of the 384, 32 per row right of the map. */
  lemma TileStripShowsEverySlot(ram: Ram, lcdc: Byte, k: nat)
    requires k < TILE_COUNT
    ensures var g := LayerBlits(ram, lcdc, TileStrip(TILE_COUNT));
      |g| == TILE_COUNT && g[k] == Blit(k, 256 + (k % 32) * 8, (k / 32) * 8)
  {
    GridAt(ram, lcdc, TileStrip(TILE_COUNT), 12, k / 32, k % 32);
  }
}
