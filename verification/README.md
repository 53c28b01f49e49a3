# RosettaBoy picture-processing unit, in Dafny

This project models the Python implementation of the RosettaBoy Game Boy
picture-processing unit (PPU) and proves properties of it. The model
covers four parts:

- **The tick state machine.** It runs once per machine cycle. It derives
  the dot group and line from a cycle counter that is raised before use
  and never reset. It mirrors the line into LY. It keeps the LYC-equal
  flag and the mode bits of STAT in step. It raises STAT and VBlank
  interrupt requests at fixed positions, and it draws the frame once per
  frame, at dot 20 of line 0.
- **The palette resolver.** It reads four 2-bit fields out of each of
  BGP, OBP0 and OBP1.
- **The tile decoder.** Two bitplanes per row turn 16 bytes into an 8x8
  grid of colour indices 0..3.
- **The frame compositor.** It keeps a 384-tile cache that is rebuilt
  only when the tile data changes. It maps tile ids to cache slots and
  lays out the scrolled and wrapped background, the window and the 40
  sprites in table order. In debug mode it shows the whole background
  map and the tile strip instead.

RAM is a flat 64 KiB sequence of `bv8` bytes. A shade is an index 0..3
into the fixed four-colour table, not an RGB value. A tick is a pure
function. It takes the PPU state, the RAM and the CPU's stop flag, and
returns five things:

- the new state;
- the new RAM;
- the interrupt requests raised, in order;
- the frame drawn, if any;
- the continue flag that `tick` returns, which is always true.

A frame is a fill shade followed by a list of blits. Each blit places one
cache slot at a pixel position, and later blits cover earlier ones.

Modules, in dependency order:

- `Memory`: bytes and RAM.
- `Consts`: addresses and interrupt masks.
- `LcdBits`: the LCDC and STAT bit layout.
- `Palette`
- `Tile`
- `Slots`: tile id to cache slot.
- `TileCache`
- `Compositor`
- `Timing`: one tick, and the `Option` of its optional frame.
- `Schedule`: runs of ticks, with frame and VBlank counting.

**The slot rule is modelled as the source writes it.** With the signed
bank selected, the offset is 0xFF and ids above 0x7F have 0xFF
subtracted. This is not the 256/0x100 that the hardware layout suggests.
The consequences are proved rather than corrected:

- no map entry or sprite id ever reaches slot 383; only the debug tile
  strip shows it;
- ids 0x00 and 0xFF share slot 255;
- compared with the hardware address, ids 0x00..0x7F land one slot
  early.

## Model

| member | source | states |
|---|---|---|
| Consts.PpuRegisters | py/src/consts.py:57-68 | The twelve PPU registers LCDC..WX sit at consecutive addresses from 0xFF40 |
| Consts.RegistersDistinct | py/src/consts.py:57-68 | The PPU register addresses are pairwise distinct, so writes to LY and STAT cannot reach LCDC, LCY, the scroll, window or palette registers, or DMA |
| Consts.TileDataLayout | py/src/consts.py:8-12 | The 384x16-byte region from TILE_DATA_TABLE_1 ends exactly at BACKGROUND_MAP_0, and it contains the whole signed bank from TILE_DATA_TABLE_0 |
| Consts.MapLayout | py/src/consts.py:11-14 | The two 32x32 maps are adjacent and end at 0xA000, and the window maps are the background maps |
| Consts.OamLayout | py/src/consts.py:15-17 | The 40 four-byte sprite entries end before JOYP, so sprite reads never touch the I/O registers |
| Consts.InterruptMasks | py/src/consts.py:75-80 | The VBlank and STAT request masks are single bits, and distinct requests have disjoint masks |
| LcdBits.WithMode | py/src/gpu.py:96-113 | Writing a mode into STAT makes the mode bits read back as that mode and keeps every other bit |
| LcdBits.WithLycEqual | py/src/gpu.py:88-93 | The LYC-equal flag ends up set exactly when asked for, and every other STAT bit, the mode included, is kept |
| Palette.Resolve | py/src/gpu.py:122-127 | Entry i of a resolved palette is the shade in bits 2i+1..2i of the register, and the table packs back to the very register it came from |
| Palette.ResolveEncode | py/src/gpu.py:121-139 | Every four-entry table is the resolution of the register it encodes to, so resolution and packing are mutually inverse |
| Palette.ResolveInjective | py/src/gpu.py:121-139 | Two registers resolve to the same table if and only if they are equal |
| Palette.UpdatePalettes | py/src/gpu.py:121-139 | The bgp, obp0 and obp1 tables encode back to the bytes at 0xFF47, 0xFF48 and 0xFF49 |
| Palette.IdentityPalette | py/src/gpu.py:56-64 | The register value 0xE4 resolves to the colour table itself, the palette the unit starts with |
| Tile.Decode | py/src/gpu.py:283-289 | Decoding 16 bytes yields an 8x8 grid of colour indices 0..3 |
| Tile.EncodeDecode | py/src/gpu.py:283-289 | The grid decoded from 16 bytes encodes back to exactly those bytes, so no two tiles decode alike |
| Tile.DecodeEncode | py/src/gpu.py:283-289 | Every 8x8 grid of colour indices is the decoding of its own 16-byte encoding, so decoding loses nothing and misses nothing |
| Tile.BakedPixel | py/src/gpu.py:283-290 | Pixel (x, y) of a decoded tile drawn with a palette is the palette entry of the index built from bit 7-x of bytes 2y (low) and 2y+1 (high) |
| Tile.BakeWithColors | py/src/gpu.py:290 | Drawn with the colour table, every pixel's shade is its colour index |
| Tile.GetTile | py/src/gpu.py:277-292 | Pixel (x, y) of tile `id` gets the palette shade of ((byte 2y+1 >> 7-x) & 1) << 1 OR ((byte 2y >> 7-x) & 1), read at table + 16*id |
| Slots.Slot | py/src/gpu.py:163-168 | Every tile id maps to a slot below 383. The slot is the id itself with DATA_SRC set or for ids above 0x7F, and at least 0xFF for the signed bank's ids 0x00..0x7F |
| Slots.SlotVersusHardware | py/src/gpu.py:197-199 | The 0xFF offset agrees with the hardware's tile address except for signed-bank ids 0x00..0x7F, which land exactly one slot below their tile |
| Slots.SlotInjectiveUnsigned | py/src/gpu.py:163-165 | With DATA_SRC set, two ids share a slot if and only if they are equal |
| Slots.SlotCollisionsSigned | py/src/gpu.py:197-198 | With the signed bank, two distinct ids a < b share a slot if and only if they are 0x00 and 0xFF |
| TileCache.Build | py/src/gpu.py:156-160 | A rebuild yields 384 slots, and slot i holds tile i of the watched region decoded and drawn with the given palette |
| TileCache.Refresh | py/src/gpu.py:152-161 | The cache is rebuilt with the current BGP exactly when the region differs from the snapshot, and is otherwise left as it is even if BGP changed. Afterwards the snapshot is the region and the cache holds 384 tiles |
| TileCache.FirstRefreshRebuilds | py/src/gpu.py:39-40 | The first check after power-on always rebuilds, because the snapshot starts empty |
| TileCache.RefreshIdempotent | py/src/gpu.py:155-161 | A second check against unchanged RAM never rebuilds, whatever palette it is given |
| TileCache.RefreshKeepsBaking | py/src/gpu.py:155-161 | After any check, every slot shows its snapshot bytes drawn with the palette of the last rebuild |
| TileCache.RebuildOnlyOnTileDataChange | py/src/gpu.py:152-155 | After a check, the next check rebuilds if and only if some byte of the watched region changed. Changes elsewhere in RAM never rebuild |
| Compositor.Wrap | py/src/gpu.py:191-196 | A scrolled coordinate is congruent to tile*8-scroll modulo 256, unchanged from -8 up, and in [-8, 247] for every position a scrolled 20x18 grid can produce |
| Compositor.GridAt | py/src/gpu.py:188-190 | Blit i*cols+j of a layer is the cell of row i, column j, which is the row-major order of the nested loops |
| Compositor.NormalBlits | py/src/gpu.py:182-241 | Every blit of the normal view names a slot below 383 |
| Compositor.NormalLayerOrder | py/src/gpu.py:182-241 | The normal view lists 360 background blits if BG_WIN_ENABLED is set, then 360 window blits if WINDOW_ENABLED is set, then 40 sprite blits if OBJ_ENABLED is set, each group intact |
| Compositor.BackgroundTile | py/src/gpu.py:183-199 | Background blit ty*20+tx draws the slot of map entry (tx, ty) of the selected map, at tx*8-SCX and ty*8-SCY, each wrapped into [-8, 247] |
| Compositor.WindowTile | py/src/gpu.py:202-216 | Window blit ty*20+tx draws the slot of map entry (tx, ty) of the selected window map, at (tx*8+WX, ty*8+WY) with no scroll or wrap |
| Compositor.SpriteInTableOrder | py/src/gpu.py:225-241 | Sprite blit k comes from OAM entry k in table order. It draws the slot of byte 2 at (byte 1, byte 0), and all four bytes lie below the I/O registers |
| Compositor.DebugBlits | py/src/gpu.py:243-265 | Every blit of the debug view names a slot the full cache holds |
| Compositor.DebugMapTile | py/src/gpu.py:250-255 | In the debug view, map entry (x, y) is drawn unscrolled at (x*8, y*8) |
| Compositor.TileStripShowsEverySlot | py/src/gpu.py:262-265 | The debug tile strip shows each of the 384 slots once, 32 per row, to the right of the map |
| Compositor.Draw | py/src/gpu.py:141-275 | A pass always succeeds. Its palettes encode back to BGP, OBP0 and OBP1, it fills with BGP's colour 0, and its cache is the checked cache. It blits nothing with the display off, the normal view with it on, and the debug view in debug mode. Every blit names a slot the cache holds |
| Timing.PowerOn | py/src/gpu.py:39-66 | The unit starts at cycle 0 with an empty, valid cache |
| Timing.CompareLine | py/src/gpu.py:84-93 | LY takes the line. The LYC-equal flag is set exactly when LY equals LCY, and a STAT request is raised exactly then if LYC_INTERRUPT is set. Only LY and STAT's flag change |
| Timing.SwitchMode | py/src/gpu.py:95-117 | The mode bits follow the table (OAM at dot 0, DRAWING at 20, HBLANK at 63 of lines 0..143, VBLANK at dot 0 of line 144) and are untouched elsewhere. The other STAT bits are kept, STAT alone changes, and the requests are a STAT request when the entered mode's enable is set, then VBlank exactly at line 144 |
| Timing.UpdateRegisters | py/src/gpu.py:83-117 | LY becomes the line, the LYC-equal flag follows LY == LCY, only LY and STAT change, and VBlank is requested exactly at dot 0 of line 144 |
| Timing.RegistersMode | py/src/gpu.py:95-117 | After the register updates the mode is the table's mode where it names one and the previous mode elsewhere |
| Timing.RegistersKeepEnables | py/src/gpu.py:88-113 | The register updates never touch STAT's bits outside the mode and LYC-equal flag |
| Timing.RegistersInterrupts | py/src/gpu.py:86-117 | The requests are, in order, the LYC STAT request, the mode-entry STAT request and VBlank, each raised exactly under its condition |
| Timing.Scan | py/src/gpu.py:83-108 | An active tick draws exactly at dot 20 of line 0, from the RAM it has just updated, and otherwise keeps the cache and palettes |
| Timing.Tick | py/src/gpu.py:68-119 | The counter rises by one on every tick. A stopped CPU changes nothing else, and a dark display outside debug only clears LY. Otherwise the LYC-equal flag follows LY == LCY. Only LY and STAT are written, the result is always true, a frame is drawn exactly at dot 20 of line 0 from the new RAM, and VBlank is requested exactly at dot 0 of line 144 |
| Timing.LineByteValue | py/src/gpu.py:83-85 | The byte written to LY reads back as the line number (c div 114) mod 154 itself, with no truncation |
| Timing.TickLine | py/src/gpu.py:69-85 | An active tick writes the line of the new, already raised cycle to LY |
| Timing.TickMode | py/src/gpu.py:95-117 | A tick's mode is the table's mode at the new position where it names one and the previous mode elsewhere |
| Timing.TickInterrupts | py/src/gpu.py:71-117 | The interrupt requests of a tick, in order and each under its exact condition. A stopped or dark tick raises none, and VBlank is raised exactly once at dot 0 of line 144 |
| Schedule.DrawPhase | py/src/gpu.py:84-108 | Dot 20 of line 0 is exactly cycle 20 of every 17556-cycle frame |
| Schedule.VBlankPhase | py/src/gpu.py:84-117 | Dot 0 of line 144 is exactly cycle 16416 of every 17556-cycle frame |
| Schedule.ExpectedModeSteps | py/src/gpu.py:95-117 | Between the table's switch points the expected mode (VBlank from line 144 on, else OAM, DRAWING or HBLANK by dot) does not change, and at each switch point it is the mode switched to |
| Schedule.TickKeepsSync | py/src/gpu.py:83-117 | An active tick that starts with the mode matching the counter leaves LY, the mode and the LYC-equal flag matching the new counter |
| Schedule.TickPhases | py/src/gpu.py:103-117 | A tick draws exactly when active at frame phase 20, and raises VBlank exactly when active at phase 16416 |
| Schedule.TickStep | py/src/gpu.py:68-119 | One tick as a run sees it: its contribution to the frame and VBlank counts, the bytes it writes, and that it keeps the registers in step with the counter |
| Schedule.RunTicks | py/src/gpu.py:68-119 | Over n ticks with no other writer, only LY and STAT are written. While active, a frame is drawn on exactly the phase-20 cycles and VBlank is raised on exactly the phase-16416 cycles, so every full frame of cycles gives one of each, and once the mode matches the counter LY, mode and LYC-equal stay in step. While inactive, nothing is drawn or raised, and LY is cleared unless the CPU is stopped |

## Left out

- The pygame presentation is not modelled. This covers display initialisation, the window, scaling, `display.update`, the headless flag and the framebuffer surface (py/src/gpu.py:48-54, 267-274). The frame is the fill shade plus the blit list, and rasterising the blits into a clipped pixel grid is not modelled.
- The red scroll-border rectangle of the debug view (py/src/gpu.py:258-260) is a library drawing primitive with no effect on tiles.
- The sprite size from OBJ_SIZE and the sprite flags byte (py/src/gpu.py:220-223, 228-240) are read but never affect output, so the model carries neither.
- OBP0 and OBP1 are resolved on every pass but never used for drawing. The source draws sprites with the BGP-baked cache, and the model does the same.
- The window title built from the cartridge name (py/src/gpu.py:41) is user-interface text.
- The `table` variable of the bank choice (py/src/gpu.py:164, 167) is assigned but never read, so only the offset is modelled.
- The CPU is not part of this model. Its stop flag is a parameter of the tick, and `cpu.interrupt` becomes the list of requests the tick returns. Setting the IF register is not modelled.
- The RAM object (`cpu.ram`, `cpu.ram.data`) is modelled as one flat byte array. Cartridge banking and other memory-mapped behaviour are not part of this model.
- py/clock.py (wall-clock frame pacing) and go/src/apu.go (audio initialisation) are timing and I/O outside the PPU.
- Schedule.RunTicks: between ticks the CPU could write STAT, LY or LCY, or change LCDC or the stop flag. A run assumes no such writes and a fixed stop flag, so its counts describe the PPU alone.
- Schedule.TickKeepsSync: the mode matches the cycle counter only once it did before the tick. Power-on with an arbitrary STAT is not shown to fall into step.

