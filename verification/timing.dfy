/**
 * The PPU timing state machine: one call of `Tick` per machine cycle.
 * A frame is 154 lines of 114 dot groups; the line and dot are derived
 * from the cycle counter, which is raised before it is used and never
 * reset.
 */
module Timing {
  import opened Memory
  import opened Consts
  import opened LcdBits
  import opened Palette
  import TileCache
  import opened Compositor

  const DOTS_PER_LINE: nat := 114
  const LINES_PER_FRAME: nat := 154
  const VISIBLE_LINES: nat := 144
  const CYCLES_PER_FRAME: nat := DOTS_PER_LINE * LINES_PER_FRAME

  /** Absent or present value. */
  datatype Option<+T> = None | Some(value: T)

  /** The PPU's own state; `debug` is fixed when the unit is created. */
  datatype Ppu = Ppu(debug: bool, cycle: nat, cache: TileCache.Cache, palettes: Palettes)

  /** The state at power-on: cycle 0, an empty cache, every palette the colour table. */
  function PowerOn(debug: bool): (p: Ppu)
    ensures Valid(p) && p.cycle == 0 && p.cache.tiles == []
  {
    Ppu(debug, 0, TileCache.EMPTY, Palettes(COLORS, COLORS, COLORS))
  }

  predicate Valid(p: Ppu) {
    TileCache.Valid(p.cache)
  }

  /** The dot group of cycle `c` within its line. */
  function Dot(c: nat): nat {
    c % DOTS_PER_LINE
  }

  /** The line of cycle `c` within its frame. */
  function Line(c: nat): (l: nat)
    ensures l < LINES_PER_FRAME
  {
    (c / DOTS_PER_LINE) % LINES_PER_FRAME
  }

  /**
   * The byte holding `n`, counted up from zero. LY's value is built this
   * way rather than with `n as Byte` because an int-to-bitvector cast in
   * the tick's contracts makes every proof about the tick far more
   * expensive for the solver; `ByteOfValue` shows the two agree.
   */
  function ByteOf(n: nat): Byte
    requires n < 0x100
  {
    if n == 0 then 0 else ByteOf(n - 1) + 1
  }

  /** `ByteOf` is the identity on the values a byte can hold. */
  lemma {:induction false} ByteOfValue(n: nat)
    requires n < 0x100
    ensures ByteOf(n) as int == n
  {
    if n > 0 {
      ByteOfValue(n - 1);
    }
  }

  /** The value LY takes at cycle `c`. */
  function LineByte(c: nat): Byte {
    ByteOf(Line(c))
  }

  /** LY holds the line number itself. */
  lemma LineByteValue(c: nat)
    ensures LineByte(c) as int == Line(c)
  {
    ByteOfValue(Line(c));
  }

  /** What one tick leaves behind: the new state and RAM, the interrupts raised in order, the frame drawn if any, and whether to continue. */
  datatype TickResult = TickResult(ppu: Ppu, ram: Ram, interrupts: seq<Interrupt>, frame: Option<Frame>, ok: bool)

  /** The tick does more than count: the CPU runs and the display is on or the debug view is shown. */
  predicate Active(p: Ppu, ram: Ram, stopped: bool) {
    !stopped && (Has(ram[LCDC], ENABLED) || p.debug)
  }

  /** `after` differs from `before` at most in LY and STAT. */
  predicate OnlyLyAndStat(before: Ram, after: Ram) {
    after == before[LY := after[LY]][STAT := after[STAT]]
  }

  /** A STAT interrupt request when `cond` holds, else nothing. */
  function StatIf(cond: bool): (s: seq<Interrupt>)
    ensures multiset(s)[StatRequest] == if cond then 1 else 0
    ensures multiset(s)[VBlankRequest] == 0
    ensures forall i :: 0 <= i < |s| ==> s[i] == StatRequest
  {
    if cond then [StatRequest] else []
  }

  /** RAM after a step of the tick, and the interrupts that step raised. */
  datatype Step = Step(ram: Ram, interrupts: seq<Interrupt>)

  /**
   * Writes `line` to LY and compares it with LCY: the LYC-equal flag
   * ends up set exactly when they are equal, and a STAT interrupt is
   * raised then if STAT enables it. Only LY and the flag change.
   */
  function CompareLine(ram: Ram, line: Byte): (s: Step)
    ensures s.ram[LY] == line
    ensures Has(s.ram[STAT], LCY_EQUAL) <==> s.ram[LY] == s.ram[LCY]
    ensures s.ram[STAT] & !LCY_EQUAL == ram[STAT] & !LCY_EQUAL
    ensures ModeOf(s.ram[STAT]) == ModeOf(ram[STAT])
    ensures OnlyLyAndStat(ram, s.ram)
    ensures s.interrupts == StatIf(line == ram[LCY] && Has(ram[STAT], LYC_INTERRUPT))
  {
    var ram1 := ram[LY := line];
    var equal := ram1[LY] == ram1[LCY];
    var lycIrq := StatIf(equal && Has(ram1[STAT], LYC_INTERRUPT));
    Step(ram1[STAT := WithLycEqual(ram1[STAT], equal)], lycIrq)
  }

  /** Reference table: the STAT mode entered at dot `lx` of line `ly`, if any. */
  function ModeEntered(lx: nat, ly: nat): Option<Byte> {
    if ly < VISIBLE_LINES && lx == 0 then Some(OAM)
    else if ly < VISIBLE_LINES && lx == 20 then Some(DRAWING)
    else if ly < VISIBLE_LINES && lx == 63 then Some(HBLANK)
    else if ly == VISIBLE_LINES && lx == 0 then Some(VBLANK)
    else None
  }

  /** Reference table: the STAT enable bit that lets entering that mode raise a STAT interrupt. */
  function ModeInterruptEnable(lx: nat, ly: nat): (e: Option<Byte>)
    ensures e.Some? ==> e.value & !LCY_EQUAL == e.value && e.value & MODE == 0
  {
    if ly < VISIBLE_LINES && lx == 0 then Some(OAM_INTERRUPT)
    else if ly < VISIBLE_LINES && lx == 63 then Some(HBLANK_INTERRUPT)
    else if ly == VISIBLE_LINES && lx == 0 then Some(VBLANK_INTERRUPT)
    else None
  }

  /** RAM with STAT's mode bits set to `mode`; every other bit and byte is kept. */
  function WriteMode(ram: Ram, mode: Byte): (r: Ram)
    requires mode <= DRAWING
    ensures ModeOf(r[STAT]) == mode
    ensures r[STAT] & !MODE == ram[STAT] & !MODE
    ensures r == ram[STAT := r[STAT]]
  {
    ram[STAT := WithMode(ram[STAT], mode)]
  }

  /**
   * Enters `mode`: the mode bits become `mode`, every other STAT bit is
   * kept, and a STAT interrupt is raised if STAT has the bit `enable` set.
   * Only STAT changes.
   */
  function EnterMode(ram: Ram, mode: Byte, enable: Byte): (s: Step)
    requires mode <= DRAWING && enable & MODE == 0
    ensures ModeOf(s.ram[STAT]) == mode
    ensures s.ram[STAT] & !MODE == ram[STAT] & !MODE
    ensures s.ram == ram[STAT := s.ram[STAT]]
    ensures s.interrupts == StatIf(Has(ram[STAT], enable))
  {
    var ram3 := WriteMode(ram, mode);
    HasAgrees(ram3[STAT], ram[STAT], !MODE, enable);
    Step(ram3, StatIf(Has(ram3[STAT], enable)))
  }

  /**
   * The mode switch of dot `lx` on line `ly`: the mode bits follow the
   * reference table and every other STAT bit is kept; a STAT interrupt is
   * raised when the table's enable bit is set in STAT, and the VBlank
   * interrupt exactly at the start of line 144. Only STAT changes.
   */
  function SwitchMode(ram: Ram, lx: nat, ly: nat): (s: Step)
    ensures ModeEntered(lx, ly).Some? ==> ModeOf(s.ram[STAT]) == ModeEntered(lx, ly).value
    ensures ModeEntered(lx, ly).None? ==> s.ram[STAT] == ram[STAT]
    ensures s.ram[STAT] & !MODE == ram[STAT] & !MODE
    ensures s.ram == ram[STAT := s.ram[STAT]]
    ensures s.interrupts
         == StatIf(ModeInterruptEnable(lx, ly).Some? && Has(ram[STAT], ModeInterruptEnable(lx, ly).value))
          + (if lx == 0 && ly == VISIBLE_LINES then [VBlankRequest] else [])
  {
    if lx == 0 && ly < VISIBLE_LINES then
      assert ModeInterruptEnable(lx, ly) == Some(OAM_INTERRUPT);
      EnterMode(ram, OAM, OAM_INTERRUPT)
    else if lx == 20 && ly < VISIBLE_LINES then
      assert ModeInterruptEnable(lx, ly) == None;
      Step(WriteMode(ram, DRAWING), [])
    else if lx == 63 && ly < VISIBLE_LINES then
      assert ModeInterruptEnable(lx, ly) == Some(HBLANK_INTERRUPT);
      EnterMode(ram, HBLANK, HBLANK_INTERRUPT)
    else if lx == 0 && ly == VISIBLE_LINES then
      assert ModeInterruptEnable(lx, ly) == Some(VBLANK_INTERRUPT);
      var entered := EnterMode(ram, VBLANK, VBLANK_INTERRUPT);
      Step(entered.ram, entered.interrupts + [VBlankRequest])
    else
      assert ModeEntered(lx, ly) == None && ModeInterruptEnable(lx, ly) == None;
      Step(ram, [])
  }

  /**
   * The register updates of an active tick at `cycle`: LY takes the
   * line, the LYC-equal flag follows LY == LCY, the mode follows the
   * reference table, and only LY and STAT change.
   */
  function UpdateRegisters(ram: Ram, cycle: nat): (s: Step)
    ensures s.ram[LY] == LineByte(cycle)
    ensures Has(s.ram[STAT], LCY_EQUAL) <==> s.ram[LY] == s.ram[LCY]
    ensures OnlyLyAndStat(ram, s.ram)
    ensures VBlankRequest in s.interrupts <==> Dot(cycle) == 0 && Line(cycle) == VISIBLE_LINES
  {
    var lx := cycle % DOTS_PER_LINE;
    var ly := (cycle / DOTS_PER_LINE) % LINES_PER_FRAME;
    var compared := CompareLine(ram, LineByte(cycle));
    var switched := SwitchMode(compared.ram, lx, ly);
    HasAgrees(switched.ram[STAT], compared.ram[STAT], !MODE, LCY_EQUAL);
    assert VBlankRequest !in compared.interrupts;
    Step(switched.ram, compared.interrupts + switched.interrupts)
  }

  /**
   * The mode an active tick leaves in STAT: the reference table's mode
   * where it names one, the previous mode elsewhere.
   */
  lemma RegistersMode(ram: Ram, cycle: nat)
    ensures ModeEntered(Dot(cycle), Line(cycle)).Some? ==>
      ModeOf(UpdateRegisters(ram, cycle).ram[STAT]) == ModeEntered(Dot(cycle), Line(cycle)).value
    ensures ModeEntered(Dot(cycle), Line(cycle)).None? ==>
      ModeOf(UpdateRegisters(ram, cycle).ram[STAT]) == ModeOf(ram[STAT])
  {
  }

  /** An active tick never touches STAT's enable bits. */
  lemma RegistersKeepEnables(ram: Ram, cycle: nat)
    ensures UpdateRegisters(ram, cycle).ram[STAT] & !(MODE | LCY_EQUAL) == ram[STAT] & !(MODE | LCY_EQUAL)
  {
    var lx := cycle % DOTS_PER_LINE;
    var ly := (cycle / DOTS_PER_LINE) % LINES_PER_FRAME;
    var compared := CompareLine(ram, LineByte(cycle));
    var switched := SwitchMode(compared.ram, lx, ly);
    BitsOutside(switched.ram[STAT], compared.ram[STAT], ram[STAT]);
  }

  /** Keeping the bits outside MODE, then those outside LCY_EQUAL, keeps those outside both. */
  lemma BitsOutside(a: Byte, b: Byte, c: Byte)
    requires a & !MODE == b & !MODE
    requires b & !LCY_EQUAL == c & !LCY_EQUAL
    ensures a & !(MODE | LCY_EQUAL) == c & !(MODE | LCY_EQUAL)
  {
    assert a & !(MODE | LCY_EQUAL) == (a & !MODE) & !LCY_EQUAL;
    assert b & !(MODE | LCY_EQUAL) == (b & !LCY_EQUAL) & !MODE;
    assert c & !(MODE | LCY_EQUAL) == (c & !LCY_EQUAL) & !MODE;
  }

  /** The interrupts of an active tick are those of its LYC check followed by those of its mode switch. */
  lemma RegistersSteps(ram: Ram, cycle: nat)
    ensures UpdateRegisters(ram, cycle).interrupts
         == CompareLine(ram, LineByte(cycle)).interrupts
          + SwitchMode(CompareLine(ram, LineByte(cycle)).ram, Dot(cycle), Line(cycle)).interrupts
  {
  }

  /** The LYC check leaves the mode-switch enables as they were. */
  lemma CompareKeepsEnable(ram: Ram, line: Byte, lx: nat, ly: nat)
    ensures ModeInterruptEnable(lx, ly).Some? ==>
      (Has(CompareLine(ram, line).ram[STAT], ModeInterruptEnable(lx, ly).value)
       <==> Has(ram[STAT], ModeInterruptEnable(lx, ly).value))
  {
    var enable := ModeInterruptEnable(lx, ly);
    if enable.Some? {
      HasAgrees(CompareLine(ram, line).ram[STAT], ram[STAT], !LCY_EQUAL, enable.value);
    }
  }

  /**
   * The interrupts an active tick raises, in order: STAT if LY == LCY and
   * the LYC enable is set, then STAT if the mode entered has its enable
   * set, then VBlank at the start of line 144.
   */
  lemma RegistersInterrupts(ram: Ram, cycle: nat)
    ensures UpdateRegisters(ram, cycle).interrupts
         == StatIf(LineByte(cycle) == ram[LCY] && Has(ram[STAT], LYC_INTERRUPT))
          + StatIf(ModeInterruptEnable(Dot(cycle), Line(cycle)).Some?
                   && Has(ram[STAT], ModeInterruptEnable(Dot(cycle), Line(cycle)).value))
          + (if Dot(cycle) == 0 && Line(cycle) == VISIBLE_LINES then [VBlankRequest] else [])
  {
    RegistersSteps(ram, cycle);
    var lx, ly := Dot(cycle), Line(cycle);
    var compared := CompareLine(ram, LineByte(cycle));
    var enable := ModeInterruptEnable(lx, ly);
    CompareKeepsEnable(ram, LineByte(cycle), lx, ly);
    var lyc := StatIf(LineByte(cycle) == ram[LCY] && Has(ram[STAT], LYC_INTERRUPT));
    var mode := StatIf(enable.Some? && Has(ram[STAT], enable.value));
    var vblank: seq<Interrupt> := if lx == 0 && ly == VISIBLE_LINES then [VBlankRequest] else [];
    assert compared.interrupts == lyc;
    assert SwitchMode(compared.ram, lx, ly).interrupts == mode + vblank;
    ConcatAssociates(lyc, mode, vblank);
  }

  lemma ConcatAssociates<T>(a: seq<T>, b: seq<T>, c: seq<T>)
    ensures a + (b + c) == a + b + c
  {
  }

  /**
   * The work of an active tick at `cycle`: the register updates, and the
   * frame drawn from the updated RAM at dot 20 of line 0 only.
   */
  function Scan(p: Ppu, ram: Ram, cycle: nat): (r: TickResult)
    requires Valid(p)
    ensures Valid(r.ppu) && r.ppu.cycle == p.cycle && r.ppu.debug == p.debug && r.ok
    ensures r.ram == UpdateRegisters(ram, cycle).ram
    ensures r.interrupts == UpdateRegisters(ram, cycle).interrupts
    ensures r.frame.Some? <==> Dot(cycle) == 20 && Line(cycle) == 0
    ensures r.frame.Some? ==>
      var d := Draw(p.cache, r.ram, p.debug);
      r.frame.value == d.frame && r.ppu.cache == d.cache && r.ppu.palettes == d.palettes
    ensures r.frame.None? ==> r.ppu == p
  {
    var updated := UpdateRegisters(ram, cycle);
    if cycle % DOTS_PER_LINE == 20 && (cycle / DOTS_PER_LINE) % LINES_PER_FRAME == 0 then
      var d := Draw(p.cache, updated.ram, p.debug);
      TickResult(p.(cache := d.cache, palettes := d.palettes), updated.ram, updated.interrupts, Some(d.frame), d.ok)
    else
      TickResult(p, updated.ram, updated.interrupts, None, true)
  }

  /** RAM as an active tick sees it: LY cleared first when the display is off. */
  function Blanked(ram: Ram): (r: Ram)
    ensures r == ram[LY := r[LY]]
    ensures !Has(ram[LCDC], ENABLED) ==> r[LY] == 0
  {
    if !Has(ram[LCDC], ENABLED) then ram[LY := 0] else ram
  }

  /**
   * One machine cycle. The counter always moves on by one. A stopped CPU
   * changes nothing else; a disabled display outside the debug view only
   * clears LY. Otherwise LY takes the current line, STAT's LYC-equal flag
   * follows LY == LCY, STAT's mode and the interrupts follow the dot/line
   * position, and the frame is drawn once, at dot 20 of line 0. LY and
   * STAT are the only bytes written, and the host is never told to halt.
   */
  function Tick(p: Ppu, ram: Ram, stopped: bool): (r: TickResult)
    requires Valid(p)
    ensures Valid(r.ppu)
    ensures r.ppu.cycle == p.cycle + 1 && r.ppu.debug == p.debug
    ensures r.ok
    ensures stopped ==>
      r.ram == ram && r.interrupts == [] && r.frame == None && r.ppu == p.(cycle := p.cycle + 1)
    ensures !stopped && !Has(ram[LCDC], ENABLED) && !p.debug ==>
      r.ram == ram[LY := 0] && r.interrupts == [] && r.frame == None && r.ppu == p.(cycle := p.cycle + 1)
    ensures Active(p, ram, stopped) ==>
      (Has(r.ram[STAT], LCY_EQUAL) <==> r.ram[LY] == r.ram[LCY])
    ensures OnlyLyAndStat(ram, r.ram)
    ensures r.frame.Some? <==>
      Active(p, ram, stopped) && Dot(p.cycle + 1) == 20 && Line(p.cycle + 1) == 0
    ensures VBlankRequest in r.interrupts <==>
      Active(p, ram, stopped) && Dot(p.cycle + 1) == 0 && Line(p.cycle + 1) == VISIBLE_LINES
    ensures r.frame.Some? ==>
      var d := Draw(p.cache, r.ram, p.debug);
      r.frame.value == d.frame && r.ppu == p.(cycle := p.cycle + 1, cache := d.cache, palettes := d.palettes)
    ensures r.frame.None? ==> r.ppu == p.(cycle := p.cycle + 1)
  {
    var cycle := p.cycle + 1;
    var counted := p.(cycle := cycle);
    if stopped then
      TickResult(counted, ram, [], None, true)
    else if !Has(ram[LCDC], ENABLED) && !p.debug then
      TickResult(counted, ram[LY := 0], [], None, true)
    else
      Scan(counted, Blanked(ram), cycle)
  }

  lemma TickIsScan(p: Ppu, ram: Ram, stopped: bool)
    requires Valid(p) && Active(p, ram, stopped)
    ensures Tick(p, ram, stopped) == Scan(p.(cycle := p.cycle + 1), Blanked(ram), p.cycle + 1)
  {
  }

  /** An active tick writes the line number of the new cycle to LY. */
  lemma TickLine(p: Ppu, ram: Ram, stopped: bool)
    requires Valid(p) && Active(p, ram, stopped)
    ensures Tick(p, ram, stopped).ram[LY] == LineByte(p.cycle + 1)
  {
    TickIsScan(p, ram, stopped);
  }

  /**
   * An active tick's STAT mode: the reference table's mode where it names
   * one, the previous mode elsewhere.
   */
  lemma TickMode(p: Ppu, ram: Ram)
    requires Valid(p) && Active(p, ram, false)
    ensures ModeEntered(Dot(p.cycle + 1), Line(p.cycle + 1)).Some? ==>
      ModeOf(Tick(p, ram, false).ram[STAT]) == ModeEntered(Dot(p.cycle + 1), Line(p.cycle + 1)).value
    ensures ModeEntered(Dot(p.cycle + 1), Line(p.cycle + 1)).None? ==>
      ModeOf(Tick(p, ram, false).ram[STAT]) == ModeOf(ram[STAT])
  {
    TickIsScan(p, ram, false);
    RegistersMode(Blanked(ram), p.cycle + 1);
  }

  /**
   * The interrupts of a tick, in order: while active, a STAT request if
   * LY == LCY with the LYC enable set, a STAT request if the mode entered
   * has its enable set, and VBlank at dot 0 of line 144, so VBlank is
   * raised exactly once there and never elsewhere; while inactive, none.
   */
  lemma TickInterrupts(p: Ppu, ram: Ram, stopped: bool)
    requires Valid(p)
    ensures !Active(p, ram, stopped) ==> Tick(p, ram, stopped).interrupts == []
    ensures Active(p, ram, stopped) ==>
      var c := p.cycle + 1;
      var enable := ModeInterruptEnable(Dot(c), Line(c));
      Tick(p, ram, stopped).interrupts
        == StatIf(LineByte(c) == ram[LCY] && Has(ram[STAT], LYC_INTERRUPT))
         + StatIf(enable.Some? && Has(ram[STAT], enable.value))
         + (if Dot(c) == 0 && Line(c) == VISIBLE_LINES then [VBlankRequest] else [])
    ensures multiset(Tick(p, ram, stopped).interrupts)[VBlankRequest]
         == if Active(p, ram, stopped) && Dot(p.cycle + 1) == 0 && Line(p.cycle + 1) == VISIBLE_LINES then 1 else 0
  {
    if Active(p, ram, stopped) {
      TickIsScan(p, ram, stopped);
      RegistersInterrupts(Blanked(ram), p.cycle + 1);
    }
  }
}
