/**
 * Many ticks in a row, with nothing else writing to RAM in between: where
 * the dot/line position puts the STAT mode, and how many frames and
 * VBlank interrupts a run of cycles produces.
 */
module Schedule {
  import opened Memory
  import opened Consts
  import opened LcdBits
  import opened Compositor
  import opened Timing

  /** Reference definition of the mode for a position: VBlank below the screen, else OAM search, drawing, HBlank. */
  function ExpectedMode(c: nat): Byte {
    if Line(c) >= VISIBLE_LINES then VBLANK
    else if Dot(c) < 20 then OAM
    else if Dot(c) < 63 then DRAWING
    else HBLANK
  }

  /** LY, the mode bits and the LYC-equal flag all agree with the cycle counter. */
  predicate InSync(p: Ppu, ram: Ram) {
    && ram[LY] == LineByte(p.cycle)
    && ModeOf(ram[STAT]) == ExpectedMode(p.cycle)
    && (Has(ram[STAT], LCY_EQUAL) <==> ram[LY] == ram[LCY])
  }

  /** `c == a * 114 + b` with `b < 114` pins down the line count and dot. */
  lemma SplitDots(c: nat, a: nat, b: nat)
    requires b < DOTS_PER_LINE && c == a * DOTS_PER_LINE + b
    ensures c / DOTS_PER_LINE == a && c % DOTS_PER_LINE == b
  {
  }

  /** `c == a * 154 + b` with `b < 154` pins down the frame count and line. */
  lemma SplitLines(c: nat, a: nat, b: nat)
    requires b < LINES_PER_FRAME && c == a * LINES_PER_FRAME + b
    ensures c / LINES_PER_FRAME == a && c % LINES_PER_FRAME == b
  {
  }

  /** The position of a cycle depends only on its offset within its frame. */
  lemma {:induction false} Phase(c: nat)
    ensures Dot(c) == (c % CYCLES_PER_FRAME) % DOTS_PER_LINE
    ensures Line(c) == (c % CYCLES_PER_FRAME) / DOTS_PER_LINE
  {
    var q, s := c / CYCLES_PER_FRAME, c % CYCLES_PER_FRAME;
    var l, d := s / DOTS_PER_LINE, s % DOTS_PER_LINE;
    assert s == l * DOTS_PER_LINE + d;
    assert l < LINES_PER_FRAME;
    assert c == (q * LINES_PER_FRAME + l) * DOTS_PER_LINE + d;
    SplitDots(c, q * LINES_PER_FRAME + l, d);
    SplitLines(c / DOTS_PER_LINE, q, l);
  }

  /** The frame is drawn at dot 20 of line 0: cycle 20 of every frame. */
  lemma DrawPhase(c: nat)
    ensures Dot(c) == 20 && Line(c) == 0 <==> c % CYCLES_PER_FRAME == 20
  {
    Phase(c);
    var s := c % CYCLES_PER_FRAME;
    assert s == (s / DOTS_PER_LINE) * DOTS_PER_LINE + s % DOTS_PER_LINE;
  }

  /** VBlank starts at dot 0 of line 144: cycle 16416 of every frame. */
  lemma VBlankPhase(c: nat)
    ensures Dot(c) == 0 && Line(c) == VISIBLE_LINES <==> c % CYCLES_PER_FRAME == VISIBLE_LINES * DOTS_PER_LINE
  {
    Phase(c);
    var s := c % CYCLES_PER_FRAME;
    assert s == (s / DOTS_PER_LINE) * DOTS_PER_LINE + s % DOTS_PER_LINE;
    if s == VISIBLE_LINES * DOTS_PER_LINE {
      SplitDots(s, VISIBLE_LINES, 0);
    }
  }

  /** Inside a line the dot counts up by one and the line stays. */
  lemma {:induction false} NextDot(c: nat)
    requires Dot(c + 1) != 0
    ensures Dot(c + 1) == Dot(c) + 1 && Line(c + 1) == Line(c)
  {
    var q, d := c / DOTS_PER_LINE, c % DOTS_PER_LINE;
    assert c == q * DOTS_PER_LINE + d;
    if d + 1 == DOTS_PER_LINE {
      SplitDots(c + 1, q + 1, 0);
    } else {
      SplitDots(c + 1, q, d + 1);
    }
  }

  /** At a line start the previous cycle was the last dot of the previous line, modulo 154. */
  lemma {:induction false} NextLine(c: nat)
    requires Dot(c + 1) == 0
    ensures Dot(c) == DOTS_PER_LINE - 1
    ensures Line(c + 1) == (Line(c) + 1) % LINES_PER_FRAME
  {
    var q, d := c / DOTS_PER_LINE, c % DOTS_PER_LINE;
    assert c == q * DOTS_PER_LINE + d;
    var next := (c + 1) / DOTS_PER_LINE;
    assert c + 1 == next * DOTS_PER_LINE;
    assert (next - q) * DOTS_PER_LINE == d + 1;
    SplitDots(c + 1, q + 1, 0);
    var a, l := q / LINES_PER_FRAME, q % LINES_PER_FRAME;
    assert q == a * LINES_PER_FRAME + l;
    if l + 1 < LINES_PER_FRAME {
      SplitLines(q + 1, a, l + 1);
      SplitLines(l + 1, 0, l + 1);
    } else {
      SplitLines(q + 1, a + 1, 0);
      SplitLines(l + 1, 1, 0);
    }
  }

  /** Between the table's mode switches the expected mode does not change. */
  lemma ExpectedModeSteps(c: nat)
    ensures ModeEntered(Dot(c + 1), Line(c + 1)).Some? ==>
      ExpectedMode(c + 1) == ModeEntered(Dot(c + 1), Line(c + 1)).value
    ensures ModeEntered(Dot(c + 1), Line(c + 1)).None? ==> ExpectedMode(c + 1) == ExpectedMode(c)
  {
    if Dot(c + 1) != 0 {
      NextDot(c);
    } else {
      NextLine(c);
    }
  }

  /**
   * An active tick keeps LY, the STAT mode and the LYC-equal flag in step
   * with the cycle counter: the mode it leaves is the expected mode of the
   * new cycle whenever the mode before it was that of the old one.
   */
  lemma TickKeepsSync(p: Ppu, ram: Ram)
    requires Valid(p) && Active(p, ram, false)
    requires ModeOf(ram[STAT]) == ExpectedMode(p.cycle)
    ensures InSync(Tick(p, ram, false).ppu, Tick(p, ram, false).ram)
  {
    TickMode(p, ram);
    TickLine(p, ram, false);
    ExpectedModeSteps(p.cycle);
  }

  /** The number of cycles `k` with `c < k <= c + n` and `k % CYCLES_PER_FRAME == r`. */
  function Hits(c: nat, n: nat, r: nat): nat
    decreases n
  {
    if n == 0 then 0
    else Hits(c, n - 1, r) + if (c + n) % CYCLES_PER_FRAME == r then 1 else 0
  }

  /** Counting over two consecutive stretches adds up. */
  lemma {:induction false} HitsSplit(c: nat, m: nat, n: nat, r: nat)
    ensures Hits(c, m + n, r) == Hits(c, m, r) + Hits(c + m, n, r)
    decreases n
  {
    if n > 0 {
      HitsSplit(c, m, n - 1, r);
    }
  }

  /** From cycle 0 the first `n <= CYCLES_PER_FRAME` cycles hit each phase in `1..n` once and phase 0 only at the end. */
  lemma {:induction false} HitsFromZero(n: nat, r: nat)
    requires n <= CYCLES_PER_FRAME && r < CYCLES_PER_FRAME
    ensures Hits(0, n, r) == if (0 < r <= n) || (r == 0 && n == CYCLES_PER_FRAME) then 1 else 0
    decreases n
  {
    if n > 0 {
      HitsFromZero(n - 1, r);
    }
  }

  /** Moving a full frame's window by one cycle drops one cycle and adds one of the same phase. */
  lemma {:induction false} HitsSlide(c: nat, r: nat)
    ensures Hits(c + 1, CYCLES_PER_FRAME, r) == Hits(c, CYCLES_PER_FRAME, r)
  {
    HitsSplit(c, 1, CYCLES_PER_FRAME, r);
    HitsSplit(c, CYCLES_PER_FRAME, 1, r);
    assert (c + 1 + CYCLES_PER_FRAME) % CYCLES_PER_FRAME == (c + 1) % CYCLES_PER_FRAME;
  }

  /** Any `CYCLES_PER_FRAME` consecutive cycles contain each phase exactly once. */
  lemma {:induction false} HitsFullPeriod(c: nat, r: nat)
    requires r < CYCLES_PER_FRAME
    ensures Hits(c, CYCLES_PER_FRAME, r) == 1
    decreases c
  {
    if c == 0 {
      HitsFromZero(CYCLES_PER_FRAME, r);
    } else {
      HitsFullPeriod(c - 1, r);
      HitsSlide(c - 1, r);
    }
  }

  /** `k` whole frames' worth of cycles contain each phase exactly `k` times. */
  lemma {:induction false} HitsPeriods(c: nat, k: nat, r: nat)
    requires r < CYCLES_PER_FRAME
    ensures Hits(c, k * CYCLES_PER_FRAME, r) == k
    decreases k
  {
    if k > 0 {
      HitsSplit(c, (k - 1) * CYCLES_PER_FRAME, CYCLES_PER_FRAME, r);
      HitsPeriods(c, k - 1, r);
      HitsFullPeriod(c + (k - 1) * CYCLES_PER_FRAME, r);
    }
  }

  /** Any stretch of at most `CYCLES_PER_FRAME` cycles contains each phase at most once. */
  lemma HitsShort(c: nat, n: nat, r: nat)
    requires n <= CYCLES_PER_FRAME && r < CYCLES_PER_FRAME
    ensures Hits(c, n, r) <= 1
  {
    HitsSplit(c, n, CYCLES_PER_FRAME - n, r);
    HitsFullPeriod(c, r);
  }

  /** `n` cycles contain each phase `n / CYCLES_PER_FRAME` times, or once more. */
  lemma HitsBounds(c: nat, n: nat, r: nat)
    requires r < CYCLES_PER_FRAME
    ensures n / CYCLES_PER_FRAME <= Hits(c, n, r) <= n / CYCLES_PER_FRAME + 1
    ensures n % CYCLES_PER_FRAME == 0 ==> Hits(c, n, r) == n / CYCLES_PER_FRAME
  {
    var k := n / CYCLES_PER_FRAME;
    var m := n % CYCLES_PER_FRAME;
    assert n == k * CYCLES_PER_FRAME + m;
    HitsSplit(c, k * CYCLES_PER_FRAME, m, r);
    HitsPeriods(c, k, r);
    HitsShort(c + k * CYCLES_PER_FRAME, m, r);
  }

  const DRAW_PHASE: nat := 20
  const VBLANK_PHASE: nat := VISIBLE_LINES * DOTS_PER_LINE

  /** A single tick draws at phase 20 and raises VBlank at phase 16416, and only while active. */
  lemma TickPhases(p: Ppu, ram: Ram, stopped: bool)
    requires Valid(p)
    ensures Tick(p, ram, stopped).frame.Some?
        <==> Active(p, ram, stopped) && (p.cycle + 1) % CYCLES_PER_FRAME == DRAW_PHASE
    ensures multiset(Tick(p, ram, stopped).interrupts)[VBlankRequest]
         == if Active(p, ram, stopped) && (p.cycle + 1) % CYCLES_PER_FRAME == VBLANK_PHASE then 1 else 0
  {
    TickInterrupts(p, ram, stopped);
    DrawPhase(p.cycle + 1);
    VBlankPhase(p.cycle + 1);
  }

  /**
   * The host's call of the tick, as seen from a run: what one cycle
   * contributes to the frame and interrupt counts, what it writes, and
   * that it keeps the registers in step with the counter.
   */
  method TickStep(p: Ppu, ram: Ram, stopped: bool) returns (r: TickResult)
    requires Valid(p)
    ensures Valid(r.ppu) && r.ppu.cycle == p.cycle + 1 && r.ppu.debug == p.debug && r.ok
    ensures OnlyLyAndStat(ram, r.ram)
    ensures r.frame.Some? <==> Active(p, ram, stopped) && (p.cycle + 1) % CYCLES_PER_FRAME == DRAW_PHASE
    ensures multiset(r.interrupts)[VBlankRequest]
         == if Active(p, ram, stopped) && (p.cycle + 1) % CYCLES_PER_FRAME == VBLANK_PHASE then 1 else 0
    ensures !Active(p, ram, stopped) ==> r.interrupts == []
    ensures stopped ==> r.ram == ram
    ensures !stopped && !Active(p, ram, stopped) ==> r.ram == ram[LY := 0]
    ensures Active(p, ram, stopped) && ModeOf(ram[STAT]) == ExpectedMode(p.cycle) ==> InSync(r.ppu, r.ram)
  {
    r := Tick(p, ram, stopped);
    TickPhases(p, ram, stopped);
    TickInterrupts(p, ram, stopped);
    if Active(p, ram, stopped) && ModeOf(ram[STAT]) == ExpectedMode(p.cycle) {
      TickKeepsSync(p, ram);
    }
  }

  /** The outcome of a run of ticks: final state and RAM, every interrupt raised in order, every frame drawn. */
  datatype Trace = Trace(ppu: Ppu, ram: Ram, interrupts: seq<Interrupt>, frames: seq<Frame>)

  /**
   * The host loop: `n` ticks from `p` and `ram`, the CPU's stop flag fixed
   * to `stopped` and no other writer in between. The tick never asks to
   * halt, so the run always completes. Only LY and STAT are written.
   * While active, frames are drawn on the cycles of phase 20 and VBlank is
   * raised on those of phase 16416, so every `CYCLES_PER_FRAME` cycles
   * give one frame and one VBlank; once the mode agrees with the counter,
   * LY, the mode and the LYC-equal flag stay in step with it. While
   * inactive nothing is drawn or raised, and LY is cleared unless the CPU
   * is stopped.
   */
  method RunTicks(p: Ppu, ram: Ram, stopped: bool, n: nat) returns (t: Trace)
    requires Valid(p)
    ensures Valid(t.ppu) && t.ppu.cycle == p.cycle + n && t.ppu.debug == p.debug
    ensures forall a :: 0 <= a < ADDRESS_SPACE && a != LY && a != STAT ==> t.ram[a] == ram[a]
    ensures |t.frames| == if Active(p, ram, stopped) then Hits(p.cycle, n, DRAW_PHASE) else 0
    ensures multiset(t.interrupts)[VBlankRequest]
         == if Active(p, ram, stopped) then Hits(p.cycle, n, VBLANK_PHASE) else 0
    ensures Active(p, ram, stopped) ==>
      && n / CYCLES_PER_FRAME <= |t.frames| <= n / CYCLES_PER_FRAME + 1
      && n / CYCLES_PER_FRAME <= multiset(t.interrupts)[VBlankRequest] <= n / CYCLES_PER_FRAME + 1
    ensures Active(p, ram, stopped) && n % CYCLES_PER_FRAME == 0 ==>
      |t.frames| == multiset(t.interrupts)[VBlankRequest] == n / CYCLES_PER_FRAME
    ensures Active(p, ram, stopped) && ModeOf(ram[STAT]) == ExpectedMode(p.cycle) && n > 0 ==>
      InSync(t.ppu, t.ram)
    ensures !Active(p, ram, stopped) ==> t.frames == [] && t.interrupts == []
    ensures stopped ==> t.ram == ram
    ensures !stopped && !Active(p, ram, stopped) && n > 0 ==> t.ram == ram[LY := 0]
  {
    var active := Active(p, ram, stopped);
    var synced := active && ModeOf(ram[STAT]) == ExpectedMode(p.cycle);
    t := Trace(p, ram, [], []);
    var i := 0;
    while i < n
      invariant i <= n
      invariant Valid(t.ppu) && t.ppu.cycle == p.cycle + i && t.ppu.debug == p.debug
      invariant forall a :: 0 <= a < ADDRESS_SPACE && a != LY && a != STAT ==> t.ram[a] == ram[a]
      invariant Active(t.ppu, t.ram, stopped) == active
      invariant |t.frames| == if active then Hits(p.cycle, i, DRAW_PHASE) else 0
      invariant multiset(t.interrupts)[VBlankRequest] == if active then Hits(p.cycle, i, VBLANK_PHASE) else 0
      invariant synced ==> ModeOf(t.ram[STAT]) == ExpectedMode(t.ppu.cycle)
      invariant synced && i > 0 ==> InSync(t.ppu, t.ram)
      invariant !active ==> t.frames == [] && t.interrupts == []
      invariant stopped || i == 0 ==> t.ram == ram
      invariant !stopped && !active && i > 0 ==> t.ram == ram[LY := 0]
    {
      var r := TickStep(t.ppu, t.ram, stopped);
      if !stopped && !active {
        assert t.ram[LY := 0] == ram[LY := 0];
      }
      t := Trace(r.ppu, r.ram, t.interrupts + r.interrupts,
                 t.frames + if r.frame.Some? then [r.frame.value] else []);
      i := i + 1;
    }
    if active {
      HitsBounds(p.cycle, n, DRAW_PHASE);
      HitsBounds(p.cycle, n, VBLANK_PHASE);
    }
  }
}
