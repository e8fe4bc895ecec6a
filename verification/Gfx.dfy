/**
 * Shared access to the blitter (sw/common/zgfx.c).  Every process may be
 * preempted between any two statements except while interrupts are masked, and
 * the hardware may finish at any moment.  gpu_blit_acquire checks that the
 * blitter is idle inside the masked section; the model proves that no
 * operation is then dropped or mixed with another process's registers.
 */
module Gfx {
  import opened Words
  import opened Framebuffer
  import Blit

  // ----- operations and the registers that describe them

  datatype Reg = DstX | DstY | Width | Height | Pattern | GlyphAddr | GlyphW | GlyphH | FgColor | BgColor

  datatype Op =
    | Fill(x: int, y: int, w: int, h: int, pattern: int)
    | Glyph(x: int, y: int, addr: int, gw: int, gh: int, fg: int, bg: int)

  datatype Ctrl = StartFillClip | StartGlyph

  /** The register writes before the trigger, in program order. */
  function Writes(op: Op): seq<(Reg, int)> {
    match op
    case Fill(x, y, w, h, pattern) => [(DstX, x), (DstY, y), (Width, w), (Height, h), (Pattern, pattern)]
    case Glyph(x, y, addr, gw, gh, fg, bg) =>
      [(DstX, x), (DstY, y), (GlyphAddr, addr), (GlyphW, gw), (GlyphH, gh), (FgColor, fg), (BgColor, bg)]
  }

  function Trigger(op: Op): Ctrl {
    if op.Fill? then StartFillClip else StartGlyph
  }

  /** The register file. */
  type Regs = Reg -> int

  /** What the hardware performs when it is started with these registers. */
  function Latched(regs: Regs, ctrl: Ctrl): Op {
    match ctrl
    case StartFillClip => Fill(regs(DstX), regs(DstY), regs(Width), regs(Height), regs(Pattern))
    case StartGlyph =>
      Glyph(regs(DstX), regs(DstY), regs(GlyphAddr), regs(GlyphW), regs(GlyphH), regs(FgColor), regs(BgColor))
  }

  // ----- processes, scheduler and hardware

  type ProcId = nat

  /** Where a process is inside gpu_blit_acquire and its caller; `saved` is the saved interrupt mask. */
  datatype Pc =
    | Away
    | Spinning(op: Op)                         // the unmasked wait
    | Checking(op: Op, saved: bool)              // masked, about to read the busy bit
    | Writing(op: Op, written: nat, saved: bool) // masked and idle
    | Triggered(op: Op, saved: bool)             // about to restore the mask

  datatype System = System(
    procs: seq<Pc>, current: ProcId, masked: bool,
    busy: bool, regs: Regs,
    ghost started: seq<Op>,     // the operations processes triggered
    ghost performed: seq<Op>)   // the operations the hardware carried out

  datatype Step =
    | Request(op: Op)       // the running process calls a drawing function
    | LeaveSpin             // it saw the blitter idle, or its spin timed out, and masks interrupts
    | Recheck               // it reads the busy bit under the mask
    | WriteReg
    | WriteCtrl
    | RestoreMask
    | Switch(to: ProcId)    // a timer interrupt
    | HardwareDone

  predicate Enabled(s: System, step: Step)
    requires s.current < |s.procs|
  {
    var pc := s.procs[s.current];
    match step
    case Request(_) => pc.Away?
    case LeaveSpin => pc.Spinning?
    case Recheck => pc.Checking?
    case WriteReg => pc.Writing? && pc.written < |Writes(pc.op)|
    case WriteCtrl => pc.Writing? && pc.written == |Writes(pc.op)|
    case RestoreMask => pc.Triggered?
    case Switch(to) => !s.masked && to < |s.procs|
    case HardwareDone => true
  }

  function At(s: System, pc: Pc): System
    requires s.current < |s.procs|
  {
    s.(procs := s.procs[s.current := pc])
  }

  function Next(s: System, step: Step): System
    requires s.current < |s.procs| && Enabled(s, step)
  {
    var pc := s.procs[s.current];
    match step
    case Request(op) => At(s, Spinning(op))
    case LeaveSpin => At(s, Checking(pc.op, s.masked)).(masked := true)
    case Recheck =>
      if s.busy then At(s, Spinning(pc.op)).(masked := pc.saved) else At(s, Writing(pc.op, 0, pc.saved))
    case WriteReg =>
      var (reg, value) := Writes(pc.op)[pc.written];
      At(s, Writing(pc.op, pc.written + 1, pc.saved)).(regs := r => if r == reg then value else s.regs(r))
    case WriteCtrl =>
      // a start while the blitter is busy is lost
      var t := At(s, Triggered(pc.op, pc.saved)).(started := s.started + [pc.op]);
      if s.busy then t else t.(busy := true, performed := s.performed + [Latched(s.regs, Trigger(pc.op))])
    case RestoreMask => At(s, Away).(masked := pc.saved)
    case Switch(to) => s.(current := to)
    case HardwareDone => s.(busy := false)
  }

  /** Between masking interrupts and restoring them. */
  predicate Critical(pc: Pc) { pc.Checking? || pc.Writing? || pc.Triggered? }

  ghost predicate Inv(s: System) {
    && s.current < |s.procs|
    // only the running process can be in its masked section, and it is exactly when interrupts are masked
    && (forall p | 0 <= p < |s.procs| && Critical(s.procs[p]) :: p == s.current)
    && (s.masked <==> Critical(s.procs[s.current]))
    && (Critical(s.procs[s.current]) ==> !s.procs[s.current].saved)
    // a process that writes registers found the blitter idle, and it stayed idle
    && (s.procs[s.current].Writing? ==>
          var pc := s.procs[s.current];
          && !s.busy && pc.written <= |Writes(pc.op)|
          && forall k | 0 <= k < pc.written :: s.regs(Writes(pc.op)[k].0) == Writes(pc.op)[k].1)
    && s.performed == s.started
  }

  lemma WritesAreDistinct(op: Op, j: nat, k: nat)
    requires j < k < |Writes(op)|
    ensures Writes(op)[j].0 != Writes(op)[k].0
  {
  }

  /** With all its registers written, a start performs exactly the requested operation. */
  lemma LatchedIsRequested(op: Op, regs: Regs)
    requires forall k | 0 <= k < |Writes(op)| :: regs(Writes(op)[k].0) == Writes(op)[k].1
    ensures Latched(regs, Trigger(op)) == op
  {
    match op {
      case Fill(x, y, w, h, pattern) =>
        assert Writes(op)[0] == (DstX, x) && Writes(op)[1] == (DstY, y) && Writes(op)[2] == (Width, w)
            && Writes(op)[3] == (Height, h) && Writes(op)[4] == (Pattern, pattern);
      case Glyph(x, y, addr, gw, gh, fg, bg) =>
        assert Writes(op)[0] == (DstX, x) && Writes(op)[1] == (DstY, y) && Writes(op)[2] == (GlyphAddr, addr)
            && Writes(op)[3] == (GlyphW, gw) && Writes(op)[4] == (GlyphH, gh)
            && Writes(op)[5] == (FgColor, fg) && Writes(op)[6] == (BgColor, bg);
    }
  }

  lemma StepKeepsInv(s: System, step: Step)
    requires Inv(s) && Enabled(s, step)
    ensures Inv(Next(s, step))
  {
    var pc := s.procs[s.current];
    if step == WriteReg {
      forall k | 0 <= k < pc.written ensures Writes(pc.op)[k].0 != Writes(pc.op)[pc.written].0 {
        WritesAreDistinct(pc.op, k, pc.written);
      }
    }
    if step == WriteCtrl {
      LatchedIsRequested(pc.op, s.regs);
    }
  }

  ghost predicate Possible(s: System, steps: seq<Step>)
    decreases |steps|
  {
    s.current < |s.procs| && (steps == [] || (Enabled(s, steps[0]) && Possible(Next(s, steps[0]), steps[1..])))
  }

  function Run(s: System, steps: seq<Step>): System
    requires Possible(s, steps)
    decreases |steps|
  {
    if steps == [] then s else Run(Next(s, steps[0]), steps[1..])
  }

  lemma {:induction false} RunKeepsInv(s: System, steps: seq<Step>)
    requires Inv(s) && Possible(s, steps)
    ensures Inv(Run(s, steps))
    decreases |steps|
  {
    if steps != [] {
      StepKeepsInv(s, steps[0]);
      RunKeepsInv(Next(s, steps[0]), steps[1..]);
    }
  }

  /**
   * For any number of processes and any interleaving, the hardware has carried
   * out exactly the operations the processes started, in order and unmixed,
   * and a process about to start one finds the blitter idle.
   */
  lemma NothingDroppedOrMixed(s: System, steps: seq<Step>)
    requires (forall p | 0 <= p < |s.procs| :: s.procs[p].Away?) && s.current < |s.procs|
    requires !s.masked && s.started == s.performed == []
    requires Possible(s, steps)
    ensures var t := Run(s, steps);
            && t.current < |t.procs| && t.performed == t.started
            && (Enabled(t, WriteCtrl) ==>
                  !t.busy && Latched(t.regs, Trigger(t.procs[t.current].op)) == t.procs[t.current].op)
            && (t.masked ==> forall p | 0 <= p < |t.procs| && Critical(t.procs[p]) :: p == t.current)
  {
    RunKeepsInv(s, steps);
    var t := Run(s, steps);
    if Enabled(t, WriteCtrl) {
      LatchedIsRequested(t.procs[t.current].op, t.regs);
    }
  }

  /** Interrupts never stay masked: the running process leaves its masked section without help. */
  function StepsToUnmask(pc: Pc): nat {
    match pc
    case Checking(op, _) => |Writes(op)| + 3
    case Writing(op, written, _) => if written <= |Writes(op)| then |Writes(op)| - written + 2 else 2
    case Triggered(_, _) => 1
    case _ => 0
  }

  lemma MaskedSectionEnds(s: System, step: Step)
    requires Inv(s) && s.masked && Enabled(s, step)
    ensures var t := Next(s, step);
            && t.current == s.current
            && (step == HardwareDone || StepsToUnmask(t.procs[t.current]) < StepsToUnmask(s.procs[s.current]))
            && (exists own :: own in {Recheck, WriteReg, WriteCtrl, RestoreMask} && Enabled(s, own))
  {
    var pc := s.procs[s.current];
    var own := if pc.Checking? then Recheck
               else if pc.Triggered? then RestoreMask
               else if pc.written < |Writes(pc.op)| then WriteReg else WriteCtrl;
    assert Enabled(s, own);
  }

  // ----- z_fb_hw_fill_rect down to the pixels

  /** The screen the driver clamps to (sw/common/zgfx.h:47-48); the simulated one is 512 x 384. */
  const DRIVER_W: int := 640
  const DRIVER_H: int := 480

  predicate OnDriverScreen(x: int, y: int) {
    0 <= x < DRIVER_W && 0 <= y < DRIVER_H
  }

  /** The clamping at the start of z_fb_hw_fill_rect; None when nothing is left to draw. */
  function Clamped(x: int, y: int, w: int, h: int): Option<(int, int, int, int)> {
    var (x1, w1) := if x < 0 then (0, w + x) else (x, w);
    var (y1, h1) := if y < 0 then (0, h + y) else (y, h);
    var w2 := if x1 + w1 > DRIVER_W then DRIVER_W - x1 else w1;
    var h2 := if y1 + h1 > DRIVER_H then DRIVER_H - y1 else h1;
    if w2 <= 0 || h2 <= 0 then None else Some((x1, y1, w2, h2))
  }

  predicate InRect(x: int, y: int, w: int, h: int, u: int, v: int) {
    x <= u < x + w && y <= v < y + h
  }

  /** The clamped rectangle is the part of the rectangle that is on the driver's screen, and lies there entirely. */
  lemma ClampedIsIntersection(x: int, y: int, w: int, h: int, u: int, v: int)
    ensures match Clamped(x, y, w, h)
            case None => !(InRect(x, y, w, h, u, v) && OnDriverScreen(u, v))
            case Some(r) => InRect(r.0, r.1, r.2, r.3, u, v) <==> InRect(x, y, w, h, u, v) && OnDriverScreen(u, v)
  {
  }

  /**
   * A fill of any rectangle, clamped to the driver's 640 x 480 screen and run by
   * the simulated 512 x 384 blitter, sets exactly its pixels on the smaller one.
   */
  lemma FillRectDraws(x: int, y: int, w: int, h: int, color: bool, vram: seq<Word>)
    requires |vram| == VRAM_WORDS
    ensures var pattern := LowOnes(if color then 32 else 0);
            var after := match Clamped(x, y, w, h)
                         case None => vram
                         case Some(r) => Blit.Result(Blit.Request(r.0, r.1, r.2, r.3, pattern, true, true), vram);
            forall u, v | OnScreen(u, v) ::
              Pixel(after, u, v) == if InRect(x, y, w, h, u, v) then color else Pixel(vram, u, v)
  {
    var pattern := LowOnes(if color then 32 else 0);
    var c := Clamped(x, y, w, h);
    if c.Some? {
      var r := Blit.Request(c.value.0, c.value.1, c.value.2, c.value.3, pattern, true, true);
      Blit.ClippedFillIsPerPixel(r, vram);
    }
    forall u, v | OnScreen(u, v)
      ensures InRect(x, y, w, h, u, v) ==
              if c.None? then false else InRect(c.value.0, c.value.1, c.value.2, c.value.3, u, v)
    {
      ClampedIsIntersection(x, y, w, h, u, v);
    }
  }
}
