/**
 * The rectangle fill of sim/machine.c, which works on whole 32-bit words and
 * masks the first and last word of every row, proved equal to a fill that
 * decides pixel by pixel.
 */
module Blit {
  import opened Words
  import opened Framebuffer

  const STRIDE: int := 64
  const MAX_WORDS: int := 200000

  /** The blitter's registers (sim/machine.h). */
  datatype Request = Request(dstX: uint32, dstY: uint32, width: uint32, height: uint32,
                             pattern: Word, fill: bool, clipEnable: bool) {
    /** Neither end of the rectangle wraps past 32 bits. */
    predicate Fits() {
      dstX + width < TWO_32 && dstY + height < TWO_32
    }

    predicate Covers(x: int, y: int) {
      dstX <= x < dstX + width && dstY <= y < dstY + height
    }
  }

  /** What the loops need: how many words per row, how many rows, where, under which masks. */
  datatype Plan = Plan(wordsPerLine: uint32, totalLines: uint32, start: uint32, leftMask: Word, rightMask: Word)

  function Min(a: int, b: int): int { if a < b then a else b }

  function ClippedEnd(start: uint32, size: uint32, limit: int): uint32
    requires 0 <= limit < TWO_32
  {
    Min(Wrap32(start + size), limit)
  }

  /** The mask of the last word of a row that ends at column `end`. */
  function RightMask(end: uint32): Word {
    if end % 32 == 0 then LowOnes(32) else Shr(LowOnes(32), 32 - end % 32)
  }

  /** No part of the clipped side from `start` on is left. */
  predicate SideGone(start: uint32, size: uint32, limit: int)
    requires 0 <= limit < TWO_32
  {
    Wrap32(ClippedEnd(start, size, limit) - start) == 0 || start >= limit
  }

  /** The geometry blit_run computes; `None` when the rectangle is clipped away. */
  function Shape(r: Request): Option<Plan> {
    var endX, endY := ClippedEnd(r.dstX, r.width, SCREEN_W), ClippedEnd(r.dstY, r.height, SCREEN_H);
    if r.clipEnable then
      if SideGone(r.dstX, r.width, SCREEN_W) || SideGone(r.dstY, r.height, SCREEN_H) then None
      else
        var left := r.dstX / 32 * 32;
        var right := (endX + 31) / 32 * 32;
        Some(Plan(Wrap32(right - left) / 32, Wrap32(endY - r.dstY), Wrap32(r.dstY * STRIDE + left / 8),
                  Shl(LowOnes(32), r.dstX - left), RightMask(endX)))
    else
      Some(Plan(Wrap32(r.width + 31) / 32, r.height, Wrap32(r.dstY * STRIDE + r.dstX / 32 * 4),
                LowOnes(32), LowOnes(32)))
  }

  /** blit_run ignores requests of more than 200000 words. */
  predicate TooLarge(p: Plan) {
    Area(p.wordsPerLine, p.totalLines) > MAX_WORDS
  }

  /** The number of words in `lines` rows: `words * lines`. */
  function Area(words: nat, lines: nat): nat {
    if lines == 0 then 0 else words + Area(words, lines - 1)
  }

  lemma {:induction false} AreaIsProduct(words: nat, lines: nat)
    ensures Area(words, lines) == words * lines
  {
    if lines != 0 {
      AreaIsProduct(words, lines - 1);
    }
  }

  /** The plan blit_run carries out, if any. */
  function PlanOf(r: Request): Option<Plan> {
    match Shape(r)
    case None => None
    case Some(p) => if TooLarge(p) then None else Some(p)
  }

  /** The read-modify-write of one word under a mask. */
  function Merge(read: Word, pattern: Word, mask: Word): Word {
    Or(And(read, Not(mask)), And(pattern, mask))
  }

  /** The value written back for word `wi` of a row. */
  function OutWord(r: Request, p: Plan, wi: int, read: Word): Word {
    if !r.fill then read
    else if r.clipEnable && p.wordsPerLine > 1 then
      if wi == 0 then Merge(read, r.pattern, p.leftMask)
      else if wi == p.wordsPerLine - 1 then Merge(read, r.pattern, p.rightMask)
      else r.pattern
    else if r.clipEnable && p.wordsPerLine == 1 then
      Merge(read, r.pattern, And(p.leftMask, p.rightMask))
    else r.pattern
  }

  /** The first `n` words of a row that starts at byte address `addr`; words past the end are skipped. */
  function RowDone(r: Request, p: Plan, vram: seq<Word>, addr: uint32, n: nat): (v: seq<Word>)
    requires |vram| == VRAM_WORDS
    ensures |v| == VRAM_WORDS
  {
    if n == 0 then vram
    else
      var v := RowDone(r, p, vram, addr, n - 1);
      var idx := Wrap32(addr + 4 * (n - 1)) / 4;
      if idx >= VRAM_WORDS then v else v[idx := OutWord(r, p, n - 1, v[idx])]
  }

  /** The first `n` rows. */
  function RowsDone(r: Request, p: Plan, vram: seq<Word>, n: nat): (v: seq<Word>)
    requires |vram| == VRAM_WORDS
    ensures |v| == VRAM_WORDS
  {
    if n == 0 then vram
    else RowDone(r, p, RowsDone(r, p, vram, n - 1), Wrap32(p.start + STRIDE * (n - 1)), p.wordsPerLine)
  }

  /** The whole operation on the contents of the frame buffer. */
  function Result(r: Request, vram: seq<Word>): (v: seq<Word>)
    requires |vram| == VRAM_WORDS
    ensures |v| == VRAM_WORDS
  {
    match PlanOf(r)
    case None => vram
    case Some(p) => RowsDone(r, p, vram, p.totalLines)
  }

  class Blitter {
    const vram: array<Word>
    var request: Request

    constructor (vram: array<Word>, request: Request)
      ensures this.vram == vram && this.request == request
    {
      this.vram, this.request := vram, request;
    }

    /** blit_run */
    method Run()
      requires vram.Length == VRAM_WORDS
      modifies vram
      ensures vram[..] == Result(request, old(vram[..]))
    {
      var r := request;
      var plan := PlanOf(r);
      if plan == None {
        return;
      }
      FillRows(r, plan.value);
    }

    /** The outer loop of blit_run. */
    method FillRows(r: Request, p: Plan)
      requires vram.Length == VRAM_WORDS
      modifies vram
      ensures vram[..] == RowsDone(r, p, old(vram[..]), p.totalLines)
    {
      ghost var before := vram[..];
      var addr: int := p.start;
      var line: uint32 := 0;
      while line < p.totalLines
        invariant line <= p.totalLines
        invariant addr == Wrap32(p.start + STRIDE * line)
        invariant vram[..] == RowsDone(r, p, before, line)
      {
        FillRow(r, p, addr);
        WrapAdd(p.start + STRIDE * line, STRIDE);
        addr := Wrap32(addr + STRIDE);
        line := line + 1;
      }
    }

    /** One row: the inner loop of blit_run. */
    method FillRow(r: Request, p: Plan, addr: uint32)
      requires vram.Length == VRAM_WORDS
      modifies vram
      ensures vram[..] == RowDone(r, p, old(vram[..]), addr, p.wordsPerLine)
    {
      ghost var before := vram[..];
      var wordAddr: int := addr;
      var wi: uint32 := 0;
      while wi < p.wordsPerLine
        invariant wi <= p.wordsPerLine
        invariant wordAddr == Wrap32(addr + 4 * wi)
        invariant vram[..] == RowDone(r, p, before, addr, wi)
      {
        var idx := wordAddr / 4;
        if idx < VRAM_WORDS {
          vram[idx] := OutWord(r, p, wi, vram[idx]);
        }
        WrapAdd(addr + 4 * wi, 4);
        wordAddr := Wrap32(wordAddr + 4);
        wi := wi + 1;
      }
    }
  }

  // ----- the loops touch each word of the rectangle once

  lemma {:induction false} RowDoneWords(r: Request, p: Plan, vram: seq<Word>, addr: uint32, n: nat, w: nat)
    requires |vram| == VRAM_WORDS && addr % 4 == 0
    requires addr / 4 + n <= VRAM_WORDS && w < VRAM_WORDS
    ensures RowDone(r, p, vram, addr, n)[w] ==
            if addr / 4 <= w < addr / 4 + n then OutWord(r, p, w - addr / 4, vram[w]) else vram[w]
  {
    if n != 0 {
      RowDoneWords(r, p, vram, addr, n - 1, w);
      assert Wrap32(addr + 4 * (n - 1)) / 4 == addr / 4 + n - 1;
    }
  }

  lemma {:induction false} RowsDoneWords(r: Request, p: Plan, vram: seq<Word>, x: nat, y: nat, n: nat, w: nat)
    requires |vram| == VRAM_WORDS && w < VRAM_WORDS
    requires p.start == y * STRIDE + x * 4 && x + p.wordsPerLine <= 16 && y + n <= SCREEN_H
    ensures RowsDone(r, p, vram, n)[w] ==
            if y <= w / 16 < y + n && x <= w % 16 < x + p.wordsPerLine
            then OutWord(r, p, w % 16 - x, vram[w]) else vram[w]
  {
    if n != 0 {
      RowsDoneWords(r, p, vram, x, y, n - 1, w);
      var row := y + n - 1;
      RowAddress(p, x, row, STRIDE * (n - 1));
      RowDoneWords(r, p, RowsDone(r, p, vram, n - 1), row * STRIDE + x * 4, p.wordsPerLine, w);
      WordsOfRow(w, row, x, p.wordsPerLine);
    }
  }

  lemma RowAddress(p: Plan, x: nat, row: nat, offset: nat)
    requires row < SCREEN_H && x <= 16 && p.start + offset == row * STRIDE + x * 4
    ensures Wrap32(p.start + offset) == row * STRIDE + x * 4
    ensures (row * STRIDE + x * 4) % 4 == 0 && (row * STRIDE + x * 4) / 4 == row * 16 + x
  {
  }

  lemma WordsOfRow(w: nat, row: nat, x: nat, count: nat)
    requires x + count <= 16
    ensures row * 16 + x <= w < row * 16 + x + count <==> w / 16 == row && x <= w % 16 < x + count
    ensures w / 16 == row ==> w - (row * 16 + x) == w % 16 - x
  {
    assert w == w / 16 * 16 + w % 16;
  }

  // ----- the masks select the columns of the rectangle

  /** Bit `i` of word column `c` after a clipped fill of columns [x0, x1). */
  lemma OutWordBit(r: Request, p: Plan, x1: nat, c: nat, i: nat, read: Word)
    requires r.fill && r.clipEnable && i < 32
    requires r.dstX < x1 && r.dstX / 32 <= c < (x1 + 31) / 32
    requires p.wordsPerLine == (x1 + 31) / 32 - r.dstX / 32
    requires p.leftMask == Shl(LowOnes(32), r.dstX % 32) && x1 < TWO_32 && p.rightMask == RightMask(x1)
    ensures OutWord(r, p, c - r.dstX / 32, read)[i] ==
            if r.dstX <= c * 32 + i < x1 then r.pattern[i] else read[i]
  {
    LeftMaskColumns(r.dstX, c, i);
    RightMaskColumns(x1, c, i);
  }

  lemma LeftMaskColumns(x0: nat, c: nat, i: nat)
    requires i < 32 && x0 / 32 <= c
    ensures c == x0 / 32 ==> (Shl(LowOnes(32), x0 % 32)[i] <==> x0 <= c * 32 + i)
    ensures c > x0 / 32 ==> x0 <= c * 32 + i
  {
  }

  lemma RightMaskColumns(x1: uint32, c: nat, i: nat)
    requires i < 32 && c < (x1 + 31) / 32
    ensures c == (x1 + 31) / 32 - 1 ==> (RightMask(x1)[i] <==> c * 32 + i < x1)
    ensures c < (x1 + 31) / 32 - 1 ==> c * 32 + i < x1
  {
  }

  // ----- main results

  /** `now` is `before` with the rectangle of `r` filled pixel by pixel. */
  ghost predicate FilledRect(r: Request, before: seq<Word>, now: seq<Word>)
    requires |before| == |now| == VRAM_WORDS
  {
    forall x, y | OnScreen(x, y) ::
      Pixel(now, x, y) == if r.Covers(x, y) then r.pattern[x % 32] else Pixel(before, x, y)
  }

  /** A clipped fill whose ends fit in 32 bits is the per-pixel fill. */
  lemma ClippedFillIsPerPixel(r: Request, vram: seq<Word>)
    requires |vram| == VRAM_WORDS && r.fill && r.clipEnable && r.Fits()
    ensures FilledRect(r, vram, Result(r, vram))
  {
    forall x, y | OnScreen(x, y)
      ensures Pixel(Result(r, vram), x, y) == if r.Covers(x, y) then r.pattern[x % 32] else Pixel(vram, x, y)
    {
      ClippedFillPixel(r, vram, x, y);
    }
  }

  lemma ClippedFillPixel(r: Request, vram: seq<Word>, x: int, y: int)
    requires |vram| == VRAM_WORDS && r.fill && r.clipEnable && r.Fits() && OnScreen(x, y)
    ensures Pixel(Result(r, vram), x, y) == if r.Covers(x, y) then r.pattern[x % 32] else Pixel(vram, x, y)
  {
    PixelIsBit(vram, x, y);
    PixelIsBit(Result(r, vram), x, y);
    var endX, endY := Min(r.dstX + r.width, SCREEN_W), Min(r.dstY + r.height, SCREEN_H);
    if r.width != 0 && r.height != 0 && r.dstX < SCREEN_W && r.dstY < SCREEN_H {
      var p := PlanWithinLimits(r, endX, endY);
      ClippedFillBit(r, p, vram, x, y, endX, endY);
    } else {
      NothingToDraw(r);
    }
  }

  lemma ClippedFillBit(r: Request, p: Plan, vram: seq<Word>, x: int, y: int, endX: int, endY: int)
    requires |vram| == VRAM_WORDS && r.fill && r.clipEnable && OnScreen(x, y)
    requires r.dstX < endX <= SCREEN_W && r.dstY < endY <= SCREEN_H
    requires p.wordsPerLine == (endX + 31) / 32 - r.dstX / 32 && p.totalLines == endY - r.dstY
    requires p.start == r.dstY * STRIDE + r.dstX / 32 * 4
    requires p.leftMask == Shl(LowOnes(32), r.dstX % 32) && p.rightMask == RightMask(endX)
    ensures RowsDone(r, p, vram, p.totalLines)[y * 16 + x / 32][x % 32] ==
            if r.dstX <= x < endX && r.dstY <= y < endY then r.pattern[x % 32] else vram[y * 16 + x / 32][x % 32]
  {
    var w := y * 16 + x / 32;
    assert w / 16 == y && w % 16 == x / 32;
    RowsDoneWords(r, p, vram, r.dstX / 32, r.dstY, p.totalLines, w);
    if r.dstX / 32 <= x / 32 < (endX + 31) / 32 {
      OutWordBit(r, p, endX, x / 32, x % 32, vram[w]);
    }
  }

  lemma EmptySideIsGone(start: uint32, size: uint32, limit: int)
    requires 0 <= limit < TWO_32 && (start >= limit || size == 0)
    ensures SideGone(start, size, limit)
  {
  }

  lemma NothingToDraw(r: Request)
    requires r.clipEnable && OffScreen(r)
    ensures PlanOf(r) == None
  {
    if r.dstX >= SCREEN_W || r.width == 0 {
      EmptySideIsGone(r.dstX, r.width, SCREEN_W);
    } else {
      EmptySideIsGone(r.dstY, r.height, SCREEN_H);
    }
  }

  lemma PlanWithinLimits(r: Request, endX: int, endY: int) returns (p: Plan)
    requires r.clipEnable && r.Fits() && r.width != 0 && r.height != 0 && r.dstX < SCREEN_W && r.dstY < SCREEN_H
    requires endX == Min(r.dstX + r.width, SCREEN_W) && endY == Min(r.dstY + r.height, SCREEN_H)
    ensures PlanOf(r) == Some(p)
    ensures p.wordsPerLine == (endX + 31) / 32 - r.dstX / 32 && p.totalLines == endY - r.dstY
    ensures p.start == r.dstY * STRIDE + r.dstX / 32 * 4
    ensures p.leftMask == Shl(LowOnes(32), r.dstX % 32) && p.rightMask == RightMask(endX)
  {
    WordSpan(r.dstX, endX);
    p := ShapeWithinLimits(r, endX, endY);
    SmallArea(p);
  }

  lemma ShapeWithinLimits(r: Request, endX: int, endY: int) returns (p: Plan)
    requires r.clipEnable && r.dstX < endX <= SCREEN_W && r.dstY < endY <= SCREEN_H
    requires ClippedEnd(r.dstX, r.width, SCREEN_W) == endX && ClippedEnd(r.dstY, r.height, SCREEN_H) == endY
    ensures Shape(r) == Some(p)
    ensures p.wordsPerLine == (endX + 31) / 32 - r.dstX / 32 && p.totalLines == endY - r.dstY
    ensures p.start == r.dstY * STRIDE + r.dstX / 32 * 4
    ensures p.leftMask == Shl(LowOnes(32), r.dstX % 32) && p.rightMask == RightMask(endX)
  {
    WordSpan(r.dstX, endX);
    var left, right := r.dstX / 32 * 32, (endX + 31) / 32 * 32;
    WrapSmall(endX - r.dstX);
    WrapSmall(endY - r.dstY);
    WrapSmall(right - left);
    WrapSmall(r.dstY * STRIDE + left / 8);
    p := Plan((endX + 31) / 32 - r.dstX / 32, endY - r.dstY, r.dstY * STRIDE + r.dstX / 32 * 4,
              Shl(LowOnes(32), r.dstX % 32), RightMask(endX));
  }

  lemma WordSpan(x: nat, endX: nat)
    requires x < endX <= SCREEN_W
    ensures var left, right := x / 32 * 32, (endX + 31) / 32 * 32;
            && 0 <= right - left && (right - left) / 32 == (endX + 31) / 32 - x / 32
            && left / 8 == x / 32 * 4 && x - left == x % 32
    ensures 0 < (endX + 31) / 32 - x / 32 <= 16
  {
  }

  lemma SmallArea(p: Plan)
    requires p.wordsPerLine <= 16 && p.totalLines <= SCREEN_H
    ensures !TooLarge(p)
  {
    AreaIsProduct(p.wordsPerLine, p.totalLines);
    assert p.wordsPerLine * p.totalLines <= 16 * p.totalLines;
  }

  /** Every word of a row is written back as it was read. */
  ghost predicate Keeps(r: Request, p: Plan) {
    forall wi, read | 0 <= wi < p.wordsPerLine :: OutWord(r, p, wi, read) == read
  }

  lemma {:induction false} RowsUnchanged(r: Request, p: Plan, vram: seq<Word>, n: nat)
    requires |vram| == VRAM_WORDS && Keeps(r, p)
    ensures RowsDone(r, p, vram, n) == vram
  {
    if n != 0 {
      RowsUnchanged(r, p, vram, n - 1);
      RowUnchanged(r, p, vram, Wrap32(p.start + STRIDE * (n - 1)), p.wordsPerLine);
    }
  }

  lemma {:induction false} RowUnchanged(r: Request, p: Plan, vram: seq<Word>, addr: uint32, n: nat)
    requires |vram| == VRAM_WORDS && Keeps(r, p) && n <= p.wordsPerLine
    ensures RowDone(r, p, vram, addr, n) == vram
  {
    if n != 0 {
      RowUnchanged(r, p, vram, addr, n - 1);
    }
  }

  /** Copy mode reads and writes back every word: nothing changes. */
  lemma CopyModeChangesNothing(r: Request, vram: seq<Word>)
    requires |vram| == VRAM_WORDS && !r.fill
    ensures Result(r, vram) == vram
  {
    if PlanOf(r).Some? {
      RowsUnchanged(r, PlanOf(r).value, vram, PlanOf(r).value.totalLines);
    }
  }

  // ----- rectangles that wrap

  lemma AreaAtLeast(words: nat, lines: nat)
    requires words > 0 && lines > 0
    ensures Area(words, lines) >= words && Area(words, lines) >= lines
  {
    AreaIsProduct(words, lines);
  }

  /** An end that wraps comes out before the start. */
  lemma WrappedEnd(start: uint32, size: uint32, limit: int)
    requires start + size >= TWO_32 && start < limit < TWO_32
    ensures ClippedEnd(start, size, limit) < start
    ensures Wrap32(ClippedEnd(start, size, limit) - start) >= TWO_32 - limit
  {
  }

  /** The word span is then none, one, or far beyond the limit. */
  lemma WrappedSpan(dstX: nat, endX: nat)
    requires endX < dstX < SCREEN_W
    ensures var left, right := dstX / 32 * 32, (endX + 31) / 32 * 32;
            var words := Wrap32(right - left) / 32;
            words == 0 || (words == 1 && left < endX) || words > MAX_WORDS
  {
  }

  /** In one word the columns from `dstX` on and those before `endX` have nothing in common. */
  lemma MasksDisjoint(dstX: nat, endX: uint32, i: nat)
    requires dstX / 32 * 32 < endX < dstX && i < 32
    ensures !Shl(LowOnes(32), dstX - dstX / 32 * 32)[i] || !RightMask(endX)[i]
  {
    assert endX % 32 == endX - dstX / 32 * 32;
  }

  lemma EmptyMergeKeeps(read: Word, pattern: Word, mask: Word)
    requires forall i | 0 <= i < 32 :: !mask[i]
    ensures Merge(read, pattern, mask) == read
  {
  }

  lemma EmptyMask(r: Request, p: Plan, endX: uint32)
    requires r.fill && r.clipEnable && p.wordsPerLine == 1 && r.dstX / 32 * 32 < endX < r.dstX
    requires p.leftMask == Shl(LowOnes(32), r.dstX - r.dstX / 32 * 32) && p.rightMask == RightMask(endX)
    ensures Keeps(r, p)
  {
    var both := And(p.leftMask, p.rightMask);
    forall i: nat | i < 32 ensures !both[i] {
      MasksDisjoint(r.dstX, endX, i);
    }
    forall wi, read | 0 <= wi < p.wordsPerLine ensures OutWord(r, p, wi, read) == read {
      EmptyMergeKeeps(read, r.pattern, both);
      assert OutWord(r, p, wi, read) == Merge(read, r.pattern, both);
    }
  }

  /** A clipped fill on the screen whose end wraps, in either direction, draws nothing at all. */
  lemma WrappedFillDrawsNothing(r: Request, vram: seq<Word>)
    requires |vram| == VRAM_WORDS && r.fill && r.clipEnable && !r.Fits()
    requires r.dstX < SCREEN_W && r.dstY < SCREEN_H
    ensures Result(r, vram) == vram
  {
    if Shape(r).Some? && PlanOf(r).Some? {
      var p := PlanOf(r).value;
      var endX := ClippedEnd(r.dstX, r.width, SCREEN_W);
      if p.wordsPerLine > 0 {
        AreaAtLeast(p.wordsPerLine, p.totalLines);
      }
      if r.dstY + r.height >= TWO_32 {
        WrappedEnd(r.dstY, r.height, SCREEN_H);
      } else {
        WrappedEnd(r.dstX, r.width, SCREEN_W);
        WrappedSpan(r.dstX, endX);
        if p.wordsPerLine == 1 {
          EmptyMask(r, p, endX);
        }
      }
      RowsUnchanged(r, p, vram, p.totalLines);
    }
  }

  function Copies(n: nat, on: bool): (v: seq<Word>)
    ensures |v| == n && forall i | 0 <= i < n :: v[i] == LowOnes(if on then 32 else 0)
  {
    if n == 0 then [] else Copies(n - 1, on) + [LowOnes(if on then 32 else 0)]
  }

  /** A frame buffer in which every pixel has the same colour. */
  function Filled(on: bool): (vram: seq<Word>)
    ensures |vram| == VRAM_WORDS
  {
    Copies(VRAM_WORDS, on)
  }

  lemma FilledPixel(on: bool, x: int, y: int)
    requires OnScreen(x, y)
    ensures Pixel(Filled(on), x, y) == on
  {
    PixelIsBit(Filled(on), x, y);
  }

  /** Nothing of the rectangle can be on the screen. */
  predicate OffScreen(r: Request) {
    r.dstX >= SCREEN_W || r.dstY >= SCREEN_H || r.width == 0 || r.height == 0
  }

  /** A clipped fill is the per-pixel fill exactly when its ends do not wrap or it has no pixel on the screen. */
  lemma ClippedFillIsPerPixelExactlyWhen(r: Request)
    requires r.fill && r.clipEnable
    ensures (forall vram | |vram| == VRAM_WORDS :: FilledRect(r, vram, Result(r, vram))) <==> r.Fits() || OffScreen(r)
  {
    if r.Fits() {
      forall vram | |vram| == VRAM_WORDS ensures FilledRect(r, vram, Result(r, vram)) {
        ClippedFillIsPerPixel(r, vram);
      }
    } else if OffScreen(r) {
      NothingToDraw(r);
      assert forall x, y | OnScreen(x, y) :: !r.Covers(x, y);
    } else {
      var vram := Filled(!r.pattern[r.dstX % 32]);
      WrappedFillDrawsNothing(r, vram);
      FilledPixel(!r.pattern[r.dstX % 32], r.dstX, r.dstY);
      assert OnScreen(r.dstX, r.dstY) && r.Covers(r.dstX, r.dstY);
      assert !FilledRect(r, vram, Result(r, vram));
    }
  }

  /** For instance this rectangle covers the pixel (6, 0) and is not drawn. */
  lemma WrappedRectangleIsNotDrawn(vram: seq<Word>)
    requires |vram| == VRAM_WORDS && !Pixel(vram, 6, 0)
    ensures var r := Request(5, 0, 0xFFFF_FFFF, 1, LowOnes(32), true, true);
            !r.Fits() && r.Covers(6, 0) && !Pixel(Result(r, vram), 6, 0)
  {
    WrappedFillDrawsNothing(Request(5, 0, 0xFFFF_FFFF, 1, LowOnes(32), true, true), vram);
  }

  // ----- fills without clipping

  /** Without clipping whole words are written: of a rectangle on the screen, every word it starts in, and as many. */
  lemma UnclippedFillPixel(r: Request, vram: seq<Word>, x: int, y: int)
    requires |vram| == VRAM_WORDS && r.fill && !r.clipEnable && OnScreen(x, y)
    requires r.dstX + r.width <= SCREEN_W && r.dstY + r.height <= SCREEN_H
    ensures Pixel(Result(r, vram), x, y) ==
            if r.dstX / 32 <= x / 32 < r.dstX / 32 + (r.width + 31) / 32 && r.dstY <= y < r.dstY + r.height
            then r.pattern[x % 32] else Pixel(vram, x, y)
  {
    var p := UnclippedShape(r);
    var w := y * 16 + x / 32;
    PixelIsBit(vram, x, y);
    PixelIsBit(Result(r, vram), x, y);
    WordsOfRow(w, y, x / 32, 1);
    SmallArea(p);
    RowsDoneWords(r, p, vram, r.dstX / 32, r.dstY, r.height, w);
  }

  lemma UnclippedShape(r: Request) returns (p: Plan)
    requires !r.clipEnable && r.dstX + r.width <= SCREEN_W && r.dstY + r.height <= SCREEN_H
    ensures Shape(r) == Some(p) && p.totalLines == r.height && p.start == r.dstY * STRIDE + r.dstX / 32 * 4
    ensures p.wordsPerLine == (r.width + 31) / 32 && r.dstX / 32 + p.wordsPerLine <= 16
  {
    p := Shape(r).value;
  }

  /** So on the screen it is the per-pixel fill exactly when both edges lie between words. */
  lemma UnclippedFillIsPerPixelExactlyWhen(r: Request)
    requires r.fill && !r.clipEnable && r.width > 0 && r.height > 0
    requires r.dstX + r.width <= SCREEN_W && r.dstY + r.height <= SCREEN_H
    ensures (forall vram | |vram| == VRAM_WORDS :: FilledRect(r, vram, Result(r, vram))) <==>
            r.dstX % 32 == 0 && r.width % 32 == 0
  {
    if r.dstX % 32 == 0 && r.width % 32 == 0 {
      forall vram | |vram| == VRAM_WORDS ensures FilledRect(r, vram, Result(r, vram)) {
        AlignedFillIsPerPixel(r, vram);
      }
    } else {
      // the pixel just before the rectangle's first column, or just after its last
      var x := if r.dstX % 32 != 0 then r.dstX - 1 else r.dstX + r.width;
      WordOfNeighbour(r.dstX, r.width, x);
      var vram := Filled(!r.pattern[x % 32]);
      UnclippedFillPixel(r, vram, x, r.dstY);
      FilledPixel(!r.pattern[x % 32], x, r.dstY);
      assert OnScreen(x, r.dstY) && !r.Covers(x, r.dstY);
      assert !FilledRect(r, vram, Result(r, vram));
    }
  }

  lemma AlignedFillIsPerPixel(r: Request, vram: seq<Word>)
    requires |vram| == VRAM_WORDS && r.fill && !r.clipEnable && r.dstX % 32 == 0 && r.width % 32 == 0
    requires r.dstX + r.width <= SCREEN_W && r.dstY + r.height <= SCREEN_H
    ensures FilledRect(r, vram, Result(r, vram))
  {
    forall x, y | OnScreen(x, y)
      ensures Pixel(Result(r, vram), x, y) == if r.Covers(x, y) then r.pattern[x % 32] else Pixel(vram, x, y)
    {
      UnclippedFillPixel(r, vram, x, y);
      WordEdges(r.dstX, r.width, x);
    }
  }

  lemma WordOfNeighbour(start: nat, size: nat, x: int)
    requires size > 0 && start + size <= SCREEN_W && (start % 32 != 0 || size % 32 != 0)
    requires x == if start % 32 != 0 then start - 1 else start + size
    ensures 0 <= x < SCREEN_W && start / 32 <= x / 32 < start / 32 + (size + 31) / 32
  {
  }

  lemma WordEdges(start: nat, size: nat, x: nat)
    requires start % 32 == 0 && size % 32 == 0
    ensures start <= x < start + size <==> start / 32 <= x / 32 < start / 32 + (size + 31) / 32
  {
  }
}
