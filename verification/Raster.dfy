/**
 * The line rasterizer of sim/machine.c, proved against an independent
 * definition: the pixel at every step is the one nearest to the ideal line.
 */
module Raster {
  import opened Words
  import opened Framebuffer

  datatype Point = Point(x: int, y: int)

  datatype Line = Line(from: Point, to: Point) {
    function Dx(): nat { Abs(to.x - from.x) }
    function Dy(): nat { Abs(to.y - from.y) }
    function Sx(): int { if to.x >= from.x then 1 else -1 }
    function Sy(): int { if to.y >= from.y then 1 else -1 }

    /** Length along the major axis. */
    function Steps(): nat { if Dx() >= Dy() then Dx() else Dy() }

    /** Horizontal pixels covered after `k` steps along the major axis. */
    function StepsX(k: nat): nat {
      if Dx() >= Dy() then k else Nearest(k * Dx(), Dy())
    }

    /** Vertical pixels covered after `k` steps along the major axis. */
    function StepsY(k: nat): nat {
      if Dx() < Dy() then k else if Dx() == 0 then 0 else Nearest(k * Dy(), Dx())
    }

    /** The pixel nearest to the ideal line after `k` steps along the major axis. */
    function Ideal(k: nat): Point {
      Point(from.x + Sx() * StepsX(k), from.y + Sy() * StepsY(k))
    }

    /** The first `n` pixels of the line, in order. */
    function Pixels(n: nat): seq<Point> {
      seq(n, k requires 0 <= k < n => Ideal(k))
    }

    /** The accumulated error after `k` steps. */
    function Err(k: nat): int {
      Dx() * (1 + StepsY(k)) - Dy() * (1 + StepsX(k))
    }
  }

  function Abs(x: int): nat { if x < 0 then -x else x }

  /** The integer nearest to n/d; a tie is rounded down. */
  function Nearest(n: nat, d: int): nat
    requires d > 0
  {
    (2 * n + d - 1) / (2 * d)
  }

  lemma NearestBounds(n: nat, d: int)
    requires d > 0
    ensures -d <= 2 * (Nearest(n, d) * d - n) < d
  {
  }

  lemma NearestUnique(n: nat, d: int, q: nat)
    requires d > 0 && -d <= 2 * (q * d - n) < d
    ensures q == Nearest(n, d)
  {
    NearestBounds(n, d);
    var p := Nearest(n, d);
    assert -d < q * d - p * d < d;
    if p < q {
      MultiplesApart(p, q, d);
    } else if q < p {
      MultiplesApart(q, p, d);
    }
  }

  lemma MultiplesApart(p: int, q: int, d: int)
    requires p < q && d > 0
    ensures q * d - p * d >= d
  {
    MultipleAtLeast(q - p, d);
    assert (q - p) * d == q * d - p * d;
  }

  lemma MultipleAtLeast(k: int, d: int)
    requires k >= 1 && d > 0
    ensures k * d >= d
  {
  }

  /** Every pixel is within half a pixel of the line, measured along the minor axis. */
  lemma IdealIsWithinHalfAPixel(l: Line, k: nat)
    requires k <= l.Steps()
    ensures var p := l.Ideal(k);
            if l.Dx() >= l.Dy()
            then Abs(p.x - l.from.x) == k && 2 * Abs((p.y - l.from.y) * l.Dx() - l.Sy() * k * l.Dy()) <= l.Dx()
            else Abs(p.y - l.from.y) == k && 2 * Abs((p.x - l.from.x) * l.Dy() - l.Sx() * k * l.Dx()) <= l.Dy()
  {
    if l.Dx() < l.Dy() {
      HalfPixel(l.Sx(), l.StepsX(k), l.Dy(), k, l.Dx());
    } else if l.Dx() != 0 {
      HalfPixel(l.Sy(), l.StepsY(k), l.Dx(), k, l.Dy());
    }
  }

  lemma HalfPixel(s: int, q: nat, d: int, k: nat, e: nat)
    requires (s == 1 || s == -1) && d > 0 && q == Nearest(k * e, d)
    ensures 2 * Abs(s * q * d - s * k * e) <= d
  {
  }

  lemma IdealEndpoints(l: Line)
    ensures l.Ideal(0) == l.from && l.Ideal(l.Steps()) == l.to
  {
    if l.Steps() != 0 {
      if l.Dx() >= l.Dy() {
        NearestUnique(0, l.Dx(), 0);
        NearestUnique(l.Dx() * l.Dy(), l.Dx(), l.Dy());
      } else {
        NearestUnique(0, l.Dy(), 0);
        NearestUnique(l.Dy() * l.Dx(), l.Dy(), l.Dx());
      }
    }
  }

  /** The rasterizer moves along the major axis, so only the last pixel is the end point. */
  lemma IdealEndsOnce(l: Line, k: nat)
    requires k <= l.Steps() && l.Ideal(k) == l.to
    ensures k == l.Steps()
  {
  }

  // ----- one step of the error-accumulating loop

  /**
   * The two tests of the loop body take exactly the steps that lead to the
   * next ideal pixel, and the error stays within twice the major length.
   */
  lemma Advance(l: Line, k: nat)
    requires k < l.Steps()
    ensures Follows(l, l.Ideal(k), l.Err(k), l.Ideal(k + 1), l.Err(k + 1))
    ensures -2 * l.Steps() <= l.Err(k) <= 2 * l.Steps()
  {
    if l.Dx() >= l.Dy() {
      AdvanceFlat(l, k);
    } else {
      AdvanceSteep(l, k);
    }
  }

  lemma AdvanceFlat(l: Line, k: nat)
    requires k < l.Steps() && l.Dx() >= l.Dy()
    ensures Follows(l, l.Ideal(k), l.Err(k), l.Ideal(k + 1), l.Err(k + 1))
    ensures -2 * l.Steps() <= l.Err(k) <= 2 * l.Steps()
  {
    StepAlongMajor(l.Dx(), l.Dy(), k);
    Distribute(l.Dx(), l.StepsY(k), l.StepsY(k + 1));
    Distribute(l.Dy(), l.StepsX(k), l.StepsX(k + 1));
  }

  lemma AdvanceSteep(l: Line, k: nat)
    requires k < l.Steps() && l.Dx() < l.Dy()
    ensures Follows(l, l.Ideal(k), l.Err(k), l.Ideal(k + 1), l.Err(k + 1))
    ensures -2 * l.Steps() <= l.Err(k) <= 2 * l.Steps()
  {
    StepAlongMajor(l.Dy(), l.Dx(), k);
    Distribute(l.Dx(), l.StepsY(k), l.StepsY(k + 1));
    Distribute(l.Dy(), l.StepsX(k), l.StepsX(k + 1));
  }

  lemma Distribute(d: int, a: int, b: int)
    requires a <= b <= a + 1
    ensures d * (1 + b) == d * (1 + a) + (if b == a then 0 else d)
  {
  }

  /** `big` and `small` are the lengths along the two axes, `err` the error with its sign along the major one. */
  lemma StepAlongMajor(big: int, small: int, k: nat)
    requires 0 <= small <= big && big > 0
    ensures var q := Nearest(k * small, big);
            var err := big * (1 + q) - small * (1 + k);
            && 2 * err > -small
            && -2 * big <= err <= 2 * big
            && Nearest((k + 1) * small, big) == q + (if 2 * err < big then 1 else 0)
  {
    var q := Nearest(k * small, big);
    NearestBounds(k * small, big);
    var next := StepFrom(big, small, k, q);
    NearestUnique((k + 1) * small, big, next);
  }

  lemma StepFrom(big: int, small: int, k: nat, q: nat) returns (next: nat)
    requires 0 <= small <= big && big > 0 && -big <= 2 * (q * big - k * small) < big
    ensures var err := big * (1 + q) - small * (1 + k);
            && 2 * err > -small
            && -2 * big <= err <= 2 * big
            && next == q + (if 2 * err < big then 1 else 0)
    ensures -big <= 2 * (next * big - (k + 1) * small) < big
  {
    var qb, ks := q * big, k * small;
    var err := big * (1 + q) - small * (1 + k);
    ErrInProducts(big, small, q, k);
    if small == big {
      SameMultiple(k, q, big);
    }
    NextIsNearest(big, small, qb, ks, err);
    next := if 2 * err < big then q + 1 else q;
    assert next * big == if 2 * err < big then qb + big else qb;
  }

  lemma SameMultiple(k: int, q: int, d: int)
    requires d > 0 && -d <= 2 * (q * d - k * d) < d
    ensures k == q
  {
    if k < q {
      MultiplesApart(k, q, d);
    } else if q < k {
      MultiplesApart(q, k, d);
    }
  }

  lemma ErrInProducts(big: int, small: int, q: int, k: int)
    ensures big * (1 + q) - small * (1 + k) == big + q * big - small - k * small
    ensures (k + 1) * small == k * small + small && (q + 1) * big == q * big + big
  {
  }

  /** The same step with the two products as plain numbers: everything is linear. */
  lemma NextIsNearest(big: int, small: int, qb: int, ks: int, err: int)
    requires 0 <= small <= big && big > 0 && -big <= 2 * (qb - ks) < big
    requires err == big + qb - small - ks && (small == big ==> qb == ks)
    ensures 2 * err > -small && -2 * big <= err <= 2 * big
    ensures -big <= 2 * ((if 2 * err < big then qb + big else qb) - (ks + small)) < big
  {
  }

  // ----- painting

  /** The frame buffer with one pixel changed. */
  function WithPixel(vram: seq<Word>, x: int, y: int, on: bool): seq<Word>
    requires |vram| == VRAM_WORDS && OnScreen(x, y)
  {
    var bit := y * SCREEN_W + x;
    vram[bit / 32 := WithBit(vram[bit / 32], bit % 32, on)]
  }

  lemma PixelOfWithPixel(vram: seq<Word>, x: int, y: int, on: bool, u: int, v: int)
    requires |vram| == VRAM_WORDS && OnScreen(x, y) && OnScreen(u, v)
    ensures Pixel(WithPixel(vram, x, y, on), u, v) == if u == x && v == y then on else Pixel(vram, u, v)
  {
    PixelIsBit(vram, x, y);
    PixelIsBit(vram, u, v);
    PixelIsBit(WithPixel(vram, x, y, on), u, v);
    if y * 16 + x / 32 == v * 16 + u / 32 {
      BitOfWithBit(vram[y * 16 + x / 32], x % 32, on, u % 32);
    }
  }

  datatype Clip = Clip(enabled: bool, x0: uint32, y0: uint32, x1: uint32, y1: uint32) {
    /** The clip test, on coordinates cast to unsigned. */
    predicate Admits(p: Point) {
      !enabled || (x0 <= Wrap32(p.x) <= x1 && y0 <= Wrap32(p.y) <= y1)
    }
  }

  /** The casts make the clip a rectangle, borders included, that no negative coordinate is in. */
  lemma ClipIsRectangle(clip: Clip, p: Point)
    requires clip.enabled && clip.x1 < 0x8000_0000 && clip.y1 < 0x8000_0000
    requires -0x8000_0000 <= p.x < 0x8000_0000 && -0x8000_0000 <= p.y < 0x8000_0000
    ensures clip.Admits(p) <==> clip.x0 <= p.x && p.x <= clip.x1 && clip.y0 <= p.y && p.y <= clip.y1
  {
  }

  /** `vram` shows `before` with the given pixels painted where the clip allows. */
  ghost predicate Painted(before: seq<Word>, vram: seq<Word>, pixels: seq<Point>, clip: Clip, color: bool)
    requires |before| == |vram| == VRAM_WORDS
  {
    forall x, y | OnScreen(x, y) ::
      Pixel(vram, x, y) == if Point(x, y) in pixels && clip.Admits(Point(x, y)) then color else Pixel(before, x, y)
  }

  const MAX_PIXELS: int := 1000

  class Rasterizer {
    const vram: array<Word>
    var line: Line
    var clip: Clip
    var color: uint32
    var pixelCount: uint32
    var cur: Point

    constructor (vram: array<Word>, line: Line, clip: Clip, color: uint32)
      ensures this.vram == vram && this.line == line && this.clip == clip && this.color == color
    {
      this.vram, this.line, this.clip, this.color := vram, line, clip, color;
      pixelCount, cur := 0, Point(0, 0);
    }

    /** raster_set_pixel */
    method SetPixel(x: int, y: int, on: bool)
      requires vram.Length == VRAM_WORDS && OnScreen(x, y)
      modifies vram
      ensures vram[..] == WithPixel(old(vram[..]), x, y, on)
    {
      var bit := y * SCREEN_W + x;
      var word, b := bit / 32, bit % 32;
      ghost var before := vram[..];
      vram[word] := WithBit(vram[word], b, on);
      assert vram[..] == WithPixel(before, x, y, on);
    }

    /** Paints the pixel at the cursor unless it is clipped or off the screen. */
    method Plot(x: int, y: int, ghost before: seq<Word>, ghost painted: seq<Point>)
      requires vram.Length == |before| == VRAM_WORDS && Painted(before, vram[..], painted, clip, color % 2 == 1)
      modifies vram
      ensures Painted(before, vram[..], painted + [Point(x, y)], clip, color % 2 == 1)
    {
      ghost var previous := vram[..];
      if clip.Admits(Point(x, y)) && OnScreen(x, y) {
        SetPixel(x, y, color % 2 == 1);
      }
      PaintOne(before, previous, vram[..], painted, Point(x, y), clip, color % 2 == 1);
    }

    /** The loop of raster_run, along the trace it follows. */
    method Follow(ghost trace: seq<Point>, ghost errs: seq<int>)
      requires vram.Length == VRAM_WORDS && IsTrace(line, trace, errs)
      modifies this`pixelCount, this`cur, vram
      ensures pixelCount == if |trace| <= MAX_PIXELS then |trace| else MAX_PIXELS + 1
      ensures cur == trace[pixelCount - 1]
      ensures Painted(old(vram[..]), vram[..], trace[..pixelCount], clip, color % 2 == 1)
    {
      ghost var before := vram[..];
      var x1, y1 := line.to.x, line.to.y;
      var deltaX, deltaY := x1 - line.from.x, y1 - line.from.y;
      var right, down := deltaX >= 0, deltaY >= 0;
      var dx := if right then deltaX else -deltaX;
      var dy := if down then -deltaY else deltaY;

      var err := dx + dy;
      var curX, curY := line.from.x, line.from.y;
      var count: uint32 := 0;
      while true
        invariant count as int <= MAX_PIXELS && count < |trace|
        invariant Point(curX, curY) == trace[count] && err == errs[count]
        invariant Painted(before, vram[..], trace[..count], clip, color % 2 == 1)
        decreases MAX_PIXELS - count
      {
        Plot(curX, curY, before, trace[..count]);
        assert trace[..count + 1] == trace[..count] + [trace[count]];

        count := count + 1;
        pixelCount, cur := count, Point(curX, curY);
        if (curX == x1 && curY == y1) || count > MAX_PIXELS {
          break;
        }
        assert count < |trace| && Follows(line, trace[count - 1], errs[count - 1], trace[count], errs[count]);
        var e2 := 2 * err;
        if e2 > dy {
          err, curX := err + dy, curX + (if right then 1 else -1);
        }
        if e2 < dx {
          err, curY := err + dx, curY + (if down then 1 else -1);
        }
      }
    }

    /**
     * raster_run: paints the nearest pixels of the line in order, up to and
     * including its end point unless the pixel cap intervenes.
     */
    method Run()
      requires vram.Length == VRAM_WORDS
      modifies this`pixelCount, this`cur, vram
      ensures pixelCount == if line.Steps() <= MAX_PIXELS then line.Steps() + 1 else MAX_PIXELS + 1
      ensures line.Steps() <= MAX_PIXELS ==> cur == line.to
      ensures Painted(old(vram[..]), vram[..], line.Pixels(pixelCount), clip, color % 2 == 1)
    {
      ghost var trace, errs := TraceOf(line);
      Follow(trace, errs);
      assert trace[..pixelCount] == line.Pixels(pixelCount);
    }
  }

  /** The error tests of one iteration lead from `p` to `q`. */
  predicate Follows(l: Line, p: Point, err: int, q: Point, next: int) {
    var stepX, stepY := 2 * err > -(l.Dy() as int), 2 * err < l.Dx();
    && q.x == p.x + (if stepX then l.Sx() else 0)
    && q.y == p.y + (if stepY then l.Sy() else 0)
    && next == err + (if stepY then l.Dx() else 0) - (if stepX then l.Dy() else 0)
  }

  /** The cursor positions and errors of an uncapped run. */
  ghost predicate IsTrace(l: Line, trace: seq<Point>, errs: seq<int>) {
    && |trace| == |errs| > 0
    && trace[0] == l.from && errs[0] == l.Dx() - l.Dy()
    && (forall k | 0 <= k < |trace| :: trace[k] == l.to <==> k == |trace| - 1)
    && (forall k | 0 < k < |trace| :: Follows(l, trace[k - 1], errs[k - 1], trace[k], errs[k]))
  }

  lemma TraceOf(l: Line) returns (trace: seq<Point>, errs: seq<int>)
    ensures |trace| == l.Steps() + 1 && trace == l.Pixels(l.Steps() + 1)
    ensures IsTrace(l, trace, errs)
  {
    trace := l.Pixels(l.Steps() + 1);
    errs := seq(l.Steps() + 1, k requires 0 <= k => l.Err(k));
    forall k | 0 <= k < |trace|
      ensures trace[k] == l.to <==> k == |trace| - 1
    {
      EndsExactlyAtTo(l, k);
    }
    forall k | 0 < k < |trace|
      ensures Follows(l, trace[k - 1], errs[k - 1], trace[k], errs[k])
    {
      Advance(l, k - 1);
    }
    StartOfTrace(l);
  }

  lemma StartOfTrace(l: Line)
    ensures l.Ideal(0) == l.from && l.Err(0) == l.Dx() - l.Dy()
  {
  }

  lemma EndsExactlyAtTo(l: Line, k: nat)
    requires k <= l.Steps()
    ensures l.Ideal(k) == l.to <==> k == l.Steps()
  {
    IdealEndpoints(l);
    if l.Ideal(k) == l.to {
      IdealEndsOnce(l, k);
    }
  }

  /** Painting one more pixel extends the painted pixels by it. */
  lemma PaintOne(before: seq<Word>, previous: seq<Word>, now: seq<Word>, pixels: seq<Point>, p: Point, clip: Clip,
      color: bool)
    requires |before| == |previous| == |now| == VRAM_WORDS
    requires Painted(before, previous, pixels, clip, color)
    requires if clip.Admits(p) && OnScreen(p.x, p.y) then now == WithPixel(previous, p.x, p.y, color)
             else now == previous
    ensures Painted(before, now, pixels + [p], clip, color)
  {
    forall x, y | OnScreen(x, y)
      ensures Pixel(now, x, y) ==
              if Point(x, y) in pixels + [p] && clip.Admits(Point(x, y)) then color else Pixel(before, x, y)
    {
      if clip.Admits(p) && OnScreen(p.x, p.y) {
        PixelOfWithPixel(previous, p.x, p.y, color, x, y);
      }
    }
  }
}
