/**
 * The simulator's frame buffer (sim/machine.h): 512 x 384 one-bit pixels packed
 * into 32-bit words, least significant bit leftmost.
 */
module Framebuffer {
  const SCREEN_W: int := 512
  const SCREEN_H: int := 384
  const VRAM_WORDS: int := 6144

  predicate OnScreen(x: int, y: int) {
    0 <= x < SCREEN_W && 0 <= y < SCREEN_H
  }

  // ----- 32-bit words and the bit operators the code applies to them

  /** A 32-bit word; element `i` is the bit of weight 2^i. */
  type Word = w: seq<bool> | |w| == 32 witness seq(32, i requires 0 <= i < 32 => false)

  /** The word with bits [0, n) set. */
  function LowOnes(n: nat): (w: Word) {
    seq(32, i requires 0 <= i < 32 => i < n)
  }

  function Or(v: Word, w: Word): Word {
    seq(32, i requires 0 <= i < 32 => v[i] || w[i])
  }

  function And(v: Word, w: Word): Word {
    seq(32, i requires 0 <= i < 32 => v[i] && w[i])
  }

  function Not(w: Word): Word {
    seq(32, i requires 0 <= i < 32 => !w[i])
  }

  /** `w << n` */
  function Shl(w: Word, n: nat): Word {
    seq(32, i requires 0 <= i < 32 => i >= n && w[i - n])
  }

  /** `w >> n` */
  function Shr(w: Word, n: nat): Word {
    seq(32, i requires 0 <= i < 32 => i + n < 32 && w[i + n])
  }

  // ----- pixels

  /** machine_get_pixel, on the contents of the VRAM array. */
  predicate Pixel(vram: seq<Word>, x: int, y: int)
    requires |vram| == VRAM_WORDS && OnScreen(x, y)
  {
    var bit := y * SCREEN_W + x;
    And(Shr(vram[bit / 32], bit % 32), LowOnes(1)) == LowOnes(1)
  }

  lemma PixelIsBit(vram: seq<Word>, x: int, y: int)
    requires |vram| == VRAM_WORDS && OnScreen(x, y)
    ensures (y * SCREEN_W + x) / 32 == y * 16 + x / 32 < VRAM_WORDS
    ensures (y * SCREEN_W + x) % 32 == x % 32
    ensures Pixel(vram, x, y) == vram[y * 16 + x / 32][x % 32]
  {
    var bit := y * SCREEN_W + x;
    assert bit == 32 * (y * 16 + x / 32) + x % 32;
    var shifted := And(Shr(vram[bit / 32], bit % 32), LowOnes(1));
    assert shifted[0] == vram[bit / 32][bit % 32];
    if vram[bit / 32][bit % 32] {
      assert shifted == LowOnes(1);
    } else {
      assert shifted[0] != LowOnes(1)[0];
    }
  }

  /** One bit of a word switched on or off, as raster_set_pixel does it. */
  function WithBit(w: Word, b: nat, on: bool): Word {
    if on then Or(w, Shl(LowOnes(1), b)) else And(w, Not(Shl(LowOnes(1), b)))
  }

  lemma BitOfWithBit(w: Word, b: nat, on: bool, i: nat)
    requires i < 32
    ensures WithBit(w, b, on)[i] == if i == b then on else w[i]
  {
  }
}
