/**
 * Machine integers shared by the models.  A `uint32` variable is an `int` that
 * the verifier proves to stay inside 32 bits; where the original relies on
 * wrap-around, the models say so with `Wrap32`.
 */
module Words {
  const TWO_16: int := 0x1_0000
  const TWO_32: int := 0x1_0000_0000

  type Byte = b: int | 0 <= b < 256
  type uint16 = w: int | 0 <= w < 0x1_0000
  type uint32 = w: int | 0 <= w < 0x1_0000_0000

  datatype Option<+T> = None | Some(value: T)

  function Wrap32(x: int): uint32 {
    x % 0x1_0000_0000
  }

  function Wrap16(x: int): uint16 {
    x % 0x1_0000
  }

  lemma WrapSmall(a: int)
    requires 0 <= a < TWO_32
    ensures Wrap32(a) == a
  {
  }

  lemma WrapAdd(a: int, b: int)
    ensures Wrap32(Wrap32(a) + b) == Wrap32(a + b)
  {
  }
}
