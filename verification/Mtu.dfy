/**
 * The memory translation unit of rtl/mtu.v: while a process runs, its base
 * address is in the translation register, and every address it uses goes
 * through the unit.
 */
module Mtu {
  import opened Words

  const WINDOW: int := 0x8000_0000
  const WINDOW_SIZE: int := 0x1000_0000

  /** The upper four bits select the window that is translated. */
  predicate InWindow(addr: uint32) { WINDOW <= addr < WINDOW + WINDOW_SIZE }

  /** addr_out */
  function Mapped(base: uint32, addr: uint32): uint32 {
    if base != 0 && InWindow(addr) then Wrap32(base + (addr - WINDOW)) else addr
  }
}
