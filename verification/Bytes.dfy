/** Machine integers the modelled code works on. Widths are explicit: a value of
    one of these types is always in range, and every truncation is written out
    where the program truncates. */
module Bytes {
  const TWO_16: int := 0x1_0000
  const TWO_31: int := 0x8000_0000
  const TWO_32: int := 0x1_0000_0000
  const TWO_64: int := 0x1_0000_0000_0000_0000

  type byte = x: int | 0 <= x < 0x100
  type u16 = x: int | 0 <= x < 0x1_0000
  type u32 = x: int | 0 <= x < 0x1_0000_0000
  type u64 = x: int | 0 <= x < 0x1_0000_0000_0000_0000

  /** Saturating subtraction of clock readings. */
  function Elapsed(since: nat, now: nat): nat {
    if now < since then 0 else now - since
  }

  datatype Option<+T> = None | Some(value: T)
}
