/** Sizes of the fixed-width integers in play. */
module Widths {
  const TWO16: int := 0x1_0000
  const TWO31: int := 0x8000_0000
  const TWO32: int := 0x1_0000_0000
  const TWO48: int := 0x1_0000_0000_0000
  const TWO64: int := 0x1_0000_0000_0000_0000
}
