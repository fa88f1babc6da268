/** Unsigned 32-bit arithmetic, where the source can leave the range. */
module Uint32 {
  const TWO_32 := 0x1_0000_0000

  function Sub32(a: nat, b: nat): nat {
    if b <= a then a - b else (a - b) % TWO_32
  }
}
