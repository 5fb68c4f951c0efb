/** The limits of the machine's integers, and arithmetic that stops at them. */
module Integers {

  const U32_MAX: nat := 0xFFFF_FFFF
  const U64: nat := 0x1_0000_0000_0000_0000

  /** `saturating_add(1)` on a `u32`. */
  function SaturatingIncU32(n: nat): nat {
    if n < U32_MAX then n + 1 else n
  }

  /** `saturating_add(1)` on a `u64`. */
  function SaturatingIncU64(n: nat): nat {
    if n + 1 < U64 then n + 1 else U64 - 1
  }
}
