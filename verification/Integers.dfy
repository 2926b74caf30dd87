/** Fixed-width integers and the conversions between them. */
module Integers {
  const TWO_TO_32: int := 0x1_0000_0000
  const TWO_TO_64: int := 0x1_0000_0000_0000_0000

  type uint16 = x: int | 0 <= x < 0x1_0000
  type uint32 = x: int | 0 <= x < TWO_TO_32
  type int32 = x: int | -0x8000_0000 <= x < 0x8000_0000
  type uint64 = x: int | 0 <= x < TWO_TO_64

  function AsUint32(x: int32): uint32 {
    if x < 0 then x + TWO_TO_32 else x
  }

  function AsInt32(x: uint32): int32 {
    if x >= 0x8000_0000 then x - TWO_TO_32 else x
  }

  /** Widening a signed integer to 64 bits. */
  function SignExtend(x: int32): uint64 {
    if x < 0 then x + TWO_TO_64 else x
  }
}
