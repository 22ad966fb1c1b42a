/** The fixed-width primitive integers that the source instantiates its
    enums with. The conversions never do arithmetic on a representation
    value, only compare it for equality, so each width is just the set of
    integers it can hold. */
module PrimInts {

  newtype U8 = x: int | 0 <= x < 0x100
  newtype I8 = x: int | -0x80 <= x < 0x80
  newtype I32 = x: int | -0x8000_0000 <= x < 0x8000_0000
  newtype I64 = x: int | -0x8000_0000_0000_0000 <= x < 0x8000_0000_0000_0000
  newtype U64 = x: int | 0 <= x < 0x1_0000_0000_0000_0000
}
