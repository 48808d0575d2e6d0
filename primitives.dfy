/** The fixed-width integer types of the source, with their ranges written out. */
module Primitives {

  /** C# `byte`. */
  newtype byte = x: int | 0 <= x < 0x100

  /** C# `ushort`. */
  newtype uint16 = x: int | 0 <= x < 0x1_0000

  /** C# `uint`. */
  newtype uint32 = x: int | 0 <= x < 0x1_0000_0000

  const UInt16MaxValue: int := 0xFFFF
}
