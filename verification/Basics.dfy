/** Types and widths that the other modules share. */
module Basics {
  const U32: nat := 0x1_0000_0000
  const MAX63: nat := 0x7FFF_FFFF_FFFF_FFFF
  const U64: nat := 0x1_0000_0000_0000_0000
  const WORD: nat := 0x1_0000000000000000_0000000000000000_0000000000000000_0000000000000000

  type Byte = b: int | 0 <= b < 256

  /** A value that may be missing. */
  datatype Option<T> = None | Some(value: T)
}
