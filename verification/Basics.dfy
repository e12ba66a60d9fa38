/** What several modules share: optional values, bytes, and the limits of an int. */
module Basics {
  datatype Option<+T> = None | Some(value: T)

  type Byte = x: int | 0 <= x < 0x100

  const INT_MIN := -0x8000_0000
  const INT_MAX := 0x7FFF_FFFF
}
