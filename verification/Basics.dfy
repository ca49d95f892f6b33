/** Types used throughout: optional values, bytes and 32-bit words as ranges of integers. */
module Basics {

  datatype Option<+T> = None | Some(value: T)

  const WORD := 0x1_0000_0000

  type Byte = b: int | 0 <= b < 256
  type Word = w: int | 0 <= w < 0x1_0000_0000
}
