/** Bytes. */
module Bytes {
  type Byte = b: int | 0 <= b < 256 witness 0

  const NEWLINE: Byte := 10
}
