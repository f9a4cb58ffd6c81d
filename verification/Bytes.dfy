/** Bytes, for the parts of the program that work below the level of characters. */
module Bytes {
  type byte = b: int | 0 <= b < 256
}
