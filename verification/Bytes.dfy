/** Bytes as unsigned 8-bit integers. */
module Bytes {
  type u8 = x: int | 0 <= x < 256
}
