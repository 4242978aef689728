/** Bytes as Go's byte (uint8). */
module Bytes {
  /** An 8-bit byte. */
  type byte = b: int | 0 <= b < 256
}
