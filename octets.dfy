/** Bytes, as the byte strings the servers read from files. */
module Octets {
  type Byte = x: int | 0 <= x < 0x100
}
