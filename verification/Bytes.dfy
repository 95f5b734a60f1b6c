/** The octets the protocols below are made of. */
module Bytes {
  type byte = x: int | 0 <= x < 256
}
