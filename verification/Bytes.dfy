/** The octet type shared by the byte-level models. */
module Bytes {
  type Byte = x: nat | x < 256 witness 0
}
