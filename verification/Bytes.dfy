/**
  Bytes, as memory pages, disk blocks and pipes hold them.
 */
module Bytes {
  type byte = x: nat | x < 256
}
