/** Raw bytes, as in request bodies and uploaded files. */
module Bytes {
  type Byte = bv8
}
