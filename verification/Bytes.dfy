/** Bytes of files and of downloaded data. */
module Bytes {
  type Byte = bv8
}
