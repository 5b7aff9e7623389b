/** Bytes, shared by the file formats and the cache. */
module Bytes {
  newtype byte = x: int | 0 <= x < 256
}
