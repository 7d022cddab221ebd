/** Bytes, of texts and of database keys. */
module Bytes {
  newtype byte = x: int | 0 <= x < 256
}
