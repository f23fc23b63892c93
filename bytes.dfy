/** Raw bytes, the element type of `Vec<u8>` and `&[u8]`. */
module Bytes {

  type byte = b: int | 0 <= b < 256
}
