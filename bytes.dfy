/** Bytes as the converter handles them: the input hash and the serialized payload. */
module Bytes {

  /** An unsigned 8-bit value, C#'s `byte`. */
  newtype byte = x: int | 0 <= x < 256
}
