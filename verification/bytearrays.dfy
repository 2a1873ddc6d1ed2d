/** Bytes and byte strings. */
module ByteArrays {

  type Byte = x: int | 0 <= x < 256

  type Bytes = seq<Byte>
}
