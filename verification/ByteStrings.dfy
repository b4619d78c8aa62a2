/** Byte strings. */
module ByteStrings {
  type Byte = b: int | 0 <= b < 256
  type Bytes = seq<Byte>

  /** An unsigned little-endian number. */
  function Little(bytes: Bytes): nat {
    if bytes == [] then 0 else bytes[0] + 256 * Little(bytes[1..])
  }
}
