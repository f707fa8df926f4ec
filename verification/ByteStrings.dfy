/** Bytes, and what pieces of a byte stream add up to. */
module ByteStrings {
  type byte = x: int | 0 <= x < 256

  type Bytes = seq<byte>

  function Total(pieces: seq<Bytes>): Bytes {
    if pieces == [] then [] else Total(pieces[..|pieces| - 1]) + pieces[|pieces| - 1]
  }
}
