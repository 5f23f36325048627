/** Go byte slices and strings, both modelled as sequences of bytes. */
module Bytes {
  newtype byte = b: int | 0 <= b < 256

  const LF: byte := 10     // '\n'
  const CR: byte := 13     // '\r'
  const SPACE: byte := 32  // ' '
  const COLON: byte := 58  // ':'
  const AT: byte := 64     // '@'

  /** The bytes of a stream delivered as successive reads, in order. */
  function Flatten(chunks: seq<seq<byte>>): (r: seq<byte>)
  {
    if chunks == [] then [] else chunks[0] + Flatten(chunks[1..])
  }
}
