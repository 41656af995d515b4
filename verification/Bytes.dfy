/** Bytes, as bit patterns where codecs shift and mask them and as numbers where they are counted with. */
module Bytes {

  type Byte = bv8

  type Octet = b: int | 0 <= b < 256

  function Joined<T>(pieces: seq<seq<T>>): seq<T> {
    if pieces == [] then [] else pieces[0] + Joined(pieces[1..])
  }
}
