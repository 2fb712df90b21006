/** Bytes as the codecs see them; an IOBufQueue is the sequence of bytes it holds. */
module Octets {

  type Byte = b: int | 0 <= b < 256

  type Bytes = seq<Byte>

  const LF: Byte := 10
  const CR: Byte := 13

  const INT_MAX := 0x7fff_ffff
  const UINT32 := 0x1_0000_0000
  const UINT64 := 0x1_0000_0000_0000_0000
}
