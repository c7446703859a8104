/** Bytes as they travel on the wire, and the big-endian decoding used by the protocols. */
module Bytes {

  /** One octet: Go's `byte`. */
  type Byte = b: int | 0 <= b < 256

  /** The 16-bit unsigned integer stored big-endian in `hi`, `lo` (Go's binary.BigEndian.Uint16). */
  function BigEndian16(hi: Byte, lo: Byte): (r: int)
    ensures 0 <= r < 0x1_0000
    ensures r / 256 == hi && r % 256 == lo
  {
    hi * 256 + lo
  }

  /** The 32-bit unsigned integer stored big-endian in four bytes. */
  function BigEndian32(b0: Byte, b1: Byte, b2: Byte, b3: Byte): (r: int)
    ensures 0 <= r < 0x1_0000_0000
    ensures r / 0x1_0000 == BigEndian16(b0, b1) && r % 0x1_0000 == BigEndian16(b2, b3)
  {
    BigEndian16(b0, b1) * 0x1_0000 + BigEndian16(b2, b3)
  }
}
