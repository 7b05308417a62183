/**
 Byte-level vocabulary shared by the PIA register decoder and the terminal:
 8-bit data, 16-bit bus addresses, bit 7, and the C library's `toupper`
 as it behaves in the default "C" locale.
 */
module Bytes {

  type byte = bv8
  type address = bv16

  datatype Option<+T> = None | Some(value: T)

  /** Line feed, as read from the host keyboard. */
  const LF: byte := 0x0A
  /** Carriage return, the Apple-1 line terminator. */
  const CR: byte := 0x0D

  predicate IsLower(b: byte) {
    0x61 <= b <= 0x7A
  }

  predicate IsUpper(b: byte) {
    0x41 <= b <= 0x5A
  }

  /** Bit 7, the strobe / status bit on both ports. */
  predicate Bit7(b: byte) {
    b & 0x80 != 0
  }

  /** Bits 6..0 of a byte. */
  function Low7(b: byte): byte {
    b & 0x7F
  }

  /** `toupper` in the "C" locale: exactly the letters a..z are moved to A..Z,
      every other value (including 0x80..0xFF) is returned unchanged. */
  function ToUpper(b: byte): (r: byte)
    ensures IsLower(b) ==> IsUpper(r) && r + 0x20 == b
    ensures !IsLower(b) ==> r == b
    ensures !IsLower(r)
  {
    if IsLower(b) then b - 0x20 else b
  }
}
