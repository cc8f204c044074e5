/**
 * Unsigned 8-bit values. A `uint8_t` is modelled by its value 0..255; the
 * C bit operations the firmware applies to bytes are written out as
 * arithmetic on that value.
 */
module Bytes {
  newtype byte = x: int | 0 <= x < 256

  /** Assigning an `int` to a `uint8_t` keeps its value modulo 256 (also `x & 0xFF`). */
  function ToByte(x: int): byte
  {
    (x % 256) as byte
  }

  /** `(uint8_t)~b`: the complement of all 8 bits. */
  function Not(b: byte): byte
  {
    255 - b
  }

  /** `(b >> k) & 1` for the three bit positions the firmware uses. */
  function BitAt(b: byte, k: nat): bool
    requires k <= 2
  {
    match k
    case 0 => b % 2 == 1
    case 1 => (b / 2) % 2 == 1
    case 2 => (b / 4) % 2 == 1
  }

}
