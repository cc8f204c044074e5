/**
 * The two-byte record that keeps the LED state vector across power loss
 * (`store_led_states_to_eeprom`, `struct ledstate`, `led_state_is_valid` and
 * the decoding step of `restore_led_states_from_eeprom` in src/main.c).
 */
module Codec {
  import opened Bytes
  import opened Leds

  /** `struct ledstate`: the state byte and its complement-check byte. */
  datatype Record = Record(state: byte, notState: byte)

  function Bit(level: bool): byte
  {
    if level then 1 else 0
  }

  /**
   * The state byte `(left << 2) | (middle << 1) | right`: the three bits are
   * disjoint, so the OR is their sum.
   */
  function Pack(v: LedVector): (b: byte)
    ensures b <= 7
    ensures BitAt(b, 2) == v.left && BitAt(b, 1) == v.middle && BitAt(b, 0) == v.right
  {
    Bit(v.left) * 4 + Bit(v.middle) * 2 + Bit(v.right)
  }

  /** The record a store writes: the state byte and its full 8-bit complement. */
  function Encode(v: LedVector): (r: Record)
    ensures r.state == Pack(v)
    ensures IsValid(r)
    ensures r.notState >= 0xF8
  {
    var s := Pack(v);
    Record(s, Not(s))
  }

  /** `led_state_is_valid`: the state byte equals the 8-bit complement of the check byte. */
  predicate IsValid(r: Record): (ok: bool)
    ensures ok <==> r.notState == Not(r.state)
  {
    r.state == Not(r.notState)
  }

  /** The LED vector read back from bits 2, 1 and 0 of a state byte; higher bits are ignored. */
  function Decode(b: byte): (v: LedVector)
    ensures Pack(v) == b % 8
  {
    LedVector(BitAt(b, 2), BitAt(b, 1), BitAt(b, 0))
  }

  /** Decoding the packed byte gives back the vector. */
  lemma DecodePack(v: LedVector)
    ensures Decode(Pack(v)) == v
    ensures Decode(Encode(v).state) == v
  {
  }

  /** Every byte paired with its complement is valid; any other check byte is rejected. */
  lemma ComplementPairs(b: byte, c: byte)
    ensures IsValid(Record(b, Not(b)))
    ensures c != Not(b) ==> !IsValid(Record(b, c))
  {
  }

  /**
   * A valid record is one that a store writes exactly when its state byte
   * has no bit above bit 2 set; otherwise it still decodes, from its low bits.
   */
  lemma ValidRecordIsEncoded(r: Record)
    requires IsValid(r)
    ensures Encode(Decode(r.state)) == r <==> r.state <= 7
  {
  }

  /** Validation compares all 8 bits, decoding uses only 3: (0xFF, 0x00) is valid and decodes to all on. */
  lemma AllOnesAccepted()
    ensures IsValid(Record(0xFF, 0x00))
    ensures Decode(0xFF) == LedVector(true, true, true)
  {
  }

  /** Corrupting exactly one of the two bytes of a valid record is always detected. */
  lemma SingleByteCorruptionDetected(r: Record, s: Record)
    requires IsValid(r)
    requires (s.state == r.state) != (s.notState == r.notState)
    ensures !IsValid(s)
  {
  }
}
