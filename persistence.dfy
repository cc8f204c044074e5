/**
 * The persistence controller of src/main.c as functions of its inputs:
 * what `store_led_states_to_eeprom` leaves in the store, and the decision
 * table of `restore_led_states_from_eeprom` (which vector it applies and
 * which pins it drives, in order).
 */
module Persistence {
  import opened Wrappers
  import opened Bytes
  import opened Leds
  import opened Codec
  import opened Eeprom

  /** Store address of the state byte. */
  const StateAddr := 0x00
  /** Store address of the complement-check byte. */
  const CheckAddr := 0x01

  /** Whether each of the two write transactions of a store got through. */
  datatype Acks = Acks(state: bool, check: bool)
  {
    /** The outcome of two stores of the same record: a byte is written if either write got through. */
    function Or(other: Acks): Acks
    {
      Acks(state || other.state, check || other.check)
    }
  }

  const AllAcked := Acks(true, true)

  /** The two write transactions of a store, in order: state byte, then check byte. */
  function StoreFrames(v: LedVector): (fs: seq<seq<byte>>)
  {
    var r := Encode(v);
    [WriteFrame(StateAddr, r.state as int), WriteFrame(CheckAddr, r.notState as int)]
  }

  /**
   * The store's content after writing the record of `v` with the given
   * outcomes: the state byte at 0x00 and the check byte at 0x01, each only if
   * its write got through, and every other address as it was.
   */
  function Stored(mem: seq<byte>, v: LedVector, acks: Acks): (m: seq<byte>)
    requires |mem| == MemSize
    ensures |m| == MemSize
    ensures m[StateAddr] == if acks.state then Encode(v).state else mem[StateAddr]
    ensures m[CheckAddr] == if acks.check then Encode(v).notState else mem[CheckAddr]
    ensures forall k :: 2 <= k < MemSize ==> m[k] == mem[k]
  {
    var r := Encode(v);
    var fs := StoreFrames(v);
    DeliverWriteFrame(mem, StateAddr, r.state as int);
    var m1 := Send(mem, fs[0], acks.state);
    DeliverWriteFrame(m1, CheckAddr, r.notState as int);
    Send(m1, fs[1], acks.check)
  }

  /** What `single_read_eeprom` returns: the addressed byte, or nothing when the transfer failed. */
  function ReadResult(mem: seq<byte>, addr: int, ok: bool): (r: Option<byte>)
    requires |mem| == MemSize
    ensures r == if ok then Some(mem[addr % MemSize]) else None
  {
    if ok then Some(mem[FrameAddress(AddressFrame(addr))]) else None
  }

  /** The state byte of a read pair that is complete and passes the complement check. */
  function Accepted(s0: Option<byte>, s1: Option<byte>): Option<byte>
  {
    if s0.Some? && s1.Some? && IsValid(Record(s0.value, s1.value)) then Some(s0.value) else None
  }

  /**
   * The vector restore applies, given the two reads: the default when a read
   * failed or the pair is invalid, else the vector held in the low three bits
   * of the state byte.
   */
  function Restored(s0: Option<byte>, s1: Option<byte>): (v: LedVector)
    ensures s0.None? || s1.None? ==> v == Default
    ensures s0.Some? && s1.Some? && !IsValid(Record(s0.value, s1.value)) ==> v == Default
    ensures s0.Some? && s1.Some? && IsValid(Record(s0.value, s1.value)) ==> Pack(v) == s0.value % 8
  {
    match Accepted(s0, s1)
    case Some(b) => Decode(b)
    case None => Default
  }

  /** Drive one pin, but only if the LED's level changes. */
  function DriveIfChanged(led: Led, v: LedVector, cur: LedVector): seq<(nat, bool)>
  {
    if v.Get(led) != cur.Get(led) then [(LedPin(led), v.Get(led))] else []
  }

  /** A pin write that moves some LED whose level changes to its new level. */
  ghost predicate DrivesChange(p: (nat, bool), v: LedVector, cur: LedVector)
  {
    exists led :: v.Get(led) != cur.Get(led) && p == (LedPin(led), v.Get(led))
  }

  /** Drive all three pins, left, middle, right. */
  function DriveAll(v: LedVector): seq<(nat, bool)>
  {
    [(LedPin(Left), v.left), (LedPin(Middle), v.middle), (LedPin(Right), v.right)]
  }

  /** A pin write that drives some LED's pin to that LED's level in `v`. */
  ghost predicate DrivesTo(p: (nat, bool), v: LedVector)
  {
    exists led :: p == (LedPin(led), v.Get(led))
  }

  /**
   * The pin writes restore performs, in order, given the current vector: at
   * most one per LED, each driving an LED pin to the level restore applies.
   */
  function RestorePuts(s0: Option<byte>, s1: Option<byte>, cur: LedVector): (puts: seq<(nat, bool)>)
    ensures |puts| <= 3
    ensures forall i :: 0 <= i < |puts| ==> DrivesTo(puts[i], Restored(s0, s1))
  {
    match Accepted(s0, s1)
    case Some(b) =>
      var v := Decode(b);
      DriveIfChanged(Left, v, cur) + DriveIfChanged(Middle, v, cur) + DriveIfChanged(Right, v, cur)
    case None => DriveAll(Default)
  }

  // ---------------------------------------------------------------------------
  // The decision table

  /** A failed read on either address applies the default vector and drives all three pins. */
  lemma ReadFailureFallsBack(s0: Option<byte>, s1: Option<byte>, cur: LedVector)
    requires s0.None? || s1.None?
    ensures Restored(s0, s1) == LedVector(false, true, false)
    ensures RestorePuts(s0, s1, cur) == [(20, false), (21, true), (22, false)]
  {
  }

  /** Two successful reads that fail the complement check apply the default vector and drive all three pins. */
  lemma CorruptionFallsBack(b: byte, c: byte, cur: LedVector)
    requires c != Not(b)
    ensures Restored(Some(b), Some(c)) == LedVector(false, true, false)
    ensures RestorePuts(Some(b), Some(c), cur) == [(20, false), (21, true), (22, false)]
  {
  }

  /**
   * A valid pair decodes bits 2, 1 and 0 of the state byte; a pin is driven
   * exactly when its LED's level changes, and then to the new level.
   */
  lemma ValidPairDecodes(b: byte, cur: LedVector)
    ensures Restored(Some(b), Some(Not(b))) == Decode(b)
    ensures forall led :: (LedPin(led), Decode(b).Get(led)) in RestorePuts(Some(b), Some(Not(b)), cur)
                          <==> Decode(b).Get(led) != cur.Get(led)
    ensures forall i :: 0 <= i < |RestorePuts(Some(b), Some(Not(b)), cur)| ==>
              DrivesChange(RestorePuts(Some(b), Some(Not(b)), cur)[i], Decode(b), cur)
  {
  }

  /**
   * Restoring again from an unchanged, valid store drives no pin, since the
   * LEDs already show the restored vector; a fallback, in contrast, drives all
   * three pins every time.
   */
  lemma RestoreIdempotent(s0: Option<byte>, s1: Option<byte>)
    ensures Accepted(s0, s1).Some? ==> RestorePuts(s0, s1, Restored(s0, s1)) == []
    ensures Accepted(s0, s1).None? ==> |RestorePuts(s0, s1, Restored(s0, s1))| == 3
  {
  }

  // ---------------------------------------------------------------------------
  // Store, then restore

  /** Storing the same vector twice leaves each byte written if either of its two writes got through. */
  lemma StoreTwice(mem: seq<byte>, v: LedVector, a: Acks, b: Acks)
    requires |mem| == MemSize
    ensures Stored(Stored(mem, v, a), v, b) == Stored(mem, v, a.Or(b))
  {
    var m1 := Stored(mem, v, a);
    assert Stored(m1, v, b) == Stored(mem, v, a.Or(b));
  }

  /**
   * A later store of another vector with the same outcomes overwrites exactly
   * what the earlier one wrote.
   */
  lemma StoreOverwrite(mem: seq<byte>, u: LedVector, v: LedVector, a: Acks)
    requires |mem| == MemSize
    ensures Stored(Stored(mem, u, a), v, a) == Stored(mem, v, a)
  {
    var m1 := Stored(mem, u, a);
    assert Stored(m1, v, a) == Stored(mem, v, a);
  }

  /** Restoring from what a complete store wrote gives back the stored vector. */
  lemma StoreRestoreRoundTrip(mem: seq<byte>, v: LedVector)
    requires |mem| == MemSize
    ensures var m := Stored(mem, v, AllAcked);
            Restored(ReadResult(m, StateAddr, true), ReadResult(m, CheckAddr, true)) == v
  {
    DecodePack(v);
  }
}
