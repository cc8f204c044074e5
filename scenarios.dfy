/**
 * Whole-system runs of the firmware, from power-on, as callers of `Board`
 * see them through its specifications alone.
 */
module Scenarios {
  import opened Wrappers
  import opened Bytes
  import opened Leds
  import opened Codec
  import opened Eeprom
  import opened Debounce
  import opened Persistence
  import opened Firmware

  /** A device that has never been written: every byte reads 0xFF. */
  function Erased(): (mem: seq<byte>)
    ensures |mem| == MemSize
  {
    seq(MemSize, _ => 0xFF)
  }

  /**
   * First boot: the erased pair (0xFF, 0xFF) fails the complement check, so
   * restore applies the default vector and drives all three pins.
   */
  method FirstBoot() returns (v: LedVector, puts: seq<(nat, bool)>)
    ensures v == LedVector(false, true, false)
    ensures puts == [(20, false), (21, true), (22, false)]
  {
    var b := new Board(Erased());
    b.Restore(true, true);
    CorruptionFallsBack(0xFF, 0xFF, LedVector(false, false, false));
    v, puts := b.Vector(), b.putLog;
  }

  /**
   * The LED state survives power loss: starting from all off, toggle the left
   * LED (which stores the vector), then power on a new board over the same
   * EEPROM and restore.
   */
  method ToggleSurvivesPowerCycle(mem: seq<byte>) returns (before: LedVector, after: LedVector)
    requires |mem| == MemSize
    ensures before == LedVector(true, false, false)
    ensures after == before
  {
    var b := new Board(mem);
    b.Toggle(Left, AllAcked);
    before := b.Vector();
    var b2 := new Board(b.eeprom);
    b2.Restore(true, true);
    StoreRestoreRoundTrip(mem, before);
    after := b2.Vector();
  }

  /** Restoring twice from a valid store drives pins at most the first time, and never the second. */
  method RestoreTwice(v: LedVector) returns (first: seq<(nat, bool)>, second: seq<(nat, bool)>, after: LedVector)
    ensures after == v
    ensures second == []
    ensures forall i :: 0 <= i < |first| ==> DrivesChange(first[i], v, LedVector(false, false, false))
  {
    var b := new Board(Stored(Erased(), v, AllAcked));
    StoreRestoreRoundTrip(Erased(), v);
    b.Restore(true, true);
    first := b.putLog;
    ValidPairDecodes(Encode(v).state, LedVector(false, false, false));
    b.Restore(true, true);
    RestoreIdempotent(Some(Encode(v).state), Some(Encode(v).notState));
    second := b.putLog[|first|..];
    after := b.Vector();
  }

  /** A press held over two polls, then released, toggles the LED once: samples true, false, false, true. */
  method PressAndRelease() returns (v: LedVector)
    ensures v.left == LevelAfter(false, true, [true, false, false, true])
    ensures v == LedVector(true, false, false)
  {
    var b := new Board(Erased());
    b.HandleButton(Left, true, AllAcked, AllAcked);
    b.HandleButton(Left, false, AllAcked, AllAcked);
    b.HandleButton(Left, false, AllAcked, AllAcked);
    b.HandleButton(Left, true, AllAcked, AllAcked);
    v := b.Vector();
    SampleRuns();
    LevelFollowsToggleParity(false, true, [true, false, false, true]);
  }
}
