/**
 * The firmware's mutable state and the routines of src/main.c that change it.
 *
 * A `Board` holds the globals of the program (the three LED levels and the
 * three remembered button levels) together with the hardware they act on:
 * the output pin levels, the log of every `gpio_put`, the log of every
 * transaction written to the bus, and the EEPROM's content. The outcome of
 * each bus transfer, the level sampled on a button and the allocator's answer
 * come from the environment and are parameters.
 */
module Firmware {
  import opened Wrappers
  import opened Bytes
  import opened Leds
  import opened Codec
  import opened Eeprom
  import opened Debounce
  import opened Persistence

  class Board {
    // globals of the program
    var left: bool
    var middle: bool
    var right: bool
    var leftLast: bool
    var middleLast: bool
    var rightLast: bool

    // hardware
    /** Output level of every GPIO pin. */
    const pins: array<bool>
    /** Every `gpio_put(pin, level)` performed, in order. */
    var putLog: seq<(nat, bool)>
    /** Every transaction written to the bus, in order. */
    var sent: seq<seq<byte>>
    /** The EEPROM's content. */
    var eeprom: seq<byte>

    /** The LED vector mirrors the pins that drive the LEDs. */
    ghost predicate Mirrored()
      reads this, pins
    {
      pins.Length == NumPins &&
      pins[LedPin(Left)] == left && pins[LedPin(Middle)] == middle && pins[LedPin(Right)] == right
    }

    /** The board invariant: the LEDs mirror their pins and the EEPROM spans the address space. */
    ghost predicate Valid()
      reads this, pins
    {
      Mirrored() && |eeprom| == MemSize
    }

    function Vector(): LedVector
      reads this
    {
      LedVector(left, middle, right)
    }

    /** The remembered level of an LED's button. */
    function Last(led: Led): bool
      reads this
    {
      match led
      case Left => leftLast
      case Middle => middleLast
      case Right => rightLast
    }

    /**
     * Power-on: every LED off, every button remembered as released, the LED
     * pins driven low, and the EEPROM holding whatever it kept.
     */
    constructor (mem: seq<byte>)
      requires |mem| == MemSize
      ensures Valid() && fresh(pins)
      ensures Vector() == LedVector(false, false, false)
      ensures Last(Left) && Last(Middle) && Last(Right)
      ensures eeprom == mem && putLog == [] && sent == []
    {
      left, middle, right := false, false, false;
      leftLast, middleLast, rightLast := true, true, true;
      pins := new bool[NumPins](_ => false);
      putLog := [];
      sent := [];
      eeprom := mem;
    }

    /** `gpio_put`: drive one output pin. */
    method Put(pin: nat, level: bool)
      requires pin < pins.Length
      modifies pins, this`putLog
      ensures pins[..] == old(pins[..])[pin := level]
      ensures putLog == old(putLog) + [(pin, level)]
    {
      pins[pin] := level;
      putLog := putLog + [(pin, level)];
    }

    /** Set the in-memory level of one LED. */
    method SetLevel(led: Led, level: bool)
      modifies this`left, this`middle, this`right
      ensures Vector() == old(Vector()).With(led, level)
    {
      match led
      case Left => left := level;
      case Middle => middle := level;
      case Right => right := level;
    }

    /** Set the remembered level of one button. */
    method SetLast(led: Led, level: bool)
      modifies this`leftLast, this`middleLast, this`rightLast
      ensures Last(led) == level
      ensures forall other :: other != led ==> Last(other) == old(Last(other))
    {
      match led
      case Left => leftLast := level;
      case Middle => middleLast := level;
      case Right => rightLast := level;
    }

    /** `i2c_write_blocking`: put a transaction on the bus; the device acts on it if it got through. */
    method Transmit(f: seq<byte>, acked: bool)
      requires |eeprom| == MemSize && |f| >= 2
      modifies this`sent, this`eeprom
      ensures sent == old(sent) + [f]
      ensures eeprom == Send(old(eeprom), f, acked)
    {
      sent := sent + [f];
      if acked {
        eeprom := Deliver(eeprom, f);
      }
    }

    /** `single_write_eeprom`: write one byte at a 16-bit address. */
    method SingleWrite(addr: int, data: int, acked: bool)
      requires |eeprom| == MemSize
      modifies this`sent, this`eeprom
      ensures sent == old(sent) + [WriteFrame(addr, data)]
      ensures eeprom == Send(old(eeprom), WriteFrame(addr, data), acked)
      ensures eeprom == if acked then old(eeprom)[addr % MemSize := ToByte(data)] else old(eeprom)
    {
      var f := AddressFrame(addr) + [ToByte(data)];
      Transmit(f, acked);
      DeliverWriteFrame(old(eeprom), addr, data);
    }

    /**
     * `single_read_eeprom`: select the address, then read one byte. The
     * failure sentinel -1 is `None`.
     */
    method SingleRead(addr: int, acked: bool) returns (r: Option<byte>)
      requires |eeprom| == MemSize
      modifies this`sent, this`eeprom
      ensures sent == old(sent) + [AddressFrame(addr)]
      ensures eeprom == old(eeprom)
      ensures r == ReadResult(eeprom, addr, acked)
    {
      var f := AddressFrame(addr);
      Transmit(f, acked);
      DeliverAddressFrame(old(eeprom), addr);
      if acked {
        r := Some(eeprom[FrameAddress(f)]);
      } else {
        r := None;
      }
    }

    /**
     * `multi_write_eeprom`: -1 when the buffer cannot be allocated (nothing is
     * sent), otherwise 1 when the transfer got through and 0 when it did not.
     */
    method MultiWrite(addr: int, data: seq<byte>, allocOk: bool, acked: bool) returns (status: int)
      requires |eeprom| == MemSize
      modifies this`sent, this`eeprom
      ensures status == if !allocOk then -1 else if acked then 1 else 0
      ensures !allocOk ==> sent == old(sent) && eeprom == old(eeprom)
      ensures allocOk ==> sent == old(sent) + [BlockWriteFrame(addr, data)]
      ensures allocOk ==> eeprom == Send(old(eeprom), BlockWriteFrame(addr, data), acked)
    {
      if !allocOk {
        return -1;
      }
      var f := BuildBlockFrame(addr, data);
      Transmit(f, acked);
      if acked {
        status := 1;
      } else {
        status := 0;
      }
    }

    /**
     * `multi_read_eeprom`: select the address, then read `length` bytes into
     * `buffer`. A transfer that moves no byte (failure, or `length` 0) gives 0.
     */
    method MultiRead(addr: int, buffer: array<byte>, length: nat, acked: bool) returns (status: int)
      requires |eeprom| == MemSize && length <= buffer.Length
      modifies this`sent, this`eeprom, buffer
      ensures sent == old(sent) + [AddressFrame(addr)]
      ensures eeprom == old(eeprom)
      ensures status == if acked && length > 0 then 1 else 0
      ensures acked ==> buffer[..length] == ReadBlock(eeprom, addr, length)
      ensures acked ==> buffer[length..] == old(buffer[length..])
      ensures !acked ==> buffer[..] == old(buffer[..])
    {
      Transmit(AddressFrame(addr), acked);
      DeliverAddressFrame(old(eeprom), addr);
      if !acked {
        return 0;
      }
      var i := 0;
      while i < length
        invariant 0 <= i <= length
        invariant sent == old(sent) + [AddressFrame(addr)] && eeprom == old(eeprom)
        invariant buffer[..i] == ReadBlock(eeprom, addr, i)
        invariant buffer[length..] == old(buffer[length..])
      {
        buffer[i] := eeprom[(addr + i) % MemSize];
        i := i + 1;
      }
      status := if length > 0 then 1 else 0;
    }

    /** `store_led_states_to_eeprom`: write the state byte at 0x00, then the check byte at 0x01. */
    method Store(acks: Acks)
      requires |eeprom| == MemSize
      modifies this`sent, this`eeprom
      ensures sent == old(sent) + StoreFrames(Vector())
      ensures eeprom == Stored(old(eeprom), Vector(), acks)
    {
      var r := Encode(Vector());
      SingleWrite(StateAddr, r.state as int, acks.state);
      SingleWrite(CheckAddr, r.notState as int, acks.check);
    }

    /**
     * `restore_led_states_from_eeprom`: read both bytes; apply the decoded
     * vector if both reads succeeded and the pair is valid, driving only the
     * pins whose level changes; otherwise apply the default vector and drive
     * all three pins.
     */
    method Restore(stateAcked: bool, checkAcked: bool)
      requires Valid()
      modifies this`left, this`middle, this`right, pins, this`putLog, this`sent, this`eeprom
      ensures Valid()
      ensures sent == old(sent) + [AddressFrame(StateAddr), AddressFrame(CheckAddr)]
      ensures eeprom == old(eeprom)
      ensures var s0 := ReadResult(eeprom, StateAddr, stateAcked);
              var s1 := ReadResult(eeprom, CheckAddr, checkAcked);
              Vector() == Restored(s0, s1) &&
              putLog == old(putLog) + RestorePuts(s0, s1, old(Vector()))
      ensures forall p :: 0 <= p < pins.Length && !IsLedPin(p) ==> pins[p] == old(pins[p])
    {
      var s0 := SingleRead(StateAddr, stateAcked);
      var s1 := SingleRead(CheckAddr, checkAcked);
      if s0.Some? && s1.Some? {
        var ls := Record(s0.value, s1.value);
        if IsValid(ls) {
          ApplyDecoded(Decode(s0.value));
        } else {
          ApplyDefault();
        }
      } else {
        ApplyDefault();
      }
    }

    /** Set one LED's level, driving its pin only if the level changes. */
    method UpdateLed(led: Led, level: bool)
      requires Mirrored()
      modifies this`left, this`middle, this`right, pins, this`putLog
      ensures Mirrored()
      ensures Vector() == old(Vector()).With(led, level)
      ensures putLog == old(putLog) + DriveIfChanged(led, Vector(), old(Vector()))
      ensures forall p :: 0 <= p < pins.Length && p != LedPin(led) ==> pins[p] == old(pins[p])
    {
      if level != Vector().Get(led) {
        SetLevel(led, level);
        Put(LedPin(led), level);
      }
    }

    /** The valid branch of restore: move each LED to its decoded level, in the order left, middle, right. */
    method ApplyDecoded(v: LedVector)
      requires Mirrored()
      modifies this`left, this`middle, this`right, pins, this`putLog
      ensures Mirrored()
      ensures Vector() == v
      ensures putLog == old(putLog) + DriveIfChanged(Left, v, old(Vector()))
                      + DriveIfChanged(Middle, v, old(Vector())) + DriveIfChanged(Right, v, old(Vector()))
      ensures forall p :: 0 <= p < pins.Length && !IsLedPin(p) ==> pins[p] == old(pins[p])
    {
      UpdateLed(Left, v.left);
      UpdateLed(Middle, v.middle);
      UpdateLed(Right, v.right);
    }

    /** The fallback branch of restore: left off, middle on, right off, all three pins driven. */
    method ApplyDefault()
      requires pins.Length == NumPins
      modifies this`left, this`middle, this`right, pins, this`putLog
      ensures Mirrored()
      ensures Vector() == Default
      ensures putLog == old(putLog) + DriveAll(Default)
      ensures forall p :: 0 <= p < pins.Length && !IsLedPin(p) ==> pins[p] == old(pins[p])
    {
      left, middle, right := false, true, false;
      Put(LedPin(Left), left);
      Put(LedPin(Middle), middle);
      Put(LedPin(Right), right);
    }

    /** `toggle_led`: flip one LED, drive its pin, and store the whole vector. */
    method Toggle(led: Led, acks: Acks)
      requires Valid()
      modifies this`left, this`middle, this`right, pins, this`putLog, this`sent, this`eeprom
      ensures Valid()
      ensures Vector() == old(Vector()).Flip(led)
      ensures putLog == old(putLog) + [(LedPin(led), Vector().Get(led))]
      ensures forall p :: 0 <= p < pins.Length && p != LedPin(led) ==> pins[p] == old(pins[p])
      ensures sent == old(sent) + StoreFrames(Vector())
      ensures eeprom == Stored(old(eeprom), Vector(), acks)
    {
      var level := !Vector().Get(led);
      SetLevel(led, level);
      Put(LedPin(led), level);
      Store(acks);
    }

    /**
     * `handle_button`: given the level sampled on the LED's button, toggle the
     * LED on a released-to-pressed transition and store once more afterwards;
     * in every case remember the sample.
     */
    method HandleButton(led: Led, sample: bool, toggleAcks: Acks, storeAcks: Acks)
      requires Valid()
      modifies this`left, this`middle, this`right, this`leftLast, this`middleLast, this`rightLast
      modifies pins, this`putLog, this`sent, this`eeprom
      ensures Valid()
      ensures Last(led) == sample
      ensures forall other :: other != led ==> Last(other) == old(Last(other))
      ensures var fired := Fires(old(Last(led)), sample);
              Vector() == (if fired then old(Vector()).Flip(led) else old(Vector())) &&
              putLog == old(putLog) + (if fired then [(LedPin(led), Vector().Get(led))] else []) &&
              sent == old(sent) + (if fired then StoreFrames(Vector()) + StoreFrames(Vector()) else []) &&
              eeprom == (if fired then Stored(old(eeprom), Vector(), toggleAcks.Or(storeAcks)) else old(eeprom))
      ensures forall p :: 0 <= p < pins.Length && p != LedPin(led) ==> pins[p] == old(pins[p])
    {
      if !sample && Last(led) {
        Toggle(led, toggleAcks);
        Store(storeAcks);
        StoreTwice(old(eeprom), Vector(), toggleAcks, storeAcks);
      }
      SetLast(led, sample);
    }

    /** The remembered button levels, one per LED. */
    function Lasts(): LedVector
      reads this
    {
      LedVector(leftLast, middleLast, rightLast)
    }

    /**
     * One pass of the polling loop of `main`: handle the left, middle and
     * right buttons in turn with the levels sampled in `c`, each button's
     * stores meeting that button's bus outcomes in `acks`. Each LED flips
     * exactly when its own button fires against its remembered level, every
     * button remembers its sample, no pin other than an LED's is touched, and
     * the store ends as the three buttons' stores, in order, leave it. A cycle
     * in which no button fires writes no pin, sends nothing and leaves the
     * store alone.
     */
    method PollCycle(c: LedVector, acks: CycleAcks)
      requires Valid()
      modifies this`left, this`middle, this`right, this`leftLast, this`middleLast, this`rightLast
      modifies pins, this`putLog, this`sent, this`eeprom
      ensures Valid()
      ensures left == if Fires(old(leftLast), c.left) then !old(left) else old(left)
      ensures middle == if Fires(old(middleLast), c.middle) then !old(middle) else old(middle)
      ensures right == if Fires(old(rightLast), c.right) then !old(right) else old(right)
      ensures Lasts() == c
      ensures forall p :: 0 <= p < pins.Length && !IsLedPin(p) ==> pins[p] == old(pins[p])
      ensures eeprom == CycleStored(old(eeprom), old(Vector()), old(Lasts()), c, acks)
      ensures !AnyFires(old(Lasts()), c) ==> putLog == old(putLog) && sent == old(sent)
    {
      var la, ma, ra := acks.left, acks.middle, acks.right;
      ghost var m0, v0, l0 := eeprom, Vector(), Lasts();
      ghost var f0, f1, f2 := Fires(leftLast, c.left), Fires(middleLast, c.middle), Fires(rightLast, c.right);
      HandleButton(Left, c.left, la.toggle, la.store);
      ghost var v1, m1 := Vector(), eeprom;
      HandleButton(Middle, c.middle, ma.toggle, ma.store);
      ghost var v2, m2 := Vector(), eeprom;
      HandleButton(Right, c.right, ra.toggle, ra.store);
      CycleStoredSteps(m0, v0, l0, c, la, ma, ra, f0, v1, m1, f1, v2, m2, f2, Vector(), eeprom);
    }

    /**
     * The polling loop of `main`, one cycle per element of `cycles`, with the
     * bus outcomes of each cycle in `acks`: every LED ends at the level its
     * own button's samples lead to, every button remembers its last sample,
     * and no pin other than an LED's is touched.
     */
    method Poll(cycles: seq<LedVector>, acks: seq<CycleAcks>)
      requires Valid()
      requires |acks| == |cycles|
      modifies this`left, this`middle, this`right, this`leftLast, this`middleLast, this`rightLast
      modifies pins, this`putLog, this`sent, this`eeprom
      ensures Valid()
      ensures PolledTo(old(Vector()), old(Lasts()), cycles, Vector(), Lasts())
      ensures forall p :: 0 <= p < pins.Length && !IsLedPin(p) ==> pins[p] == old(pins[p])
    {
      ghost var v0, l0 := Vector(), Lasts();
      var i := 0;
      while i < |cycles|
        invariant 0 <= i <= |cycles|
        invariant Valid()
        invariant PolledTo(v0, l0, cycles[..i], Vector(), Lasts())
        invariant forall p :: 0 <= p < pins.Length && !IsLedPin(p) ==> pins[p] == old(pins[p])
      {
        ghost var v, l := Vector(), Lasts();
        PollCycle(cycles[i], acks[i]);
        CycleStep(v0, l0, cycles, i, v, l);
        i := i + 1;
      }
      assert cycles[..i] == cycles;
    }
  }

  /** The bus outcomes of one button's two stores: the one inside the toggle and the one after it. */
  datatype ButtonAcks = ButtonAcks(toggle: Acks, store: Acks)
  {
    /** Which bytes at least one of the two stores wrote. */
    function Either(): Acks
    {
      toggle.Or(store)
    }
  }

  /** The bus outcomes of one polling cycle, button by button. */
  datatype CycleAcks = CycleAcks(left: ButtonAcks, middle: ButtonAcks, right: ButtonAcks)

  /** Whether any button fires in a cycle with samples `c` and remembered levels `last`. */
  predicate AnyFires(last: LedVector, c: LedVector)
  {
    Fires(last.left, c.left) || Fires(last.middle, c.middle) || Fires(last.right, c.right)
  }

  /** The store after one button's poll: a button that fires stores the vector `v` twice. */
  function PressStored(mem: seq<byte>, fired: bool, v: LedVector, b: ButtonAcks): seq<byte>
    requires |mem| == MemSize
  {
    if fired then Stored(mem, v, b.Either()) else mem
  }

  /**
   * The store after one polling cycle: the left, middle and right buttons
   * each store the vector as it stands after their own toggle, when they
   * fire. Nothing but addresses 0x00 and 0x01 changes, and a cycle in which
   * no button fires leaves the store alone.
   */
  function CycleStored(m0: seq<byte>, v0: LedVector, last: LedVector, c: LedVector, acks: CycleAcks): (m: seq<byte>)
    requires |m0| == MemSize
    ensures |m| == MemSize
    ensures forall k :: 2 <= k < MemSize ==> m[k] == m0[k]
    ensures !AnyFires(last, c) ==> m == m0
  {
    var f0, f1, f2 := Fires(last.left, c.left), Fires(last.middle, c.middle), Fires(last.right, c.right);
    var v1 := if f0 then v0.Flip(Left) else v0;
    var v2 := if f1 then v1.Flip(Middle) else v1;
    var v3 := if f2 then v2.Flip(Right) else v2;
    PressStored(PressStored(PressStored(m0, f0, v1, acks.left), f1, v2, acks.middle), f2, v3, acks.right)
  }

  /**
   * When every store of a cycle meets the same bus outcomes, a cycle in which
   * some button fires leaves the store holding the vector the cycle ends on.
   */
  lemma UniformCycleStored(m0: seq<byte>, v0: LedVector, last: LedVector, c: LedVector, acks: CycleAcks)
    requires |m0| == MemSize
    requires acks.middle.Either() == acks.left.Either() && acks.right.Either() == acks.left.Either()
    requires AnyFires(last, c)
    ensures CycleStored(m0, v0, last, c, acks) == Stored(m0, CycleLevels(v0, last, c), acks.left.Either())
  {
    var f0, f1, f2 := Fires(last.left, c.left), Fires(last.middle, c.middle), Fires(last.right, c.right);
    var v1 := if f0 then v0.Flip(Left) else v0;
    var v2 := if f1 then v1.Flip(Middle) else v1;
    var v3 := if f2 then v2.Flip(Right) else v2;
    var m1 := PressStored(m0, f0, v1, acks.left);
    var m2 := PressStored(m1, f1, v2, acks.middle);
    assert v3 == CycleLevels(v0, last, c);
    CycleStore(m0, acks.left.Either(), f0, v1, m1, f1, v2, m2, f2, v3, PressStored(m2, f2, v3, acks.right));
  }

  /**
   * With outcomes that differ between buttons the store can end on a vector
   * the cycle passed through: the left and middle buttons fire, the middle
   * button's two stores both fail, and the state byte holds the vector from
   * after the left toggle rather than the final one.
   */
  lemma FailedStoreKeepsEarlierVector(m0: seq<byte>)
    requires |m0| == MemSize
    ensures var m := CycleStored(m0, LedVector(false, false, false), LedVector(true, true, true), LedVector(false, false, true),
                                 CycleAcks(ButtonAcks(AllAcked, AllAcked), ButtonAcks(Acks(false, false), Acks(false, false)),
                                           ButtonAcks(AllAcked, AllAcked)));
            m[StateAddr] == Encode(LedVector(true, false, false)).state &&
            m[StateAddr] != Encode(LedVector(true, true, false)).state
  {
  }

  /** Three button polls, each as `HandleButton` promises, leave the store as `CycleStored` says. */
  lemma CycleStoredSteps(m0: seq<byte>, v0: LedVector, last: LedVector, c: LedVector, la: ButtonAcks, ma: ButtonAcks, ra: ButtonAcks,
                         f0: bool, v1: LedVector, m1: seq<byte>, f1: bool, v2: LedVector, m2: seq<byte>,
                         f2: bool, v3: LedVector, m3: seq<byte>)
    requires |m0| == MemSize
    requires f0 == Fires(last.left, c.left) && f1 == Fires(last.middle, c.middle) && f2 == Fires(last.right, c.right)
    requires v1 == (if f0 then v0.Flip(Left) else v0)
    requires m1 == (if f0 then Stored(m0, v1, la.toggle.Or(la.store)) else m0)
    requires v2 == (if f1 then v1.Flip(Middle) else v1)
    requires m2 == (if f1 then Stored(m1, v2, ma.toggle.Or(ma.store)) else m1)
    requires v3 == (if f2 then v2.Flip(Right) else v2)
    requires m3 == (if f2 then Stored(m2, v3, ra.toggle.Or(ra.store)) else m2)
    ensures m3 == CycleStored(m0, v0, last, c, CycleAcks(la, ma, ra))
  {
  }

  /** The levels sampled on one LED's button over a run of polling cycles. */
  function Column(cycles: seq<LedVector>, led: Led): seq<bool>
  {
    seq(|cycles|, k requires 0 <= k < |cycles| => cycles[k].Get(led))
  }

  /**
   * The LED levels after one polling cycle with button samples `c`, from LED
   * levels `v` and remembered button levels `last`: each LED is where its
   * own button's single sample leads it.
   */
  function CycleLevels(v: LedVector, last: LedVector, c: LedVector): (w: LedVector)
    ensures forall led :: w.Get(led) == LevelAfter(v.Get(led), last.Get(led), [c.Get(led)])
  {
    LedVector(if Fires(last.left, c.left) then !v.left else v.left,
              if Fires(last.middle, c.middle) then !v.middle else v.middle,
              if Fires(last.right, c.right) then !v.right else v.right)
  }

  /**
   * Polling `cycles` from LED levels `v0` and remembered levels `l0` ends at
   * LED levels `v` and remembered levels `l`: each LED and each button as its
   * own button's column of samples leads to.
   */
  ghost predicate PolledTo(v0: LedVector, l0: LedVector, cycles: seq<LedVector>, v: LedVector, l: LedVector)
  {
    forall led ::
      v.Get(led) == LevelAfter(v0.Get(led), l0.Get(led), Column(cycles, led)) &&
      l.Get(led) == TrackerAfter(l0.Get(led), Column(cycles, led))
  }

  /** One more polling cycle extends a polled run by that cycle. */
  lemma CycleStep(v0: LedVector, l0: LedVector, cycles: seq<LedVector>, i: nat, v: LedVector, l: LedVector)
    requires i < |cycles|
    requires PolledTo(v0, l0, cycles[..i], v, l)
    ensures PolledTo(v0, l0, cycles[..i + 1], CycleLevels(v, l, cycles[i]), cycles[i])
  {
    forall led
      ensures CycleLevels(v, l, cycles[i]).Get(led) == LevelAfter(v0.Get(led), l0.Get(led), Column(cycles[..i + 1], led))
      ensures cycles[i].Get(led) == TrackerAfter(l0.Get(led), Column(cycles[..i + 1], led))
    {
      ColumnStep(v0.Get(led), l0.Get(led), cycles, i, led, v.Get(led), l.Get(led));
      PollOnce(v.Get(led), l.Get(led), cycles[i].Get(led));
    }
  }

  /** One more polling cycle extends one button's polled run by that cycle's sample. */
  lemma ColumnStep(level0: bool, last0: bool, cycles: seq<LedVector>, i: nat, led: Led, level: bool, last: bool)
    requires i < |cycles|
    requires level == LevelAfter(level0, last0, Column(cycles[..i], led))
    requires last == TrackerAfter(last0, Column(cycles[..i], led))
    ensures LevelAfter(level0, last0, Column(cycles[..i + 1], led))
            == if Fires(last, cycles[i].Get(led)) then !level else level
    ensures TrackerAfter(last0, Column(cycles[..i + 1], led)) == cycles[i].Get(led)
  {
    ColumnAppend(cycles, i, led);
    PollAppend(level0, last0, Column(cycles[..i], led), cycles[i].Get(led));
  }

  /**
   * Within one cycle, a button that fires stores the whole vector again, so
   * after the three buttons the store holds the final vector if any of them
   * fired, and is untouched otherwise.
   */
  lemma CycleStore(m0: seq<byte>, a: Acks, f0: bool, v1: LedVector, m1: seq<byte>,
                   f1: bool, v2: LedVector, m2: seq<byte>, f2: bool, v3: LedVector, m3: seq<byte>)
    requires |m0| == MemSize
    requires m1 == if f0 then Stored(m0, v1, a) else m0
    requires m2 == if f1 then Stored(m1, v2, a) else m1
    requires m3 == if f2 then Stored(m2, v3, a) else m2
    requires !f1 ==> v2 == v1
    requires !f2 ==> v3 == v2
    ensures m3 == if f0 || f1 || f2 then Stored(m0, v3, a) else m0
  {
    if f0 && f1 {
      StoreOverwrite(m0, v1, v2, a);
    }
    if (f0 || f1) && f2 {
      StoreOverwrite(m0, v2, v3, a);
    }
  }

  /** One more cycle adds that cycle's sample to each button's column. */
  lemma ColumnAppend(cycles: seq<LedVector>, i: nat, led: Led)
    requires i < |cycles|
    ensures Column(cycles[..i + 1], led) == Column(cycles[..i], led) + [cycles[i].Get(led)]
  {
  }
}