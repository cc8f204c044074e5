/**
 * The store adapter of src/main.c (`single_write_eeprom`, `single_read_eeprom`,
 * `multi_write_eeprom`, `multi_read_eeprom`): the frames it puts on the bus,
 * and an abstract EEPROM that interprets them.
 *
 * Every transaction starts with a 16-bit big-endian address: the high byte
 * `(addr >> 8) & 0xFF`, then the low byte `addr & 0xFF`. The device keeps
 * `MemSize` bytes and stores a write's payload at consecutive addresses from
 * the framed one, wrapping at the end of memory.
 */
module Eeprom {
  import opened Bytes

  /** Size of the 16-bit address space of the store. */
  const MemSize := 0x10000

  /** `(addr >> 8) & 0xFF`, with the arithmetic right shift of the target compiler. */
  function HighByte(addr: int): byte
  {
    ToByte(addr / 256)
  }

  /** `addr & 0xFF` on a two's-complement `int`. */
  function LowByte(addr: int): byte
  {
    ToByte(addr)
  }

  lemma ModUnique(x: int, q: int, r: int)
    requires x == MemSize * q + r && 0 <= r < MemSize
    ensures x % MemSize == r
  {
  }

  /** The high and low address bytes together hold the low 16 bits of the address. */
  lemma PrefixArithmetic(addr: int)
    ensures HighByte(addr) as int * 256 + LowByte(addr) as int == addr % MemSize
  {
    var q, r := addr / 256, addr % 256;
    var q2, r2 := q / 256, q % 256;
    assert addr == 256 * q + r;
    assert q == 256 * q2 + r2;
    assert addr == MemSize * q2 + (256 * r2 + r);
    ModUnique(addr, q2, 256 * r2 + r);
  }

  /** The address the device reads from the first two bytes of a transaction. */
  function FrameAddress(f: seq<byte>): (a: int)
    requires |f| >= 2
    ensures 0 <= a < MemSize
  {
    f[0] as int * 256 + f[1] as int
  }

  /**
   * The address prefix of every transaction, high byte then low byte: the
   * device recovers from it the address modulo 0x10000.
   */
  function AddressFrame(addr: int): (f: seq<byte>)
    ensures |f| == 2
    ensures FrameAddress(f) == addr % MemSize
  {
    PrefixArithmetic(addr);
    [HighByte(addr), LowByte(addr)]
  }

  /**
   * The three bytes `single_write_eeprom` sends: the address prefix, then
   * `data` converted to a `uint8_t`.
   */
  function WriteFrame(addr: int, data: int): (f: seq<byte>)
    ensures |f| == 3
    ensures f[..2] == AddressFrame(addr) && FrameAddress(f) == addr % MemSize
    ensures f[2] as int == data % 256
  {
    AddressFrame(addr) + [ToByte(data)]
  }

  /**
   * The `length + 2` bytes `multi_write_eeprom` sends: the address prefix,
   * then the payload from offset 2.
   */
  function BlockWriteFrame(addr: int, data: seq<byte>): (f: seq<byte>)
    ensures |f| == |data| + 2
    ensures f[..2] == AddressFrame(addr) && FrameAddress(f) == addr % MemSize
    ensures f[2..] == data
  {
    AddressFrame(addr) + data
  }

  /**
   * `multi_write_eeprom`'s buffer: allocate `length + 2` bytes, put the address
   * in front and copy the payload in after it.
   */
  method BuildBlockFrame(addr: int, data: seq<byte>) returns (f: seq<byte>)
    ensures f == BlockWriteFrame(addr, data)
  {
    var buf := new byte[|data| + 2];
    buf[0] := HighByte(addr);
    buf[1] := LowByte(addr);
    var i := 0;
    while i < |data|
      invariant 0 <= i <= |data|
      invariant buf[0] == HighByte(addr) && buf[1] == LowByte(addr)
      invariant forall j :: 0 <= j < i ==> buf[2 + j] == data[j]
    {
      buf[2 + i] := data[i];
      i := i + 1;
    }
    f := buf[..];
    assert f[..2] == AddressFrame(addr);
    assert f[2..] == data;
    assert f == f[..2] + f[2..];
  }

  // ---------------------------------------------------------------------------
  // The device

  /** Memory after the device stores `payload` from address `base` on, one byte after another. */
  function Program(mem: seq<byte>, base: int, payload: seq<byte>): (m: seq<byte>)
    requires |mem| == MemSize
    ensures |m| == MemSize
    decreases |payload|
  {
    if payload == [] then mem
    else Program(mem, base, payload[..|payload| - 1])[(base + |payload| - 1) % MemSize := payload[|payload| - 1]]
  }

  /** What the device does with a transaction it acknowledged: store the bytes after the address. */
  function Deliver(mem: seq<byte>, f: seq<byte>): (m: seq<byte>)
    requires |mem| == MemSize && |f| >= 2
    ensures |m| == MemSize
  {
    Program(mem, FrameAddress(f), f[2..])
  }

  /** The memory after a transaction that either got through (`acked`) or did not. */
  function Send(mem: seq<byte>, f: seq<byte>, acked: bool): (m: seq<byte>)
    requires |mem| == MemSize && |f| >= 2
    ensures |m| == MemSize
  {
    if acked then Deliver(mem, f) else mem
  }

  /** The `n` bytes a sequential read returns from address `base` on. */
  function ReadBlock(mem: seq<byte>, base: int, n: nat): (r: seq<byte>)
    requires |mem| == MemSize
    ensures |r| == n
  {
    seq(n, i requires 0 <= i < n => mem[(base + i) % MemSize])
  }

  /** The address that payload byte `i` of a transaction framed at `base` goes to. */
  function Slot(base: int, i: int): (a: int)
    ensures 0 <= a < MemSize
  {
    (base + i) % MemSize
  }

  /** Whether a payload of `n` bytes framed at `base` reaches address `k`. */
  predicate Reaches(base: int, n: nat, k: int)
  {
    exists i :: 0 <= i < n && Slot(base, i) == k
  }

  lemma ModDistinct(x: int, y: int)
    requires x < y < x + MemSize
    ensures x % MemSize != y % MemSize
  {
  }

  /**
   * After programming at most `MemSize` bytes, byte `i` of the payload sits at
   * `base + i` (wrapped), and every address the payload does not reach keeps
   * its old content.
   */
  lemma {:induction false} ProgramContents(mem: seq<byte>, base: int, payload: seq<byte>)
    requires |mem| == MemSize && |payload| <= MemSize
    ensures forall i :: 0 <= i < |payload| ==> Program(mem, base, payload)[Slot(base, i)] == payload[i]
    ensures forall k :: 0 <= k < MemSize && !Reaches(base, |payload|, k) ==> Program(mem, base, payload)[k] == mem[k]
    decreases |payload|
  {
    if payload != [] {
      var n := |payload| - 1;
      var front := payload[..n];
      ProgramContents(mem, base, front);
      forall i | 0 <= i < n
        ensures Slot(base, i) != Slot(base, n)
      {
        ModDistinct(base + i, base + n);
      }
    }
  }

  /** A single-byte write transaction changes exactly the framed address. */
  lemma DeliverWriteFrame(mem: seq<byte>, addr: int, data: int)
    requires |mem| == MemSize
    ensures Deliver(mem, WriteFrame(addr, data)) == mem[addr % MemSize := ToByte(data)]
  {
    var a := addr % MemSize;
    var payload := WriteFrame(addr, data)[2..];
    assert payload == [ToByte(data)];
    var m := Program(mem, a, payload);
    ProgramContents(mem, a, payload);
    assert Slot(a, 0) == a;
    forall k | 0 <= k < MemSize && k != a
      ensures m[k] == mem[k]
    {
      assert !Reaches(a, 1, k);
    }
    assert m == mem[a := ToByte(data)];
  }

  /** An address-only transaction (the first phase of a read) leaves memory unchanged. */
  lemma DeliverAddressFrame(mem: seq<byte>, addr: int)
    requires |mem| == MemSize
    ensures Deliver(mem, AddressFrame(addr)) == mem
  {
    assert AddressFrame(addr)[2..] == [];
  }

  lemma SlotShift(addr: int, i: int)
    ensures Slot(addr % MemSize, i) == (addr + i) % MemSize
  {
  }

  /** Reading back a block written with `multi_write_eeprom` yields the block that was written. */
  lemma BlockRoundTrip(mem: seq<byte>, addr: int, data: seq<byte>)
    requires |mem| == MemSize && |data| <= MemSize
    ensures ReadBlock(Deliver(mem, BlockWriteFrame(addr, data)), addr, |data|) == data
  {
    var m := Program(mem, addr % MemSize, data);
    assert Deliver(mem, BlockWriteFrame(addr, data)) == m;
    ProgramContents(mem, addr % MemSize, data);
    var r := ReadBlock(m, addr, |data|);
    forall i | 0 <= i < |data|
      ensures r[i] == data[i]
    {
      SlotShift(addr, i);
    }
  }
}
