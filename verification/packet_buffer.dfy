/**
 The read side of the DNS packet buffer: a fixed 512-byte array and a cursor.
 Every accessor checks the capacity bound before touching the array; a read
 that would leave the array fails with `None` instead.

 Rust's `&mut self` reads become pure functions that return the value (or
 `None`) together with the cursor the call leaves behind, because a failed
 compound read can already have moved the cursor.
 */
module PacketBuffer {
  import opened Wrappers

  /** The classic non-EDNS UDP datagram limit. */
  const MaxBufferSize: nat := 512

  /** The buffer's contents: always exactly `MaxBufferSize` bytes. */
  type Bytes = s: seq<bv8> | |s| == MaxBufferSize witness seq(MaxBufferSize, _ => 0)

  /** `pos` is a Rust `usize`; it is public, so a caller may set it anywhere. */
  datatype BytePacketBuffer = BytePacketBuffer(buf: Bytes, pos: nat)

  /** What a cursor-advancing read returns, and where it leaves the cursor. */
  datatype Step<T> = Step(value: Option<T>, pos: nat)

  /** A zero-filled buffer with the cursor at the start. */
  function New(): (b: BytePacketBuffer)
    ensures b.pos == 0
    ensures forall i :: 0 <= i < MaxBufferSize ==> b.buf[i] == 0
  {
    BytePacketBuffer(seq(MaxBufferSize, _ => 0), 0)
  }

  /** `Some(())` exactly for the indices the array has. */
  function IsInRange(pos: nat): (r: Option<()>)
    ensures r.Some? <==> pos < MaxBufferSize
  {
    if pos < MaxBufferSize then Some(()) else None
  }

  /** Random access without moving the cursor. */
  function Get(buf: Bytes, pos: nat): (r: Option<bv8>)
    ensures r.Some? <==> pos < |buf|
    ensures r.Some? ==> r.value == buf[pos]
  {
    if IsInRange(pos).None? then None else Some(buf[pos])
  }

  /**
   The `len` bytes from `start`, without moving the cursor. The bound test is
   on `start + len` itself, so a range whose last byte is the array's last
   byte (index 511) is refused.
   */
  function GetRange(buf: Bytes, start: nat, len: nat): (r: Option<seq<bv8>>)
    ensures r.Some? <==> start + len < |buf|
    ensures r.Some? ==> |r.value| == len
    ensures r.Some? ==> forall i :: 0 <= i < len ==> r.value[i] == buf[start + i]
  {
    if IsInRange(start + len).None? then None else Some(buf[start..start + len])
  }

  /** One byte at the cursor; the cursor moves only on success. */
  function Read(b: BytePacketBuffer): (r: Step<bv8>)
    ensures b.pos < |b.buf| ==> r.value == Some(b.buf[b.pos]) && r.pos == b.pos + 1
    ensures b.pos >= |b.buf| ==> r.value == None && r.pos == b.pos
  {
    if IsInRange(b.pos).None? then Step(None, b.pos)
    else Step(Some(b.buf[b.pos]), b.pos + 1)
  }

  /** `(hi as u16) << 8 | lo as u16`: the two bytes read most significant first. */
  function ComposeU16(hi: bv8, lo: bv8): (r: bv16)
    ensures r as int == 256 * hi as int + lo as int
  {
    ShiftOrIsSum16(hi, lo);
    ((hi as bv16) << 8) | (lo as bv16)
  }

  /** `(hi as u32) << 16 | lo as u32`: the two halves read most significant first. */
  function ComposeU32(hi: bv16, lo: bv16): (r: bv32)
    ensures r as int == 65536 * hi as int + lo as int
  {
    ShiftOrIsSum32(hi, lo);
    ((hi as bv32) << 16) | (lo as bv32)
  }

  // Widening both halves leaves the low bits of the shifted high half clear,
  // so the `|` is a sum.

  lemma ShiftOrIsSum16(hi: bv8, lo: bv8)
    ensures (((hi as bv16) << 8) | (lo as bv16)) as int == 256 * hi as int + lo as int
  {}

  lemma ShiftOrIsSum32(hi: bv16, lo: bv16)
    ensures (((hi as bv32) << 16) | (lo as bv32)) as int == 65536 * hi as int + lo as int
  {}

  /** The larger of the cursor and the capacity: where a read that runs off the end stops. */
  function Clamp(pos: nat): nat
  {
    if pos < MaxBufferSize then MaxBufferSize else pos
  }

  /**
   Two bytes, big-endian. The high byte is read first; when only that one is
   in range the cursor is left one past it, at the capacity.
   */
  function ReadU16(b: BytePacketBuffer): (r: Step<bv16>)
    ensures r.value.Some? <==> b.pos + 2 <= |b.buf|
    ensures r.value.Some? ==>
      && r.pos == b.pos + 2
      && r.value.value as int == 256 * b.buf[b.pos] as int + b.buf[b.pos + 1] as int
    ensures r.value.None? ==> r.pos == Clamp(b.pos)
  {
    var hi := Read(b);
    if hi.value.None? then Step(None, hi.pos)
    else
      var lo := Read(b.(pos := hi.pos));
      if lo.value.None? then Step(None, lo.pos)
      else Step(Some(ComposeU16(hi.value.value, lo.value.value)), lo.pos)
  }

  /**
   Four bytes, big-endian, as two `ReadU16` calls. A failure in either half
   leaves the cursor wherever that half stopped, which is the capacity.
   */
  function ReadU32(b: BytePacketBuffer): (r: Step<bv32>)
    ensures r.value.Some? <==> b.pos + 4 <= |b.buf|
    ensures r.value.Some? ==>
      && r.pos == b.pos + 4
      && r.value.value as int
         == 0x100_0000 * b.buf[b.pos] as int + 0x1_0000 * b.buf[b.pos + 1] as int
          + 0x100 * b.buf[b.pos + 2] as int + b.buf[b.pos + 3] as int
    ensures r.value.None? ==> r.pos == Clamp(b.pos)
  {
    var hi := ReadU16(b);
    if hi.value.None? then Step(None, hi.pos)
    else
      var lo := ReadU16(b.(pos := hi.pos));
      if lo.value.None? then Step(None, lo.pos)
      else Step(Some(ComposeU32(hi.value.value, lo.value.value)), lo.pos)
  }
}
