/**
 The buffer's readers against independent definitions: network byte order as
 a number, the bytes a 16- or 32-bit value is sent as, and the one-byte
 accessors the compound reads are built from.
 */
module BufferProperties {
  import opened Wrappers
  import opened PacketBuffer

  /** The unsigned value of bytes in network byte order, most significant first. */
  function BigEndian(s: seq<bv8>): nat
  {
    if |s| == 0 then 0 else 256 * BigEndian(s[..|s| - 1]) + s[|s| - 1] as nat
  }

  /** The two bytes a 16-bit value is sent as, most significant first. */
  function U16Bytes(v: bv16): seq<bv8>
  {
    [(v >> 8) as bv8, (v & 0xFF) as bv8]
  }

  /** The four bytes a 32-bit value is sent as, most significant first. */
  function U32Bytes(v: bv32): seq<bv8>
  {
    [(v >> 24) as bv8, ((v >> 16) & 0xFF) as bv8, ((v >> 8) & 0xFF) as bv8, (v & 0xFF) as bv8]
  }

  /** `read` is `get` at the cursor, followed by one step of the cursor when it succeeds. */
  lemma ReadIsGetAtCursor(b: BytePacketBuffer)
    ensures Read(b).value == Get(b.buf, b.pos)
    ensures Read(b).pos == if Get(b.buf, b.pos).Some? then b.pos + 1 else b.pos
  {}

  /**
   `get_range` hands out a range only when the byte after it is in range
   too: a range that ends exactly at the capacity is refused.
   */
  lemma GetRangeNeedsNextByte(buf: Bytes, start: nat, len: nat)
    ensures GetRange(buf, start, len).Some? <==> Get(buf, start + len).Some?
  {}

  /** Every byte of a range `get_range` returns is what `get` returns at that index. */
  lemma GetRangeIsGets(buf: Bytes, start: nat, len: nat, i: nat)
    requires GetRange(buf, start, len).Some? && i < len
    ensures Get(buf, start + i) == Some(GetRange(buf, start, len).value[i])
  {
    assert GetRange(buf, start, len).value[i] == buf[start + i];
  }

  lemma BigEndian2(s: seq<bv8>)
    requires |s| == 2
    ensures BigEndian(s) == 256 * s[0] as int + s[1] as int
  {
    var h := s[..1];
    assert h[..0] == [];
    assert BigEndian(h) == h[0] as int;
  }

  lemma BigEndian4(s: seq<bv8>)
    requires |s| == 4
    ensures BigEndian(s)
         == 0x100_0000 * s[0] as int + 0x1_0000 * s[1] as int + 0x100 * s[2] as int + s[3] as int
  {
    BigEndian2(s[..2]);
    assert s[..3][..2] == s[..2];
  }

  /** A 16-bit read is the big-endian value of the two bytes at the cursor. */
  lemma ReadU16IsBigEndian(b: BytePacketBuffer)
    requires ReadU16(b).value.Some?
    ensures ReadU16(b).value.value as int == BigEndian(b.buf[b.pos .. b.pos + 2])
  {
    BigEndian2(b.buf[b.pos .. b.pos + 2]);
  }

  /** A 32-bit read is the big-endian value of the four bytes at the cursor. */
  lemma ReadU32IsBigEndian(b: BytePacketBuffer)
    requires ReadU32(b).value.Some?
    ensures ReadU32(b).value.value as int == BigEndian(b.buf[b.pos .. b.pos + 4])
  {
    BigEndian4(b.buf[b.pos .. b.pos + 4]);
  }

  lemma ComposeU16Splits(v: bv16)
    ensures ComposeU16(U16Bytes(v)[0], U16Bytes(v)[1]) == v
  {}

  lemma ComposeU32Splits(v: bv32)
    ensures ComposeU32(ComposeU16(U32Bytes(v)[0], U32Bytes(v)[1]), ComposeU16(U32Bytes(v)[2], U32Bytes(v)[3])) == v
  {}

  lemma ReadU16Composes(b: BytePacketBuffer)
    requires b.pos + 2 <= MaxBufferSize
    ensures ReadU16(b) == Step(Some(ComposeU16(b.buf[b.pos], b.buf[b.pos + 1])), b.pos + 2)
  {
    assert Read(b) == Step(Some(b.buf[b.pos]), b.pos + 1);
    assert Read(b.(pos := b.pos + 1)) == Step(Some(b.buf[b.pos + 1]), b.pos + 2);
  }

  lemma ReadU32Composes(b: BytePacketBuffer)
    requires b.pos + 4 <= MaxBufferSize
    ensures ReadU32(b)
         == Step(Some(ComposeU32(ComposeU16(b.buf[b.pos], b.buf[b.pos + 1]),
                                 ComposeU16(b.buf[b.pos + 2], b.buf[b.pos + 3]))), b.pos + 4)
  {
    ReadU16Composes(b);
    ReadU16Composes(b.(pos := b.pos + 2));
  }

  /** Reading back the two bytes a 16-bit value is sent as yields the value. */
  lemma ReadU16Inverts(b: BytePacketBuffer, v: bv16)
    requires b.pos + 2 <= MaxBufferSize
    requires b.buf[b.pos .. b.pos + 2] == U16Bytes(v)
    ensures ReadU16(b) == Step(Some(v), b.pos + 2)
  {
    assert b.buf[b.pos] == U16Bytes(v)[0] && b.buf[b.pos + 1] == U16Bytes(v)[1];
    ReadU16Composes(b);
    ComposeU16Splits(v);
  }

  /** Reading back the four bytes a 32-bit value is sent as yields the value. */
  lemma ReadU32Inverts(b: BytePacketBuffer, v: bv32)
    requires b.pos + 4 <= MaxBufferSize
    requires b.buf[b.pos .. b.pos + 4] == U32Bytes(v)
    ensures ReadU32(b) == Step(Some(v), b.pos + 4)
  {
    var w := U32Bytes(v);
    assert b.buf[b.pos] == w[0] && b.buf[b.pos + 1] == w[1];
    assert b.buf[b.pos + 2] == w[2] && b.buf[b.pos + 3] == w[3];
    ReadU32Composes(b);
    ComposeU32Splits(v);
  }
}
