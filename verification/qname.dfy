/**
 The domain-name decoder `read_qname`: it walks length-prefixed labels and
 follows compression pointers (section 4.1.4 of RFC 1035), joining the labels
 with dots and lower-casing them.

 The decoder's `loop` has no guard against a pointer that leads back to
 itself, so it need not terminate. The model runs the loop body at most `fuel`
 times and reports `OutOfFuel` when that bound is reached; `OutOfFuel` is a
 modelling outcome, not something the decoder ever returns.
 */
module QName {
  import opened Wrappers
  import opened PacketBuffer
  import opened DomainNames

  /** The decoder's result and where it leaves the buffer's cursor, or the fuel bound. */
  datatype NameScan = Finished(value: Option<seq<bv8>>, pos: nat) | OutOfFuel

  /**
   The decoder's local variables between two turns of its loop: `qpos` the
   scan position, `jumped` whether a pointer has been followed, `first` whether
   no label has been read yet, `out` the text so far, and `pos` the buffer's
   own cursor.
   */
  datatype Loop = Loop(qpos: nat, jumped: bool, first: bool, out: seq<bv8>, pos: nat)

  /** What one turn of the loop does: leave the function, or go round again. */
  datatype Turn = Stop(result: NameScan) | Continue(next: Loop)

  /** A length byte is a compression pointer when both of its top bits are set. */
  function IsPointer(len: bv8): (r: bool)
    ensures r <==> len as int >= 0xC0
  {
    len & 0xC0 == 0xC0
  }

  /**
   `((len ^ 0xC0) << 8) | second`: the pointer byte's low six bits followed by
   the next byte, a 14-bit absolute offset into the message.
   */
  function PointerTarget(len: bv8, second: bv8): (r: nat)
    requires IsPointer(len)
    ensures r < 0x4000
    ensures r == 256 * (len as int - 0xC0) + second as int
  {
    ClearPointerBits(len);
    ComposeU16(len ^ 0xC0, second) as nat
  }

  lemma ClearPointerBits(len: bv8)
    requires IsPointer(len)
    ensures (len ^ 0xC0) as int == len as int - 0xC0
  {}

  /**
   One turn of the decoder's loop. A missing length byte, a pointer without
   its second byte, or a label running past the buffer ends the decode with
   `None`; a pointer moves the cursor to just after itself if it is the
   first one; a zero length ends the name; any other length appends a dot (but
   not before the first label) and the lower-cased label.
   */
  function LoopBody(buf: Bytes, s: Loop): (t: Turn)
    ensures t.Continue? && s.jumped ==> t.next.jumped && t.next.pos == s.pos
    ensures t.Stop? && t.result.Finished? && s.jumped ==> t.result.pos == s.pos
  {
    var byte := Get(buf, s.qpos);
    if byte.None? then Stop(Finished(None, s.pos))
    else if IsPointer(byte.value) then
      var pos' := if !s.jumped then s.qpos + 2 else s.pos;
      var second := Get(buf, s.qpos + 1);
      if second.None? then Stop(Finished(None, pos'))
      else Continue(s.(qpos := PointerTarget(byte.value, second.value), jumped := true, pos := pos'))
    else
      var len := byte.value as nat;
      var qpos' := s.qpos + 1;
      if len == 0 then Stop(Finished(Some(s.out), if !s.jumped then qpos' else s.pos))
      else
        var out' := if s.first then s.out else s.out + [Dot];
        var text := GetRange(buf, qpos', len);
        if text.None? then Stop(Finished(None, s.pos))
        else Continue(s.(qpos := qpos' + len, first := false, out := out' + LowerLabel(text.value)))
  }

  /** A `loop`: run `body` until it stops, at most `fuel` times. */
  function Run(body: Loop -> Turn, s: Loop, fuel: nat): NameScan
    decreases fuel
  {
    if fuel == 0 then OutOfFuel
    else match body(s)
      case Stop(r) => r
      case Continue(s') => Run(body, s', fuel - 1)
  }

  /** The decoder's loop body over one buffer. */
  function Body(buf: Bytes): Loop -> Turn
  {
    s => LoopBody(buf, s)
  }

  /** The decoder's loop, started from the loop state `s`. */
  function Scan(buf: Bytes, s: Loop, fuel: nat): NameScan
  {
    Run(Body(buf), s, fuel)
  }

  /** Once a pointer has been followed, the cursor the decode ends with is the one it had then. */
  lemma {:induction false} ScanAfterJump(buf: Bytes, s: Loop, fuel: nat)
    requires s.jumped
    ensures Scan(buf, s, fuel).Finished? ==> Scan(buf, s, fuel).pos == s.pos
    decreases fuel
  {
    if fuel > 0 && LoopBody(buf, s).Continue? {
      ScanAfterJump(buf, LoopBody(buf, s).next, fuel - 1);
    }
  }

  /**
   What holds between turns of a decode that started with the cursor at
   `start`: before any pointer the cursor has not moved and the scan has not
   gone backwards; after one, the cursor is past `start` and inside the
   buffer or at the capacity; the text is lower-case throughout.
   */
  ghost predicate Between(start: nat, s: Loop)
  {
    && (if s.jumped then start < s.pos <= MaxBufferSize else s.pos == start && start <= s.qpos)
    && NoUpper(s.out)
  }

  /** What a decode that started with the cursor at `start` can finish with. */
  ghost predicate Outcome(start: nat, r: NameScan)
  {
    r.Finished? ==>
      && (r.pos == start || start < r.pos <= MaxBufferSize + 1)
      && (r.value.Some? ==> start < r.pos <= MaxBufferSize && NoUpper(r.value.value))
  }

  /** One turn keeps `Between`, and a turn that stops yields an `Outcome`. */
  lemma LoopBodyKeeps(buf: Bytes, start: nat, s: Loop)
    requires Between(start, s)
    ensures LoopBody(buf, s).Continue? ==> Between(start, LoopBody(buf, s).next)
    ensures LoopBody(buf, s).Stop? ==> Outcome(start, LoopBody(buf, s).result)
  {
    var byte := Get(buf, s.qpos);
    if byte.Some? && !IsPointer(byte.value) && byte.value as nat != 0 {
      var text := GetRange(buf, s.qpos + 1, byte.value as nat);
      if text.Some? {
        var out' := if s.first then s.out else s.out + [Dot];
        NoUpperAppend(s.out, [Dot]);
        LowerLabelNoUpper(text.value);
        NoUpperAppend(out', LowerLabel(text.value));
      }
    }
  }

  /** The decoder's loop, from any state that satisfies `Between`, ends with an `Outcome`. */
  lemma {:induction false} ScanKeeps(buf: Bytes, start: nat, s: Loop, fuel: nat)
    requires Between(start, s)
    ensures Outcome(start, Scan(buf, s, fuel))
    decreases fuel
  {
    if fuel > 0 {
      LoopBodyKeeps(buf, start, s);
      if LoopBody(buf, s).Continue? {
        ScanKeeps(buf, start, LoopBody(buf, s).next, fuel - 1);
      }
    }
  }

  /** The loop's variables as `read_qname` sets them up. */
  function Start(b: BytePacketBuffer): Loop
  {
    Loop(b.pos, false, true, [], b.pos)
  }

  /**
   `read_qname` with at most `fuel` turns of its loop. A cursor at or past the
   capacity fails at once and stays put. Otherwise the cursor either does not
   move or moves forward, at most one byte past the capacity (a pointer in the
   last byte); a decoded name leaves it inside the buffer or at the capacity,
   and is lower-case.
   */
  function ReadQName(b: BytePacketBuffer, fuel: nat): (r: NameScan)
    ensures fuel > 0 && b.pos >= MaxBufferSize ==> r == Finished(None, b.pos)
    ensures r.Finished? ==> r.pos == b.pos || b.pos < r.pos <= MaxBufferSize + 1
    ensures r.Finished? && r.value.Some? ==> b.pos < r.pos <= MaxBufferSize && NoUpper(r.value.value)
  {
    ScanKeeps(b.buf, b.pos, Start(b), fuel);
    Scan(b.buf, Start(b), fuel)
  }
}
