/**
 What `read_qname` yields on well-formed names, plain and compressed, where it
 leaves the cursor, what the fuel bound does and does not change, and the
 buffer on which the decoder never stops.

 The lemmas about the loop itself (`Run*`) hold for any loop body; the
 `Step*` lemmas say what the decoder's body does to one kind of byte.
 */
module QNameProperties {
  import opened Wrappers
  import opened PacketBuffer
  import opened DomainNames
  import opened QName

  // ---------------------------------------------------------------------------
  // Any loop

  /** A turn that stops ends the loop with its result. */
  lemma RunStop(body: Loop -> Turn, s: Loop, fuel: nat)
    requires fuel > 0 && body(s).Stop?
    ensures Run(body, s, fuel) == body(s).result
  {}

  /** A turn that goes round again costs one unit of fuel. */
  lemma RunContinue(body: Loop -> Turn, s: Loop, fuel: nat)
    requires body(s).Continue?
    ensures Run(body, s, fuel + 1) == Run(body, body(s).next, fuel)
  {}

  /** More fuel changes nothing once the loop has stopped. */
  lemma {:induction false} RunFuelMonotone(body: Loop -> Turn, s: Loop, fuel: nat, more: nat)
    requires fuel <= more
    requires Run(body, s, fuel).Finished?
    ensures Run(body, s, more) == Run(body, s, fuel)
    decreases fuel
  {
    if body(s).Continue? {
      RunFuelMonotone(body, body(s).next, fuel - 1, more - 1);
    }
  }

  /** A state the body maps to itself is never left: the loop runs out of any fuel. */
  lemma {:induction false} RunFixpoint(body: Loop -> Turn, s: Loop, fuel: nat)
    requires body(s) == Continue(s)
    ensures Run(body, s, fuel) == OutOfFuel
    decreases fuel
  {
    if fuel > 0 {
      RunFixpoint(body, s, fuel - 1);
    }
  }

  /** The state after an ordinary label `l`, as the decoder's body computes it. */
  function NextLabel(s: Loop, l: seq<bv8>): Loop
  {
    s.(qpos := s.qpos + 1 + |l|, first := false, out := (if s.first then s.out else s.out + [Dot]) + LowerLabel(l))
  }

  /** The state after the labels `M`, one after another. */
  function AfterLabels(s: Loop, M: seq<seq<bv8>>): Loop
    decreases |M|
  {
    if |M| == 0 then s else AfterLabels(NextLabel(s, M[0]), M[1..])
  }

  /** The body reads the labels `M` one per turn, starting from `s`. */
  ghost predicate Chain(body: Loop -> Turn, s: Loop, M: seq<seq<bv8>>)
    decreases |M|
  {
    |M| == 0 || (body(s) == Continue(NextLabel(s, M[0])) && Chain(body, NextLabel(s, M[0]), M[1..]))
  }

  /** Reading `n` labels costs `n` units of fuel and nothing else. */
  lemma {:induction false} RunLabels(body: Loop -> Turn, s: Loop, M: seq<seq<bv8>>, fuel: nat)
    requires Chain(body, s, M)
    ensures Run(body, s, fuel + |M|) == Run(body, AfterLabels(s, M), fuel)
    decreases |M|
  {
    if |M| > 0 {
      RunLabels(body, NextLabel(s, M[0]), M[1..], fuel);
      assert fuel + |M| == (fuel + |M[1..]|) + 1;
    }
  }

  // ---------------------------------------------------------------------------
  // The decoder's body, one byte kind at a time

  /** `buf` holds the bytes `s` from index `q` on. */
  ghost predicate HoldsAt(buf: Bytes, q: nat, s: seq<bv8>)
  {
    q + |s| <= |buf| && forall i :: 0 <= i < |s| ==> buf[q + i] == s[i]
  }

  /** The labels `M` in wire form from `q` on, each one a range `get_range` hands out. */
  ghost predicate LabelsAt(buf: Bytes, q: nat, M: seq<seq<bv8>>)
    decreases |M|
  {
    |M| == 0 ||
    (&& ValidLabel(M[0])
     && q + 1 + |M[0]| < MaxBufferSize
     && buf[q] as int == |M[0]|
     && GetRange(buf, q + 1, |M[0]|) == Some(M[0])
     && LabelsAt(buf, q + 1 + |M[0]|, M[1..]))
  }

  /** `get_range` over bytes the buffer holds yields exactly them. */
  lemma GetRangeHolds(buf: Bytes, q: nat, l: seq<bv8>)
    requires q + |l| < MaxBufferSize && HoldsAt(buf, q, l)
    ensures GetRange(buf, q, |l|) == Some(l)
  {
    var text := GetRange(buf, q, |l|).value;
    forall i | 0 <= i < |l|
      ensures text[i] == l[i]
    {
      assert buf[q + i] == l[i];
    }
    assert text == l;
  }

  /** An ordinary label is appended and skipped, wherever the scan is. */
  lemma StepLabel(buf: Bytes, s: Loop, l: seq<bv8>)
    requires ValidLabel(l)
    requires s.qpos + 1 + |l| < MaxBufferSize
    requires buf[s.qpos] as int == |l| && GetRange(buf, s.qpos + 1, |l|) == Some(l)
    ensures LoopBody(buf, s) == Continue(NextLabel(s, l))
  {}

  /** A zero length byte ends the name; the cursor moves past it unless a pointer was followed. */
  lemma StepEnd(buf: Bytes, s: Loop)
    requires s.qpos < MaxBufferSize && buf[s.qpos] == 0
    ensures LoopBody(buf, s) == Stop(Finished(Some(s.out), if s.jumped then s.pos else s.qpos + 1))
  {}

  /**
   A pointer to `t` moves the scan there; the first pointer also moves the
   cursor to just after itself.
   */
  lemma StepPointer(buf: Bytes, s: Loop, t: nat)
    requires s.qpos + 1 < MaxBufferSize
    requires buf[s.qpos] as int == 0xC0 + t / 256 && buf[s.qpos + 1] as int == t % 256
    ensures LoopBody(buf, s) == Continue(s.(qpos := t, jumped := true, pos := if s.jumped then s.pos else s.qpos + 2))
  {}

  /** Labels in wire form are read one per turn. */
  lemma {:induction false} LabelsChain(buf: Bytes, s: Loop, M: seq<seq<bv8>>)
    requires LabelsAt(buf, s.qpos, M)
    ensures Chain(Body(buf), s, M)
    decreases |M|
  {
    if |M| > 0 {
      StepLabel(buf, s, M[0]);
      LabelsChain(buf, NextLabel(s, M[0]), M[1..]);
    }
  }

  /** Scanning the labels `M` costs one unit of fuel per label. */
  lemma ScanLabels(buf: Bytes, s: Loop, M: seq<seq<bv8>>, fuel: nat)
    requires LabelsAt(buf, s.qpos, M)
    ensures Scan(buf, s, fuel + |M|) == Scan(buf, AfterLabels(s, M), fuel)
  {
    LabelsChain(buf, s, M);
    RunLabels(Body(buf), s, M, fuel);
  }

  // ---------------------------------------------------------------------------
  // From the encoder's wire form to the decoder's view of it

  lemma HoldsAtAppend(buf: Bytes, q: nat, a: seq<bv8>, b: seq<bv8>)
    requires HoldsAt(buf, q, a + b)
    ensures HoldsAt(buf, q, a) && HoldsAt(buf, q + |a|, b)
  {
    forall i | 0 <= i < |a|
      ensures buf[q + i] == a[i]
    {
      assert (a + b)[i] == a[i];
    }
    forall i | 0 <= i < |b|
      ensures buf[q + |a| + i] == b[i]
    {
      assert (a + b)[|a| + i] == b[i];
    }
  }

  lemma HoldsAtCons(buf: Bytes, q: nat, x: bv8, a: seq<bv8>, b: seq<bv8>)
    requires HoldsAt(buf, q, [x] + a + b)
    ensures buf[q] == x && HoldsAt(buf, q + 1, a) && HoldsAt(buf, q + 1 + |a|, b)
  {
    assert buf[q + 0] == ([x] + a + b)[0];
    forall i | 0 <= i < |a|
      ensures buf[q + 1 + i] == a[i]
    {
      assert ([x] + a + b)[1 + i] == a[i];
    }
    forall i | 0 <= i < |b|
      ensures buf[q + 1 + |a| + i] == b[i]
    {
      assert ([x] + a + b)[1 + |a| + i] == b[i];
    }
  }

  /** The first label of the encoder's output: its length byte, its bytes, and the rest after it. */
  lemma EncodedFirstLabel(buf: Bytes, q: nat, M: seq<seq<bv8>>)
    requires ValidLabels(M) && |M| > 0
    requires HoldsAt(buf, q, EncodeLabels(M))
    ensures |EncodeLabels(M)| == 1 + |M[0]| + |EncodeLabels(M[1..])|
    ensures buf[q] as int == |M[0]|
    ensures HoldsAt(buf, q + 1, M[0])
    ensures HoldsAt(buf, q + 1 + |M[0]|, EncodeLabels(M[1..]))
  {
    HoldsAtCons(buf, q, ByteOf(|M[0]|), M[0], EncodeLabels(M[1..]));
  }

  /** The encoder's labels, in a buffer with room for a byte after them, are what the decoder reads. */
  lemma {:induction false} EncodedLabelsAt(buf: Bytes, q: nat, M: seq<seq<bv8>>)
    requires ValidLabels(M)
    requires q + |EncodeLabels(M)| < MaxBufferSize
    requires HoldsAt(buf, q, EncodeLabels(M))
    ensures LabelsAt(buf, q, M)
    decreases |M|
  {
    if |M| > 0 {
      EncodedFirstLabel(buf, q, M);
      GetRangeHolds(buf, q + 1, M[0]);
      ValidLabelsTail(M);
      EncodedLabelsAt(buf, q + 1 + |M[0]|, M[1..]);
    }
  }

  /**
   After the labels `M`, from a state that has read the labels `L`, the scan
   is past their wire form and the state has read `L + M`.
   */
  lemma {:induction false} AfterLabelsRead(s: Loop, L: seq<seq<bv8>>, M: seq<seq<bv8>>)
    requires ValidLabels(M)
    requires s.first == (|L| == 0) && s.out == Dotted(L)
    ensures AfterLabels(s, M) == s.(qpos := s.qpos + |EncodeLabels(M)|, first := |L + M| == 0, out := Dotted(L + M))
    decreases |M|
  {
    if |M| == 0 {
      assert L + M == L;
    } else {
      ValidLabelsTail(M);
      DottedSnoc(L, M[0]);
      AfterLabelsRead(NextLabel(s, M[0]), L + [M[0]], M[1..]);
      assert L + [M[0]] + M[1..] == L + M;
    }
  }

  /**
   From a state that has read the labels `L`, the encoder's labels `M` at the
   scan position cost one unit of fuel each and leave a state that has read
   `L + M`, with the scan just past them.
   */
  lemma ScanEncodedLabels(buf: Bytes, s: Loop, L: seq<seq<bv8>>, M: seq<seq<bv8>>, fuel: nat)
    requires ValidLabels(M)
    requires s.first == (|L| == 0) && s.out == Dotted(L)
    requires s.qpos + |EncodeLabels(M)| < MaxBufferSize
    requires HoldsAt(buf, s.qpos, EncodeLabels(M))
    ensures Scan(buf, s, fuel + |M|)
         == Scan(buf, s.(qpos := s.qpos + |EncodeLabels(M)|, first := |L + M| == 0, out := Dotted(L + M)), fuel)
  {
    EncodedLabelsAt(buf, s.qpos, M);
    ScanLabels(buf, s, M, fuel);
    AfterLabelsRead(s, L, M);
  }

  /**
   From a state that has read the labels `L`, a whole encoded name `N` at the
   scan position finishes the decode with the text of `L + N`; the cursor
   moves past the terminator unless a pointer was followed before.
   */
  lemma ScanEncodedName(buf: Bytes, s: Loop, L: seq<seq<bv8>>, N: seq<seq<bv8>>, fuel: nat)
    requires ValidLabels(N)
    requires s.first == (|L| == 0) && s.out == Dotted(L)
    requires HoldsAt(buf, s.qpos, EncodeName(N))
    requires fuel > |N|
    ensures Scan(buf, s, fuel)
         == Finished(Some(Dotted(L + N)), if s.jumped then s.pos else s.qpos + |EncodeName(N)|)
  {
    HoldsAtAppend(buf, s.qpos, EncodeLabels(N), [0]);
    ScanEncodedLabels(buf, s, L, N, fuel - |N|);
    var s' := s.(qpos := s.qpos + |EncodeLabels(N)|, first := |L + N| == 0, out := Dotted(L + N));
    assert buf[s'.qpos + 0] == [0 as bv8][0];
    StepEnd(buf, s');
    RunStop(Body(buf), s', fuel - |N|);
  }

  /**
   From a state that has read the labels `L` and followed no pointer, a
   pointer to a whole encoded name `N` finishes the decode with the text of
   `L + N`, and the cursor just after the pointer.
   */
  lemma ScanPointerToName(buf: Bytes, s: Loop, L: seq<seq<bv8>>, t: nat, N: seq<seq<bv8>>, fuel: nat)
    requires ValidLabels(N)
    requires !s.jumped && s.first == (|L| == 0) && s.out == Dotted(L)
    requires s.qpos + 1 < MaxBufferSize
    requires buf[s.qpos] as int == 0xC0 + t / 256 && buf[s.qpos + 1] as int == t % 256
    requires HoldsAt(buf, t, EncodeName(N))
    requires fuel > |N|
    ensures Scan(buf, s, fuel + 1) == Finished(Some(Dotted(L + N)), s.qpos + 2)
  {
    StepPointer(buf, s, t);
    RunContinue(Body(buf), s, fuel);
    ScanEncodedName(buf, LoopBody(buf, s).next, L, N, fuel);
  }

  /**
   The encoder's labels `M` from `q` on, then the length byte of an ordinary
   label that does not end before the buffer's last byte.
   */
  ghost predicate OverrunAfter(buf: Bytes, q: nat, M: seq<seq<bv8>>)
  {
    && ValidLabels(M)
    && HoldsAt(buf, q, EncodeLabels(M))
    && q + |EncodeLabels(M)| < MaxBufferSize
    && 0 < buf[q + |EncodeLabels(M)|] as int < 0xC0
    && q + |EncodeLabels(M)| + 1 + buf[q + |EncodeLabels(M)|] as int >= MaxBufferSize
  }

  /**
   From any state, with or without a pointer followed, the encoder's labels
   `M` followed by a label that does not end before the buffer's last byte
   fail the decode: `get_range` refuses it, and the cursor stays wherever the
   state had it.
   */
  lemma ScanLabelOverrun(buf: Bytes, s: Loop, L: seq<seq<bv8>>, M: seq<seq<bv8>>, fuel: nat)
    requires s.first == (|L| == 0) && s.out == Dotted(L)
    requires OverrunAfter(buf, s.qpos, M)
    requires fuel > |M|
    ensures Scan(buf, s, fuel) == Finished(None, s.pos)
  {
    ScanEncodedLabels(buf, s, L, M, fuel - |M|);
    var s' := s.(qpos := s.qpos + |EncodeLabels(M)|, first := |L + M| == 0, out := Dotted(L + M));
    assert LoopBody(buf, s') == Stop(Finished(None, s.pos));
    RunStop(Body(buf), s', fuel - |M|);
  }

  /**
   From a state that has read the labels `L` and followed no pointer, a
   pointer to labels `N` and then a label that runs past the buffer's last
   byte fails the decode, with the cursor just after the pointer.
   */
  lemma ScanPointerToOverrun(buf: Bytes, s: Loop, L: seq<seq<bv8>>, t: nat, N: seq<seq<bv8>>, fuel: nat)
    requires !s.jumped && s.first == (|L| == 0) && s.out == Dotted(L)
    requires s.qpos + 1 < MaxBufferSize
    requires buf[s.qpos] as int == 0xC0 + t / 256 && buf[s.qpos + 1] as int == t % 256
    requires OverrunAfter(buf, t, N)
    requires fuel > |N|
    ensures Scan(buf, s, fuel + 1) == Finished(None, s.qpos + 2)
  {
    StepPointer(buf, s, t);
    RunContinue(Body(buf), s, fuel);
    ScanLabelOverrun(buf, LoopBody(buf, s).next, L, N, fuel);
  }

  /**
   A pointer in the buffer's last byte has no second byte: the decode fails,
   and the cursor is one byte past the capacity unless an earlier pointer
   had already fixed it.
   */
  lemma ScanPointerAtEnd(buf: Bytes, s: Loop, fuel: nat)
    requires s.qpos == MaxBufferSize - 1 && IsPointer(buf[s.qpos])
    requires fuel > 0
    ensures Scan(buf, s, fuel) == Finished(None, if s.jumped then s.pos else MaxBufferSize + 1)
  {
    RunStop(Body(buf), s, fuel);
  }

  /**
   A pointer to a target outside the buffer is followed, and the next turn
   cannot read a length byte there: the decode fails, with the cursor just
   after the pointer unless an earlier pointer had already fixed it.
   */
  lemma ScanPointerOutOfRange(buf: Bytes, s: Loop, t: nat, fuel: nat)
    requires s.qpos + 1 < MaxBufferSize
    requires buf[s.qpos] as int == 0xC0 + t / 256 && buf[s.qpos + 1] as int == t % 256
    requires MaxBufferSize <= t
    requires fuel > 1
    ensures Scan(buf, s, fuel) == Finished(None, if s.jumped then s.pos else s.qpos + 2)
  {
    StepPointer(buf, s, t);
    var next := LoopBody(buf, s).next;
    RunContinue(Body(buf), s, fuel - 1);
    assert LoopBody(buf, next) == Stop(Finished(None, next.pos));
    RunStop(Body(buf), next, fuel - 1);
  }

  // ---------------------------------------------------------------------------
  // read_qname

  /**
   A name with no pointer decodes to its labels, lower-cased and joined by
   single dots, and the cursor ends one byte past the terminating zero: the
   decoder inverts the encoder. A lone zero byte is the empty name and moves
   the cursor by one.
   */
  lemma ReadQNamePlain(b: BytePacketBuffer, M: seq<seq<bv8>>, fuel: nat)
    requires ValidLabels(M)
    requires HoldsAt(b.buf, b.pos, EncodeName(M))
    requires fuel > |M|
    ensures ReadQName(b, fuel) == Finished(Some(Dotted(M)), b.pos + |EncodeName(M)|)
  {
    ScanEncodedName(b.buf, Start(b), [], M, fuel);
    assert [] + M == M;
  }

  /**
   A name whose labels `M` are followed by a pointer to the name `N` decodes
   to the dotted text of `M` and then `N`, and the cursor ends just after the
   pointer, however far the pointer leads.
   */
  lemma ReadQNameCompressed(b: BytePacketBuffer, M: seq<seq<bv8>>, t: nat, N: seq<seq<bv8>>, fuel: nat)
    requires ValidLabels(M) && ValidLabels(N)
    requires HoldsAt(b.buf, b.pos, EncodeLabels(M))
    requires b.pos + |EncodeLabels(M)| + 1 < MaxBufferSize
    requires b.buf[b.pos + |EncodeLabels(M)|] as int == 0xC0 + t / 256
    requires b.buf[b.pos + |EncodeLabels(M)| + 1] as int == t % 256
    requires HoldsAt(b.buf, t, EncodeName(N))
    requires fuel > |M| + 1 + |N|
    ensures ReadQName(b, fuel) == Finished(Some(Dotted(M + N)), b.pos + |EncodeLabels(M)| + 2)
  {
    var rest := fuel - |M| - 1;
    ScanEncodedLabels(b.buf, Start(b), [], M, rest + 1);
    assert [] + M == M;
    ScanPointerToName(b.buf, Start(b).(qpos := b.pos + |EncodeLabels(M)|, first := |M| == 0, out := Dotted(M)), M, t, N, rest);
  }

  /**
   A pointer met before any other sets the cursor just after itself for good:
   whatever the scan finds beyond it, a finished decode keeps that cursor.
   */
  lemma ScanFirstPointer(buf: Bytes, s: Loop, fuel: nat)
    requires !s.jumped && s.qpos + 1 < MaxBufferSize && IsPointer(buf[s.qpos])
    ensures Scan(buf, s, fuel + 1).Finished? ==> Scan(buf, s, fuel + 1).pos == s.qpos + 2
  {
    RunContinue(Body(buf), s, fuel);
    ScanAfterJump(buf, LoopBody(buf, s).next, fuel);
  }

  /**
   With enough fuel to reach it, the first pointer after the labels `M` fixes
   the cursor just after itself, whatever the buffer holds beyond it.
   */
  lemma FirstPointerFixesCursor(b: BytePacketBuffer, M: seq<seq<bv8>>, fuel: nat)
    requires ValidLabels(M)
    requires HoldsAt(b.buf, b.pos, EncodeLabels(M))
    requires b.pos + |EncodeLabels(M)| + 1 < MaxBufferSize
    requires IsPointer(b.buf[b.pos + |EncodeLabels(M)|])
    requires fuel > |M|
    ensures ReadQName(b, fuel).Finished? ==> ReadQName(b, fuel).pos == b.pos + |EncodeLabels(M)| + 2
  {
    var rest := fuel - |M| - 1;
    ScanEncodedLabels(b.buf, Start(b), [], M, rest + 1);
    ScanFirstPointer(b.buf, Start(b).(qpos := b.pos + |EncodeLabels(M)|, first := |[] + M| == 0, out := Dotted([] + M)), rest);
  }

  /**
   Once a name reaches a pointer, the cursor ends just after that first
   pointer: no later pointer, label or failure moves it again.
   */
  lemma ReadQNameFirstPointer(b: BytePacketBuffer, M: seq<seq<bv8>>, fuel: nat)
    requires ValidLabels(M)
    requires HoldsAt(b.buf, b.pos, EncodeLabels(M))
    requires b.pos + |EncodeLabels(M)| + 1 < MaxBufferSize
    requires IsPointer(b.buf[b.pos + |EncodeLabels(M)|])
    ensures ReadQName(b, fuel).Finished? ==> ReadQName(b, fuel).pos == b.pos + |EncodeLabels(M)| + 2
  {
    if fuel > |M| {
      FirstPointerFixesCursor(b, M, fuel);
    } else if ReadQName(b, fuel).Finished? {
      RunFuelMonotone(Body(b.buf), Start(b), fuel, |M| + 1);
      FirstPointerFixesCursor(b, M, |M| + 1);
    }
  }

  /** A zero byte at the cursor is the empty name; the cursor moves past it. */
  lemma ReadQNameEmpty(b: BytePacketBuffer, fuel: nat)
    requires b.pos < MaxBufferSize && b.buf[b.pos] == 0
    requires fuel > 0
    ensures ReadQName(b, fuel) == Finished(Some([]), b.pos + 1)
  {
    StepEnd(b.buf, Start(b));
    RunStop(Body(b.buf), Start(b), fuel);
  }

  /**
   A first label that does not end before the buffer's last byte fails the
   decode, and the cursor stays where it was.
   */
  lemma ReadQNameLabelOverrun(b: BytePacketBuffer, fuel: nat)
    requires b.pos < MaxBufferSize && 0 < b.buf[b.pos] as int < 0xC0
    requires b.pos + 1 + b.buf[b.pos] as int >= MaxBufferSize
    requires fuel > 0
    ensures ReadQName(b, fuel) == Finished(None, b.pos)
  {
    assert LoopBody(b.buf, Start(b)) == Stop(Finished(None, b.pos));
    RunStop(Body(b.buf), Start(b), fuel);
  }

  /**
   A label that does not end before the buffer's last byte fails the decode
   however many labels precede it, and the cursor stays where it was.
   */
  lemma ReadQNameOverrunAfterLabels(b: BytePacketBuffer, M: seq<seq<bv8>>, fuel: nat)
    requires OverrunAfter(b.buf, b.pos, M)
    requires fuel > |M|
    ensures ReadQName(b, fuel) == Finished(None, b.pos)
  {
    ScanLabelOverrun(b.buf, Start(b), [], M, fuel);
  }

  /**
   Labels `M`, a pointer to `t`, then labels `N` and a label that runs past
   the buffer's last byte: the decode fails, but the cursor stays just after
   the pointer, where the jump put it.
   */
  lemma ReadQNameOverrunAfterPointer(b: BytePacketBuffer, M: seq<seq<bv8>>, t: nat, N: seq<seq<bv8>>, fuel: nat)
    requires ValidLabels(M)
    requires HoldsAt(b.buf, b.pos, EncodeLabels(M))
    requires b.pos + |EncodeLabels(M)| + 1 < MaxBufferSize
    requires b.buf[b.pos + |EncodeLabels(M)|] as int == 0xC0 + t / 256
    requires b.buf[b.pos + |EncodeLabels(M)| + 1] as int == t % 256
    requires OverrunAfter(b.buf, t, N)
    requires fuel > |M| + 1 + |N|
    ensures ReadQName(b, fuel) == Finished(None, b.pos + |EncodeLabels(M)| + 2)
  {
    var rest := fuel - |M| - 1;
    ScanEncodedLabels(b.buf, Start(b), [], M, rest + 1);
    assert [] + M == M;
    var s := Start(b).(qpos := b.pos + |EncodeLabels(M)|, first := |M| == 0, out := Dotted(M));
    assert Scan(b.buf, Start(b), fuel) == Scan(b.buf, s, rest + 1);
    ScanPointerToOverrun(b.buf, s, M, t, N, rest);
  }

  /**
   After the labels `M`, a pointer in the buffer's last byte fails the decode
   for want of its second byte, but only after the cursor has been moved past
   both: one byte beyond the capacity. With no labels, the pointer is the
   first byte read.
   */
  lemma ReadQNamePointerAtEnd(b: BytePacketBuffer, M: seq<seq<bv8>>, fuel: nat)
    requires ValidLabels(M)
    requires HoldsAt(b.buf, b.pos, EncodeLabels(M))
    requires b.pos + |EncodeLabels(M)| == MaxBufferSize - 1
    requires IsPointer(b.buf[MaxBufferSize - 1])
    requires fuel > |M|
    ensures ReadQName(b, fuel) == Finished(None, MaxBufferSize + 1)
  {
    ScanEncodedLabels(b.buf, Start(b), [], M, fuel - |M|);
    ScanPointerAtEnd(b.buf, Start(b).(qpos := b.pos + |EncodeLabels(M)|, first := |[] + M| == 0, out := Dotted([] + M)), fuel - |M|);
  }

  /**
   After the labels `M`, a pointer whose target lies outside the buffer
   fails the decode when the target's length byte cannot be read; the cursor
   stays just after the pointer.
   */
  lemma ReadQNamePointerOutOfRange(b: BytePacketBuffer, M: seq<seq<bv8>>, t: nat, fuel: nat)
    requires ValidLabels(M)
    requires HoldsAt(b.buf, b.pos, EncodeLabels(M))
    requires b.pos + |EncodeLabels(M)| + 1 < MaxBufferSize
    requires b.buf[b.pos + |EncodeLabels(M)|] as int == 0xC0 + t / 256
    requires b.buf[b.pos + |EncodeLabels(M)| + 1] as int == t % 256
    requires MaxBufferSize <= t
    requires fuel > |M| + 1
    ensures ReadQName(b, fuel) == Finished(None, b.pos + |EncodeLabels(M)| + 2)
  {
    ScanEncodedLabels(b.buf, Start(b), [], M, fuel - |M|);
    ScanPointerOutOfRange(b.buf, Start(b).(qpos := b.pos + |EncodeLabels(M)|, first := |[] + M| == 0, out := Dotted([] + M)), t, fuel - |M|);
  }

  /** Once a decode finishes, more fuel gives the same result and cursor. */
  lemma ReadQNameFuelMonotone(b: BytePacketBuffer, fuel: nat, more: nat)
    requires fuel <= more
    requires ReadQName(b, fuel).Finished?
    ensures ReadQName(b, more) == ReadQName(b, fuel)
  {
    RunFuelMonotone(Body(b.buf), Start(b), fuel, more);
  }

  /**
   A pointer at the cursor that points to itself makes the decoder follow it
   forever: no amount of fuel finishes the decode.
   */
  lemma ReadQNameSelfPointer(b: BytePacketBuffer, fuel: nat)
    requires b.pos + 1 < MaxBufferSize
    requires b.buf[b.pos] as int == 0xC0 + b.pos / 256 && b.buf[b.pos + 1] as int == b.pos % 256
    ensures ReadQName(b, fuel) == OutOfFuel
  {
    var s := Start(b);
    StepPointer(b.buf, s, b.pos);
    var s1 := LoopBody(b.buf, s).next;
    StepPointer(b.buf, s1, b.pos);
    if fuel > 0 {
      RunContinue(Body(b.buf), s, fuel - 1);
      RunFixpoint(Body(b.buf), s1, fuel - 1);
    }
  }

  /** A fresh buffer whose first two bytes are `C0 00`: a pointer to offset 0 at offset 0. */
  function LoopingBuffer(): (b: BytePacketBuffer)
    ensures b.pos == 0 && b.buf[0] == 0xC0 && b.buf[1] == 0
  {
    New().(buf := New().buf[0 := 0xC0])
  }

  /** The decoder never returns on `LoopingBuffer`. */
  lemma LoopingBufferNeverFinishes(fuel: nat)
    ensures ReadQName(LoopingBuffer(), fuel) == OutOfFuel
  {
    ReadQNameSelfPointer(LoopingBuffer(), fuel);
  }
}
