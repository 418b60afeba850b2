# diydns packet buffer, in Dafny

This project models the read side of diydns's `BytePacketBuffer` (`src/lib.rs`).
diydns is a small DNS resolver. Its packet buffer is a fixed 512-byte array
with a cursor `pos`. The buffer has bounds-checked accessors (`get`,
`get_range`) and cursor-advancing readers (`read`, `read_u16`, `read_u32`). It
also has the domain-name decoder `read_qname`, which follows the compression
pointers of section 4.1.4 of RFC 1035.

Layout:

- `wrappers.dfy`: `Option`, the model of Rust's `Option`.
- `packet_buffer.dfy` (module `PacketBuffer`): the buffer and every accessor
  except `read_qname`. Each `&mut self` reader is a pure function. It returns
  a `Step`, which holds the value (or `None`) and the cursor the call leaves
  behind. Because of Rust's `?`, a compound read that fails halfway has
  already moved the cursor, and `Step` records that position.
- `domain_names.dfy` (module `DomainNames`): domain names as byte labels. It
  holds:
  - ASCII lower-casing;
  - a reference encoder for the wire form (`EncodeLabels`, `EncodeName`);
  - the dotted text form (`Dotted`).
- `qname.dfy` (module `QName`): `read_qname`. Each turn of the Rust `loop` is
  one application of `LoopBody` to the loop's local variables. The loop need
  not terminate, so `ReadQName` runs at most `fuel` turns and reports
  `OutOfFuel` when the bound is reached. `OutOfFuel` is a modelling outcome,
  not a value the decoder returns.
- `qname_properties.dfy` (module `QNameProperties`): what `read_qname` yields
  on well-formed plain and compressed names, its error paths, and the buffer on
  which it never returns.
- `buffer_properties.dfy` (module `BufferProperties`): the integer readers
  against an independent big-endian definition and against reference
  encoders for 16- and 32-bit values.

## Model

| member | source | states |
|---|---|---|
| `PacketBuffer.New` | src/lib.rs:9-14 | a fresh buffer has the cursor at 0 and every one of its 512 bytes is zero |
| `PacketBuffer.IsInRange` | src/lib.rs:16-22 | succeeds exactly for the indices below the capacity of 512 |
| `PacketBuffer.Get` | src/lib.rs:24-27 | succeeds exactly for in-range indices and then yields the byte stored there |
| `PacketBuffer.GetRange` | src/lib.rs:29-32 | succeeds exactly when `start + len` is below 512, so a range that ends at the last byte is refused; the result has `len` bytes, the i-th being the byte at `start + i` |
| `PacketBuffer.Read` | src/lib.rs:34-38 | in range: the byte at the cursor, and the cursor moves by one; out of range: `None`, and the cursor does not move |
| `PacketBuffer.ComposeU16` | src/lib.rs:41 | the shift-and-or of two bytes is the number `256*hi + lo` |
| `PacketBuffer.ComposeU32` | src/lib.rs:45 | the shift-and-or of two 16-bit halves is the number `65536*hi + lo` |
| `PacketBuffer.ReadU16` | src/lib.rs:40-42 | succeeds exactly when two bytes remain; on success the value is `256*b0 + b1` and the cursor moves by 2; on failure the cursor ends at the capacity, or stays put if it was already there or beyond |
| `PacketBuffer.ReadU32` | src/lib.rs:44-46 | succeeds exactly when four bytes remain; on success the value is the big-endian number of the four bytes and the cursor moves by 4; on failure the cursor ends at the capacity, or stays put if it was already there or beyond |
| `BufferProperties.ReadIsGetAtCursor` | src/lib.rs:34-38 | `read` yields what `get` yields at the cursor, and the cursor moves only when it succeeds |
| `BufferProperties.GetRangeNeedsNextByte` | src/lib.rs:29-32 | `get_range` succeeds if and only if `get` would succeed on the byte just after the range |
| `BufferProperties.GetRangeIsGets` | src/lib.rs:29-32 | every byte of a range `get_range` hands out is the byte `get` returns at that index |
| `BufferProperties.ReadU16IsBigEndian` | src/lib.rs:40-42 | a successful 16-bit read is the network-byte-order value of the two bytes at the cursor |
| `BufferProperties.ReadU32IsBigEndian` | src/lib.rs:44-46 | a successful 32-bit read is the network-byte-order value of the four bytes at the cursor |
| `BufferProperties.ReadU16Composes` | src/lib.rs:40-42 | with two bytes left, `read_u16` is the two `read` calls composed, high byte first |
| `BufferProperties.ReadU32Composes` | src/lib.rs:44-46 | with four bytes left, `read_u32` is the two `read_u16` calls composed, high half first |
| `BufferProperties.ReadU16Inverts` | src/lib.rs:40-42 | reading back the two bytes a 16-bit value is sent as yields that value, and the cursor moves by 2 |
| `BufferProperties.ReadU32Inverts` | src/lib.rs:44-46 | reading back the four bytes a 32-bit value is sent as yields that value, and the cursor moves by 4 |
| `DomainNames.ToLower` | src/lib.rs:79 | the lower-cased byte is never an upper-case letter; it differs from the input exactly when the input is an upper-case letter, and then by 0x20 |
| `DomainNames.LowerLabelNoUpper` | src/lib.rs:79 | a lower-cased label keeps its length and has no upper-case letter |
| `DomainNames.LowerLabelKeeps` | src/lib.rs:79 | lower-casing a label that is already lower-case changes nothing |
| `DomainNames.DottedSnoc` | src/lib.rs:72-79 | reading one more label extends the text by a dot (unless it is the first label) and the lower-cased label |
| `DomainNames.DottedNoUpper` | src/lib.rs:72-79 | the dotted text of any labels has no upper-case letter |
| `QName.IsPointer` | src/lib.rs:57 | a length byte is a compression pointer exactly when it is 0xC0 or more |
| `QName.PointerTarget` | src/lib.rs:63 | a pointer's target is its low six bits followed by the next byte: `256*(len - 0xC0) + second`, below 0x4000 |
| `QName.LoopBody` | src/lib.rs:54-81 | after a pointer has been followed, no later turn moves the cursor |
| `QName.ScanAfterJump` | src/lib.rs:84-86 | once a pointer has been followed, the decode finishes with the cursor it had then |
| `QName.LoopBodyKeeps` | src/lib.rs:54-81 | one turn keeps the loop invariant: before a pointer the cursor stays put; after one it lies past `start` and inside the buffer or at the capacity; the text so far is lower-case |
| `QName.ScanKeeps` | src/lib.rs:54-88 | the whole loop, from any state that keeps the invariant, ends in an allowed outcome |
| `QName.ReadQName` | src/lib.rs:48-89 | with the cursor at or past the capacity, the decode fails and the cursor stays put; otherwise the cursor stays or moves forward, at most one byte past the capacity; a decoded name leaves the cursor inside the buffer or at the capacity, and is lower-case |
| `QNameProperties.RunFuelMonotone` | src/lib.rs:54-82 | for any loop body, more fuel does not change a loop that has already stopped |
| `QNameProperties.RunFixpoint` | src/lib.rs:54-82 | for any loop body, a state the body maps to itself is never left, whatever the fuel |
| `QNameProperties.RunLabels` | src/lib.rs:54-82 | a chain of label turns costs one unit of fuel per label and lands in the state after all of them |
| `QNameProperties.StepLabel` | src/lib.rs:66-80 | an ordinary label adds a dot (except before the first label) and the lower-cased label text, and moves the scan past the label |
| `QNameProperties.StepEnd` | src/lib.rs:66-70 | a zero byte ends the name with the text so far; the cursor moves past the zero unless a pointer was followed |
| `QNameProperties.StepPointer` | src/lib.rs:57-64 | a pointer sends the scan to its target; only the first pointer moves the cursor, to just after itself |
| `QNameProperties.LabelsChain` | src/lib.rs:66-80 | labels that `get` and `get_range` see in wire form are read one per turn |
| `QNameProperties.ScanLabels` | src/lib.rs:54-81 | scanning a sequence of labels in wire form costs one turn per label and lands in the state after all of them |
| `QNameProperties.EncodedLabelsAt` | src/lib.rs:78 | the reference encoder's labels, with a byte of room after them, are ranges `get_range` hands out |
| `QNameProperties.AfterLabelsRead` | src/lib.rs:72-80 | after the labels `M`, a scan that had read `L` has read `L + M` in dotted form and is past the wire form of `M` |
| `QNameProperties.ScanEncodedName` | src/lib.rs:54-86 | from any scan position, an encoded name finishes the decode with the dotted text of all labels read so far |
| `QNameProperties.ScanPointerToName` | src/lib.rs:57-86 | a first pointer to an encoded name finishes the decode with that name's text appended, and the cursor just after the pointer |
| `QNameProperties.ReadQNamePlain` | src/lib.rs:48-89 | the decoder inverts the encoder: an uncompressed name decodes to its lower-cased labels joined by dots, and the cursor ends just past the terminating zero |
| `QNameProperties.ReadQNameCompressed` | src/lib.rs:48-89 | labels followed by a pointer to an encoded name decode to the text of both parts, and the cursor ends just after the pointer |
| `QNameProperties.ScanFirstPointer` | src/lib.rs:57-64 | a pointer met before any other sets the cursor just after itself, and a finished decode keeps that cursor whatever the scan finds beyond it |
| `QNameProperties.FirstPointerFixesCursor` | src/lib.rs:57-64 | with enough fuel to reach the first pointer after the labels `M`, a finished decode leaves the cursor just after that pointer, whatever follows it |
| `QNameProperties.ReadQNameFirstPointer` | src/lib.rs:58-60 | for any fuel, a decode that reaches a pointer and finishes leaves the cursor just after that first pointer; later pointers, labels and failures past it do not move it |
| `QNameProperties.ReadQNameEmpty` | src/lib.rs:68-70 | a zero byte at the cursor is the empty name, and the cursor moves past it |
| `QNameProperties.ReadQNameLabelOverrun` | src/lib.rs:78 | a first label that does not end before the buffer's last byte fails the decode, and the cursor stays put |
| `QNameProperties.ScanLabelOverrun` | src/lib.rs:66-78 | from any scan state, jumped or not, well-formed labels followed by a label that does not end before the last byte fail the decode, and the cursor stays where that state had it |
| `QNameProperties.ScanPointerToOverrun` | src/lib.rs:57-78 | a first pointer to labels that end in an overrunning label fails the decode, with the cursor just after the pointer |
| `QNameProperties.ReadQNameOverrunAfterLabels` | src/lib.rs:48-89 | a label that does not end before the last byte fails the whole decode however many good labels precede it, and the cursor stays where it was |
| `QNameProperties.ReadQNameOverrunAfterPointer` | src/lib.rs:48-89 | labels, a pointer, then labels ending in an overrunning label fail the whole decode, with the cursor just after the pointer |
| `QNameProperties.ScanPointerAtEnd` | src/lib.rs:57-62 | from any scan state, a pointer in the last byte fails the decode for lack of its second byte; the cursor is one byte past the capacity unless an earlier pointer fixed it |
| `QNameProperties.ScanPointerOutOfRange` | src/lib.rs:55-64 | from any scan state, a pointer whose target is 512 or more is followed, and the length byte there cannot be read: the decode fails, and the cursor is just after the pointer unless an earlier pointer fixed it |
| `QNameProperties.ReadQNamePointerAtEnd` | src/lib.rs:58-62 | after any number of good labels, a pointer in the last byte fails the whole decode, after the cursor has been set one byte past the capacity |
| `QNameProperties.ReadQNamePointerOutOfRange` | src/lib.rs:55-64 | after any number of good labels, a pointer whose target lies outside the buffer fails the whole decode, with the cursor just after the pointer |
| `QNameProperties.ReadQNameFuelMonotone` | src/lib.rs:54-82 | once a decode finishes within some fuel, more fuel gives the same name and the same cursor |
| `QNameProperties.ReadQNameSelfPointer` | src/lib.rs:57-64 | a pointer at the cursor that points to itself makes the decoder loop forever: no fuel is enough |
| `QNameProperties.LoopingBufferNeverFinishes` | src/lib.rs:57-64 | a fresh buffer whose first two bytes are `C0 00` makes the decoder loop forever |

## Left out

- `src/main.rs` is not part of this model. It is a command-line driver: it takes a file path from the arguments, loads a captured packet with `BytePacketBuffer::from_file`, parses it with `read_packet`, and prints the header and each record section. `from_file` and `read_packet` are not defined in `src/lib.rs`, so they are not part of this model either.
- The buffer has no writers, so `U16Bytes`, `U32Bytes`, `EncodeLabels` and `EncodeName` are reference encoders written for the round-trip lemmas. They model no function of the source.
- DomainNames.ToLower: label bytes are lower-cased as ASCII only. The source decodes them with `String::from_utf8_lossy` and then applies Unicode `to_lowercase`. Bytes of 0x80 or more become replacement or multi-byte characters there, and the model does not follow them.
- QName.ReadQName: the result is a byte string rather than a Rust `String`, for the same reason.
- QName.ReadQName: the source's loop has no bound. The model bounds it by `fuel` turns; `OutOfFuel` says only that the bound was reached. `ReadQNameFuelMonotone` shows that fuel never changes a finished result, and `ReadQNameSelfPointer` shows that some inputs need unbounded fuel.
- `usize` overflow is not modelled. Every index the code forms is below 0x4000 + 2 * 256, far from the limit.
- A caller may set the public `pos` field to any value. The model allows any `nat` cursor and gives the same outcomes as the source: every access beyond the capacity fails.
