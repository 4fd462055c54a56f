# kvm — a verified model of the protocol and coordination core

kvm is a software KVM switch. Several machines share displays. When a
trigger USB device (a keyboard, say) is plugged into one machine, that
machine asks its peers to switch the shared displays to the inputs it
prefers. The displays are switched over DDC/CI, and the peers talk over TCP
with a small binary protocol.

This Dafny project models the parts of kvm that hold its logic:

- the wire buffer (`NetworkBuffer`): a fixed-length byte array with a
  cursor and a sticky overflow state, with big-endian integer, bool
  and length-prefixed string codecs and a one-byte peek; the bool travels
  as the one byte its reader takes, and the four-byte write the source
  compiles to is modelled beside it as a finding (`buffers.dfy`,
  `network_buffer.dfy`);
- message framing: the one-byte type tag, the heartbeat, and the
  display→input request and display→result response maps
  (`messages.dfy`, `change_input.dfy`, `display_maps.dfy`, `displays.dfy`);
- the display descriptors: EDID field extraction (section 3.4 of the VESA
  E-EDID standard, with the display name descriptor of section 3.10.3),
  the DDC/CI Set and Get VCP Feature packets, their XOR checksums, reply
  validation and the retry loop (section 4 of the VESA DDC/CI standard),
  the EDID block checksum (section 3.11 of the E-EDID standard), and the
  per-display queue table (`edids.dfy`, `ddc.dfy`);
- per-peer liveness, `Node::Pump`: connect, heartbeat every five seconds,
  receive, and loss after fifteen silent seconds, with the `TimeSpacer`
  that paces the heartbeat (`nodes.dfy`, `timing.dfy`, `sockets.dfy`);
- the cluster: membership, best-effort broadcast, pumping every node and
  routing of received frames by tag (`clusters.dfy`);
- the coordinator `KVM`: INACTIVE / REQUESTING_INPUT / ACTIVE, driven by
  the trigger device arriving and leaving and by responses, and the
  handling of a peer's request (`kvm.dfy`);
- supporting pieces: `ReferenceCounter`, `USBMonitor` with `USBDevice`
  equality, `Result<V, E>`, `InputToString`, `WideStringToString`, the
  listener lists every class keeps, and `ParseOptions` of the command line
  (`references.dfy`, `usb.dfy`, `results.dfy`, `strings.dfy`,
  `listeners.dfy`, `command_line.dfy`, `bytes.dfy`).

Where the source updates objects in place (`NetworkBuffer`, `Node`,
`Cluster`, `KVM`, `USBMonitor`, `TimeSpacer`, `ReferenceCounter`, `EDID`,
the DDC read command and the static queue table, the message classes) the
model is a Dafny `class` with the same fields. Each method is proved
against a function of the old state, and the properties are proved as
lemmas about those functions. Pure code (`Result`, `InputToString`,
`WideStringToString`, the EDID getters, packet construction) is modelled as
functions.

The operating system is a parameter throughout. These become inputs:

- the clock (`now`, in milliseconds);
- the outcome of `connect`, `bind`, `accept` and `recv`;
- the live displays and their current inputs (`Display::ListDisplays`);
- the bytes of each I²C reply;
- the handle a new semaphore gets.

Listener callbacks are returned as the ordered list of calls the source
makes (`Notice(listener, event)`). Frames handed to sockets are returned as
the list of byte strings sent.

### Choices where the source disagrees with itself

The files come from several revisions. Where they disagree, the model makes
the following choices:

- **Buffer cursor.** `NetworkBuffer::Serialize` and `Deserialize` advance
  the storage pointer `m_buffer` and never `m_offset`
  (src/networking/buffer.cpp:123 and :135). The header documents that the
  offset advances (include/networking/buffer.h:110-118), and the rest of
  the code (`Socket::Send` sends `GetOffset()` bytes) relies on that. The
  model advances the offset. The code as written is modelled beside it,
  with its consequence, as a finding below.
- **Count width.** Both map messages write the entry count as a 4-byte
  `uint32_t` but read it into a `uint8_t`. The model's decoders read 4
  bytes and the round trip is proved. The shipped decoders are modelled
  too, as a finding.
- **Strict bound.** A transfer of `n` bytes succeeds only when
  `offset + n < length`, strictly, as written (src/networking/buffer.cpp:121).
  This is kept. Taking a received buffer to be exactly as long as the
  frame received (the reading of `Reset(buffer, size)` given under Left
  out), it has visible consequences that the model proves rather than
  repairs:
  - a frame that fills a received buffer exactly never decodes
    (`ChangeInput.ExactFrameNeverDecodes`,
    `Clusters.LoneRequestFrameIsDropped`);
  - a lone one-byte heartbeat frame cannot be peeked, so it poisons the
    buffer and is forwarded to the listeners instead of refreshing the
    peer (`Messages.ReceivedHeartbeatIsNotRecognised`,
    `Nodes.LoneHeartbeatIsForwarded`).
- **Heartbeat tag.** `HEARTBEAT` is used but absent from
  include/networking/message/types.h:7-10; it is taken to be the next
  enumerator, 2.
- **Display key codec.** The body of `Display::Serialize` is not part of
  this model. A display key (manufacturer letters, product, serial) is
  written as a fixed 9-byte form: three letters, the product in two
  big-endian bytes, the serial in four. The round trip is proved. The
  request decoder of this revision declares its key variable with a
  different type; the model uses the display key on both sides.
- **Cluster pump.** `Cluster::Pump` iterates `for(auto node : m_nodes)`, by
  value, and so pumps copies that are then discarded. It also stores a
  second `Node(socket)` for an accepted peer, without the cluster as its
  listener. The model pumps the stored nodes in place and registers the
  cluster on the accepted node. The code as written is modelled beside it
  (two findings).
- **USB ids.** include/usb/device.h:13-14 declares `VendorID` and
  `ProductID` as `std::string`, while src/platform/mac/monitor.cpp:29
  builds a device from libusb's 16-bit `idVendor` and `idProduct`, and
  src/main.cpp:44 assigns the result of `atoi` to the vendor option. With
  the header's type that assignment would store a single character. The
  model uses 16-bit ids throughout, as libusb and the option parser do.
- **Display order.** include/display/display.h:113-118 declares
  `operator==` and `operator<` for displays, and their bodies are not part
  of this model. `std::map` needs `operator<` to be a strict total order.
  The model orders display keys by manufacturer, then product, then serial
  (`Displays.Less`), and two displays are equal when all three match.
- **Bool width.** `operator<<(bool)` (src/networking/buffer.cpp:106-109)
  passes a `uint8_t` to `HostToNetwork`, whose overloads
  (include/platform/functions.h:10-13) take 16- and 32-bit integers. The
  promotion to `int` selects the `int32_t` one, so four bytes are written,
  while `operator>>(bool)` (src/networking/buffer.cpp:65-70) reads one.
  The model writes one byte, which is what the reader expects. The code as
  written is modelled beside it, as a finding.
- **Response delivery.** `Cluster::OnMessageReceived` routes only
  `CHANGE_INPUT_REQUEST` frames, so `KVM::OnInputChangeResponse` is never
  reached in the shown wiring. It is modelled as the method it is.

## Model

| member | source | states |
|---|---|---|
| `Bytes.Zeros` | src/networking/buffer.cpp:119-129 | `n` bytes, every one zero: what a failed read yields here |
| `Bytes.Be16` | src/networking/buffer.cpp:90-93 | two bytes whose big-endian value is `v` |
| `Bytes.FromBe16` | src/networking/buffer.cpp:45-49 | the value whose big-endian bytes are the input: inverse of `Be16` |
| `Bytes.Be32` | src/networking/buffer.cpp:98-101 | four bytes that `FromBe32` reads back as `v` |
| `Bytes.FromBe32Inverse` | src/networking/buffer.cpp:55-59 | any four bytes decode to a value that encodes back to the same four bytes |
| `Bytes.Truncate32` | src/networking/buffer.cpp:112 | the `static_cast<uint32_t>` of a length is the length itself below 2^32 |
| `Results.Result.DidSucceed` | include/result.h:25-27 | holds exactly when `DidFail` does not |
| `Results.Result.DidFail` | include/result.h:32-34 | true exactly when the result holds an error, so exactly one of the two checks holds |
| `Results.Result.GetValue` | include/result.h:40-42 | only on success; the result is `FromValue` of what it returns |
| `Results.Result.GetError` | include/result.h:48-50 | only on failure; the result is `FromError` of what it returns |
| `Results.ValueConstructorSucceeds` | include/result.h:14-16 | a result built from a value succeeds, does not fail, and gives that value back |
| `Results.ErrorConstructorFails` | include/result.h:18-20 | a result built from an error fails, does not succeed, and gives that error back |
| `Displays.InputToString` | src/display/display.cpp:18-29 | "Unknown" exactly for the inputs outside the six named ones; named inputs get 4- or 5-character names |
| `Displays.InputNamesDistinct` | src/display/display.cpp:20-25 | two different named inputs get different names |
| `Displays.Display.GetInputAsString` | src/display/display.cpp:14-16 | the name `InputToString` gives the stored input |
| `Displays.LessIsStrictTotalOrder` | include/display/display.h:113-118 | the display key order is irreflexive, transitive, asymmetric and total, as `std::map` needs |
| `Displays.EncodeDisplayId` | include/display/display.h:100-103 | the wire form of a display key has the fixed width 9 |
| `Displays.DecodeDisplayId` | include/display/display.h:105-108 | the key read from 9 bytes encodes back to those bytes |
| `Displays.DisplayIdRoundTrip` | include/display/display.h:100-108 | decoding the wire form of a key gives the key back |
| `DisplayMaps.Lookup` | src/kvm.cpp:64-70 | a value is found exactly when the key is present, and it is the value stored with that key |
| `DisplayMaps.Put` | src/networking/message/change_input_request.cpp:28 | `m[k] = v` keeps the keys ascending and adds no key but `k` |
| `DisplayMaps.LookupPut` | src/kvm.cpp:67 | after `m[k] = v`, `k` holds `v` and every other key holds what it held |
| `DisplayMaps.PutGreatestAppends` | src/networking/message/change_input_request.cpp:25-30 | a key above every key in the map is appended at the end |
| `DisplayMaps.PutLastAgain` | src/kvm.cpp:65-69 | storing the last key's own value again changes nothing |
| `DisplayMaps.PutAll` | src/networking/message/change_input_request.cpp:25-30 | a run of assignments keeps the map ascending |
| `DisplayMaps.PutAllAppends` | src/networking/message/change_input_request.cpp:25-30 | assigning an ascending run after smaller keys rebuilds the concatenation |
| `DisplayMaps.LookupPutAll` | src/networking/message/change_input_request.cpp:28 | after a run of assignments each key holds the value of its last assignment, or what it held before |
| `Buffers.NewBuf` | src/networking/buffer.cpp:15-23 | a new buffer: offset 0, length `size`, state OK |
| `Buffers.Load` | src/networking/buffer.cpp:8-13 | a buffer built from bytes holds exactly them, offset 0, state OK |
| `Buffers.Reset` | src/networking/buffer.cpp:33-37 | offset 0 and state OK, stored bytes untouched |
| `Buffers.Serialize` | src/networking/buffer.cpp:131-141 | succeeds iff OK and `offset + n < length`; then the bytes land at the offset, the offset moves by `n` and nothing else changes; on failure nothing is copied; once poisoned nothing changes |
| `Buffers.Deserialize` | src/networking/buffer.cpp:119-129 | succeeds iff OK and `offset + n < length`; then it yields the `n` bytes at the offset and moves past them; otherwise offset and bytes stay and the state is overflow |
| `Buffers.WriteU8` | src/networking/buffer.cpp:84-86 | succeeds iff the buffer was OK and one byte fits strictly before the end; then the byte is stored at the cursor and the cursor moves by one; the length never changes |
| `Buffers.WriteU16` | src/networking/buffer.cpp:90-93 | succeeds iff two bytes fit; the two bytes written read back, big-endian, as the value |
| `Buffers.WriteU32` | src/networking/buffer.cpp:98-101 | succeeds iff four bytes fit; the four bytes written read back, big-endian, as the value |
| `Buffers.WriteBool` | src/networking/buffer.cpp:65-70 | corrected `<< bool`, in the one-byte form `>> bool` reads: succeeds iff one byte fits; the byte written is non-zero iff the value is true |
| `Buffers.WriteBoolAsWritten` | src/networking/buffer.cpp:106-109 | `<< bool` as compiled: succeeds iff four bytes fit, and writes 00 00 00 then 01 for true or 00 for false |
| `Buffers.ReadU8` | src/networking/buffer.cpp:39-41 | the storage is untouched; succeeds iff the buffer was OK and one byte fits; then the value is the byte at the cursor and the cursor moves by one |
| `Buffers.ReadU16` | src/networking/buffer.cpp:45-49 | succeeds iff two bytes fit; the value's big-endian form is the two bytes at the cursor |
| `Buffers.ReadU32` | src/networking/buffer.cpp:55-59 | succeeds iff four bytes fit; the value's big-endian form is the four bytes at the cursor |
| `Buffers.WriteString` | src/networking/buffer.cpp:110-117 | a string over 1024 bytes poisons the buffer; otherwise it succeeds iff the 4-byte length and the bytes fit |
| `Buffers.ReadBool` | src/networking/buffer.cpp:65-70 | a bool is one byte read, true iff it is non-zero |
| `Buffers.ReadString` | src/networking/buffer.cpp:71-82 | a failed length read or a length over 1024 ends in overflow; a successful read yields at most 1024 bytes |
| `Buffers.Peek` | include/networking/buffer.h:60-70 | the offset is restored; it reports success iff the read left the buffer OK; state and value are the read's, so a failed peek stays poisoned |
| `Buffers.PeekU8` | include/networking/buffer.h:65-70 | one-byte peek: success iff OK with a byte to spare, then the buffer is unchanged and the value is the byte at the offset; otherwise poisoned |
| `Buffers.OverflowIsSticky` | src/networking/buffer.cpp:120 | once poisoned, every transfer and both string codecs leave bytes, offset and state as they were |
| `Buffers.HoldsSplit` | src/networking/buffer.cpp:119-129 | reading the front of what a buffer holds yields exactly that front and leaves the rest to read |
| `Buffers.SerializeThenHolds` | src/networking/buffer.cpp:131-141 | what a successful write stored is there to read from where the write began |
| `Buffers.SerializeConcat` | src/networking/buffer.cpp:131-141 | two writes in a row end in the state of one write of both; when that succeeds the buffers are equal |
| `Buffers.U16RoundTrip` | src/networking/buffer.cpp:45-49 | a 16-bit value written and read from the same position comes back unchanged |
| `Buffers.U32RoundTrip` | src/networking/buffer.cpp:55-59 | a 32-bit value written and read from the same position comes back unchanged |
| `Buffers.BoolRoundTrip` | src/networking/buffer.cpp:65-70 | with the corrected one-byte write, a bool written and read back from the same position is the same bool |
| `Buffers.AsWrittenBoolReadsFalse` | src/networking/buffer.cpp:106-109 | with the write as compiled, a bool read back from where it was written is always false, and the read stops three bytes short of the write |
| `Buffers.StringRoundTrip` | src/networking/buffer.cpp:110-117 | a string written and read back from the same position is the same string |
| `Buffers.PeekAgreesWithRead` | include/networking/buffer.h:60-63 | a successful peek moves nothing and sees what the next read returns |
| `Buffers.ResetReadsFromStart` | include/networking/buffer.h:53-58 | after `Reset` the next read takes the first stored byte |
| `Buffers.SerializeAsWritten` | src/networking/buffer.cpp:135 | the code as written: a write moves the storage pointer and leaves the offset where it was |
| `NetworkBuffers.NetworkBuffer.constructor` | src/networking/buffer.cpp:15-23 | the object starts as `NewBuf(size)` |
| `NetworkBuffers.NetworkBuffer.FromContents` | src/networking/buffer.cpp:8-13 | the object starts as `Load(contents)` |
| `NetworkBuffers.NetworkBuffer.IsOk` | include/networking/buffer.h:98-101 | `operator bool` is true iff the state is OK |
| `NetworkBuffers.NetworkBuffer.Reset` | src/networking/buffer.cpp:33-37 | the object becomes `Reset` of its old value, storage kept |
| `NetworkBuffers.NetworkBuffer.Load` | include/networking/buffer.h:53-58 | `Reset(buffer, size)` makes the object `Load(contents)` |
| `NetworkBuffers.NetworkBuffer.Serialize` | src/networking/buffer.cpp:131-141 | the memcpy into the array; the object becomes `Serialize` of its old value |
| `NetworkBuffers.NetworkBuffer.Deserialize` | src/networking/buffer.cpp:119-129 | the memcpy out of the array; value and new object are `Deserialize` of the old |
| `NetworkBuffers.NetworkBuffer.WriteU8` | src/networking/buffer.cpp:84-86 | `<< uint8_t` as a one-byte write |
| `NetworkBuffers.NetworkBuffer.WriteU16` | src/networking/buffer.cpp:90-93 | `<< uint16_t` as a big-endian two-byte write |
| `NetworkBuffers.NetworkBuffer.WriteU32` | src/networking/buffer.cpp:98-101 | `<< uint32_t` as a big-endian four-byte write |
| `NetworkBuffers.NetworkBuffer.WriteBool` | src/networking/buffer.cpp:65-70 | corrected `<< bool` on the object: the new model is `Buffers.WriteBool` of the old one |
| `NetworkBuffers.NetworkBuffer.WriteBoolAsWritten` | src/networking/buffer.cpp:106-109 | `<< bool` on the object as compiled: the new model is `Buffers.WriteBoolAsWritten` of the old one |
| `NetworkBuffers.NetworkBuffer.WriteString` | src/networking/buffer.cpp:110-117 | `<< string` as `WriteString` of the old value |
| `NetworkBuffers.NetworkBuffer.ReadU8` | src/networking/buffer.cpp:39-41 | `>> uint8_t`: value and new object as `ReadU8` |
| `NetworkBuffers.NetworkBuffer.ReadU16` | src/networking/buffer.cpp:45-49 | `>> uint16_t`: value and new object as `ReadU16` |
| `NetworkBuffers.NetworkBuffer.ReadU32` | src/networking/buffer.cpp:55-59 | `>> uint32_t`: value and new object as `ReadU32` |
| `NetworkBuffers.NetworkBuffer.ReadBool` | src/networking/buffer.cpp:65-70 | `>> bool`: value and new object as `ReadBool` |
| `NetworkBuffers.NetworkBuffer.ReadString` | src/networking/buffer.cpp:71-82 | `>> string`: value and new object as `ReadString` |
| `NetworkBuffers.NetworkBuffer.PeekU8` | include/networking/buffer.h:65-70 | save the offset, read, restore it: the outcome is `PeekU8` of the old value |
| `Messages.SerializeMessage` | src/networking/message.cpp:17-20 | writes exactly one byte, the tag; OK afterwards iff it was OK with room |
| `Messages.DeserializeMessage` | src/networking/message.cpp:22-25 | reads one byte as the tag without checking it; on failure the old tag stays |
| `Messages.IsContainedIn` | src/networking/message.cpp:12-15 | true iff a one-byte peek succeeds and equals the tag; the offset never moves |
| `Messages.SerializedMessageIsContained` | test/kvm_test.cpp:16-21 | a frame written from the start and reset is recognised by its own tag and by no other |
| `Messages.ReceivedHeartbeatIsNotRecognised` | src/networking/node.cpp:61-62 | a one-byte heartbeat frame as received is not recognised, and the peek poisons the buffer |
| `Messages.NetworkMessage.constructor` | src/networking/message.cpp:4-6 | the tag is the one given |
| `Messages.NetworkMessage.GetType` | src/networking/message.cpp:8-10 | the tag given at construction |
| `Messages.NetworkMessage.Serialize` | src/networking/message.cpp:17-20 | the buffer becomes `SerializeMessage` of it; the result is the buffer's OK state |
| `Messages.NetworkMessage.Deserialize` | src/networking/message.cpp:22-25 | buffer and tag become `DeserializeMessage`; the result is the buffer's OK state |
| `Messages.IsContainedInBuffer` | src/networking/message.cpp:12-15 | the static check on the buffer object agrees with `IsContainedIn` |
| `Messages.NewHeartbeat` | src/networking/message/heartbeat.cpp:5-7 | a heartbeat is a message with the heartbeat tag only |
| `ChangeInput.WriteDisplayId` | include/display/display.h:100-103 | `buffer << display` keeps the buffer well formed |
| `ChangeInput.ReadDisplayId` | include/display/display.h:105-108 | `buffer >> display` succeeds iff 9 bytes fit, and then moves past them |
| `ChangeInput.WriteDisplayIdEncodes` | include/display/display.h:100-103 | writing a key field by field is writing its 9-byte form at once |
| `ChangeInput.ReadDisplayIdHolds` | include/display/display.h:105-108 | a buffer holding a key's form reads that key and moves past it |
| `ChangeInput.EncodeEntry` | src/networking/message/change_input_request.cpp:40-42 | one entry is the key and a one-byte code: 10 bytes |
| `ChangeInput.EncodeEntries` | src/networking/message/change_input_request.cpp:40-42 | the entries in key order, 10 bytes each |
| `ChangeInput.EncodeMapMessage` | src/networking/message/change_input_request.cpp:36-46 | tag, 4-byte count, entries: `5 + 10n` bytes |
| `ChangeInput.WriteEntries` | src/networking/message/change_input_response.cpp:42-44 | the write loop keeps the buffer well formed |
| `ChangeInput.SerializeMapMessage` | src/networking/message/change_input_response.cpp:38-48 | the whole serializer keeps the buffer well formed |
| `ChangeInput.WriteEntriesEncodes` | src/networking/message/change_input_request.cpp:40-42 | the write loop ends as one write of the encoded entries |
| `ChangeInput.SerializeMapMessageEncodes` | src/networking/message/change_input_request.cpp:36-46 | `Serialize` writes exactly tag, 4-byte count and entries in key order |
| `ChangeInput.SerializeSucceedsIffFits` | src/networking/message/change_input_request.cpp:45 | the result is true iff the buffer was OK and the whole frame fits strictly |
| `ChangeInput.ClusterBufferCapacity` | src/networking/cluster.cpp:22-30 | in the 1024-byte broadcast buffer a map serializes iff it has at most 101 entries |
| `ChangeInput.ReadEntries` | src/networking/message/change_input_request.cpp:25-30 | the decoding loop keeps the map ascending and does nothing to a poisoned buffer |
| `ChangeInput.ReadEntry` | src/networking/message/change_input_request.cpp:26-29 | one pass reads from the same storage and keeps the map ascending |
| `ChangeInput.DeserializeMapMessage` | src/networking/message/change_input_request.cpp:15-34 | the result is the buffer's OK state; if the tag read fails, tag and map are untouched |
| `ChangeInput.ReadEntriesHolds` | src/networking/message/change_input_request.cpp:25-30 | a buffer holding encoded entries decodes them, assigned one by one |
| `ChangeInput.DecodeEncodedMapMessage` | src/networking/message/change_input_request.cpp:15-34 | a buffer holding an encoded frame decodes to its tag and exactly its map |
| `ChangeInput.MapMessageRoundTrip` | src/networking/message/change_input_request.cpp:36-46 | serialize, reset, deserialize: the tag is recognised and the same map comes back, with success |
| `ChangeInput.MessageTestRoundTrip` | test/kvm_test.cpp:9-28 | the test's map {GSM/1111/2222 → HDMI1} comes back as exactly that entry |
| `ChangeInput.ExactFrameNeverDecodes` | src/networking/buffer.cpp:121 | a frame that fills its buffer exactly never decodes successfully |
| `ChangeInput.ReadEntriesNeverEndsAt` | src/networking/buffer.cpp:121 | reading entries up to the very end of the storage always overflows |
| `ChangeInput.RepeatedKeyKeepsLast` | src/networking/message/change_input_request.cpp:28 | a payload repeating a key decodes to the value of its last occurrence |
| `ChangeInput.TruncatedEntryPolicies` | src/networking/message/change_input_response.cpp:29-32 | on a frame cut inside its one promised entry both decoders fail at the same offset; the request stores nothing, while the response stores one entry even so (its all-zero key and code 0 stand for the unread bytes, see Left out) |
| `ChangeInput.DeserializeMapMessageAsWritten` | src/networking/message/change_input_request.cpp:19-23 | the shipped decoder with a one-byte count: result is the OK state, the tag failure path is unchanged |
| `ChangeInput.AsWrittenDecodesEmpty` | src/networking/message/change_input_request.cpp:23 | on any frame from the encoder, the shipped decoder reads count 0 and returns an empty map with success |
| `ChangeInput.AsWrittenLosesRoundTrip` | src/networking/message/change_input_response.cpp:27 | serialize then shipped deserialize of a non-empty map "succeeds" with the empty map |
| `ChangeInput.AsWrittenLosesTestMap` | test/kvm_test.cpp:26-28 | under the shipped decoder the test's map comes back empty |
| `ChangeInput.WriteDisplayIdTo` | include/display/display.h:100-103 | `buffer << display` on the object, as `WriteDisplayId` |
| `ChangeInput.ReadDisplayIdFrom` | include/display/display.h:105-108 | `buffer >> display` on the object, as `ReadDisplayId` |
| `ChangeInput.WriteEntriesTo` | src/networking/message/change_input_request.cpp:40-42 | the write loop on the object, as `WriteEntries` |
| `ChangeInput.ReadEntriesFrom` | src/networking/message/change_input_request.cpp:25-30 | the read loop on the object, as `ReadEntries` |
| `ChangeInput.ReadEntryInto` | src/networking/message/change_input_request.cpp:26-29 | the loop body on the buffer object is `ReadEntry`: the key, the code, and the store the policy allows |
| `ChangeInput.ChangeInputRequest.constructor` | src/networking/message/change_input_request.cpp:6-9 | request tag and the given map |
| `ChangeInput.ChangeInputRequest.Empty` | src/networking/message/change_input_request.cpp:11-13 | request tag and no entries |
| `ChangeInput.ChangeInputRequest.GetInputMap` | include/networking/message/change_input_request.h:33 | the map held, in key order |
| `ChangeInput.ChangeInputRequest.Serialize` | src/networking/message/change_input_request.cpp:36-46 | the buffer becomes `SerializeMapMessage` of it; the result is the buffer's OK state |
| `ChangeInput.ChangeInputRequest.Deserialize` | src/networking/message/change_input_request.cpp:15-34 | buffer, tag, map and result are `DeserializeMapMessage` with the request policy |
| `ChangeInput.ChangeInputResponse.constructor` | src/networking/message/change_input_response.cpp:6-9 | response tag and the given results |
| `ChangeInput.ChangeInputResponse.Empty` | src/networking/message/change_input_response.cpp:11-13 | response tag and no results |
| `ChangeInput.ChangeInputResponse.GetResultMap` | src/networking/message/change_input_response.cpp:15-17 | the results held, in key order |
| `ChangeInput.ChangeInputResponse.Serialize` | src/networking/message/change_input_response.cpp:38-48 | the buffer becomes `SerializeMapMessage` of it; the result is the buffer's OK state |
| `ChangeInput.ChangeInputResponse.Deserialize` | src/networking/message/change_input_response.cpp:19-36 | buffer, tag, map and result are `DeserializeMapMessage` with the response policy |
| `Edids.ManufacturerOf` | src/display/edid.cpp:33-49 | succeeds iff at least 10 bytes; each of the three results is a letter code (64 plus 5 bits) |
| `Edids.ManufacturerBytes` | src/display/edid.cpp:33-49 | the two bytes a block stores for three letters, top bit clear |
| `Edids.ManufacturerRoundTrip` | src/display/edid.cpp:33-49 | three letters stored at bytes 8-9 are read back as the same letters |
| `Edids.FieldsIgnoreTopBit` | src/display/edid.cpp:40-46 | the reserved top bit of byte 8 reaches none of the three fields |
| `Edids.ManufacturerOfInverse` | src/display/edid.cpp:33-49 | re-encoding the letters read gives bytes 8-9 back, up to the reserved bit |
| `Edids.Le16` | src/display/edid.cpp:51-57 | two bytes, least significant first, whose value is `v` |
| `Edids.Le32` | src/display/edid.cpp:59-65 | four bytes, least significant first, whose value is `v` |
| `Edids.ProductOf` | src/display/edid.cpp:51-57 | succeeds iff at least 12 bytes; the value is the one stored at bytes 10-11 |
| `Edids.SerialOf` | src/display/edid.cpp:59-65 | succeeds iff at least 16 bytes; the value is the one stored at bytes 12-15 |
| `Edids.ProductRoundTrip` | src/display/edid.cpp:51-57 | a product code stored at bytes 10-11 is read back |
| `Edids.SerialRoundTrip` | src/display/edid.cpp:59-65 | a serial stored at bytes 12-15 is read back |
| `Edids.TakeUntil` | src/display/edid.cpp:78-83 | the longest prefix without the stop byte: a prefix, free of it, and ended by it or by the input's end |
| `Edids.TakeUntilIsUnique` | src/display/edid.cpp:78-83 | any prefix free of the stop byte and ended by it is the one `TakeUntil` finds |
| `Edids.TakeUntilZeroPadding` | src/display/edid.cpp:76-86 | a C string read from an array with a zeroed tail stops no later than that tail |
| `Edids.NameDescriptorFrom` | src/display/edid.cpp:71-75 | the first searched descriptor (72, 90, 108) from the start offset whose tag byte is FCh, or none |
| `Edids.DescriptorText` | src/display/edid.cpp:77-79 | the 13 text bytes of a descriptor |
| `Edids.DisplayNameOf` | src/display/edid.cpp:67-89 | a name iff at least 126 bytes and an FCh descriptor among the three; at most 13 bytes, no newline, no NUL |
| `Edids.NameDescriptor` | src/display/edid.cpp:71-83 | a standard name descriptor: 18 bytes with tag FCh |
| `Edids.DisplayNameRoundTrip` | src/display/edid.cpp:67-89 | a name written as the first descriptor is read back unchanged |
| `Edids.FirstNameDescriptorWins` | src/display/edid.cpp:71-75 | only the first FCh descriptor is read; later ones are ignored |
| `Edids.CopyName` | src/display/edid.cpp:76-86 | the nested copy loop yields the descriptor text up to the first newline, as a C string |
| `Edids.Edid.constructor` | src/display/edid.cpp:6-9 | no data |
| `Edids.Edid.FromBuffer` | src/display/edid.cpp:11-14 | a copy of the given bytes when the pointer is set and the size positive, else no data |
| `Edids.Edid.SetData` | src/display/edid.cpp:16-24 | stores a copy of exactly the given bytes when the pointer is set and the size positive; otherwise empty |
| `Edids.Edid.ResetData` | src/display/edid.cpp:26-31 | the block is dropped and the size becomes 0 |
| `Edids.Edid.GetDisplayName` | src/display/edid.cpp:67-89 | true with `DisplayNameOf` of the block, or false with the output untouched |
| `Ddc.ChecksumCancels` | src/platform/mac/ddc.cpp:209 | a message followed by its XOR checksum XORs to zero |
| `Ddc.SetVcpPacket` | src/platform/mac/ddc.cpp:197-209 | 7 bytes: 51h 84h 03h, the control, the value in two bytes, and a checksum that makes the packet XOR to 6Eh |
| `Ddc.SetVcpHighByteIsZero` | src/platform/mac/ddc.cpp:207-208 | the value is 8-bit, so its high byte on the wire is always 0 |
| `Ddc.ParseSetVcp` | src/platform/mac/ddc.cpp:197-209 | a monitor accepts a packet only if it checksums to zero, and reads its control from byte 3 |
| `Ddc.SetVcpRoundTrip` | src/platform/mac/ddc.cpp:197-209 | every Set VCP packet built parses back to its command |
| `Ddc.GetVcpRequest` | src/platform/mac/ddc.cpp:239-243 | 5 bytes: 51h 82h 01h, the control, and a checksum seeded with 6Eh |
| `Ddc.GetVcpReply` | src/platform/mac/ddc.cpp:258 | a standard 11-byte reply, which XORs to zero with the host address 50h |
| `Ddc.ReplyAccepted` | src/platform/mac/ddc.cpp:258 | an accepted reply comes from the display's address and names the requested control |
| `Ddc.AcceptedReplyChecksumsToZero` | src/platform/mac/ddc.cpp:258 | every accepted reply satisfies the standard's checksum rule |
| `Ddc.StandardReplyAccepted` | src/platform/mac/ddc.cpp:258 | every standard reply to the requested control is accepted; bytes 7 and 9 are the values' low bytes |
| `Ddc.FirstAccepted` | src/platform/mac/ddc.cpp:223-265 | the first of the ten attempts that was sent and accepted, or none |
| `Ddc.FirstTryRead` | src/platform/mac/ddc.cpp:281-283 | a correct answer on the first try yields the low bytes of maximum and current value |
| `Ddc.ReadIgnoresLateAttempts` | src/platform/mac/ddc.cpp:223 | attempts after the tenth are never looked at |
| `Ddc.ReadCommand.constructor` | src/platform/mac/ddc.cpp:289-292 | the control to query, both values 0 |
| `Ddc.Read` | src/platform/mac/ddc.cpp:217-286 | success iff an attempt is accepted, with values from reply bytes 7 and 9; after ten failures success false and both values 0 |
| `Ddc.ChecksumByteIsTheOnlyOne` | src/platform/mac/ddc.cpp:324-338 | a last byte makes the block sum to 0 mod 256 iff it is the checksum byte |
| `Ddc.ReadEdid` | src/platform/mac/ddc.cpp:309-339 | true iff the transfer worked and the block's byte sum is 0 mod 256; only then is the block stored |
| `Ddc.FindSlot` | src/platform/mac/ddc.cpp:25-30 | the first registered slot for the id, or none |
| `Ddc.QueueStep` | src/platform/mac/ddc.cpp:25-35 | the old slots are kept as a prefix; one slot is added exactly when the id is non-null and in no slot; a non-null id then sits in a slot holding the returned queue |
| `Ddc.QueueStepIdempotent` | src/platform/mac/ddc.cpp:25-35 | asking twice for one display yields the same queue and registers nothing the second time |
| `Ddc.QueueStepNeverNull` | src/platform/mac/ddc.cpp:31-34 | a non-null display gets a non-null queue; at most one slot is added |
| `Ddc.DisplayQueueTable.Slots` | src/platform/mac/ddc.cpp:20-21 | the registered slots, as many as the count |
| `Ddc.DisplayQueueTable.constructor` | src/platform/mac/ddc.cpp:23-24 | the zeroed table with no slot in use |
| `Ddc.DisplayQueueTable.GetDisplayQueue` | src/platform/mac/ddc.cpp:19-36 | the table and the returned queue are `QueueStep` of the old slots: a known id gets its queue, even with all 50 slots in use; an unknown one gets one new slot |
| `Ddc.FindSlotIsFirst` | src/platform/mac/ddc.cpp:26-30 | the first index holding the id is the one found |
| `Listeners.RemoveAll` | src/networking/node.cpp:34-36 | erase/remove: no copy of `x` is left and every other element keeps its count |
| `Listeners.AddLast` | src/networking/node.cpp:29-32 | exactly one copy of `x`, at the end; the others keep their counts, and no duplicates appear |
| `Listeners.RemoveAllKeepsOrder` | src/usb/monitor.cpp:10-12 | the survivors keep their relative order |
| `Listeners.RemoveAllIsDrawnFrom` | src/usb/monitor.cpp:10-12 | every survivor was in the list |
| `Listeners.Broadcast` | src/kvm.cpp:128-130 | every listener, in order, is called once with the event |
| `Listeners.Announce` | src/networking/cluster.cpp:70-72 | the notification loop makes exactly the calls of `Broadcast` |
| `Usb.SameIgnoresDescription` | src/usb/device.cpp:23-25 | device equality (`Usb.Same`, `USBDevice::operator==`) compares vendor and product only, and is an equivalence |
| `Usb.RemoveSame` | src/usb/monitor.cpp:16 | erase/remove with device equality: no equal device remains, the count drops by the number removed |
| `Usb.RemoveSameKeepsOthers` | src/usb/monitor.cpp:33 | devices not equal to `d` survive as often as they were stored |
| `Usb.RemoveSameDistributes` | src/usb/monitor.cpp:33 | removal distributes over concatenation, as a filter does |
| `Usb.DisconnectNoticesCount` | src/usb/monitor.cpp:26-32 | each listener hears once per stored device equal to `d`; nothing if none was stored |
| `Usb.DisconnectNoticesNameStoredDevices` | src/usb/monitor.cpp:26-32 | every disconnect call names a stored copy equal to `d` and goes to a listener |
| `Usb.UsbMonitor.constructor` | include/usb/monitor.h:35 | no devices, no listeners |
| `Usb.UsbMonitor.AddListener` | src/usb/monitor.cpp:5-8 | the listener occurs once, last; devices untouched |
| `Usb.UsbMonitor.RemoveListener` | src/usb/monitor.cpp:10-12 | every copy removed, the rest in order; devices untouched |
| `Usb.UsbMonitor.OnDeviceConnected` | src/usb/monitor.cpp:14-22 | `d` stored once, at the end, the others in order; each listener notified once |
| `Usb.UsbMonitor.OnDeviceDisconnected` | src/usb/monitor.cpp:24-35 | one broadcast per stored device equal to `d`; none of them remains |
| `Strings.WideStringToString` | src/core/string.cpp:9-11 | same length as the input, each character narrowed |
| `Strings.Terminated` | src/core/string.cpp:5-7 | the characters before the first NUL |
| `Strings.WideStringFromPointer` | src/core/string.cpp:5-7 | the result stops at the first terminator: every character before it is non-zero and narrowed in place |
| `Strings.PointerAgreesWithString` | src/core/string.cpp:5-7 | the pointer overload equals the wide-string overload on the characters up to the terminator |
| `Strings.TerminatedOf` | src/core/string.cpp:5-7 | the terminator search stops exactly at the end of a NUL-free string |
| `Strings.NarrowRoundTrip` | src/core/string.cpp:10 | characters below 256 survive the conversion |
| `Strings.NarrowingCollides` | src/core/string.cpp:10 | characters 256 apart narrow to the same byte |
| `Timing.NoDoubleFire` | src/core/time.cpp:8-14 | with a positive duration, two calls at one instant never both fire |
| `Timing.LastAfterGrows` | src/core/time.cpp:10 | the remembered time never goes back |
| `Timing.FiringRemembersNow` | src/core/time.cpp:10 | a call that fires remembers its own time |
| `Timing.FiringsAreSpaced` | src/core/time.cpp:9-11 | two firings are at least the duration apart |
| `Timing.FirstFiringWaits` | src/core/time.cpp:4-9 | a firing comes at least the duration after construction |
| `Timing.Step` | src/core/time.cpp:8-14 | fires iff the duration has elapsed since the last firing; a firing records `now`, otherwise the last time is kept, and it never moves back |
| `Timing.TimeSpacer.constructor` | src/core/time.cpp:4-6 | the last time is the construction time |
| `Timing.TimeSpacer.Fire` | src/core/time.cpp:8-14 | fires iff `now - last >= duration`; `last` becomes `now` when it fires and stays otherwise |
| `References.Increment` | include/core/reference.h:27-37 | from 0 the initializer's value is stored and counted once; the count goes up by one (mod 2^32) |
| `References.Decrement` | include/core/reference.h:39-52 | at 0 nothing changes; otherwise one less, with the destructor run exactly when it reaches 0 |
| `References.IncrementsInUse` | include/core/reference.h:30-33 | increments on a counter in use only raise the count |
| `References.DecrementsInUse` | include/core/reference.h:42-47 | decrements that leave a reference only lower the count |
| `References.BalancedRunInitialisesAndTearsDownOnce` | include/core/reference.h:27-52 | n increments then n decrements from 0: initializer once, destructor once, count back to 0 |
| `References.DecrementsSplit` | include/core/reference.h:39-52 | n decrements then m are n + m decrements |
| `References.WrapReinitialises` | include/core/reference.h:59 | 2^32 increments wrap the 32-bit count to 0, so the next one initialises again |
| `References.IncrementsSnoc` | include/core/reference.h:27-37 | a run of increments is one increment after the shorter run |
| `References.ReferenceCounter.constructor` | include/core/reference.h:22-25 | count 0 with the given hooks |
| `References.ReferenceCounter.Acquire` | include/core/reference.h:27-37 | `operator++` is `Increment` with the initializer's value |
| `References.ReferenceCounter.Release` | include/core/reference.h:39-52 | `operator--` is `Decrement` with the destructor |
| `Sockets.SendsWhatWasWritten` | src/platform/unix/socket.cpp:91-96 | nothing is sent from an empty buffer; a successful write from the start is sent as exactly its bytes when connected |
| `Sockets.Send` | src/platform/unix/socket.cpp:91-96 | bytes go out iff the socket is connected, the buffer OK and the offset above 0; they are exactly the stored bytes before the cursor |
| `Sockets.Connect` | src/platform/unix/socket.cpp:20-39 | connected iff the operating system accepts the connection; never listening |
| `Sockets.Listen` | src/platform/unix/socket.cpp:41-66 | listening iff binding works; never connected |
| `Sockets.Accept` | src/platform/unix/socket.cpp:68-89 | a connected peer socket iff the socket listens and a client is pending |
| `Sockets.Receive` | src/platform/unix/socket.cpp:98-123 | the buffer stays well formed |
| `Sockets.ReceiveLoadsFrame` | src/platform/unix/socket.cpp:98-123 | a frame is reported iff a connected socket got one, and then the buffer holds it from its start; an error disconnects |
| `Sockets.HeartbeatIsSent` | src/networking/node.cpp:53-57 | a heartbeat serialized into a fresh buffer is sent as its one-byte tag |
| `Sockets.HeartbeatNeverSentAsWritten` | src/networking/buffer.cpp:135 | with the storage pointer advanced as written, that heartbeat is never sent |
| `Nodes.HostNode` | src/networking/node.cpp:6-11 | disconnected, no listeners, an address iff the lookup succeeded |
| `Nodes.AcceptedNode` | src/networking/node.cpp:13-15 | connected, no listeners |
| `Nodes.HearFrame` | src/networking/node.cpp:61-69 | no frame changes nothing; otherwise `lastSeen` stays or becomes `now`, and any notices go to every listener in order as `MessageReceived`, with `lastSeen` kept |
| `Nodes.PumpNode` | src/networking/node.cpp:38-77 | listeners and address are kept; the socket never listens; `lastSeen` stays or becomes `now`; at most one frame is sent, and only by a connected node |
| `Nodes.HeartbeatBuffer` | src/networking/node.cpp:51-57 | a fresh default buffer, OK |
| `Nodes.DisconnectedPumpOnlyConnects` | src/networking/node.cpp:39-49 | when not connected, a pump only connects: nothing sent; on success every listener hears OnNodeConnected and `lastSeen` becomes `now` |
| `Nodes.HeartbeatEveryFiveSeconds` | src/networking/node.cpp:53-57 | when connected, the one-byte heartbeat is sent iff five seconds passed since the last |
| `Nodes.HeartbeatFrameRefreshes` | src/networking/node.cpp:61-68 | a recognised heartbeat frame updates `lastSeen` and reaches no listener |
| `Nodes.LoneHeartbeatIsForwarded` | src/networking/node.cpp:61-66 | a lone one-byte heartbeat frame is not recognised: it goes to the listeners, poisoned, and `lastSeen` stays |
| `Nodes.OtherFramesAreForwarded` | src/networking/node.cpp:61-66 | any other frame goes to every listener in order and leaves `lastSeen` alone |
| `Nodes.LossReportedIffSilentOrFailed` | src/networking/node.cpp:71-76 | OnNodeDisconnected fires iff the socket dropped or `now - lastSeen >= 15 s` |
| `Nodes.SilentPeerIsLost` | src/networking/node.cpp:71-76 | a peer silent for fifteen seconds is reported lost at every pump |
| `Nodes.Node.FromHostname` | src/networking/node.cpp:6-11 | the node is `HostNode` of the lookup outcome |
| `Nodes.Node.FromSocket` | src/networking/node.cpp:13-15 | the node is `AcceptedNode` |
| `Nodes.Node.IsConnected` | src/networking/node.cpp:21-23 | true iff the socket is connected |
| `Nodes.Node.Send` | src/networking/node.cpp:25-27 | what the socket's send guard lets through |
| `Nodes.Node.AddListener` | src/networking/node.cpp:29-32 | the listener once, last; nothing else changes |
| `Nodes.Node.RemoveListener` | src/networking/node.cpp:34-36 | every copy removed; nothing else changes |
| `Nodes.Node.Pump` | src/networking/node.cpp:38-77 | node, callbacks and frames sent are `PumpNode` of the old node |
| `Nodes.Node.PumpConnected` | src/networking/node.cpp:51-76 | the connected branch, as `PumpNode` |
| `Nodes.Node.Beat` | src/networking/node.cpp:51-57 | a fresh buffer; the heartbeat is serialized and sent iff the spacer fired |
| `Nodes.Node.Hear` | src/networking/node.cpp:61-69 | the receive step, as `HearFrame`; socket, address and listeners untouched |
| `Clusters.DeliveriesReachConnectedNodes` | src/networking/cluster.cpp:26-28 | a sendable buffer reaches exactly the connected nodes, each with the bytes up to the cursor |
| `Clusters.Deliveries` | src/networking/cluster.cpp:26-28 | at most one delivery per node, each to a connected node, in ascending node order, each carrying the bytes written |
| `Clusters.BroadcastReachesConnectedNodes` | src/networking/cluster.cpp:22-30 | a map of at most 101 entries reaches exactly the connected nodes, each with its encoded frame |
| `Clusters.BroadcastMap` | src/networking/cluster.cpp:22-30 | at most one delivery per node, only to connected nodes, in ascending node order |
| `Clusters.OversizedMapIsNotSent` | src/networking/cluster.cpp:25 | a map that does not serialize is sent to nobody |
| `Clusters.OtherTagsAreDropped` | src/networking/cluster.cpp:81-90 | frames with any other tag, responses included, reach no listener |
| `Clusters.RouteMessage` | src/networking/cluster.cpp:81-90 | nothing, or one notice per listener in order; notices only for a frame whose tag is CHANGE_INPUT_REQUEST, each an ascending request naming the sender |
| `Clusters.HandleNodeEvent` | src/networking/cluster.cpp:69-79 | connect and loss reach every listener in order as the same kind of event for the same node; a frame reaches them only through routing, from that node |
| `Clusters.RequestFrameIsRouted` | src/networking/cluster.cpp:82-87 | a request frame that decodes reaches every listener with exactly the map sent |
| `Clusters.LoneRequestFrameIsDropped` | src/networking/cluster.cpp:84 | a request frame that fills its buffer exactly reaches nobody |
| `Clusters.Tagged` | src/networking/cluster.cpp:64-66 | the frames a node sent, each labelled with the node |
| `Clusters.PumpNodes` | src/networking/cluster.cpp:64-66 | the first `k` nodes are replaced by their own pump's result; the rest are untouched |
| `Clusters.ClusterPump` | src/networking/cluster.cpp:51-67 | one node more exactly when a listening cluster has a pending peer; that peer is appended last with the cluster as its listener |
| `Clusters.ClusterPumpAsWritten` | src/networking/cluster.cpp:51-67 | the same count, but every stored node is left as it was and the accepted peer has no listener |
| `Clusters.AcceptedPeer` | src/networking/cluster.cpp:55-56 | an accepted node: connected, with the cluster as its one listener |
| `Clusters.PumpUpdatesEveryNode` | src/networking/cluster.cpp:51-67 | a pump appends the accepted peer, if any, last, and leaves every node as its own pump left it |
| `Clusters.AsWrittenReconnectsEveryPump` | src/networking/cluster.cpp:64-66 | as written, a peer that connects is announced again at every pump |
| `Clusters.ConnectionAnnouncedOnce` | src/networking/cluster.cpp:64-66 | with the nodes pumped in place, the peer is announced once and the next pump is quiet |
| `Clusters.AsWrittenIgnoresAcceptedPeer` | src/networking/cluster.cpp:55-57 | as written, a request from an accepted peer reaches nobody |
| `Clusters.AcceptedPeerForwardsFrame` | src/networking/node.cpp:61-66 | the accepted peer's pump hands the frame to the cluster |
| `Clusters.EmptyRequestIsRouted` | src/networking/cluster.cpp:81-90 | that frame, heard from node 0, reaches the listener as an empty request |
| `Clusters.AcceptedPeerIsHeard` | src/networking/cluster.cpp:51-67 | with the cluster registered on the accepted peer, its request reaches every listener |
| `Clusters.Cluster.constructor` | src/networking/cluster.cpp:8-10 | no socket, no nodes, no listeners, the given port |
| `Clusters.Cluster.Initialize` | src/networking/cluster.cpp:12-14 | true iff listening reported no error |
| `Clusters.Cluster.AddNode` | src/networking/cluster.cpp:16-20 | exactly one node appended last, with the cluster as its listener |
| `Clusters.Cluster.AddListener` | src/networking/cluster.cpp:42-45 | the listener once, last; nothing else changes |
| `Clusters.Cluster.RemoveListener` | src/networking/cluster.cpp:47-49 | every copy removed; nothing else changes |
| `Clusters.Cluster.SendToAll` | src/networking/cluster.cpp:26-28 | one send per node, in node order |
| `Clusters.Cluster.RequestInputChange` | src/networking/cluster.cpp:22-30 | serialize once into 1024 bytes; send to every node only if that worked |
| `Clusters.Cluster.RespondToInputChangeRequest` | src/networking/cluster.cpp:32-40 | the same broadcast with the results, whatever the sender |
| `Clusters.Cluster.OnMessageReceived` | src/networking/cluster.cpp:81-90 | the calls made are `RouteMessage` of the received buffer |
| `Clusters.Cluster.Dispatch` | src/networking/cluster.cpp:69-79 | a node's connect and loss callbacks are passed on unchanged to every listener; frames are routed |
| `Clusters.Cluster.Pump` | src/networking/cluster.cpp:51-67 | nodes, callbacks and frames sent are `ClusterPump` of the old state |
| `Clusters.Cluster.PumpAll` | src/networking/cluster.cpp:64-66 | every node is pumped in place, in order |
| `Kvm.Mismatches` | src/kvm.cpp:64-70 | exactly the desired entries some live display with that key disagrees with |
| `Kvm.Mark` | src/kvm.cpp:65-69 | the inner loop keeps the change map ascending |
| `Kvm.Changes` | src/kvm.cpp:64-70 | the change map is ascending |
| `Kvm.MarkAppends` | src/kvm.cpp:65-69 | an entry beyond every key so far is appended once, exactly when some display disagrees |
| `Kvm.ChangesAreMismatches` | src/kvm.cpp:64-70 | the nested loops build exactly the reference `Mismatches` |
| `Kvm.WrongInputs` | src/kvm.cpp:28-32 | the live displays with the entry's key on another input; empty iff the entry is not mismatched |
| `Kvm.NonPreferred` | src/kvm.cpp:23-36 | every listed display is live and wanted on another input |
| `Kvm.NonPreferredEmptyIffNothingToChange` | src/kvm.cpp:118-122 | no display is listed iff there is nothing to change |
| `Kvm.NonPreferredListsWrongDisplays` | src/kvm.cpp:23-36 | a live display is listed iff the desired map wants another input for it |
| `Kvm.WrongInputsLists` | src/kvm.cpp:29 | a live display is flagged iff it has the key and another input |
| `Kvm.SetInputsFor` | src/kvm.cpp:110-114 | SetInput on exactly the live displays with the key, with the wanted input |
| `Kvm.SetInputs` | src/kvm.cpp:106-116 | SetInput on each live display named in the request, with its input, and on nothing else |
| `Kvm.Applied` | src/kvm.cpp:112 | after the calls, the same displays in the same order |
| `Kvm.AppliedReportsLastCall` | src/kvm.cpp:112 | a display reports the input of the last call aimed at it |
| `Kvm.AppliedRequestSettles` | src/kvm.cpp:106-116 | once a request's calls take effect, no display disagrees with it |
| `Kvm.NothingMismatchedIsEmpty` | src/kvm.cpp:64-70 | when no desired entry disagrees with a live display, there is nothing to change |
| `Kvm.AppliedSettlesDesired` | src/kvm.cpp:64-70 | applying the changes settles the whole desired map |
| `Kvm.AppliedLeavesUntouched` | src/kvm.cpp:110-114 | a display no call is aimed at keeps its input |
| `Kvm.Transition` | src/kvm.cpp:124-131 | the new state is stored and every listener, in order, hears (old, new), even when equal |
| `Kvm.DeviceArrived` | src/kvm.cpp:59-86 | listeners, desired map and trigger are kept; another device changes nothing; the trigger gives two or three broadcasts, and a request only when it is non-empty, with REQUESTING_INPUT |
| `Kvm.TriggerConnectOutcome` | src/kvm.cpp:59-86 | another device changes nothing; the trigger is announced to every listener, then the state change, then the change map when it is non-empty; a non-empty map gives REQUESTING_INPUT and a request of it, an empty one ACTIVE |
| `Kvm.DeviceLeft` | src/kvm.cpp:88-92 | the trigger leaving makes the state INACTIVE from any state; another device changes nothing |
| `Kvm.ResponseActivatesWhenSettled` | src/kvm.cpp:118-122 | a response moves to ACTIVE only from REQUESTING_INPUT with nothing left to change; the results are ignored |
| `Kvm.InputChangeResponse` | src/kvm.cpp:118-122 | nothing is requested; listeners, desired map and trigger are kept; the state changes only from REQUESTING_INPUT to ACTIVE |
| `Kvm.RequestThenAppliedResponseActivates` | src/kvm.cpp:59-122 | a request, its calls applied, then a response: the coordinator ends ACTIVE |
| `Kvm.KVM.constructor` | src/kvm.cpp:4-9 | INACTIVE; registered as listener of a fresh monitor and a fresh cluster |
| `Kvm.KVM.SetDesiredInputs` | src/kvm.cpp:38-40 | replaces the desired map, nothing else |
| `Kvm.KVM.SetTriggerDevice` | src/kvm.cpp:42-44 | the device becomes the trigger |
| `Kvm.KVM.AddListener` | src/kvm.cpp:50-53 | the listener once, last |
| `Kvm.KVM.RemoveListener` | src/kvm.cpp:55-57 | every copy removed, the rest in order |
| `Kvm.KVM.ComputeChanges` | src/kvm.cpp:64-70 | the nested loops build `Changes` |
| `Kvm.KVM.ListDisplaysWithNonPreferredInput` | src/kvm.cpp:23-36 | the nested loops build `NonPreferred` |
| `Kvm.KVM.ChangeState` | src/kvm.cpp:124-131 | state and calls are `Transition` |
| `Kvm.KVM.OnDeviceConnected` | src/kvm.cpp:59-86 | state and calls are `DeviceArrived`; the cluster broadcasts the request iff there is one |
| `Kvm.KVM.OnDeviceDisconnected` | src/kvm.cpp:88-92 | state and calls are `DeviceLeft` |
| `Kvm.KVM.OnNodeConnected` | src/kvm.cpp:94-98 | every listener hears the node connect |
| `Kvm.KVM.OnNodeDisconnected` | src/kvm.cpp:100-104 | every listener hears the node leave |
| `Kvm.KVM.OnInputChangeRequested` | src/kvm.cpp:106-116 | the SetInput calls are `SetInputs`; nothing is sent back |
| `Kvm.KVM.OnInputChangeResponse` | src/kvm.cpp:118-122 | state and calls are `InputChangeResponse` |
| `CommandLine.SkipSpaces` | src/main.cpp:42 | atoi's leading white space dropped: a suffix not starting with a space |
| `CommandLine.DigitRun` | src/main.cpp:42 | the longest run of digits at the front |
| `CommandLine.Atoi` | src/main.cpp:42 | the empty string reads as 0 |
| `CommandLine.Show` | src/main.cpp:42 | a non-empty decimal spelling, the partner atoi reads |
| `CommandLine.DecimalShow` | src/main.cpp:42 | the digit value of a spelling is the number spelled |
| `CommandLine.AtoiShow` | src/main.cpp:42 | atoi reads back a decimal spelling, with or without a minus sign |
| `CommandLine.DigitRunOfDigits` | src/main.cpp:42 | atoi takes a whole run of digits |
| `CommandLine.AtoiDigits` | src/main.cpp:44 | atoi of digits is their decimal value |
| `CommandLine.AtoiNegatedDigits` | src/main.cpp:51 | atoi of a minus sign and digits is the negated value |
| `CommandLine.ToU16` | src/main.cpp:42 | the conversion to uint16_t: the value itself in range, otherwise reduced mod 2^16 |
| `CommandLine.ToU32` | src/main.cpp:55 | the conversion to uint32_t: the value itself in range, otherwise reduced mod 2^32 |
| `CommandLine.CurrentInputs` | src/main.cpp:27-32 | the starting map has exactly the live displays' keys |
| `CommandLine.Prefer` | src/main.cpp:54-59 | every live display with the serial gets the input; every other key keeps its value |
| `CommandLine.PreferCovers` | src/main.cpp:54-59 | the keys stay exactly the live displays |
| `CommandLine.Finish` | src/main.cpp:70-80 | success iff both vendor and product were given |
| `CommandLine.ParseFrom` | src/main.cpp:36-80 | a success lists devices or has both ids and keeps the peers given before; `DisplayNotFound` only for a serial no live display has |
| `CommandLine.ParsedOptionsAreComplete` | src/main.cpp:36-80 | a success lists devices or has both ids, keeps the input keys exactly the live displays, and every peer added is a word following a `--node` flag |
| `CommandLine.WatchNeedsTrigger` | src/main.cpp:70-78 | without `--vendor` and `--product` only `--list-devices` succeeds |
| `CommandLine.TriggerInvocation` | src/main.cpp:25-81 | the usual invocation: the ids read, port 10191, mode WATCH, the current inputs, no nodes |
| `CommandLine.VendorFirst` | src/main.cpp:43-45 | `--vendor 1133` stores vendor 1133 and moves two arguments on |
| `CommandLine.ProductThenEnd` | src/main.cpp:46-48 | `--product 49271` as the last option stores the product, and the parse succeeds |
| `CommandLine.PortThenList` | src/main.cpp:37-42 | `--port 70000 --list-devices` stores port 4464 and returns at once with LIST_DEVICES |
| `CommandLine.WidePortWraps` | src/main.cpp:41-42 | a port of 70000 becomes 4464, and `--list-devices` still returns at once |
| `CommandLine.ReadCurrentInputs` | src/main.cpp:29-32 | the loop builds `CurrentInputs` |
| `CommandLine.PreferSerial` | src/main.cpp:54-59 | found iff some live display has the serial; the map becomes `Prefer` |
| `CommandLine.Step` | src/main.cpp:37-67 | one pass of the loop: either the final answer or the next index and options, as `ParseFrom` |
| `CommandLine.ParseOptions` | src/main.cpp:25-81 | the loop and its early returns compute `Parse` |
| `CommandLine.Parse` | src/main.cpp:25-81 | a success lists devices or has both ids, and its peers are exactly the `--node` values the loop reaches, in argument order; `DisplayNotFound` only for a serial no live display has |
| `CommandLine.NodeValuePositions` | src/main.cpp:36-67 | the positions of the `--node` values the loop reaches: each right after a `--node` word, and strictly increasing |
| `CommandLine.ParsedPeersAreNodeValues` | src/main.cpp:65-66 | the peers of a success are those given before followed by the words at `NodeValuePositions`, so none is lost, reordered or repeated |

## Left out

- Operating-system calls: `socket`, `connect`, `bind`, `listen`, `select`, `accept`, `recv`, `send` and the host name lookup are outcomes passed in as parameters. Only the send guard (connected, offset above 0, buffer OK) is modelled. Unix and Windows back ends are not part of this model.
- IOKit, CoreGraphics and libusb: the I²C transfer (`SendRequestToDisplay`), `SupportedTransactionType`, `IOServicePortFromPlatformDisplay`, `usleep`, dispatch semaphores and the USB hot-plug threads. An I²C transfer is a parameter: whether it was sent and the reply bytes.
- `USBMonitor::Initialize`, `CheckForDeviceEvents` and `ListConnectedDevices`, and `KVM::Initialize`, `ListUSBDevices`, `ListDisplays`, `AddNode` and `Pump`: these are platform calls or one-line forwarding to the monitor and cluster, whose own operations are modelled.
- `Display::ListDisplays`, `GetInput`, `SetInput` and `StringToInput`: the live displays are a parameter, SetInput calls are returned as a list, and `StringToInput` is a function parameter of `ParseOptions`.
- The clock: every `system_clock::now()` becomes `now` in milliseconds. One pump reads the clock once, where the source reads it several times within one pump.
- Mutexes and threads: every operation is one sequential step. Listener callbacks are returned as a list of calls. What a listener does inside a callback, including re-entering the object, is not modelled.
- Memory: EDID's `ResetData` deletes the block without clearing the pointer, so a later `SetData` or destructor deletes it twice. Allocation, aliasing and lifetime are not modelled; `SetData` copies.
- `Edids.ProductOf`: the product and serial are read with `memcpy` in host byte order; the model assumes a little-endian host.
- `Strings.WideStringToString`: narrowing keeps the low byte of each wide character; a signed `char` or a different `wchar_t` width is not modelled.
- `CommandLine.Atoi`: unbounded; `atoi`'s undefined behaviour on overflow is not modelled. Only the surrounding conversions to `uint16_t` and `uint32_t` wrap.
- `CommandLine.Parse`: requires at least one argument, the program name; `argc == 0` is excluded.
- `ParseOptions` error messages printed to standard error are the `Rejection` values. The console listener and the main loop are not part of this model.
- `KVM`'s initial state is taken to be INACTIVE and the trigger device absent until `SetTriggerDevice`; kvm.h of this revision initialises neither.
- `Nodes.HostNode`: `lastSeen` is taken to start at the clock's epoch, time 0, as a default-constructed time point does; the header declaring it is not part of this model.
- `ReferenceCounter`'s `m_references` is taken to start at 0; it is uninitialised for a counter outside static storage.
- `Ddc.GetVcpReply`: the standard reply carries 16-bit values, and the source keeps only their low bytes (7 and 9); this loss is stated, not repaired.
- `Ddc.DisplayQueueTable.GetDisplayQueue`: an unknown display asked for when all 50 slots are in use is excluded; the source then reads and writes one slot past its `calloc` block. A known display is found whatever the number of slots in use.
- `Buffers.Deserialize`: after a failed read the model yields zeros. The source leaves the caller's variable as it was (`uint8_t`), byte-swaps its old contents (`uint16_t`, `uint32_t`; src/networking/buffer.cpp:45-59), or assigns a string from an uninitialised array (src/networking/buffer.cpp:75-77). In the decoders those variables are uninitialised locals, so their value there is unspecified.
- `ChangeInput.TruncatedEntryPolicies`: that the response stores an entry for a cut frame follows the source (src/networking/message/change_input_response.cpp:29-32). Its key (all zeros) and code (0) are the model's stand-in for the unspecified values above, not something the source promises.
- `NetworkBuffers.NetworkBuffer.Load`: `Reset(buffer, size)`, which `Socket::Receive` calls (src/platform/unix/socket.cpp:117), is declared (include/networking/buffer.h:58) but its body is not part of this model. The model takes it to act like the copying constructor (src/networking/buffer.cpp:8-13): the storage becomes exactly the received bytes, the offset 0 and the state OK.
- `Buffers.WriteString`: for a string over 1024 bytes the source sets the overflow state and then leaves the non-void `operator<<` without a return statement (src/networking/buffer.cpp:110-117), which is undefined behaviour in C++. The model returns the poisoned buffer, as the other branch returns the buffer.
- The Windows display and monitor back ends, the byte-order wrappers and the type-only headers are not part of this model.

## Findings

| source | as written | input that shows it | evidently intended | confidence | as-written member | corrected member |
|---|---|---|---|---|---|---|
| src/networking/buffer.cpp:131-141 | Serialize and Deserialize advance the storage pointer `m_buffer` by the size and never move `m_offset` | a heartbeat serialized into a fresh 2048-byte buffer leaves the offset at 0, so `Socket::Send` refuses to send it | advance `m_offset` by the size, as include/networking/buffer.h:110-118 documents | high; not executed | `Sockets.HeartbeatNeverSentAsWritten` | `Sockets.HeartbeatIsSent` |
| src/networking/message/change_input_request.cpp:19-23 | the count is written as 4 bytes but read into a `uint8_t`, for both the request and the response | the test's map {GSM/1111/2222 → HDMI1}: the decoder reads the count's top byte 0 and returns an empty map with success | read the count with the width it was written | high; not executed | `ChangeInput.AsWrittenLosesTestMap` | `ChangeInput.MessageTestRoundTrip` |
| src/networking/cluster.cpp:64-66 | `for(auto node : m_nodes)` pumps copies; the stored nodes never change state | a cluster with one configured peer whose connect succeeds announces the connection at every pump | pump the stored nodes by reference | high; not executed | `Clusters.AsWrittenReconnectsEveryPump` | `Clusters.ConnectionAnnouncedOnce` |
| src/networking/buffer.cpp:106-109 | `<< bool` hands a `uint8_t` to `HostToNetwork`; promotion to `int` selects the `int32_t` overload, so four bytes are written while `>> bool` reads one | `true` written into a fresh 2048-byte buffer and read back from offset 0: the byte read is 00, so the bool read is false, and the read cursor ends three bytes before the write cursor | write the bool as the one byte the reader takes | high; not executed | `Buffers.AsWrittenBoolReadsFalse` | `Buffers.BoolRoundTrip` |
| src/networking/cluster.cpp:55-57 | the node stored for an accepted peer is a second `Node(socket)` without the cluster as its listener | a peer connects and sends a change request (tag, zero count, one more byte): no listener hears it | store the node that had the cluster added as listener | high; not executed | `Clusters.AsWrittenIgnoresAcceptedPeer` | `Clusters.AcceptedPeerIsHeard` |
