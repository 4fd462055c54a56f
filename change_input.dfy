/**
 * ChangeInputRequest and ChangeInputResponse: a tag, a 4-byte entry count,
 * then one entry per map entry in key order: the display key followed by a
 * one-byte code (the requested input, or the outcome of the switch).
 *
 * Both messages share this layout. They differ when decoding: the request
 * stores an entry only if its key and code both arrived, the response stores
 * every entry it attempted, even one whose read overflowed.
 *
 * The decoders here read the count with the width the encoders write it
 * (4 bytes). The shipped decoders read a single byte; that variant is
 * modelled separately below, with the input that shows the difference.
 */
module ChangeInput {
  import opened Bytes
  import opened Buffers
  import opened Displays
  import opened DisplayMaps
  import opened Messages
  import NetworkBuffers

  /** ChangeInputResponse::Result codes. */
  const DISPLAY_INACCESSIBLE: Byte := 0
  const INPUT_SELECT_FAILED: Byte := 1
  const INPUT_SELECT_SUCCEEDED: Byte := 2

  // ---------------------------------------------------------------------
  // Display keys through a buffer.

  /** `buffer << display`: the manufacturer letters, the product and the serial, as three transfers. */
  function WriteDisplayId(b: Buf, id: DisplayId): (r: Buf)
    requires b.Valid()
    ensures r.Valid()
  {
    WriteU32(WriteU16(Serialize(b, id.manufacturer), id.product), id.serial)
  }

  /** `buffer >> display`: the three fields in the same order. */
  function ReadDisplayId(b: Buf): (r: Read<DisplayId>)
    requires b.Valid()
    ensures r.buf.Valid() && r.buf.bytes == b.bytes
    ensures r.buf.IsOk() <==> b.IsOk() && b.Fits(DISPLAY_ID_SIZE)
    ensures r.buf.IsOk() ==> r.buf.offset == b.offset + DISPLAY_ID_SIZE
  {
    var m := Deserialize(b, 3);
    var p := ReadU16(m.buf);
    var s := ReadU32(p.buf);
    Read(s.buf, DisplayId(m.value, p.value, s.value))
  }

  /** Writing a key field by field is writing its 9-byte wire form in one go. */
  lemma WriteDisplayIdEncodes(b: Buf, id: DisplayId)
    requires b.Valid()
    ensures WriteDisplayId(b, id).state == Serialize(b, EncodeDisplayId(id)).state
    ensures WriteDisplayId(b, id).IsOk() ==> WriteDisplayId(b, id) == Serialize(b, EncodeDisplayId(id))
  {
    SerializeConcat(b, id.manufacturer, Be16(id.product));
    SerializeConcat(Serialize(b, id.manufacturer), Be16(id.product), Be32(id.serial));
    SerializeConcat(b, id.manufacturer + Be16(id.product), Be32(id.serial));
  }

  /** A buffer holding a key's wire form reads that key back and moves past it. */
  lemma ReadDisplayIdHolds(b: Buf, id: DisplayId, rest: seq<Byte>)
    requires Holds(b, EncodeDisplayId(id) + rest)
    ensures ReadDisplayId(b) == Read(Skip(b, DISPLAY_ID_SIZE), id)
    ensures Holds(Skip(b, DISPLAY_ID_SIZE), rest)
  {
    var enc := EncodeDisplayId(id);
    assert enc + rest == id.manufacturer + (Be16(id.product) + (Be32(id.serial) + rest));
    HoldsSplit(b, id.manufacturer, Be16(id.product) + (Be32(id.serial) + rest));
    var b1 := Skip(b, 3);
    assert Deserialize(b, 3).buf == b1 && Deserialize(b, 3).value == id.manufacturer;
    HoldsSplit(b1, Be16(id.product), Be32(id.serial) + rest);
    var b2 := Skip(b1, 2);
    assert ReadU16(b1) == Read(b2, id.product);
    HoldsSplit(b2, Be32(id.serial), rest);
    var b3 := Skip(b2, 4);
    assert ReadU32(b2) == Read(b3, id.serial);
    assert b3 == Skip(b, DISPLAY_ID_SIZE);
  }

  // ---------------------------------------------------------------------
  // The wire form of a map message.

  /** One entry: the key, then the one-byte code. */
  function EncodeEntry(e: Entry): (bytes: seq<Byte>)
    ensures |bytes| == DISPLAY_ID_SIZE + 1
  {
    EncodeDisplayId(e.key) + [e.value]
  }

  /** All entries in iteration order. */
  function EncodeEntries(es: seq<Entry>): (bytes: seq<Byte>)
    ensures |bytes| == (DISPLAY_ID_SIZE + 1) * |es|
  {
    if es == [] then [] else EncodeEntries(es[..|es| - 1]) + EncodeEntry(es[|es| - 1])
  }

  /** The entries' encoding read from the front: the first entry, then the rest. */
  lemma {:induction false} EncodeEntriesFront(es: seq<Entry>)
    requires es != []
    ensures EncodeEntries(es) == EncodeEntry(es[0]) + EncodeEntries(es[1..])
    decreases |es|
  {
    if |es| > 1 {
      var init := es[..|es| - 1];
      EncodeEntriesFront(init);
      assert init[1..] == es[1..][..|es[1..]| - 1];
      assert es[1..][|es[1..]| - 1] == es[|es| - 1];
      assert init[0] == es[0];
    } else {
      assert es[1..] == [];
      assert es[..0] == [];
    }
  }

  /** The whole frame: tag, 4-byte count (the size as a uint32_t), entries. */
  function EncodeMapMessage(t: MessageType, m: DisplayMap): (bytes: seq<Byte>)
    ensures |bytes| == 5 + (DISPLAY_ID_SIZE + 1) * |m|
  {
    [t] + Be32(Truncate32(|m|)) + EncodeEntries(m)
  }

  /** The serializer's loop: `buffer << key << code` for each entry, first to last. */
  function WriteEntries(b: Buf, es: seq<Entry>): (r: Buf)
    requires b.Valid()
    ensures r.Valid()
  {
    if es == [] then b
    else
      var e := es[|es| - 1];
      WriteU8(WriteDisplayId(WriteEntries(b, es[..|es| - 1]), e.key), e.value)
  }

  /**
   * Serialize (request and response alike): the tag; then, if that
   * succeeded, the count and every entry. The result is true iff the
   * buffer is still OK at the end.
   */
  function SerializeMapMessage(b: Buf, t: MessageType, m: DisplayMap): (r: Buf)
    requires b.Valid()
    ensures r.Valid()
  {
    var tagged := SerializeMessage(b, t);
    if tagged.IsOk() then WriteEntries(WriteU32(tagged, Truncate32(|m|)), m) else tagged
  }

  /**
   * The entry loop writes exactly the entries' encoding. (Writing nothing at
   * all already fails on an OK buffer whose cursor sits at its very end, so
   * such a buffer is excluded.)
   */
  lemma {:induction false} WriteEntriesEncodes(b: Buf, es: seq<Entry>)
    requires b.Valid() && (b.Fits(0) || !b.IsOk())
    ensures WriteEntries(b, es).state == Serialize(b, EncodeEntries(es)).state
    ensures WriteEntries(b, es).IsOk() ==> WriteEntries(b, es) == Serialize(b, EncodeEntries(es))
    decreases |es|
  {
    if es != [] {
      var init := es[..|es| - 1];
      var e := es[|es| - 1];
      var ei, ee := EncodeEntries(init), EncodeEntry(e);
      assert EncodeEntries(es) == ei + ee;
      WriteEntriesEncodes(b, init);
      var w := WriteEntries(b, init);
      var d := WriteDisplayId(w, e.key);
      WriteDisplayIdEncodes(w, e.key);
      var k := EncodeDisplayId(e.key);
      assert ee == k + [e.value];
      SerializeConcat(w, k, [e.value]);
      SerializeConcat(b, ei, ee);
      var sb := Serialize(b, ei);
      if w.IsOk() {
        assert w == sb;
        if d.IsOk() {
          assert d == Serialize(w, k);
          assert WriteEntries(b, es) == Serialize(d, [e.value]);
          assert WriteEntries(b, es).state == Serialize(sb, ee).state;
        } else {
          assert !Serialize(w, k).IsOk();
          assert WriteEntries(b, es) == d;
          assert Serialize(Serialize(w, k), [e.value]) == Serialize(w, k);
          assert WriteEntries(b, es).state == Serialize(sb, ee).state;
        }
      } else {
        assert !sb.IsOk();
        assert d == w;
        assert WriteEntries(b, es) == w;
        assert Serialize(sb, ee) == sb;
        assert WriteEntries(b, es).state == Serialize(sb, ee).state;
      }
      assert Serialize(b, EncodeEntries(es)).state == Serialize(sb, ee).state;
    }
  }

  /**
   * Serializing a map message writes exactly its wire form: the final
   * state is that of writing EncodeMapMessage in one go, and when it is OK
   * the buffers are identical.
   */
  lemma SerializeMapMessageEncodes(b: Buf, t: MessageType, m: DisplayMap)
    requires b.Valid()
    ensures SerializeMapMessage(b, t, m).state == Serialize(b, EncodeMapMessage(t, m)).state
    ensures SerializeMapMessage(b, t, m).IsOk() ==> SerializeMapMessage(b, t, m) == Serialize(b, EncodeMapMessage(t, m))
  {
    var tagged := SerializeMessage(b, t);
    var count := Be32(Truncate32(|m|));
    SerializeConcat(b, [t], count);
    SerializeConcat(b, [t] + count, EncodeEntries(m));
    if tagged.IsOk() {
      var counted := WriteU32(tagged, Truncate32(|m|));
      WriteEntriesEncodes(counted, m);
      SerializeConcat(tagged, count, EncodeEntries(m));
      if !counted.IsOk() {
        OverflowIsSticky(counted, EncodeEntries(m), 0);
      }
    } else {
      OverflowIsSticky(tagged, count, 0);
      OverflowIsSticky(Serialize(tagged, count), EncodeEntries(m), 0);
    }
  }

  /** Serialize succeeds iff the buffer was OK and the whole frame fits strictly before its end. */
  lemma SerializeSucceedsIffFits(b: Buf, t: MessageType, m: DisplayMap)
    requires b.Valid()
    ensures SerializeMapMessage(b, t, m).IsOk() <==> b.IsOk() && b.offset + 5 + (DISPLAY_ID_SIZE + 1) * |m| < |b.bytes|
  {
    SerializeMapMessageEncodes(b, t, m);
  }

  /** In the 1024-byte buffer the cluster serializes into, a map of at most 101 entries fits, and no larger one does. */
  lemma ClusterBufferCapacity(t: MessageType, m: DisplayMap)
    ensures SerializeMapMessage(NewBuf(1024), t, m).IsOk() <==> |m| <= 101
  {
    SerializeSucceedsIffFits(NewBuf(1024), t, m);
  }

  // ---------------------------------------------------------------------
  // Decoding.

  /** Which entries a decoding loop keeps. */
  datatype StorePolicy =
    | CompleteOnly   // the request: insert only when the buffer is still OK
    | Every          // the response: insert whatever was read

  /** One pass of the decoding loop: read a key and a code, and store the entry as the policy says. */
  function ReadEntry(b: Buf, acc: DisplayMap, policy: StorePolicy): (r: Read<DisplayMap>)
    requires b.Valid() && Ascending(acc)
    ensures r.buf.Valid() && r.buf.bytes == b.bytes && Ascending(r.value)
  {
    var k := ReadDisplayId(b);
    var v := ReadU8(k.buf);
    var keep := v.buf.IsOk() || policy == Every;
    Read(v.buf, if keep then Put(acc, k.value, v.value) else acc)
  }

  /**
   * The decoding loop, `for(i = 0; i < count && OK; i++)`: read a key and a
   * code, store the entry as the policy says, go on while the buffer is OK.
   */
  function ReadEntries(b: Buf, count: nat, acc: DisplayMap, policy: StorePolicy): (r: Read<DisplayMap>)
    requires b.Valid() && Ascending(acc)
    ensures r.buf.Valid() && r.buf.bytes == b.bytes && Ascending(r.value)
    ensures !b.IsOk() ==> r == Read(b, acc)
    decreases count
  {
    if count == 0 || !b.IsOk() then Read(b, acc)
    else
      var e := ReadEntry(b, acc, policy);
      ReadEntries(e.buf, count - 1, e.value, policy)
  }

  /** The state of a map message after Deserialize: buffer, tag, map and the returned flag. */
  datatype Decoded = Decoded(buf: Buf, messageType: MessageType, entries: DisplayMap, ok: bool)

  /**
   * Deserialize: the tag (unchecked); if it arrived, clear the map, read
   * the 4-byte count and the entries. True iff the buffer ends OK. A failed
   * tag read leaves the previous tag and map untouched.
   */
  function DeserializeMapMessage(b: Buf, priorType: MessageType, priorMap: DisplayMap, policy: StorePolicy): (r: Decoded)
    requires b.Valid() && Ascending(priorMap)
    ensures r.buf.Valid() && r.buf.bytes == b.bytes && Ascending(r.entries)
    ensures r.ok <==> r.buf.IsOk()
    ensures !DeserializeMessage(b, priorType).buf.IsOk() ==> r == Decoded(ReadU8(b).buf, priorType, priorMap, false)
  {
    var tag := DeserializeMessage(b, priorType);
    if !tag.buf.IsOk() then Decoded(tag.buf, tag.value, priorMap, false)
    else
      var count := ReadU32(tag.buf);
      var entries := ReadEntries(count.buf, count.value, [], policy);
      Decoded(entries.buf, tag.value, entries.value, entries.buf.IsOk())
  }

  /** A buffer holding encoded entries yields them, put one by one onto the accumulator. */
  lemma {:induction false} ReadEntriesHolds(b: Buf, es: seq<Entry>, acc: DisplayMap, policy: StorePolicy)
    requires Holds(b, EncodeEntries(es)) && Ascending(acc)
    ensures ReadEntries(b, |es|, acc, policy) == Read(Skip(b, |EncodeEntries(es)|), PutAll(acc, es))
    decreases |es|
  {
    if es != [] {
      EncodeEntriesFront(es);
      var e := es[0];
      assert EncodeEntries(es) == EncodeDisplayId(e.key) + ([e.value] + EncodeEntries(es[1..]));
      ReadDisplayIdHolds(b, e.key, [e.value] + EncodeEntries(es[1..]));
      var b1 := Skip(b, DISPLAY_ID_SIZE);
      HoldsSplit(b1, [e.value], EncodeEntries(es[1..]));
      var b2 := Skip(b1, 1);
      ReadEntriesHolds(b2, es[1..], Put(acc, e.key, e.value), policy);
      assert Skip(b2, |EncodeEntries(es[1..])|) == Skip(b, |EncodeEntries(es)|);
    }
  }

  /**
   * Round trip: a buffer holding the wire form of an ascending map (with
   * room after it) decodes to the same tag and the same map, and the
   * cursor ends just past the frame. The prior tag and map do not matter.
   */
  lemma DecodeEncodedMapMessage(b: Buf, t: MessageType, m: DisplayMap, priorType: MessageType, priorMap: DisplayMap, policy: StorePolicy)
    requires Ascending(m) && Ascending(priorMap) && |m| < 0x1_0000_0000
    requires Holds(b, EncodeMapMessage(t, m))
    ensures DeserializeMapMessage(b, priorType, priorMap, policy)
         == Decoded(Skip(b, |EncodeMapMessage(t, m)|), t, m, true)
  {
    var count := Be32(Truncate32(|m|));
    assert EncodeMapMessage(t, m) == [t] + (count + EncodeEntries(m));
    HoldsSplit(b, [t], count + EncodeEntries(m));
    var b1 := Skip(b, 1);
    HoldsSplit(b1, count, EncodeEntries(m));
    var b2 := Skip(b1, 4);
    assert ReadU32(b1) == Read(b2, |m|);
    ReadEntriesHolds(b2, m, [], policy);
    PutAllAppends([], m);
    assert [] + m == m;
  }

  /**
   * End-to-end round trip through one buffer, as the message test does it:
   * serialize into a fresh buffer, Reset, check the tag with IsContainedIn,
   * deserialize. Whenever serializing succeeded, the peek recognises the tag
   * and the decoded map is the original one.
   */
  lemma MapMessageRoundTrip(size: nat, t: MessageType, m: DisplayMap, policy: StorePolicy)
    requires Ascending(m) && |m| < 0x1_0000_0000
    requires SerializeMapMessage(NewBuf(size), t, m).IsOk()
    ensures IsContainedIn(t, Reset(SerializeMapMessage(NewBuf(size), t, m))).contained
    ensures DeserializeMapMessage(Reset(SerializeMapMessage(NewBuf(size), t, m)), t, [], policy).entries == m
    ensures DeserializeMapMessage(Reset(SerializeMapMessage(NewBuf(size), t, m)), t, [], policy).ok
  {
    var b := NewBuf(size);
    var enc := EncodeMapMessage(t, m);
    SerializeMapMessageEncodes(b, t, m);
    var w := Serialize(b, enc);
    assert Holds(Reset(w), enc) by {
      assert w.bytes[0..|enc|] == enc;
    }
    DecodeEncodedMapMessage(Reset(w), t, m, t, [], policy);
  }

  /** The message test: {GSM/1111/2222 -> HDMI1} survives a 2048-byte buffer, tag and entry alike. */
  lemma MessageTestRoundTrip()
    ensures var m := [Entry(DisplayId([71, 83, 77], 1111, 2222), HDMI1)];
            var w := SerializeMapMessage(NewBuf(DEFAULT_BUFFER_SIZE), CHANGE_INPUT_REQUEST, m);
            && w.IsOk()
            && IsContainedIn(CHANGE_INPUT_REQUEST, Reset(w)).contained
            && DeserializeMapMessage(Reset(w), CHANGE_INPUT_REQUEST, [], CompleteOnly).entries == m
  {
    var m := [Entry(DisplayId([71, 83, 77], 1111, 2222), HDMI1)];
    SerializeSucceedsIffFits(NewBuf(DEFAULT_BUFFER_SIZE), CHANGE_INPUT_REQUEST, m);
    MapMessageRoundTrip(DEFAULT_BUFFER_SIZE, CHANGE_INPUT_REQUEST, m, CompleteOnly);
  }

  /**
   * The strict bound bites on received frames: a frame that arrives with
   * exactly its own length never decodes, because its last read would end
   * exactly at the end of the storage.
   */
  lemma ExactFrameNeverDecodes(t: MessageType, m: DisplayMap, priorType: MessageType, priorMap: DisplayMap, policy: StorePolicy)
    requires Ascending(priorMap) && |m| < 0x1_0000_0000
    ensures !DeserializeMapMessage(Load(EncodeMapMessage(t, m)), priorType, priorMap, policy).ok
  {
    var enc := EncodeMapMessage(t, m);
    var b := Load(enc);
    var tag := DeserializeMessage(b, priorType);
    if tag.buf.IsOk() {
      var count := ReadU32(tag.buf);
      if count.buf.IsOk() {
        assert enc[1..5] == Be32(|m|);
        assert count.value == |m|;
        ReadEntriesNeverEndsAt(count.buf, count.value, [], policy);
      }
    }
  }

  /** Decoding `count` entries from a buffer with exactly `10 * count` bytes left never ends OK. */
  lemma {:induction false} ReadEntriesNeverEndsAt(b: Buf, count: nat, acc: DisplayMap, policy: StorePolicy)
    requires b.Valid() && Ascending(acc) && count > 0
    requires |b.bytes| == b.offset + (DISPLAY_ID_SIZE + 1) * count
    ensures !ReadEntries(b, count, acc, policy).buf.IsOk()
    decreases count
  {
    if b.IsOk() {
      var e := ReadEntry(b, acc, policy);
      if e.buf.IsOk() {
        ReadEntriesNeverEndsAt(e.buf, count - 1, e.value, policy);
      }
    }
  }

  /** A payload that repeats a key decodes to the value of its last occurrence, as `m[key] = value` overwrites. */
  lemma RepeatedKeyKeepsLast(b: Buf, es: seq<Entry>, k: DisplayId, policy: StorePolicy)
    requires Holds(b, EncodeEntries(es))
    ensures Lookup(ReadEntries(b, |es|, [], policy).value, k) == LastValue(es, k)
  {
    ReadEntriesHolds(b, es, [], policy);
    LookupPutAll([], es, k);
  }

  /**
   * The two policies part ways on a truncated frame: the count promises one
   * entry, but only one byte of it arrived. Both report failure. The request
   * stores nothing; the response stores an entry even so. Its all-zero key
   * and code 0 are what the model's reads yield after a failure; in the
   * program they are whatever the uninitialised locals held.
   */
  lemma TruncatedEntryPolicies()
    ensures var b := Load([CHANGE_INPUT_RESPONSE, 0, 0, 0, 1, 0]);
            && DeserializeMapMessage(b, HEARTBEAT, [], CompleteOnly) == Decoded(Buf(b.bytes, 5, ErrorOverflow), CHANGE_INPUT_RESPONSE, [], false)
            && DeserializeMapMessage(b, HEARTBEAT, [], Every) == Decoded(Buf(b.bytes, 5, ErrorOverflow), CHANGE_INPUT_RESPONSE, [Entry(DisplayId([0, 0, 0], 0, 0), DISPLAY_INACCESSIBLE)], false)
  {
    var b := Load([CHANGE_INPUT_RESPONSE, 0, 0, 0, 1, 0]);
    var count := ReadU32(Buf(b.bytes, 1, Ok));
    assert b.bytes[1..5] == Be32(1);
    assert count == Read(Buf(b.bytes, 5, Ok), 1);
    var poisoned := Buf(b.bytes, 5, ErrorOverflow);
    assert Zeros(3) == [0, 0, 0];
    assert Deserialize(Buf(b.bytes, 5, Ok), 3) == Read(poisoned, [0, 0, 0]);
    assert ReadU16(poisoned) == Read(poisoned, 0);
    assert ReadU32(poisoned) == Read(poisoned, 0);
    assert ReadDisplayId(Buf(b.bytes, 5, Ok)) == Read(poisoned, DisplayId([0, 0, 0], 0, 0));
  }

  // ---------------------------------------------------------------------
  // The decoders as shipped: the count is read into a uint8_t.

  /**
   * Deserialize as written: identical to DeserializeMapMessage except that
   * the count is read with `buffer >> size` into a one-byte variable.
   */
  function DeserializeMapMessageAsWritten(b: Buf, priorType: MessageType, priorMap: DisplayMap, policy: StorePolicy): (r: Decoded)
    requires b.Valid() && Ascending(priorMap)
    ensures r.buf.Valid() && r.buf.bytes == b.bytes && Ascending(r.entries)
    ensures r.ok <==> r.buf.IsOk()
    ensures !DeserializeMessage(b, priorType).buf.IsOk() ==> r == Decoded(ReadU8(b).buf, priorType, priorMap, false)
  {
    var tag := DeserializeMessage(b, priorType);
    if !tag.buf.IsOk() then Decoded(tag.buf, tag.value, priorMap, false)
    else
      var count := ReadU8(tag.buf);
      var entries := ReadEntries(count.buf, count.value as nat, [], policy);
      Decoded(entries.buf, tag.value, entries.value, entries.buf.IsOk())
  }

  /** The most significant byte of a count below 2^24 is zero. */
  lemma Be32HighByteOfSmall(v: U32)
    requires v < 0x100_0000
    ensures Be32(v)[0] == 0
  {
    var r := Be32(v);
    var ab := r[0] as int * 0x100 + r[1] as int;
    var abc := ab * 0x100 + r[2] as int;
    assert FromBe32(r) == abc * 0x100 + r[3] as int;
    assert r[0] as int * 0x100_0000 <= abc * 0x100;
  }

  /**
   * Any frame with fewer than 2^24 entries, read under the one-byte count,
   * decodes as the empty map with success: the count's high byte, 0, is
   * taken for the whole count, and the cursor stops after two bytes.
   */
  lemma AsWrittenDecodesEmpty(b: Buf, t: MessageType, m: DisplayMap, priorType: MessageType, priorMap: DisplayMap, policy: StorePolicy)
    requires Ascending(priorMap) && |m| < 0x100_0000
    requires Holds(b, EncodeMapMessage(t, m))
    ensures DeserializeMapMessageAsWritten(b, priorType, priorMap, policy) == Decoded(Skip(b, 2), t, [], true)
  {
    var count := Be32(Truncate32(|m|));
    Be32HighByteOfSmall(|m|);
    assert EncodeMapMessage(t, m) == [t] + ([count[0]] + (count[1..] + EncodeEntries(m)));
    HoldsSplit(b, [t], [count[0]] + (count[1..] + EncodeEntries(m)));
    HoldsSplit(Skip(b, 1), [count[0]], count[1..] + EncodeEntries(m));
    assert Skip(Skip(b, 1), 1) == Skip(b, 2);
  }

  /**
   * The message round trip under the shipped decoder: whenever serializing
   * a non-empty map (of fewer than 2^24 entries) succeeded, the shipped
   * decoder reports success and yields the empty map instead of it.
   */
  lemma AsWrittenLosesRoundTrip(size: nat, t: MessageType, m: DisplayMap, policy: StorePolicy)
    requires Ascending(m) && 0 < |m| < 0x100_0000
    requires SerializeMapMessage(NewBuf(size), t, m).IsOk()
    ensures DeserializeMapMessageAsWritten(Reset(SerializeMapMessage(NewBuf(size), t, m)), t, [], policy).ok
    ensures DeserializeMapMessageAsWritten(Reset(SerializeMapMessage(NewBuf(size), t, m)), t, [], policy).entries == []
    ensures DeserializeMapMessageAsWritten(Reset(SerializeMapMessage(NewBuf(size), t, m)), t, [], policy).entries != m
  {
    var b := NewBuf(size);
    var enc := EncodeMapMessage(t, m);
    SerializeMapMessageEncodes(b, t, m);
    var w := Serialize(b, enc);
    assert Holds(Reset(w), enc) by {
      assert w.bytes[0..|enc|] == enc;
    }
    AsWrittenDecodesEmpty(Reset(w), t, m, t, [], policy);
  }

  /** The message test under the shipped decoder: {GSM/1111/2222 -> HDMI1} comes back empty. */
  lemma AsWrittenLosesTestMap()
    ensures var m := [Entry(DisplayId([71, 83, 77], 1111, 2222), HDMI1)];
            var d := DeserializeMapMessageAsWritten(Reset(SerializeMapMessage(NewBuf(DEFAULT_BUFFER_SIZE), CHANGE_INPUT_REQUEST, m)), CHANGE_INPUT_REQUEST, [], CompleteOnly);
            d.ok && d.entries == [] && d.entries != m
  {
    var m := [Entry(DisplayId([71, 83, 77], 1111, 2222), HDMI1)];
    SerializeSucceedsIffFits(NewBuf(DEFAULT_BUFFER_SIZE), CHANGE_INPUT_REQUEST, m);
    AsWrittenLosesRoundTrip(DEFAULT_BUFFER_SIZE, CHANGE_INPUT_REQUEST, m, CompleteOnly);
  }

  // ---------------------------------------------------------------------
  // The loops, on the buffer object.

  /** `buffer << display` on the buffer object. */
  method WriteDisplayIdTo(buffer: NetworkBuffers.NetworkBuffer, id: DisplayId)
    requires buffer.Valid()
    modifies buffer, buffer.data
    ensures buffer.Valid() && buffer.data == old(buffer.data)
    ensures buffer.Model() == WriteDisplayId(old(buffer.Model()), id)
  {
    buffer.Serialize(id.manufacturer);
    buffer.WriteU16(id.product);
    buffer.WriteU32(id.serial);
  }

  /** `buffer >> display` on the buffer object. */
  method ReadDisplayIdFrom(buffer: NetworkBuffers.NetworkBuffer) returns (id: DisplayId)
    requires buffer.Valid()
    modifies buffer
    ensures buffer.Valid() && buffer.data == old(buffer.data)
    ensures Read(buffer.Model(), id) == ReadDisplayId(old(buffer.Model()))
  {
    var manufacturer := buffer.Deserialize(3);
    var product := buffer.ReadU16();
    var serial := buffer.ReadU32();
    id := DisplayId(manufacturer, product, serial);
  }

  /** The serializer's loop over the map in key order. */
  method WriteEntriesTo(buffer: NetworkBuffers.NetworkBuffer, m: DisplayMap)
    requires buffer.Valid()
    modifies buffer, buffer.data
    ensures buffer.Valid() && buffer.data == old(buffer.data)
    ensures buffer.Model() == WriteEntries(old(buffer.Model()), m)
  {
    var i := 0;
    while i < |m|
      invariant 0 <= i <= |m|
      invariant buffer.Valid() && buffer.data == old(buffer.data)
      invariant buffer.Model() == WriteEntries(old(buffer.Model()), m[..i])
    {
      assert m[..i + 1][..i] == m[..i];
      WriteDisplayIdTo(buffer, m[i].key);
      buffer.WriteU8(m[i].value);
      i := i + 1;
    }
    assert m[..i] == m;
  }

  /** The loop body on the buffer object: the key, then the code, then the store. */
  method ReadEntryInto(buffer: NetworkBuffers.NetworkBuffer, entries: DisplayMap, policy: StorePolicy) returns (entries': DisplayMap)
    requires buffer.Valid() && Ascending(entries)
    modifies buffer
    ensures buffer.Valid() && buffer.data == old(buffer.data)
    ensures Read(buffer.Model(), entries') == ReadEntry(old(buffer.Model()), entries, policy)
  {
    ghost var before := buffer.Model();
    var key := ReadDisplayIdFrom(buffer);
    var value := buffer.ReadU8();
    assert Read(buffer.Model(), value) == ReadU8(ReadDisplayId(before).buf);
    entries' := entries;
    if buffer.IsOk() || policy == Every {
      entries' := Put(entries, key, value);
    }
  }

  /**
   * The decoder's loop: at most `count` entries, stopping as soon as the
   * buffer is no longer OK, each stored as the policy says.
   */
  method ReadEntriesFrom(buffer: NetworkBuffers.NetworkBuffer, count: nat, policy: StorePolicy) returns (entries: DisplayMap)
    requires buffer.Valid()
    modifies buffer
    ensures buffer.Valid() && buffer.data == old(buffer.data)
    ensures Read(buffer.Model(), entries) == ReadEntries(old(buffer.Model()), count, [], policy)
  {
    entries := [];
    ghost var start := buffer.Model();
    var i := 0;
    assert count - i == count;
    while i < count && buffer.IsOk()
      invariant 0 <= i <= count
      invariant buffer.Valid() && buffer.data == old(buffer.data) && Ascending(entries)
      invariant ReadEntries(buffer.Model(), count - i, entries, policy) == ReadEntries(start, count, [], policy)
      decreases count - i
    {
      ghost var before, prior, left := buffer.Model(), entries, count - i;
      entries := ReadEntryInto(buffer, entries, policy);
      ReadEntriesAdvance(before, buffer.Model(), prior, entries, left, policy);
      i := i + 1;
      assert count - i == left - 1;
    }
  }

  /** One turn of the loop: what is left to read after one entry yields the same result as before it. */
  lemma ReadEntriesAdvance(before: Buf, after: Buf, prior: DisplayMap, next: DisplayMap, count: nat, policy: StorePolicy)
    requires before.Valid() && Ascending(prior) && count > 0 && before.IsOk()
    requires Read(after, next) == ReadEntry(before, prior, policy)
    ensures after.Valid() && Ascending(next)
    ensures ReadEntries(after, count - 1, next, policy) == ReadEntries(before, count, prior, policy)
  {
  }

  /** ChangeInputRequest: the tag and the requested input per display. */
  class ChangeInputRequest {
    var messageType: MessageType
    var entries: DisplayMap

    predicate Valid()
      reads this
    {
      Ascending(entries)
    }

    /** ChangeInputRequest(map): the request tag and the given map. */
    constructor (m: DisplayMap)
      requires Ascending(m)
      ensures Valid() && messageType == CHANGE_INPUT_REQUEST && entries == m
    {
      messageType := CHANGE_INPUT_REQUEST;
      entries := m;
    }

    /** ChangeInputRequest(): the request tag and an empty map. */
    constructor Empty()
      ensures Valid() && messageType == CHANGE_INPUT_REQUEST && entries == []
    {
      messageType := CHANGE_INPUT_REQUEST;
      entries := [];
    }

    /** GetInputMap: the requested inputs, in key order. */
    function GetInputMap(): (m: DisplayMap)
      reads this
      requires Valid()
      ensures Ascending(m) && m == entries
    {
      entries
    }

    method Serialize(buffer: NetworkBuffers.NetworkBuffer) returns (ok: bool)
      requires Valid() && buffer.Valid()
      modifies buffer, buffer.data
      ensures buffer.Valid() && buffer.data == old(buffer.data)
      ensures buffer.Model() == SerializeMapMessage(old(buffer.Model()), messageType, entries)
      ensures ok <==> buffer.Model().IsOk()
    {
      buffer.WriteU8(messageType);
      if buffer.IsOk() {
        buffer.WriteU32(Truncate32(|entries|));
        WriteEntriesTo(buffer, entries);
      }
      ok := buffer.IsOk();
    }

    method Deserialize(buffer: NetworkBuffers.NetworkBuffer) returns (ok: bool)
      requires Valid() && buffer.Valid()
      modifies this, buffer
      ensures Valid() && buffer.Valid() && buffer.data == old(buffer.data)
      ensures Decoded(buffer.Model(), messageType, entries, ok)
           == DeserializeMapMessage(old(buffer.Model()), old(messageType), old(entries), CompleteOnly)
    {
      var t := buffer.ReadU8();
      if buffer.IsOk() {
        messageType := t;
        entries := [];
        var count := buffer.ReadU32();
        entries := ReadEntriesFrom(buffer, count, CompleteOnly);
      }
      ok := buffer.IsOk();
    }
  }

  /** ChangeInputResponse: the tag and the outcome of the switch per display. */
  class ChangeInputResponse {
    var messageType: MessageType
    var entries: DisplayMap

    predicate Valid()
      reads this
    {
      Ascending(entries)
    }

    /** ChangeInputResponse(result): the response tag and the given results. */
    constructor (m: DisplayMap)
      requires Ascending(m)
      ensures Valid() && messageType == CHANGE_INPUT_RESPONSE && entries == m
    {
      messageType := CHANGE_INPUT_RESPONSE;
      entries := m;
    }

    /** ChangeInputResponse(): the response tag and no results. */
    constructor Empty()
      ensures Valid() && messageType == CHANGE_INPUT_RESPONSE && entries == []
    {
      messageType := CHANGE_INPUT_RESPONSE;
      entries := [];
    }

    /** GetResultMap: the results held, in key order. */
    function GetResultMap(): (m: DisplayMap)
      reads this
      requires Valid()
      ensures Ascending(m) && m == entries
    {
      entries
    }

    method Serialize(buffer: NetworkBuffers.NetworkBuffer) returns (ok: bool)
      requires Valid() && buffer.Valid()
      modifies buffer, buffer.data
      ensures buffer.Valid() && buffer.data == old(buffer.data)
      ensures buffer.Model() == SerializeMapMessage(old(buffer.Model()), messageType, entries)
      ensures ok <==> buffer.Model().IsOk()
    {
      buffer.WriteU8(messageType);
      if buffer.IsOk() {
        buffer.WriteU32(Truncate32(|entries|));
        WriteEntriesTo(buffer, entries);
      }
      ok := buffer.IsOk();
    }

    method Deserialize(buffer: NetworkBuffers.NetworkBuffer) returns (ok: bool)
      requires Valid() && buffer.Valid()
      modifies this, buffer
      ensures Valid() && buffer.Valid() && buffer.data == old(buffer.data)
      ensures Decoded(buffer.Model(), messageType, entries, ok)
           == DeserializeMapMessage(old(buffer.Model()), old(messageType), old(entries), Every)
    {
      var t := buffer.ReadU8();
      if buffer.IsOk() {
        messageType := t;
        entries := [];
        var count := buffer.ReadU32();
        entries := ReadEntriesFrom(buffer, count, Every);
      }
      ok := buffer.IsOk();
    }
  }
}
