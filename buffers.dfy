/**
 * NetworkBuffer: a fixed-length byte array with a cursor and a sticky
 * overflow state, and the codecs that move integers, booleans and
 * length-prefixed strings through it.
 *
 * The values below (`Buf` and the functions over it) are the specification;
 * the class in module NetworkBuffers holds the array and updates it in
 * place, and each of its methods is proved to agree with its function.
 */
module Buffers {
  import opened Bytes

  /** Bytes a blank buffer holds unless told otherwise. */
  const DEFAULT_BUFFER_SIZE: nat := 2048
  /** Longest string the codecs accept. */
  const MAX_STRING_LENGTH: nat := 1024

  datatype State = Ok | ErrorOverflow

  /**
   * The observable state of a NetworkBuffer: its storage (whose length is
   * m_length), the cursor m_offset and m_state.
   */
  datatype Buf = Buf(bytes: seq<Byte>, offset: nat, state: State) {
    /** The cursor never runs past the end of the storage. */
    predicate Valid()
    {
      offset <= |bytes|
    }

    /** operator bool: the buffer has not overflowed. */
    predicate IsOk()
    {
      state == Ok
    }

    /** `n` more bytes fit after the cursor; the source's bound is strict. */
    predicate Fits(n: nat)
    {
      offset + n < |bytes|
    }
  }

  /** The value a read produced together with the buffer after the read. */
  datatype Read<T> = Read(buf: Buf, value: T)

  /** NetworkBuffer(size): `size` bytes of storage, cursor at 0, state OK. */
  function NewBuf(size: nat): (b: Buf)
    ensures b.Valid() && b.IsOk() && b.offset == 0 && |b.bytes| == size
  {
    Buf(Zeros(size), 0, Ok)
  }

  /** NetworkBuffer(buffer, size), and Reset(buffer, size): storage holding exactly `contents`. */
  function Load(contents: seq<Byte>): (b: Buf)
    ensures b.Valid() && b.IsOk() && b.offset == 0 && b.bytes == contents
  {
    Buf(contents, 0, Ok)
  }

  /** Reset(): back to the start, state OK, storage untouched. */
  function Reset(b: Buf): (r: Buf)
    ensures r.Valid() && r.IsOk() && r.offset == 0 && r.bytes == b.bytes
  {
    Buf(b.bytes, 0, Ok)
  }

  /**
   * Serialize(in, size): copy `data` to the cursor and advance it, provided
   * the buffer is OK and the bytes fit; otherwise poison the buffer.
   */
  function Serialize(b: Buf, data: seq<Byte>): (r: Buf)
    requires b.Valid()
    ensures r.Valid() && |r.bytes| == |b.bytes|
    ensures r.IsOk() <==> b.IsOk() && b.Fits(|data|)
    ensures !b.IsOk() ==> r == b
    ensures r.IsOk() ==> r.offset == b.offset + |data| && r.bytes[b.offset..r.offset] == data
    ensures r.IsOk() ==> r.bytes[..b.offset] == b.bytes[..b.offset] && r.bytes[r.offset..] == b.bytes[r.offset..]
    ensures !r.IsOk() ==> r.bytes == b.bytes && r.offset == b.offset
  {
    if !b.IsOk() then b
    else if b.Fits(|data|) then
      Buf(b.bytes[..b.offset] + data + b.bytes[b.offset + |data|..], b.offset + |data|, Ok)
    else
      b.(state := ErrorOverflow)
  }

  /**
   * Deserialize(out, size): copy `n` bytes out from the cursor and advance
   * it, provided the buffer is OK and the bytes are there; otherwise poison
   * the buffer. What the caller's destination holds after a failed copy
   * is not modelled: the model yields zeros for it.
   */
  function Deserialize(b: Buf, n: nat): (r: Read<seq<Byte>>)
    requires b.Valid()
    ensures r.buf.Valid() && r.buf.bytes == b.bytes && |r.value| == n
    ensures r.buf.IsOk() <==> b.IsOk() && b.Fits(n)
    ensures !b.IsOk() ==> r.buf == b
    ensures r.buf.IsOk() ==> r.buf.offset == b.offset + n && r.value == b.bytes[b.offset..b.offset + n]
    ensures !r.buf.IsOk() ==> r.buf.offset == b.offset && r.value == Zeros(n)
  {
    if !b.IsOk() then Read(b, Zeros(n))
    else if b.Fits(n) then Read(b.(offset := b.offset + n), b.bytes[b.offset..b.offset + n])
    else Read(b.(state := ErrorOverflow), Zeros(n))
  }

  // Writers: operator<< for each wire type.

  /** One byte: on success it is the byte at the old cursor. */
  function WriteU8(b: Buf, v: Byte): (r: Buf)
    requires b.Valid()
    ensures r.Valid() && |r.bytes| == |b.bytes|
    ensures r.IsOk() <==> b.IsOk() && b.Fits(1)
    ensures r.IsOk() ==> r.offset == b.offset + 1 && r.bytes[b.offset] == v
  {
    Serialize(b, [v])
  }

  /** Two bytes, most significant first: on success they decode back to `v`. */
  function WriteU16(b: Buf, v: U16): (r: Buf)
    requires b.Valid()
    ensures r.Valid() && |r.bytes| == |b.bytes|
    ensures r.IsOk() <==> b.IsOk() && b.Fits(2)
    ensures r.IsOk() ==> r.offset == b.offset + 2 && FromBe16(r.bytes[b.offset..r.offset]) == v
  {
    Serialize(b, Be16(v))
  }

  /** Four bytes, most significant first: on success they decode back to `v`. */
  function WriteU32(b: Buf, v: U32): (r: Buf)
    requires b.Valid()
    ensures r.Valid() && |r.bytes| == |b.bytes|
    ensures r.IsOk() <==> b.IsOk() && b.Fits(4)
    ensures r.IsOk() ==> r.offset == b.offset + 4 && FromBe32(r.bytes[b.offset..r.offset]) == v
  {
    Serialize(b, Be32(v))
  }

  /** A bool's byte: 1 for true and 0 for false. */
  function BoolByte(v: bool): Byte
  {
    if v then 1 else 0
  }

  /**
   * `<< bool` as the source compiles it: the `uint8_t` it casts the value
   * to is promoted to `int`, so the `int32_t` overload of HostToNetwork is
   * chosen and four bytes go out, the bool's byte last.
   */
  function WriteBoolAsWritten(b: Buf, v: bool): (r: Buf)
    requires b.Valid()
    ensures r.Valid() && |r.bytes| == |b.bytes|
    ensures r.IsOk() <==> b.IsOk() && b.Fits(4)
    ensures r.IsOk() ==> r.offset == b.offset + 4 && r.bytes[b.offset..r.offset] == [0, 0, 0, BoolByte(v)]
  {
    Serialize(b, Be32(BoolByte(v) as U32))
  }

  /**
   * `<< bool` as the one-byte reader `>> bool` expects it: one byte that is
   * non-zero exactly when `v` holds.
   */
  function WriteBool(b: Buf, v: bool): (r: Buf)
    requires b.Valid()
    ensures r.Valid() && |r.bytes| == |b.bytes|
    ensures r.IsOk() <==> b.IsOk() && b.Fits(1)
    ensures r.IsOk() ==> r.offset == b.offset + 1 && (r.bytes[b.offset] != 0 <==> v)
  {
    Serialize(b, [BoolByte(v)])
  }

  /** A string of at most MAX_STRING_LENGTH bytes goes as a 4-byte length and its bytes; a longer one poisons the buffer. */
  function WriteString(b: Buf, s: seq<Byte>): (r: Buf)
    requires b.Valid()
    ensures r.Valid()
    ensures |s| > MAX_STRING_LENGTH ==> !r.IsOk()
    ensures r.IsOk() <==> b.IsOk() && |s| <= MAX_STRING_LENGTH && b.Fits(4 + |s|)
  {
    if |s| <= MAX_STRING_LENGTH then Serialize(WriteU32(b, |s|), s)
    else b.(state := ErrorOverflow)
  }

  // Readers: operator>> for each wire type.

  /** One byte: on success the byte at the cursor. */
  function ReadU8(b: Buf): (r: Read<Byte>)
    requires b.Valid()
    ensures r.buf.Valid() && r.buf.bytes == b.bytes
    ensures r.buf.IsOk() <==> b.IsOk() && b.Fits(1)
    ensures r.buf.IsOk() ==> r.buf.offset == b.offset + 1 && r.value == b.bytes[b.offset]
  {
    var r := Deserialize(b, 1);
    Read(r.buf, r.value[0])
  }

  /** Two bytes, most significant first: on success the value they encode. */
  function ReadU16(b: Buf): (r: Read<U16>)
    requires b.Valid()
    ensures r.buf.Valid() && r.buf.bytes == b.bytes
    ensures r.buf.IsOk() <==> b.IsOk() && b.Fits(2)
    ensures r.buf.IsOk() ==> r.buf.offset == b.offset + 2 && Be16(r.value) == b.bytes[b.offset..b.offset + 2]
  {
    var r := Deserialize(b, 2);
    Read(r.buf, FromBe16(r.value))
  }

  /** Four bytes, most significant first: on success the value they encode. */
  function ReadU32(b: Buf): (r: Read<U32>)
    requires b.Valid()
    ensures r.buf.Valid() && r.buf.bytes == b.bytes
    ensures r.buf.IsOk() <==> b.IsOk() && b.Fits(4)
    ensures r.buf.IsOk() ==> r.buf.offset == b.offset + 4 && Be32(r.value) == b.bytes[b.offset..b.offset + 4]
  {
    var r := Deserialize(b, 4);
    FromBe32Inverse(r.value);
    Read(r.buf, FromBe32(r.value))
  }

  /** A bool read is true iff the byte read is non-zero. */
  function ReadBool(b: Buf): (r: Read<bool>)
    requires b.Valid()
    ensures r.buf == ReadU8(b).buf
    ensures r.value <==> ReadU8(b).value != 0
  {
    var r := ReadU8(b);
    Read(r.buf, r.value != 0)
  }

  /**
   * A string read: a 4-byte length, then that many bytes. A failed length
   * read or a length above MAX_STRING_LENGTH poisons the buffer. If the
   * body read fails, the source still assigns `length` characters of an
   * uninitialised array; the model yields zeros for them.
   */
  function ReadString(b: Buf): (r: Read<seq<Byte>>)
    requires b.Valid()
    ensures r.buf.Valid() && r.buf.bytes == b.bytes
    ensures r.buf.IsOk() ==> |r.value| <= MAX_STRING_LENGTH
    ensures !ReadU32(b).buf.IsOk() ==> !r.buf.IsOk()
    ensures ReadU32(b).buf.IsOk() && ReadU32(b).value > MAX_STRING_LENGTH ==> !r.buf.IsOk()
  {
    var n := ReadU32(b);
    if n.buf.IsOk() && n.value <= MAX_STRING_LENGTH then Deserialize(n.buf, n.value)
    else Read(n.buf.(state := ErrorOverflow), [])
  }

  /** What Peek reports: the buffer afterwards, whether the read succeeded and the value read. */
  datatype Peeked<T> = Peeked(buf: Buf, ok: bool, value: T)

  /**
   * Peek: run a read, then put the cursor back where it was. The state is
   * not put back, so a failed peek leaves the buffer poisoned.
   */
  function Peek<T>(b: Buf, read: Buf --> Read<T>): (p: Peeked<T>)
    requires b.Valid() && read.requires(b)
    ensures p.buf.offset == b.offset
    ensures p.ok <==> read(b).buf.IsOk()
    ensures p.buf.state == read(b).buf.state && p.buf.bytes == read(b).buf.bytes
    ensures p.value == read(b).value
  {
    var r := read(b);
    Peeked(r.buf.(offset := b.offset), r.buf.IsOk(), r.value)
  }

  /** Peek of one byte, the only peek the protocol makes. */
  function PeekU8(b: Buf): (p: Peeked<Byte>)
    requires b.Valid()
    ensures p.buf.Valid()
    ensures p.buf.offset == b.offset && p.buf.bytes == b.bytes
    ensures p.ok <==> b.IsOk() && b.Fits(1)
    ensures p.ok ==> p.buf == b && p.value == b.bytes[b.offset]
    ensures !p.ok ==> !p.buf.IsOk()
  {
    Peek(b, ReadU8)
  }

  // ---------------------------------------------------------------------
  // Properties of the codecs.

  /** Once poisoned, every transfer leaves the buffer exactly as it was. */
  lemma OverflowIsSticky(b: Buf, data: seq<Byte>, n: nat)
    requires b.Valid() && !b.IsOk()
    ensures Serialize(b, data) == b
    ensures Deserialize(b, n).buf == b
    ensures WriteString(b, data) == b.(state := ErrorOverflow)
    ensures ReadString(b).buf == b
  {
  }

  /**
   * `data` sits at the cursor of an OK buffer with room to spare (the bound
   * is strict): the condition under which reading it back succeeds.
   */
  predicate Holds(b: Buf, data: seq<Byte>)
  {
    b.Valid() && b.IsOk() && b.Fits(|data|) && b.bytes[b.offset..b.offset + |data|] == data
  }

  /** Skip past `xs` once the buffer holds `xs + ys`: it then holds `ys`. */
  function Skip(b: Buf, n: nat): Buf
  {
    b.(offset := b.offset + n)
  }

  lemma {:induction false} HoldsSplit(b: Buf, xs: seq<Byte>, ys: seq<Byte>)
    requires Holds(b, xs + ys)
    ensures Holds(b, xs) && Holds(Skip(b, |xs|), ys)
    ensures Deserialize(b, |xs|) == Read(Skip(b, |xs|), xs)
  {
    assert b.bytes[b.offset..b.offset + |xs|] == (xs + ys)[..|xs|];
    assert b.bytes[b.offset + |xs|..b.offset + |xs| + |ys|] == (xs + ys)[|xs|..];
  }

  /** What a successful write leaves behind is there to be read from where the write began. */
  lemma {:induction false} SerializeThenHolds(b: Buf, data: seq<Byte>, ys: seq<Byte>)
    requires b.Valid() && Serialize(b, data).IsOk()
    requires Holds(Serialize(b, data), ys)
    ensures Holds(Serialize(b, data).(offset := b.offset), data + ys)
  {
    var r := Serialize(b, data);
    assert r.bytes[b.offset..b.offset + |data| + |ys|] == data + ys by {
      assert r.bytes[b.offset..r.offset] == data;
      assert r.bytes[r.offset..r.offset + |ys|] == ys;
    }
  }

  /**
   * Writing in two steps is writing the concatenation: the final state is
   * the same, and when it is OK so is everything else.
   */
  lemma {:induction false} SerializeConcat(b: Buf, xs: seq<Byte>, ys: seq<Byte>)
    requires b.Valid()
    ensures Serialize(Serialize(b, xs), ys).state == Serialize(b, xs + ys).state
    ensures Serialize(b, xs + ys).IsOk() ==> Serialize(Serialize(b, xs), ys) == Serialize(b, xs + ys)
  {
    var one := Serialize(b, xs);
    if b.IsOk() && b.Fits(|xs + ys|) {
      var o, m := b.offset, b.offset + |xs|;
      var tail := b.bytes[m + |ys|..];
      assert one.bytes == b.bytes[..o] + xs + b.bytes[m..];
      assert one.bytes[..m] == b.bytes[..o] + xs;
      assert one.bytes[m + |ys|..] == tail;
      var two := Serialize(one, ys);
      var whole := Serialize(b, xs + ys);
      assert two.bytes == (b.bytes[..o] + xs) + ys + tail;
      assert whole.bytes == b.bytes[..o] + (xs + ys) + tail;
    }
  }

  /** A 16-bit value written and read back from the same position is the same value. */
  lemma U16RoundTrip(b: Buf, v: U16)
    requires b.Valid() && WriteU16(b, v).IsOk()
    ensures ReadU16(WriteU16(b, v).(offset := b.offset)) == Read(WriteU16(b, v), v)
  {
  }

  /** A 32-bit value written and read back from the same position is the same value. */
  lemma U32RoundTrip(b: Buf, v: U32)
    requires b.Valid() && WriteU32(b, v).IsOk()
    ensures ReadU32(WriteU32(b, v).(offset := b.offset)) == Read(WriteU32(b, v), v)
  {
    var w := WriteU32(b, v);
    assert Deserialize(w.(offset := b.offset), 4).value == Be32(v);
  }

  /** A bool written and read back is the same bool. */
  lemma BoolRoundTrip(b: Buf, v: bool)
    requires b.Valid() && WriteBool(b, v).IsOk()
    ensures ReadBool(WriteBool(b, v).(offset := b.offset)) == Read(WriteBool(b, v), v)
  {
  }

  /**
   * As written, a bool read back from where it was written is always false,
   * since the reader takes the first of the four bytes, which is 0; and the
   * reader stops three bytes short of where the writer stopped.
   */
  lemma AsWrittenBoolReadsFalse(b: Buf, v: bool)
    requires b.Valid() && WriteBoolAsWritten(b, v).IsOk()
    ensures var w := WriteBoolAsWritten(b, v);
      var r := ReadBool(w.(offset := b.offset));
      r.buf.IsOk() && !r.value && r.buf.offset + 3 == w.offset
  {
    var w := WriteBoolAsWritten(b, v);
    assert w.bytes[b.offset] == [0, 0, 0, BoolByte(v)][0];
  }

  /** A string of at most MAX_STRING_LENGTH bytes written and read back is the same string. */
  lemma StringRoundTrip(b: Buf, s: seq<Byte>)
    requires b.Valid() && WriteString(b, s).IsOk()
    ensures ReadString(WriteString(b, s).(offset := b.offset)) == Read(WriteString(b, s), s)
  {
    var len := WriteU32(b, |s|);
    var w := WriteString(b, s);
    var start := w.(offset := b.offset);
    assert w.bytes[b.offset..b.offset + 4] == Be32(|s|) by {
      assert len.bytes[b.offset..b.offset + 4] == Be32(|s|);
      assert w.bytes[..len.offset] == len.bytes[..len.offset];
    }
    assert ReadU32(start) == Read(start.(offset := b.offset + 4), |s|);
  }

  /** A successful peek sees exactly what the next real read returns, and moves nothing. */
  lemma PeekAgreesWithRead(b: Buf)
    requires b.Valid() && PeekU8(b).ok
    ensures PeekU8(b).buf == b
    ensures PeekU8(b).value == ReadU8(b).value
  {
  }

  /** After Reset, reading starts from the first stored byte. */
  lemma ResetReadsFromStart(b: Buf)
    requires 1 < |b.bytes|
    ensures ReadU8(Reset(b)) == Read(Buf(b.bytes, 1, Ok), b.bytes[0])
  {
  }

  // ---------------------------------------------------------------------
  // The transfers as the source writes them: the storage pointer, not the
  // cursor, is moved past each transfer.

  /** A buffer whose storage pointer has been moved `shift` bytes past the start of its storage. */
  datatype ShiftedBuf = ShiftedBuf(buf: Buf, shift: nat)

  /**
   * Serialize as written: the guard tests the cursor, the copy lands at
   * pointer + cursor, and the pointer moves on while the cursor stays put.
   * Bytes that would land past the storage are not modelled.
   */
  function SerializeAsWritten(s: ShiftedBuf, data: seq<Byte>): (r: ShiftedBuf)
    requires s.buf.Valid()
    ensures r.buf.Valid() && r.buf.offset == s.buf.offset
    ensures r.buf.IsOk() <==> s.buf.IsOk() && s.buf.Fits(|data|)
  {
    if !s.buf.IsOk() then s
    else if s.buf.Fits(|data|) then
      var at := s.shift + s.buf.offset;
      var bytes := if at + |data| <= |s.buf.bytes| then s.buf.bytes[..at] + data + s.buf.bytes[at + |data|..] else s.buf.bytes;
      ShiftedBuf(s.buf.(bytes := bytes), s.shift + |data|)
    else
      ShiftedBuf(s.buf.(state := ErrorOverflow), s.shift)
  }
}
