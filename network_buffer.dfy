/**
 * The NetworkBuffer object as the source keeps it: an array of bytes updated
 * in place by memcpy, a cursor and a state. Every method is proved to leave
 * the object in the state the corresponding function of module Buffers
 * computes from the old state.
 */
module NetworkBuffers {
  import opened Bytes
  import Buffers

  class NetworkBuffer {
    var data: array<Byte>
    var offset: nat
    var state: Buffers.State

    predicate Valid()
      reads this
    {
      offset <= data.Length
    }

    /** The value this buffer currently represents. */
    function Model(): (b: Buffers.Buf)
      reads this, data
      requires Valid()
      ensures b.Valid()
    {
      Buffers.Buf(data[..], offset, state)
    }

    /** NetworkBuffer(size): fresh storage, cursor at 0, state OK. */
    constructor (size: nat)
      ensures Valid() && fresh(data)
      ensures Model() == Buffers.NewBuf(size)
    {
      data := new Byte[size](_ => 0);
      offset := 0;
      state := Buffers.Ok;
    }

    /** NetworkBuffer(buffer, size): storage initialised with a copy of `contents`. */
    constructor FromContents(contents: seq<Byte>)
      ensures Valid() && fresh(data)
      ensures Model() == Buffers.Load(contents)
    {
      data := new Byte[|contents|](i requires 0 <= i < |contents| => contents[i]);
      offset := 0;
      state := Buffers.Ok;
    }

    /** GetState() == Buffers.State::OK, also the boolean conversion. */
    function IsOk(): (ok: bool)
      reads this
      requires Valid()
      ensures ok <==> Model().IsOk()
    {
      state == Buffers.Ok
    }

    /** Reset(): rewind the cursor and clear the overflow state. */
    method Reset()
      requires Valid()
      modifies this
      ensures Valid() && data == old(data)
      ensures Model() == Buffers.Reset(old(Model()))
    {
      offset := 0;
      state := Buffers.Ok;
    }

    /** Reset(buffer, size): take `contents` as the storage, rewind and clear the state. */
    method Load(contents: seq<Byte>)
      requires Valid()
      modifies this
      ensures Valid() && fresh(data)
      ensures Model() == Buffers.Load(contents)
    {
      data := new Byte[|contents|](i requires 0 <= i < |contents| => contents[i]);
      offset := 0;
      state := Buffers.Ok;
    }

    /** Serialize(in, size): the memcpy into the storage, guarded as the function says. */
    method Serialize(input: seq<Byte>)
      requires Valid()
      modifies this, data
      ensures Valid() && data == old(data)
      ensures Model() == Buffers.Serialize(old(Model()), input)
    {
      if state == Buffers.Ok {
        if offset + |input| < data.Length {
          forall i | 0 <= i < |input| {
            data[offset + i] := input[i];
          }
          assert data[..] == old(data[..])[..offset] + input + old(data[..])[offset + |input|..];
          offset := offset + |input|;
        } else {
          state := Buffers.ErrorOverflow;
        }
      }
    }

    /** Deserialize(out, size): the memcpy out of the storage, guarded as the function says. */
    method Deserialize(n: nat) returns (output: seq<Byte>)
      requires Valid()
      modifies this
      ensures Valid() && data == old(data)
      ensures Buffers.Read(Model(), output) == Buffers.Deserialize(old(Model()), n)
    {
      output := Zeros(n);
      if state == Buffers.Ok {
        if offset + n < data.Length {
          output := data[offset..offset + n];
          offset := offset + n;
        } else {
          state := Buffers.ErrorOverflow;
        }
      }
    }

    method WriteU8(v: Byte)
      requires Valid()
      modifies this, data
      ensures Valid() && data == old(data)
      ensures Model() == Buffers.WriteU8(old(Model()), v)
    {
      Serialize([v]);
    }

    method WriteU16(v: U16)
      requires Valid()
      modifies this, data
      ensures Valid() && data == old(data)
      ensures Model() == Buffers.WriteU16(old(Model()), v)
    {
      Serialize(Be16(v));
    }

    method WriteU32(v: U32)
      requires Valid()
      modifies this, data
      ensures Valid() && data == old(data)
      ensures Model() == Buffers.WriteU32(old(Model()), v)
    {
      Serialize(Be32(v));
    }

    /** `<< bool` in the one-byte form the reader expects. */
    method WriteBool(v: bool)
      requires Valid()
      modifies this, data
      ensures Valid() && data == old(data)
      ensures Model() == Buffers.WriteBool(old(Model()), v)
    {
      Serialize([Buffers.BoolByte(v)]);
    }

    /** `<< bool` as the source compiles it: four bytes through the `int32_t` swap. */
    method WriteBoolAsWritten(v: bool)
      requires Valid()
      modifies this, data
      ensures Valid() && data == old(data)
      ensures Model() == Buffers.WriteBoolAsWritten(old(Model()), v)
    {
      Serialize(Be32(Buffers.BoolByte(v) as U32));
    }

    method WriteString(s: seq<Byte>)
      requires Valid()
      modifies this, data
      ensures Valid() && data == old(data)
      ensures Model() == Buffers.WriteString(old(Model()), s)
    {
      if |s| <= Buffers.MAX_STRING_LENGTH {
        WriteU32(|s|);
        Serialize(s);
      } else {
        state := Buffers.ErrorOverflow;
      }
    }

    method ReadU8() returns (v: Byte)
      requires Valid()
      modifies this
      ensures Valid() && data == old(data)
      ensures Buffers.Read(Model(), v) == Buffers.ReadU8(old(Model()))
    {
      var bytes := Deserialize(1);
      v := bytes[0];
    }

    method ReadU16() returns (v: U16)
      requires Valid()
      modifies this
      ensures Valid() && data == old(data)
      ensures Buffers.Read(Model(), v) == Buffers.ReadU16(old(Model()))
    {
      var bytes := Deserialize(2);
      v := FromBe16(bytes);
    }

    method ReadU32() returns (v: U32)
      requires Valid()
      modifies this
      ensures Valid() && data == old(data)
      ensures Buffers.Read(Model(), v) == Buffers.ReadU32(old(Model()))
    {
      var bytes := Deserialize(4);
      v := FromBe32(bytes);
    }

    method ReadBool() returns (v: bool)
      requires Valid()
      modifies this
      ensures Valid() && data == old(data)
      ensures Buffers.Read(Model(), v) == Buffers.ReadBool(old(Model()))
    {
      var b := ReadU8();
      v := b != 0;
    }

    method ReadString() returns (s: seq<Byte>)
      requires Valid()
      modifies this
      ensures Valid() && data == old(data)
      ensures Buffers.Read(Model(), s) == Buffers.ReadString(old(Model()))
    {
      var n := ReadU32();
      if state == Buffers.Ok && n <= Buffers.MAX_STRING_LENGTH {
        s := Deserialize(n);
      } else {
        state := Buffers.ErrorOverflow;
        s := [];
      }
    }

    /** Peek of one byte: save the cursor, read, restore the cursor. */
    method PeekU8() returns (ok: bool, v: Byte)
      requires Valid()
      modifies this
      ensures Valid() && data == old(data)
      ensures Buffers.Peeked(Model(), ok, v) == Buffers.PeekU8(old(Model()))
    {
      var saved := offset;
      v := ReadU8();
      offset := saved;
      ok := state == Buffers.Ok;
    }
  }
}
