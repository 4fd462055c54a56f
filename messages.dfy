/**
 * NetworkMessage: every frame starts with a one-byte type tag. A message
 * serializes its tag, deserializes a tag without checking it, and a buffer
 * "contains" a message type when a one-byte peek at the cursor sees it.
 * A Heartbeat is a message with the heartbeat tag and nothing else.
 */
module Messages {
  import opened Bytes
  import opened Buffers
  import NetworkBuffers

  type MessageType = Byte

  /** The tags of NetworkMessageType, in declaration order; HEARTBEAT is the enumerator after the two declared ones. */
  const CHANGE_INPUT_REQUEST: MessageType := 0
  const CHANGE_INPUT_RESPONSE: MessageType := 1
  const HEARTBEAT: MessageType := 2

  /** NetworkMessage::Serialize: exactly one byte, the tag, is written. */
  function SerializeMessage(b: Buf, t: MessageType): (r: Buf)
    requires b.Valid()
    ensures r == Serialize(b, [t])
    ensures r.IsOk() <==> b.IsOk() && b.Fits(1)
    ensures r.IsOk() ==> r.offset == b.offset + 1 && r.bytes[b.offset] == t
  {
    WriteU8(b, t)
  }

  /**
   * NetworkMessage::Deserialize: read one byte into the tag, unchecked. A
   * failed read leaves the previous tag `prior` in place.
   */
  function DeserializeMessage(b: Buf, prior: MessageType): (r: Read<MessageType>)
    requires b.Valid()
    ensures r.buf == ReadU8(b).buf
    ensures r.buf.IsOk() <==> b.IsOk() && b.Fits(1)
    ensures r.value == if r.buf.IsOk() then b.bytes[b.offset] else prior
  {
    var t := ReadU8(b);
    Read(t.buf, if t.buf.IsOk() then t.value else prior)
  }

  /** The outcome of IsContainedIn: the buffer after the peek and the answer. */
  datatype Contained = Contained(buf: Buf, contained: bool)

  /**
   * IsContainedIn(type, buffer): a one-byte peek succeeds and sees `t`. The
   * cursor never moves; a peek that fails poisons the buffer.
   */
  function IsContainedIn(t: MessageType, b: Buf): (r: Contained)
    requires b.Valid()
    ensures r.buf.Valid() && r.buf.offset == b.offset && r.buf.bytes == b.bytes
    ensures r.contained <==> b.IsOk() && b.Fits(1) && b.bytes[b.offset] == t
    ensures b.IsOk() && b.Fits(1) ==> r.buf == b
    ensures !(b.IsOk() && b.Fits(1)) ==> !r.buf.IsOk()
  {
    var p := PeekU8(b);
    Contained(p.buf, p.ok && p.value == t)
  }

  /** A frame written from the start of a buffer is recognised by its tag once the buffer is reset. */
  lemma SerializedMessageIsContained(b: Buf, t: MessageType)
    requires b.Valid() && b.offset == 0 && SerializeMessage(b, t).IsOk()
    ensures IsContainedIn(t, Reset(SerializeMessage(b, t))).contained
    ensures forall u :: u != t ==> !IsContainedIn(u, Reset(SerializeMessage(b, t))).contained
  {
  }

  /**
   * The strict bound bites on received frames: a heartbeat arrives as the
   * one-byte frame [HEARTBEAT], and a one-byte peek at it fails, so it is
   * never recognised as a heartbeat.
   */
  lemma ReceivedHeartbeatIsNotRecognised()
    ensures !IsContainedIn(HEARTBEAT, Load([HEARTBEAT])).contained
    ensures !IsContainedIn(HEARTBEAT, Load([HEARTBEAT])).buf.IsOk()
  {
  }

  /** NetworkMessage: the tag, set at construction and overwritten by a successful Deserialize. */
  class NetworkMessage {
    var messageType: MessageType

    constructor (t: MessageType)
      ensures messageType == t
    {
      messageType := t;
    }

    /** GetType: the current tag. */
    function GetType(): (t: MessageType)
      reads this
      ensures t == messageType
    {
      messageType
    }

    method Serialize(buffer: NetworkBuffers.NetworkBuffer) returns (ok: bool)
      requires buffer.Valid()
      modifies buffer, buffer.data
      ensures buffer.Valid() && buffer.data == old(buffer.data)
      ensures buffer.Model() == SerializeMessage(old(buffer.Model()), messageType)
      ensures ok <==> buffer.Model().IsOk()
    {
      buffer.WriteU8(messageType);
      ok := buffer.IsOk();
    }

    method Deserialize(buffer: NetworkBuffers.NetworkBuffer) returns (ok: bool)
      requires buffer.Valid()
      modifies this, buffer
      ensures buffer.Valid() && buffer.data == old(buffer.data)
      ensures Read(buffer.Model(), messageType) == DeserializeMessage(old(buffer.Model()), old(messageType))
      ensures ok <==> buffer.Model().IsOk()
    {
      var t := buffer.ReadU8();
      if buffer.IsOk() {
        messageType := t;
      }
      ok := buffer.IsOk();
    }
  }

  /** The static IsContainedIn, as a peek on the buffer object. */
  method IsContainedInBuffer(t: MessageType, buffer: NetworkBuffers.NetworkBuffer) returns (contained: bool)
    requires buffer.Valid()
    modifies buffer
    ensures buffer.Valid() && buffer.data == old(buffer.data)
    ensures Contained(buffer.Model(), contained) == IsContainedIn(t, old(buffer.Model()))
  {
    var ok, v := buffer.PeekU8();
    contained := ok && v == t;
  }

  /** Heartbeat(): a message carrying the heartbeat tag. */
  method NewHeartbeat() returns (m: NetworkMessage)
    ensures fresh(m) && m.messageType == HEARTBEAT
  {
    m := new NetworkMessage(HEARTBEAT);
  }
}
