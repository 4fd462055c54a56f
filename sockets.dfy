/**
 * The socket as the networking layer sees it: a state, and operations whose
 * outcome the operating system decides. Each outcome (a connect accepted or
 * refused, a frame arrived or not) is a parameter. Only Send's guard and
 * the bytes it hands over are the program's own logic.
 */
module Sockets {
  import opened Bytes
  import opened Results
  import opened Buffers
  import opened Messages

  datatype SocketState = Disconnected | Connected | Listening

  /** Receive reads at most this many bytes at once. */
  const RECEIVE_SIZE: nat := 2048

  type Frame = s: seq<Byte> | |s| <= RECEIVE_SIZE

  /** What the operating system reports to one Receive: nothing ready, an error, or a frame. */
  datatype Arrival = NothingReady | ReceiveError | Arrived(frame: Frame)

  /** Send's guard: connected, something written, and the buffer not poisoned. */
  predicate CanSend(s: SocketState, b: Buf)
  {
    s == Connected && b.offset > 0 && b.IsOk()
  }

  /** Send: when the guard holds, the stored bytes up to the cursor go to the operating system. */
  function Send(s: SocketState, b: Buf): (r: Option<seq<Byte>>)
    requires b.Valid()
    ensures r.Some? <==> s == Connected && b.IsOk() && b.offset > 0
    ensures r.Some? ==> 0 < |r.value| <= |b.bytes| && r.value == b.bytes[..|r.value|] && |r.value| == b.offset
  {
    if CanSend(s, b) then Some(b.bytes[..b.offset]) else None
  }

  /** Send hands over exactly what was serialized from the start of a buffer, and nothing from a buffer with nothing written. */
  lemma SendsWhatWasWritten(s: SocketState, b: Buf, data: seq<Byte>)
    requires b.Valid() && b.offset == 0
    ensures Send(s, b) == None
    ensures Serialize(b, data).IsOk() && |data| > 0 && s == Connected ==> Send(s, Serialize(b, data)) == Some(data)
    ensures Send(s, Serialize(b, data)).Some? ==> s == Connected && Serialize(b, data).IsOk()
  {
  }

  /** Connect: a connected socket when the operating system accepts, a disconnected one otherwise. */
  function Connect(accepted: bool): (r: SocketState)
    ensures r != Listening
    ensures r == Connected <==> accepted
  {
    if accepted then Connected else Disconnected
  }

  /** Listen: a listening socket when binding works, a disconnected one otherwise. */
  function Listen(bound: bool): (r: SocketState)
    ensures r != Connected
    ensures r == Listening <==> bound
  {
    if bound then Listening else Disconnected
  }

  /** Accept: a listening socket with a pending client yields a connected socket for it. */
  function Accept(s: SocketState, pending: bool): (r: Option<SocketState>)
    ensures r.Some? <==> s == Listening && pending
    ensures r.Some? ==> r.value == Connected
  {
    if s == Listening && pending then Some(Connected) else None
  }

  /** The socket and buffer after Receive, and whether it reported a frame. */
  datatype Received = Received(state: SocketState, got: bool, buf: Buf)

  /**
   * Receive: only a connected socket reads. An error disconnects it; a frame
   * replaces the buffer's storage with exactly the bytes received.
   */
  function Receive(s: SocketState, arrival: Arrival, b: Buf): (r: Received)
    requires b.Valid()
    ensures r.buf.Valid()
  {
    if s != Connected then Received(s, false, b)
    else match arrival
      case NothingReady => Received(s, false, b)
      case ReceiveError => Received(Disconnected, false, b)
      case Arrived(frame) => Received(s, true, Load(frame))
  }

  /** Receive reports a frame exactly when a connected socket got one, and then the buffer holds that frame from its start. */
  lemma ReceiveLoadsFrame(s: SocketState, arrival: Arrival, b: Buf)
    requires b.Valid()
    ensures Receive(s, arrival, b).got <==> s == Connected && arrival.Arrived?
    ensures Receive(s, arrival, b).got ==> Receive(s, arrival, b).buf == Load(arrival.frame)
    ensures Receive(s, arrival, b).state == Connected <==> s == Connected && !arrival.ReceiveError?
  {
  }

  /** A heartbeat serialized into a fresh default buffer is sent as the single byte of its tag. */
  lemma HeartbeatIsSent()
    ensures Send(Connected, SerializeMessage(NewBuf(DEFAULT_BUFFER_SIZE), HEARTBEAT)) == Some([HEARTBEAT])
  {
    SendsWhatWasWritten(Connected, NewBuf(DEFAULT_BUFFER_SIZE), [HEARTBEAT]);
  }

  /**
   * As written, Serialize moves the storage pointer and not the cursor, so a
   * buffer written from the start still reports offset 0 and Send refuses
   * it: the heartbeat is never sent.
   */
  lemma HeartbeatNeverSentAsWritten()
    ensures var w := SerializeAsWritten(ShiftedBuf(NewBuf(DEFAULT_BUFFER_SIZE), 0), [HEARTBEAT]);
      w.buf.IsOk() && w.buf.offset == 0 && Send(Connected, w.buf) == None
  {
  }
}
