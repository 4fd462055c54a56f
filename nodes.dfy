/**
 * Node: one peer of the cluster. Each pump either tries to connect (when
 * not connected) or, when connected, sends a heartbeat every five seconds,
 * takes in at most one frame, and reports the peer lost once nothing has
 * been heard from it for fifteen seconds. The clock is the explicit `now`
 * of each pump, and the socket's outcomes are inputs.
 */
module Nodes {
  import opened Bytes
  import opened Results
  import opened Buffers
  import opened Messages
  import opened Listeners
  import opened Sockets
  import opened Timing
  import NetworkBuffers

  /** A resolved peer address (an IPv4 address and port). */
  type Address = nat

  const HEARTBEAT_INTERVAL: Millis := 5000
  const LIVENESS_TIMEOUT: Millis := 15000

  /** The callbacks of Node::Listener. A received frame comes with the buffer it sits in. */
  datatype NodeEvent = NodeConnected | MessageReceived(buf: Buf) | NodeDisconnected

  /**
   * The fields of a Node: its socket, the peer address (unset when the
   * hostname did not resolve), listeners, when the peer was last heard from
   * and when the heartbeat spacer last fired.
   */
  datatype NodeState = NodeState(socket: SocketState, address: Option<Address>, listeners: seq<ListenerId>,
                                 lastSeen: Millis, spacerLast: Millis)

  /** What the outside world decides during one pump: the time, whether a connect succeeds, what arrives. */
  datatype PumpInput = PumpInput(now: Millis, connectAccepted: bool, arrival: Arrival)

  /** The node after a pump, the callbacks it made, and the frames it handed to the socket. */
  datatype Pumped = Pumped(node: NodeState, notices: seq<Notice<NodeEvent>>, sent: seq<seq<Byte>>)

  /**
   * Node(hostname, port): disconnected; the address is set only when the
   * lookup succeeded. The last-seen time starts at the clock's epoch and the
   * spacer at the construction time.
   */
  function HostNode(resolved: Option<Address>, now: Millis): (n: NodeState)
    ensures n.socket == Disconnected && n.listeners == []
    ensures n.address.Some? <==> resolved.Some?
  {
    NodeState(Disconnected, resolved, [], 0, now)
  }

  /** Node(socket): a node around an accepted, connected socket. */
  function AcceptedNode(now: Millis): (n: NodeState)
    ensures n.socket == Connected && n.listeners == []
  {
    NodeState(Connected, None, [], 0, now)
  }

  /** The heartbeat buffer of a connected pump: a fresh default buffer, with the heartbeat in it when the spacer fired. */
  function HeartbeatBuffer(fired: bool): (b: Buf)
    ensures b.Valid() && b.IsOk() && |b.bytes| == DEFAULT_BUFFER_SIZE
  {
    if fired then SerializeMessage(NewBuf(DEFAULT_BUFFER_SIZE), HEARTBEAT) else NewBuf(DEFAULT_BUFFER_SIZE)
  }

  /** The frames one Send call hands over: none or one. */
  function SentFrames(sent: Option<seq<Byte>>): seq<seq<Byte>>
  {
    if sent.Some? then [sent.value] else []
  }

  /** What a received frame does: the last-seen time after it and the callbacks it causes. */
  datatype Heard = Heard(lastSeen: Millis, notices: seq<Notice<NodeEvent>>)

  /** A frame that a heartbeat peek recognises refreshes the last-seen time; any other goes to every listener. */
  function HearFrame(n: NodeState, r: Received, now: Millis): (h: Heard)
    requires r.buf.Valid()
    ensures !r.got ==> h == Heard(n.lastSeen, [])
    ensures h.lastSeen == n.lastSeen || h.lastSeen == now
    ensures h.notices == [] || (h.lastSeen == n.lastSeen && |h.notices| == |n.listeners|)
    ensures forall k :: 0 <= k < |h.notices| ==> h.notices[k].listener == n.listeners[k] && h.notices[k].event.MessageReceived?
  {
    if !r.got then Heard(n.lastSeen, [])
    else
      var c := IsContainedIn(HEARTBEAT, r.buf);
      if c.contained then Heard(now, []) else Heard(n.lastSeen, Broadcast(n.listeners, MessageReceived(c.buf)))
  }

  /** Node::Pump. */
  function PumpNode(n: NodeState, input: PumpInput): (p: Pumped)
    ensures p.node.listeners == n.listeners && p.node.address == n.address
    ensures p.node.socket != Listening
    ensures p.node.lastSeen == n.lastSeen || p.node.lastSeen == input.now
    ensures |p.sent| <= 1 && (p.sent != [] ==> n.socket == Connected)
  {
    if n.socket != Connected then
      if input.connectAccepted then
        Pumped(n.(socket := Connected, lastSeen := input.now), Broadcast(n.listeners, NodeConnected), [])
      else
        Pumped(n.(socket := Disconnected), [], [])
    else
      var tick := Step(n.spacerLast, input.now, HEARTBEAT_INTERVAL);
      var hb := HeartbeatBuffer(tick.fired);
      var sent := if tick.fired then SentFrames(Send(Connected, hb)) else [];
      var r := Receive(Connected, input.arrival, Reset(hb));
      var heard := HearFrame(n, r, input.now);
      var lost := r.state != Connected || input.now - heard.lastSeen >= LIVENESS_TIMEOUT;
      Pumped(n.(socket := r.state, lastSeen := heard.lastSeen, spacerLast := tick.last),
             heard.notices + (if lost then Broadcast(n.listeners, NodeDisconnected) else []),
             sent)
  }

  /**
   * A pump that starts disconnected only tries to connect: on success every
   * listener hears NodeConnected and the peer counts as seen now; nothing is
   * sent or received either way.
   */
  lemma DisconnectedPumpOnlyConnects(n: NodeState, input: PumpInput)
    requires n.socket != Connected
    ensures PumpNode(n, input).sent == []
    ensures PumpNode(n, input).node.socket == Connect(input.connectAccepted)
    ensures forall k :: 0 <= k < |PumpNode(n, input).notices| ==> PumpNode(n, input).notices[k].event == NodeConnected
    ensures |PumpNode(n, input).notices| == if input.connectAccepted then |n.listeners| else 0
    ensures PumpNode(n, input).node.lastSeen == if input.connectAccepted then input.now else n.lastSeen
    ensures PumpNode(n, input).node.spacerLast == n.spacerLast && PumpNode(n, input).node.listeners == n.listeners
  {
  }

  /** A connected pump sends one heartbeat, the single byte of its tag, exactly when five seconds have passed since the last one. */
  lemma HeartbeatEveryFiveSeconds(n: NodeState, input: PumpInput)
    requires n.socket == Connected
    ensures input.now - n.spacerLast >= HEARTBEAT_INTERVAL ==>
      PumpNode(n, input).sent == [[HEARTBEAT]] && PumpNode(n, input).node.spacerLast == input.now
    ensures input.now - n.spacerLast < HEARTBEAT_INTERVAL ==>
      PumpNode(n, input).sent == [] && PumpNode(n, input).node.spacerLast == n.spacerLast
  {
    HeartbeatIsSent();
  }

  /**
   * A frame that starts with the heartbeat tag and has at least one more
   * byte refreshes the last-seen time, reaches no listener, and keeps the
   * peer alive.
   */
  lemma HeartbeatFrameRefreshes(n: NodeState, input: PumpInput)
    requires n.socket == Connected
    requires input.arrival.Arrived? && |input.arrival.frame| >= 2 && input.arrival.frame[0] == HEARTBEAT
    ensures PumpNode(n, input).node.lastSeen == input.now && PumpNode(n, input).node.socket == Connected
    ensures PumpNode(n, input).notices == []
  {
  }

  /**
   * The bound on transfers is strict, so the one-byte frame a peer's
   * heartbeat arrives as cannot be peeked: it does not refresh the
   * last-seen time, and every listener receives it in a poisoned buffer.
   */
  lemma LoneHeartbeatIsForwarded(n: NodeState, input: PumpInput)
    requires n.socket == Connected
    requires input.arrival == Arrived([HEARTBEAT])
    ensures PumpNode(n, input).node.lastSeen == n.lastSeen
    ensures Broadcast(n.listeners, MessageReceived(Load([HEARTBEAT]).(state := ErrorOverflow))) <= PumpNode(n, input).notices
  {
  }

  /** Any other frame with a readable tag goes, in its buffer, to every listener in order, and does not count as hearing from the peer. */
  lemma OtherFramesAreForwarded(n: NodeState, input: PumpInput)
    requires n.socket == Connected
    requires input.arrival.Arrived? && |input.arrival.frame| >= 2 && input.arrival.frame[0] != HEARTBEAT
    ensures PumpNode(n, input).node.lastSeen == n.lastSeen
    ensures Broadcast(n.listeners, MessageReceived(Load(input.arrival.frame))) <= PumpNode(n, input).notices
  {
  }

  /**
   * A connected pump reports the peer lost, to every listener, exactly when
   * the receive failed or fifteen seconds have passed since it was last
   * heard from; no other callback reports a loss.
   */
  lemma LossReportedIffSilentOrFailed(n: NodeState, input: PumpInput)
    requires n.socket == Connected
    ensures var p := PumpNode(n, input);
      var lost := input.arrival == ReceiveError || input.now - p.node.lastSeen >= LIVENESS_TIMEOUT;
      (lost ==> Broadcast(n.listeners, NodeDisconnected) <= p.notices[|p.notices| - |n.listeners|..])
      && (!lost ==> forall k :: 0 <= k < |p.notices| ==> p.notices[k].event != NodeDisconnected)
  {
    var tick := Step(n.spacerLast, input.now, HEARTBEAT_INTERVAL);
    var r := Receive(Connected, input.arrival, Reset(HeartbeatBuffer(tick.fired)));
    var heard := HearFrame(n, r, input.now);
    assert forall k :: 0 <= k < |heard.notices| ==> heard.notices[k].event != NodeDisconnected;
  }

  /** A peer silent for fifteen seconds is reported lost in every pump, however often it is pumped. */
  lemma SilentPeerIsLost(n: NodeState, input: PumpInput)
    requires n.socket == Connected && input.arrival == NothingReady
    requires input.now - n.lastSeen >= LIVENESS_TIMEOUT
    ensures PumpNode(n, input).notices == Broadcast(n.listeners, NodeDisconnected)
    ensures PumpNode(n, input).node.socket == Connected && PumpNode(n, input).node.lastSeen == n.lastSeen
  {
  }

  /** Node: the object the source keeps, with the spacer as a separate object. */
  class Node {
    var socket: SocketState
    var address: Option<Address>
    var listeners: seq<ListenerId>
    var lastSeen: Millis
    const spacer: TimeSpacer

    function Model(): NodeState
      reads this, spacer
    {
      NodeState(socket, address, listeners, lastSeen, spacer.last)
    }

    /** Node(hostname, port), with the outcome of the address lookup as `resolved`. */
    constructor FromHostname(resolved: Option<Address>, now: Millis)
      ensures Model() == HostNode(resolved, now) && fresh(spacer)
    {
      socket := Disconnected;
      address := resolved;
      listeners := [];
      lastSeen := 0;
      spacer := new TimeSpacer(now);
    }

    /** Node(socket): around a socket accepted by the listening side. */
    constructor FromSocket(now: Millis)
      ensures Model() == AcceptedNode(now) && fresh(spacer)
    {
      socket := Connected;
      address := None;
      listeners := [];
      lastSeen := 0;
      spacer := new TimeSpacer(now);
    }

    /** IsConnected: the socket is in the connected state. */
    function IsConnected(): (connected: bool)
      reads this
      ensures connected <==> socket == Connected
    {
      socket == Connected
    }

    /** Send: hand the buffer to the socket, which checks the guard. */
    method Send(buffer: NetworkBuffers.NetworkBuffer) returns (sent: Option<seq<Byte>>)
      requires buffer.Valid()
      ensures sent == Sockets.Send(socket, buffer.Model())
    {
      if socket == Connected && buffer.offset > 0 && buffer.IsOk() {
        sent := Some(buffer.data[..buffer.offset]);
      } else {
        sent := None;
      }
    }

    method AddListener(listener: ListenerId)
      modifies this
      ensures Model() == old(Model()).(listeners := AddLast(old(listeners), listener))
    {
      listeners := RemoveAll(listeners, listener) + [listener];
    }

    method RemoveListener(listener: ListenerId)
      modifies this
      ensures Model() == old(Model()).(listeners := RemoveAll(old(listeners), listener))
    {
      listeners := RemoveAll(listeners, listener);
    }

    /** Pump: one step of the connection, heartbeat and liveness logic. */
    method Pump(input: PumpInput) returns (notices: seq<Notice<NodeEvent>>, sent: seq<seq<Byte>>)
      modifies this, spacer
      ensures Pumped(Model(), notices, sent) == PumpNode(old(Model()), input)
    {
      if socket != Connected {
        socket := Connect(input.connectAccepted);
        notices := [];
        sent := [];
        if socket == Connected {
          notices := Announce(listeners, NodeConnected);
          lastSeen := input.now;
        }
        return;
      }
      notices, sent := PumpConnected(input);
    }

    /** The connected part of Pump: heartbeat, receive, liveness. */
    method PumpConnected(input: PumpInput) returns (notices: seq<Notice<NodeEvent>>, sent: seq<seq<Byte>>)
      requires socket == Connected
      modifies this, spacer
      ensures Pumped(Model(), notices, sent) == PumpNode(old(Model()), input)
    {
      ghost var n := Model();
      var fired := spacer.Fire(input.now, HEARTBEAT_INTERVAL);
      ghost var tick := Step(n.spacerLast, input.now, HEARTBEAT_INTERVAL);
      assert fired == tick.fired && spacer.last == tick.last;
      var buffer;
      buffer, sent := Beat(fired);
      buffer.Reset();
      var r := Receive(socket, input.arrival, buffer.Model());
      assert r == Receive(Connected, input.arrival, Reset(HeartbeatBuffer(tick.fired)));
      socket := r.state;
      if r.got {
        buffer.Load(input.arrival.frame);
      }
      notices := Hear(buffer, r, input.now);
      assert Heard(lastSeen, notices) == HearFrame(n, r, input.now);
      if socket != Connected || input.now - lastSeen >= LIVENESS_TIMEOUT {
        var lost := Announce(listeners, NodeDisconnected);
        notices := notices + lost;
      }
      assert Model() == n.(socket := r.state, lastSeen := lastSeen, spacerLast := tick.last);
    }

    /** The heartbeat step of a connected pump: a fresh buffer, with the heartbeat serialized and sent when the spacer fired. */
    method Beat(fired: bool) returns (buffer: NetworkBuffers.NetworkBuffer, sent: seq<seq<Byte>>)
      requires socket == Connected
      ensures fresh(buffer) && fresh(buffer.data) && buffer.Valid()
      ensures buffer.Model() == HeartbeatBuffer(fired)
      ensures sent == if fired then SentFrames(Sockets.Send(Connected, HeartbeatBuffer(fired))) else []
    {
      buffer := new NetworkBuffers.NetworkBuffer(DEFAULT_BUFFER_SIZE);
      sent := [];
      if fired {
        var heartbeat := NewHeartbeat();
        var _ := heartbeat.Serialize(buffer);
        var frame := Send(buffer);
        sent := SentFrames(frame);
      }
    }

    /** The receive step of a connected pump: a heartbeat refreshes the last-seen time, anything else goes to the listeners. */
    method Hear(buffer: NetworkBuffers.NetworkBuffer, r: Received, now: Millis) returns (notices: seq<Notice<NodeEvent>>)
      requires buffer.Valid() && r.buf == buffer.Model()
      modifies this, buffer
      ensures socket == old(socket) && address == old(address) && listeners == old(listeners)
      ensures Heard(lastSeen, notices) == HearFrame(old(Model()), r, now)
    {
      notices := [];
      if r.got {
        var heartbeat := IsContainedInBuffer(HEARTBEAT, buffer);
        if heartbeat {
          lastSeen := now;
        } else {
          notices := Announce(listeners, MessageReceived(buffer.Model()));
        }
      }
    }
  }
}
