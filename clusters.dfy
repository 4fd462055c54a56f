/**
 * Cluster: the set of peers this machine talks to. It listens for incoming
 * peers, broadcasts input-change requests and responses to every node,
 * pumps every node, and passes on to its own listeners what the nodes
 * report: connections, losses and input-change requests. Peers are named
 * by their position in the node list.
 */
module Clusters {
  import opened Bytes
  import opened Results
  import opened Buffers
  import opened Messages
  import opened Listeners
  import opened Sockets
  import opened Timing
  import opened DisplayMaps
  import opened ChangeInput
  import opened Nodes
  import NetworkBuffers

  /** The buffer every broadcast is serialized into. */
  const CLUSTER_BUFFER_SIZE: nat := 1024

  /** A peer, by its position in the cluster's node list. */
  type NodeIndex = nat

  /** The callbacks of Cluster::Listener. */
  datatype ClusterEvent =
    | PeerConnected(node: NodeIndex)
    | PeerDisconnected(node: NodeIndex)
    | InputChangeRequested(sender: NodeIndex, changes: DisplayMap)

  /** A frame handed to the socket of one node. */
  datatype Delivery = Delivery(node: NodeIndex, frame: seq<Byte>)

  // ---------------------------------------------------------------------
  // Broadcasting.

  function DeliveryTo(i: NodeIndex, sent: Option<seq<Byte>>): seq<Delivery>
  {
    if sent.Some? then [Delivery(i, sent.value)] else []
  }

  /** `for(auto node : m_nodes) node.Send(buffer)`: each node's socket decides, in node order. */
  function Deliveries(nodes: seq<NodeState>, b: Buf): (r: seq<Delivery>)
    requires b.Valid()
    ensures |r| <= |nodes|
    ensures forall j :: 0 <= j < |r| ==> r[j].node < |nodes| && nodes[r[j].node].socket == Connected && r[j].frame == b.bytes[..b.offset]
    ensures forall j :: 0 < j < |r| ==> r[j - 1].node < r[j].node
  {
    if nodes == [] then []
    else Deliveries(nodes[..|nodes| - 1], b) + DeliveryTo(|nodes| - 1, Send(nodes[|nodes| - 1].socket, b))
  }

  /** A sendable buffer reaches exactly the connected nodes, each with the bytes up to the cursor. */
  lemma {:induction false} DeliveriesReachConnectedNodes(nodes: seq<NodeState>, b: Buf, k: NodeIndex, f: seq<Byte>)
    requires b.Valid() && b.IsOk() && b.offset > 0
    ensures Delivery(k, f) in Deliveries(nodes, b) <==> k < |nodes| && nodes[k].socket == Connected && f == b.bytes[..b.offset]
  {
    if nodes != [] {
      var init := nodes[..|nodes| - 1];
      DeliveriesReachConnectedNodes(init, b, k, f);
      if k < |init| {
        assert nodes[k] == init[k];
      }
    }
  }

  /** Broadcast of a map message: serialize once into a 1024-byte buffer; send to every node only if that succeeded. */
  function BroadcastMap(nodes: seq<NodeState>, t: MessageType, m: DisplayMap): (r: seq<Delivery>)
    ensures |r| <= |nodes|
    ensures forall j :: 0 <= j < |r| ==> r[j].node < |nodes| && nodes[r[j].node].socket == Connected
    ensures forall j :: 0 < j < |r| ==> r[j - 1].node < r[j].node && r[j - 1].frame == r[j].frame
  {
    var b := SerializeMapMessage(NewBuf(CLUSTER_BUFFER_SIZE), t, m);
    if b.IsOk() then Deliveries(nodes, b) else []
  }

  /**
   * A map of at most 101 entries reaches every connected node, and only
   * those, each receiving the message's exact wire form once.
   */
  lemma BroadcastReachesConnectedNodes(nodes: seq<NodeState>, t: MessageType, m: DisplayMap, k: NodeIndex, f: seq<Byte>)
    requires |m| <= 101
    ensures Delivery(k, f) in BroadcastMap(nodes, t, m) <==> k < |nodes| && nodes[k].socket == Connected && f == EncodeMapMessage(t, m)
  {
    var b := NewBuf(CLUSTER_BUFFER_SIZE);
    ClusterBufferCapacity(t, m);
    SerializeMapMessageEncodes(b, t, m);
    var w := SerializeMapMessage(b, t, m);
    var enc := EncodeMapMessage(t, m);
    assert w.bytes[..w.offset] == enc by {
      assert w.bytes[0..|enc|] == enc;
    }
    DeliveriesReachConnectedNodes(nodes, w, k, f);
  }

  /** A map too large for the buffer is sent to nobody. */
  lemma OversizedMapIsNotSent(nodes: seq<NodeState>, t: MessageType, m: DisplayMap)
    requires |m| > 101
    ensures BroadcastMap(nodes, t, m) == []
  {
    ClusterBufferCapacity(t, m);
  }

  // ---------------------------------------------------------------------
  // Routing what the nodes report.

  /**
   * OnMessageReceived: a frame whose tag peeks as CHANGE_INPUT_REQUEST and
   * that deserializes completely goes to every listener with its map;
   * anything else, responses included, is dropped.
   */
  function RouteMessage(listeners: seq<ListenerId>, sender: NodeIndex, b: Buf): (r: seq<Notice<ClusterEvent>>)
    requires b.Valid()
    ensures r == [] || |r| == |listeners|
    ensures r != [] ==> b.IsOk() && b.Fits(1) && b.bytes[b.offset] == CHANGE_INPUT_REQUEST
    ensures forall k :: 0 <= k < |r| ==>
      r[k].listener == listeners[k] && r[k].event.InputChangeRequested? && r[k].event.sender == sender
      && Ascending(r[k].event.changes)
  {
    var c := IsContainedIn(CHANGE_INPUT_REQUEST, b);
    if !c.contained then []
    else
      var d := DeserializeMapMessage(c.buf, CHANGE_INPUT_REQUEST, [], CompleteOnly);
      if d.ok then Broadcast(listeners, InputChangeRequested(sender, d.entries)) else []
  }

  /** Frames with any other tag, responses and heartbeats among them, reach no listener. */
  lemma OtherTagsAreDropped(listeners: seq<ListenerId>, sender: NodeIndex, b: Buf)
    requires b.Valid() && b.offset < |b.bytes| && b.bytes[b.offset] != CHANGE_INPUT_REQUEST
    ensures RouteMessage(listeners, sender, b) == []
  {
  }

  /** A request frame followed by at least one more byte reaches every listener with exactly the map that was sent. */
  lemma RequestFrameIsRouted(listeners: seq<ListenerId>, sender: NodeIndex, m: DisplayMap, extra: seq<Byte>)
    requires Ascending(m) && |m| < 0x1_0000_0000 && |extra| > 0
    ensures RouteMessage(listeners, sender, Load(EncodeMapMessage(CHANGE_INPUT_REQUEST, m) + extra))
         == Broadcast(listeners, InputChangeRequested(sender, m))
  {
    var enc := EncodeMapMessage(CHANGE_INPUT_REQUEST, m);
    var b := Load(enc + extra);
    assert b.bytes[0..|enc|] == enc;
    assert Holds(b, enc);
    DecodeEncodedMapMessage(b, CHANGE_INPUT_REQUEST, m, CHANGE_INPUT_REQUEST, [], CompleteOnly);
  }

  /** A request frame that arrives alone, with exactly its own length, is dropped: its last read ends at the end of the storage. */
  lemma LoneRequestFrameIsDropped(listeners: seq<ListenerId>, sender: NodeIndex, m: DisplayMap)
    requires |m| < 0x1_0000_0000
    ensures RouteMessage(listeners, sender, Load(EncodeMapMessage(CHANGE_INPUT_REQUEST, m))) == []
  {
    ExactFrameNeverDecodes(CHANGE_INPUT_REQUEST, m, CHANGE_INPUT_REQUEST, [], CompleteOnly);
  }

  /** What the cluster does with one callback from node `i`: connections and losses are passed on, frames are routed. */
  function HandleNodeEvent(listeners: seq<ListenerId>, i: NodeIndex, e: NodeEvent): (r: seq<Notice<ClusterEvent>>)
    ensures r == [] || |r| == |listeners|
    ensures !e.MessageReceived? ==> |r| == |listeners|
    ensures forall k :: 0 <= k < |r| ==>
      r[k].listener == listeners[k]
      && (r[k].event.PeerConnected? <==> e.NodeConnected?)
      && (r[k].event.PeerDisconnected? <==> e.NodeDisconnected?)
      && (if r[k].event.InputChangeRequested? then r[k].event.sender else r[k].event.node) == i
  {
    match e
    case NodeConnected => Broadcast(listeners, PeerConnected(i))
    case NodeDisconnected => Broadcast(listeners, PeerDisconnected(i))
    case MessageReceived(b) => if b.Valid() then RouteMessage(listeners, i, b) else []
  }

  /** The callbacks node `i` made during a pump, as they reach the cluster (registered as `self`). */
  function HandleNotices(self: ListenerId, listeners: seq<ListenerId>, i: NodeIndex, ns: seq<Notice<NodeEvent>>): seq<Notice<ClusterEvent>>
  {
    if ns == [] then []
    else
      var last := ns[|ns| - 1];
      HandleNotices(self, listeners, i, ns[..|ns| - 1])
        + (if last.listener == self then HandleNodeEvent(listeners, i, last.event) else [])
  }

  /** The frames node `i` sent during a pump. */
  function Tagged(i: NodeIndex, frames: seq<seq<Byte>>): (r: seq<Delivery>)
    ensures |r| == |frames| && forall k :: 0 <= k < |r| ==> r[k] == Delivery(i, frames[k])
  {
    if frames == [] then [] else Tagged(i, frames[..|frames| - 1]) + [Delivery(i, frames[|frames| - 1])]
  }

  // ---------------------------------------------------------------------
  // Pumping.

  /** The node list after a pump, what the cluster's listeners were told, and what was sent. */
  datatype Round = Round(nodes: seq<NodeState>, notices: seq<Notice<ClusterEvent>>, sent: seq<Delivery>)

  /** The first `k` nodes pumped in order, each updated in place. */
  function PumpNodes(self: ListenerId, listeners: seq<ListenerId>, nodes: seq<NodeState>, inputs: NodeIndex -> PumpInput, k: nat): (r: Round)
    requires k <= |nodes|
    ensures |r.nodes| == |nodes| && r.nodes[k..] == nodes[k..]
    ensures forall i :: 0 <= i < k ==> r.nodes[i] == PumpNode(nodes[i], inputs(i)).node
  {
    if k == 0 then Round(nodes, [], [])
    else
      var p := PumpNodes(self, listeners, nodes, inputs, k - 1);
      var q := PumpNode(nodes[k - 1], inputs(k - 1));
      Round(p.nodes[k - 1 := q.node],
            p.notices + HandleNotices(self, listeners, k - 1, q.notices),
            p.sent + Tagged(k - 1, q.sent))
  }

  /** The cluster's own state: its listening socket, its nodes and its listeners. */
  datatype ClusterState = ClusterState(socket: SocketState, nodes: seq<NodeState>, listeners: seq<ListenerId>)

  /** A node for an accepted peer, with the cluster registered as its listener. */
  function AcceptedPeer(self: ListenerId, now: Millis): (n: NodeState)
    ensures n.socket == Connected && n.listeners == [self]
  {
    AcceptedNode(now).(listeners := AddLast([], self))
  }

  /**
   * Cluster::Pump: accept at most one pending peer, append it and tell the
   * listeners; then pump every node in order, keeping what each pump did
   * to it.
   */
  function ClusterPump(self: ListenerId, c: ClusterState, pending: bool, now: Millis, inputs: NodeIndex -> PumpInput): (r: Round)
    ensures |r.nodes| == |c.nodes| + (if c.socket == Listening && pending then 1 else 0)
    ensures c.socket == Listening && pending ==> r.nodes[|c.nodes|].listeners == [self]
  {
    var accepted := Accept(c.socket, pending).Some?;
    var nodes := if accepted then c.nodes + [AcceptedPeer(self, now)] else c.nodes;
    var announced := if accepted then Broadcast(c.listeners, PeerConnected(|c.nodes|)) else [];
    var r := PumpNodes(self, c.listeners, nodes, inputs, |nodes|);
    Round(r.nodes, announced + r.notices, r.sent)
  }

  /** A pump adds the accepted peer, if any, at the end, and leaves every node exactly as its own pump left it. */
  lemma PumpUpdatesEveryNode(self: ListenerId, c: ClusterState, pending: bool, now: Millis, inputs: NodeIndex -> PumpInput)
    ensures var r := ClusterPump(self, c, pending, now, inputs);
      var accepted := c.socket == Listening && pending;
      |r.nodes| == |c.nodes| + (if accepted then 1 else 0)
      && (forall i :: 0 <= i < |c.nodes| ==> r.nodes[i] == PumpNode(c.nodes[i], inputs(i)).node)
      && (accepted ==> r.nodes[|c.nodes|] == PumpNode(AcceptedPeer(self, now), inputs(|c.nodes|)).node)
      && (accepted ==> Broadcast(c.listeners, PeerConnected(|c.nodes|)) <= r.notices)
  {
  }

  // ---------------------------------------------------------------------
  // The pump as written: the accepted peer is stored without the cluster as
  // its listener, and the loop pumps copies of the nodes.

  /** Cluster::Pump as written: effects happen, but the stored nodes keep their old state. */
  function ClusterPumpAsWritten(self: ListenerId, c: ClusterState, pending: bool, now: Millis, inputs: NodeIndex -> PumpInput): (r: Round)
    ensures |r.nodes| == |c.nodes| + (if c.socket == Listening && pending then 1 else 0)
    ensures r.nodes[..|c.nodes|] == c.nodes
    ensures c.socket == Listening && pending ==> r.nodes[|c.nodes|].listeners == []
  {
    var accepted := Accept(c.socket, pending).Some?;
    var nodes := if accepted then c.nodes + [AcceptedNode(now)] else c.nodes;
    var announced := if accepted then Broadcast(c.listeners, PeerConnected(|c.nodes|)) else [];
    var r := PumpNodes(self, c.listeners, nodes, inputs, |nodes|);
    Round(nodes, announced + r.notices, r.sent)
  }

  /** The same outside world for every node of a pump. */
  function Everywhere(input: PumpInput): NodeIndex -> PumpInput
  {
    _ => input
  }

  /** A listening cluster with one peer, configured by hostname and not yet connected. */
  function OnePeerCluster(self: ListenerId, listener: ListenerId): ClusterState
  {
    ClusterState(Listening, [HostNode(Some(1), 0).(listeners := [self])], [listener])
  }

  /**
   * As written, a peer whose connect succeeds is announced as connected on
   * every pump, because the stored node never leaves the disconnected state.
   */
  lemma AsWrittenReconnectsEveryPump(self: ListenerId, listener: ListenerId)
    ensures var c := OnePeerCluster(self, listener);
      var first := ClusterPumpAsWritten(self, c, false, 0, Everywhere(PumpInput(0, true, NothingReady)));
      var second := ClusterPumpAsWritten(self, c.(nodes := first.nodes), false, 1, Everywhere(PumpInput(1, true, NothingReady)));
      first.notices == [Notice(listener, PeerConnected(0))] && second.notices == [Notice(listener, PeerConnected(0))]
      && first.nodes[0].socket == Disconnected
  {
    var c := OnePeerCluster(self, listener);
    var in0, in1 := PumpInput(0, true, NothingReady), PumpInput(1, true, NothingReady);
    var q := PumpNode(c.nodes[0], in0);
    assert q.notices == [Notice(self, NodeConnected)];
    assert HandleNotices(self, c.listeners, 0, q.notices) == [Notice(listener, PeerConnected(0))];
    assert PumpNodes(self, c.listeners, c.nodes, Everywhere(in0), 1).notices == [Notice(listener, PeerConnected(0))];
    var q1 := PumpNode(c.nodes[0], in1);
    assert q1.notices == [Notice(self, NodeConnected)];
    assert HandleNotices(self, c.listeners, 0, q1.notices) == [Notice(listener, PeerConnected(0))];
    assert PumpNodes(self, c.listeners, c.nodes, Everywhere(in1), 1).notices == [Notice(listener, PeerConnected(0))];
  }

  /** With the nodes updated in place, the peer is announced once and the next pump is quiet. */
  lemma ConnectionAnnouncedOnce(self: ListenerId, listener: ListenerId)
    ensures var c := OnePeerCluster(self, listener);
      var first := ClusterPump(self, c, false, 0, Everywhere(PumpInput(0, true, NothingReady)));
      var second := ClusterPump(self, c.(nodes := first.nodes), false, 1, Everywhere(PumpInput(1, true, NothingReady)));
      first.notices == [Notice(listener, PeerConnected(0))] && second.notices == []
      && first.nodes[0].socket == Connected
  {
    var c := OnePeerCluster(self, listener);
    var in0, in1 := PumpInput(0, true, NothingReady), PumpInput(1, true, NothingReady);
    var q := PumpNode(c.nodes[0], in0);
    assert q.notices == [Notice(self, NodeConnected)];
    assert HandleNotices(self, c.listeners, 0, q.notices) == [Notice(listener, PeerConnected(0))];
    assert Everywhere(in0)(0) == in0;
    assert PumpNodes(self, c.listeners, c.nodes, Everywhere(in0), 0) == Round(c.nodes, [], []);
    var first := PumpNodes(self, c.listeners, c.nodes, Everywhere(in0), 1);
    assert first.notices == [Notice(listener, PeerConnected(0))];
    var n1 := q.node;
    assert first.nodes == [n1];
    assert n1.socket == Connected && n1.lastSeen == 0;
    var q2 := PumpNode(n1, in1);
    assert q2.notices == [];
    assert HandleNotices(self, c.listeners, 0, q2.notices) == [];
    assert PumpNodes(self, c.listeners, [n1], Everywhere(in1), 1).notices == [];
  }

  /** The smallest request frame that decodes: the tag, a zero count, and one trailing byte. */
  const EMPTY_REQUEST_FRAME: Frame := [CHANGE_INPUT_REQUEST, 0, 0, 0, 0, 0]

  /**
   * As written, an accepted peer has no listener, so a request it sends in
   * the pump that accepted it reaches nobody; only its connection is
   * announced.
   */
  lemma AsWrittenIgnoresAcceptedPeer(self: ListenerId, listener: ListenerId)
    ensures ClusterPumpAsWritten(self, ClusterState(Listening, [], [listener]), true, 1000,
                                 Everywhere(PumpInput(1000, false, Arrived(EMPTY_REQUEST_FRAME)))).notices
         == [Notice(listener, PeerConnected(0))]
  {
    var input := PumpInput(1000, false, Arrived(EMPTY_REQUEST_FRAME));
    var q := PumpNode(AcceptedNode(1000), input);
    assert q.notices == [];
    assert PumpNodes(self, [listener], [AcceptedNode(1000)], Everywhere(input), 1).notices == [];
    assert Accept(Listening, true).Some?;
    assert Broadcast([listener], PeerConnected(0)) == [Notice(listener, PeerConnected(0))];
  }

  /** The accepted peer's own pump hands the frame, in a fresh buffer, to the cluster. */
  lemma AcceptedPeerForwardsFrame(self: ListenerId)
    ensures PumpNode(AcceptedPeer(self, 1000), PumpInput(1000, false, Arrived(EMPTY_REQUEST_FRAME))).notices
         == [Notice(self, MessageReceived(Load(EMPTY_REQUEST_FRAME)))]
  {
    var b := Load(EMPTY_REQUEST_FRAME);
    assert IsContainedIn(HEARTBEAT, b) == Contained(b, false);
  }

  /** The cluster routes that frame, when it hears it from node 0, to its listener as an empty request. */
  lemma EmptyRequestIsRouted(self: ListenerId, listener: ListenerId)
    ensures HandleNotices(self, [listener], 0, [Notice(self, MessageReceived(Load(EMPTY_REQUEST_FRAME)))])
         == [Notice(listener, InputChangeRequested(0, []))]
  {
    var b := Load(EMPTY_REQUEST_FRAME);
    assert EncodeMapMessage(CHANGE_INPUT_REQUEST, []) + [0] == EMPTY_REQUEST_FRAME;
    RequestFrameIsRouted([listener], 0, [], [0]);
    assert Broadcast([listener], InputChangeRequested(0, [])) == [Notice(listener, InputChangeRequested(0, []))];
    assert HandleNodeEvent([listener], 0, MessageReceived(b)) == [Notice(listener, InputChangeRequested(0, []))];
    var ns := [Notice(self, MessageReceived(b))];
    assert ns[..0] == [];
  }

  /** With the cluster registered on the accepted peer, that request reaches every listener. */
  lemma AcceptedPeerIsHeard(self: ListenerId, listener: ListenerId)
    ensures ClusterPump(self, ClusterState(Listening, [], [listener]), true, 1000,
                        Everywhere(PumpInput(1000, false, Arrived(EMPTY_REQUEST_FRAME)))).notices
         == [Notice(listener, PeerConnected(0)), Notice(listener, InputChangeRequested(0, []))]
  {
    var input := PumpInput(1000, false, Arrived(EMPTY_REQUEST_FRAME));
    var peer := AcceptedPeer(self, 1000);
    AcceptedPeerForwardsFrame(self);
    EmptyRequestIsRouted(self, listener);
    assert Everywhere(input)(0) == input;
    assert PumpNodes(self, [listener], [peer], Everywhere(input), 0) == Round([peer], [], []);
    assert PumpNodes(self, [listener], [peer], Everywhere(input), 1).notices == [Notice(listener, InputChangeRequested(0, []))];
  }

  // ---------------------------------------------------------------------
  // The object.

  /** Cluster: the listening socket, the node list (held by value), the listeners, and the id it registers with its nodes. */
  class Cluster {
    var socket: SocketState
    var nodes: seq<NodeState>
    var listeners: seq<ListenerId>
    const port: U16
    const self: ListenerId

    function Model(): ClusterState
      reads this
    {
      ClusterState(socket, nodes, listeners)
    }

    constructor (port: U16, self: ListenerId)
      ensures Model() == ClusterState(Disconnected, [], []) && this.port == port && this.self == self
    {
      socket := Disconnected;
      nodes := [];
      listeners := [];
      this.port := port;
      this.self := self;
    }

    /** Initialize: listen on the port; true iff listening reported no error. */
    method Initialize(bound: bool) returns (ok: bool)
      modifies this
      ensures ok <==> bound
      ensures Model() == old(Model()).(socket := Listen(bound))
    {
      socket := Listen(bound);
      ok := socket == Listening;
    }

    /** AddNode: a node for the host, with this cluster as its listener, appended last. */
    method AddNode(resolved: Option<Address>, now: Millis)
      modifies this
      ensures nodes == old(nodes) + [HostNode(resolved, now).(listeners := [self])]
      ensures socket == old(socket) && listeners == old(listeners)
    {
      var node := HostNode(resolved, now);
      assert AddLast(node.listeners, self) == [self];
      node := node.(listeners := AddLast(node.listeners, self));
      nodes := nodes + [node];
    }

    method AddListener(listener: ListenerId)
      modifies this
      ensures Model() == old(Model()).(listeners := AddLast(old(listeners), listener))
    {
      listeners := RemoveAll(listeners, listener) + [listener];
    }

    method RemoveListener(listener: ListenerId)
      modifies this
      ensures Model() == old(Model()).(listeners := RemoveAll(old(listeners), listener))
    {
      listeners := RemoveAll(listeners, listener);
    }

    /** The send loop shared by both broadcasts. */
    method SendToAll(buffer: NetworkBuffers.NetworkBuffer) returns (sent: seq<Delivery>)
      requires buffer.Valid()
      ensures sent == Deliveries(nodes, buffer.Model())
    {
      sent := [];
      var i := 0;
      while i < |nodes|
        invariant 0 <= i <= |nodes|
        invariant sent == Deliveries(nodes[..i], buffer.Model())
      {
        assert nodes[..i + 1][..i] == nodes[..i];
        var frame := Send(nodes[i].socket, buffer.Model());
        sent := sent + DeliveryTo(i, frame);
        i := i + 1;
      }
      assert nodes[..i] == nodes;
    }

    /** RequestInputChange: serialize the request once; send it to every node only if that worked. */
    method RequestInputChange(changes: DisplayMap) returns (sent: seq<Delivery>)
      requires Ascending(changes)
      ensures sent == BroadcastMap(nodes, CHANGE_INPUT_REQUEST, changes)
    {
      var request := new ChangeInputRequest(changes);
      var buffer := new NetworkBuffers.NetworkBuffer(CLUSTER_BUFFER_SIZE);
      var ok := request.Serialize(buffer);
      sent := [];
      if ok {
        sent := SendToAll(buffer);
      }
    }

    /** RespondToInputChangeRequest: the same broadcast with the results; the sender plays no part. */
    method RespondToInputChangeRequest(sender: NodeIndex, results: DisplayMap) returns (sent: seq<Delivery>)
      requires Ascending(results)
      ensures sent == BroadcastMap(nodes, CHANGE_INPUT_RESPONSE, results)
    {
      var response := new ChangeInputResponse(results);
      var buffer := new NetworkBuffers.NetworkBuffer(CLUSTER_BUFFER_SIZE);
      var ok := response.Serialize(buffer);
      sent := [];
      if ok {
        sent := SendToAll(buffer);
      }
    }

    /** OnMessageReceived: route a change request that decodes completely; drop everything else. */
    method OnMessageReceived(sender: NodeIndex, buffer: NetworkBuffers.NetworkBuffer) returns (notices: seq<Notice<ClusterEvent>>)
      requires buffer.Valid()
      modifies buffer
      ensures buffer.Valid()
      ensures notices == RouteMessage(listeners, sender, old(buffer.Model()))
    {
      notices := [];
      var isRequest := IsContainedInBuffer(CHANGE_INPUT_REQUEST, buffer);
      if isRequest {
        var request := new ChangeInputRequest.Empty();
        var ok := request.Deserialize(buffer);
        if ok {
          notices := Announce(listeners, InputChangeRequested(sender, request.GetInputMap()));
        }
      }
    }

    /** What the cluster does with the callbacks node `i` made during its pump. */
    method Dispatch(i: NodeIndex, ns: seq<Notice<NodeEvent>>) returns (notices: seq<Notice<ClusterEvent>>)
      ensures notices == HandleNotices(self, listeners, i, ns)
    {
      notices := [];
      var k := 0;
      while k < |ns|
        invariant 0 <= k <= |ns|
        invariant notices == HandleNotices(self, listeners, i, ns[..k])
      {
        assert ns[..k + 1][..k] == ns[..k];
        if ns[k].listener == self {
          var handled := [];
          match ns[k].event {
            case NodeConnected =>
              handled := Announce(listeners, PeerConnected(i));
            case NodeDisconnected =>
              handled := Announce(listeners, PeerDisconnected(i));
            case MessageReceived(b) =>
              if b.Valid() {
                handled := RouteMessage(listeners, i, b);
              }
          }
          notices := notices + handled;
        }
        k := k + 1;
      }
      assert ns[..k] == ns;
    }

    /** Pump: accept a pending peer, then pump every node in place and pass on what they report. */
    method Pump(pending: bool, now: Millis, inputs: NodeIndex -> PumpInput) returns (notices: seq<Notice<ClusterEvent>>, sent: seq<Delivery>)
      modifies this
      ensures Round(nodes, notices, sent) == ClusterPump(self, old(Model()), pending, now, inputs)
      ensures socket == old(socket) && listeners == old(listeners)
    {
      ghost var c := Model();
      var announced := [];
      var accepted := Accept(socket, pending);
      if accepted.Some? {
        announced := Announce(listeners, PeerConnected(|nodes|));
        nodes := nodes + [AcceptedPeer(self, now)];
      }
      assert announced == if accepted.Some? then Broadcast(c.listeners, PeerConnected(|c.nodes|)) else [];
      ghost var mid := nodes;
      var handled;
      handled, sent := PumpAll(inputs);
      notices := announced + handled;
      assert Round(nodes, handled, sent) == PumpNodes(self, c.listeners, mid, inputs, |mid|);
    }

    /** The loop over the nodes: each is pumped and written back in its place. */
    method PumpAll(inputs: NodeIndex -> PumpInput) returns (notices: seq<Notice<ClusterEvent>>, sent: seq<Delivery>)
      modifies this
      ensures Round(nodes, notices, sent) == PumpNodes(self, listeners, old(nodes), inputs, |old(nodes)|)
      ensures socket == old(socket) && listeners == old(listeners)
    {
      ghost var start := nodes;
      notices, sent := [], [];
      var i := 0;
      while i < |nodes|
        invariant 0 <= i <= |nodes| == |start|
        invariant socket == old(socket) && listeners == old(listeners)
        invariant Round(nodes, notices, sent) == PumpNodes(self, listeners, start, inputs, i)
      {
        assert nodes[i] == start[i];
        var q := PumpNode(nodes[i], inputs(i));
        var handled := Dispatch(i, q.notices);
        nodes := nodes[i := q.node];
        notices := notices + handled;
        sent := sent + Tagged(i, q.sent);
        i := i + 1;
      }
    }
  }
}
