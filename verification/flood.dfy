// Flood routing over a whole mesh: libdaylite/src/remote_node.cpp with the dispatch
// of libdaylite/src/mailman.cpp, as a state machine over its atomic steps.
//
// A copy in flight carries two history fields that no step reads: which publish
// call it stems from and the ports it was sent through. The two logs are history
// as well.

module Flood {
  import opened Packets
  import opened RemoteNodes
  import opened Topologies

  datatype Copy = Copy(packet: Packet, uid: nat, route: Route)

  /** A publish call, with every node's interests at that time. */
  datatype Published = Published(node: NodeId, packet: Packet, known: map<NodeId, set<Topic>>)

  /** One publish call, and the route by which a copy of it arrived. */
  datatype Event = Event(uid: nat, route: Route)

  datatype Net = Net(
    queues: seq<seq<Copy>>,          // queues[q]: sent to port q and not popped yet
    interests: map<NodeId, set<Topic>>, // the keys of each node's _subscription_count
    associated: seq<set<NodeId>>,    // each port's _associated_ids
    published: seq<Published>,       // history: publish calls, in order
    dispatched: seq<Event>,          // history: mailman dispatches, in order
    suppressed: seq<Event>)          // history: copies dropped by loop suppression

  function Init(t: Topology): Net {
    Net(seq(|t.owner|, _ => []), map[], seq(|t.owner|, _ => {}), [], [], [])
  }

  function KeysOf(interests: map<NodeId, set<Topic>>, n: NodeId): set<Topic> {
    if n in interests then interests[n] else {}
  }

  function Interests(net: Net, n: NodeId): set<Topic> { KeysOf(net.interests, n) }

  /** Whether a dispatch at `node` passes a copy on through port p. */
  predicate PassesOn(t: Topology, net: Net, node: NodeId, arrival: int, p: Port, packet: Packet)
    requires p < |t.owner| == |t.allowInternal|
  {
    && t.owner[p] == node
    && p != arrival
    && Forwarded(node, t.allowInternal[p], Interests(net, node), packet).Some?
  }

  /** One call of mailman::send at a node: its mailboxes are served and every link
      but the one the packet came from gets a copy with the node's id appended. */
  function Dispatch(t: Topology, net: Net, node: NodeId, arrival: int, c: Copy): (net': Net)
    requires |t.peer| == |t.owner| == |t.allowInternal| == |net.queues|
    requires forall p | 0 <= p < |t.peer| :: t.peer[p] < |t.owner|
    ensures |net'.queues| == |net.queues|
  {
    net.(
      queues := seq(|t.owner|, q requires 0 <= q < |t.owner| =>
        if PassesOn(t, net, node, arrival, t.peer[q], c.packet)
        then net.queues[q] + [Copy(Stamped(c.packet, node), c.uid, c.route + [t.peer[q]])]
        else net.queues[q]),
      dispatched := net.dispatched + [Event(c.uid, c.route)])
  }

  datatype Step =
    | Publish(node: NodeId, packet: Packet)    // place_outgoing_mail on a publisher's mailbox
    | Receive(port: Port)                      // one round of the loop in spin_update
    | Conflate(port: Port, index: nat)         // the link loses a droppable packet

  /** Internal mail that comes over a link is handled before the links are served: the
      node starts to count the topics it is told of. */
  function Handled(net: Net, node: NodeId, packet: Packet): Net {
    if packet.meta.topic == INTERNAL && packet.msg.Info?
    then net.(interests := net.interests[node := Interests(net, node) + TopicsTold(node, packet.msg.info)])
    else net
  }

  /** The mesh between the popping of the first copy in queue q and its dispatch. */
  function Heard(net: Net, q: Port, node: NodeId): Net
    requires q < |net.queues| == |net.associated| && net.queues[q] != []
  {
    var c := net.queues[q][0];
    var popped := net.(queues := net.queues[q := net.queues[q][1..]]);
    Handled(popped.(associated := net.associated[q := net.associated[q] + {c.packet.meta.id}]), node, c.packet)
  }

  /** A step that is not enabled leaves the mesh as it is. */
  function Next(t: Topology, net: Net, step: Step): (net': Net)
    requires |t.peer| == |t.owner| == |t.allowInternal| == |net.queues| == |net.associated|
    requires forall p | 0 <= p < |t.peer| :: t.peer[p] < |t.owner|
    ensures |net'.queues| == |net.queues| && |net'.associated| == |net.associated|
  {
    match step
    case Publish(node, packet) =>
      if packet.meta.path != [] || packet.meta.topic == ANY then net
      else
        var logged := net.(published := net.published + [Published(node, packet, net.interests)]);
        Dispatch(t, logged, node, -1, Copy(packet, |net.published|, []))
    case Receive(q) =>
      if q >= |net.queues| || net.queues[q] == [] then net
      else
        var c := net.queues[q][0];
        var popped := net.(queues := net.queues[q := net.queues[q][1..]]);
        if Suppressed(t.owner[q], c.packet)
        then popped.(suppressed := net.suppressed + [Event(c.uid, c.route)])
        else Dispatch(t, Heard(net, q, t.owner[q]), t.owner[q], q, c)
    case Conflate(q, i) =>
      if q >= |net.queues| || i >= |net.queues[q]| || !net.queues[q][i].packet.meta.droppable then net
      else net.(queues := net.queues[q := net.queues[q][..i] + net.queues[q][i + 1..]])
  }

  function Run(t: Topology, steps: seq<Step>): (net: Net)
    requires |t.peer| == |t.owner| == |t.allowInternal|
    requires forall p | 0 <= p < |t.peer| :: t.peer[p] < |t.owner|
    ensures |net.queues| == |t.owner| == |net.associated|
  {
    if steps == [] then Init(t) else Next(t, Run(t, steps[..|steps| - 1]), steps[|steps| - 1])
  }

  ghost predicate Quiescent(net: Net) {
    forall q | 0 <= q < |net.queues| :: net.queues[q] == []
  }
}
