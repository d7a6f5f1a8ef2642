# Daylite: a verified model

Daylite is a small publish/subscribe mesh. Nodes are joined by TCP links; every packet
carries the path of nodes it went through; each node drops packets that have been there
before and passes the others on. This project models the parts of `libdaylite` on which
that rests and proves what they promise.

| files | component |
|---|---|
| `numbers.dfy`, `wrappers.dfy`, `packets.dfy`, `remote_node.dfy`, `mailman.dfy` | one node: widths, packets, loop suppression and forwarding, dispatch to mailboxes |
| `topology.dfy`, `flood*.dfy` | a mesh of such nodes, as a state machine: publish, receive, conflate; internal mail that a node receives makes it count topics, and so decides what its links carry |
| `packet_order.dfy`, `tcp_buffer.dfy`, `tcp_thread.dfy`, `sleep.dfy` | the I/O thread: queues with per-topic conflation, one round of its loop, the adaptive sleep |
| `tcp_channels.dfy`, `link.dfy`, `link_queue.dfy` | the partial-write loop, the frame reassembler, one direction of a link end to end, and that this is a queue of the mesh |
| `tallies.dfy`, `membership.dfy`, `clock.dfy` | what a node knows of others, its subscription counters, the network clock |
| `crc*.dfy` | CRC-32: the table-driven loop, the polynomial division it computes, what it detects |
| `circular_buffer.dfy` | the growing circular buffer |

The source is imperative, and so are the classes and loops here: `RemoteNode`, `Mailman`,
`TcpThread`, `TcpInputChannel`, `TcpOutputChannel`, `NodeImpl`, `TimeVal`,
`DynamicCircularBuffer`, `CrcUpdate` and `CrcReflect`. Their methods are proved against
functions of the state, and the properties of whole runs are proved of those functions.
In `flood.dfy`, `link.dfy` and `clock.dfy` several such components run together; each
critical section is one atomic step, and every interleaving is a run.

Three properties one might expect are false of the code, and the exact condition under
which they hold is proved instead:

- Loop suppression does not make dispatch exactly-once: a packet arrives once along every
  simple route (`FloodTheorems.DispatchedIffSimple`), so that on meshes of `allow_internal`
  links no node dispatches a packet twice in any run exactly when there is no cycle
  (`FloodCycles.NeverTwiceIffAcyclic`). With blocking links among them the condition is that
  no cycle is connected to a link that lets internal mail through: elsewhere no node ever
  counts a topic and nothing is carried (`FloodCycles.NeverTwiceIffCyclesAsleep`).
  `FloodCycles.TwoLinksDispatchTwice` is a run on two nodes in which one does.
- A packet on topic "*" is placed twice in every other mailbox that listens to "*"
  (`Mailmen.ServedTwice`); `Mailmen.OnceExactlyWhen` has the exact condition.
- The size of a grown circular buffer is cut to 32 bits, and is then large enough exactly
  below 2^31 bytes; for 2^31 bytes it is 0 (`CircularBuffers.GrowthSufficesIff`).

Three more things differ from what comments and names in the source suggest. The comment of
`crc_reflect` gives the width in bytes, the code takes bits. The assertion that limits the
growth of a circular buffer is compiled out by default (`CMakeLists.txt:15-21`); the results
hold without it, and what it adds is stated apart (`CircularBuffers.GrowthCost`). The two packet counts in
`tcp_thread::run` are overwritten by each socket in turn, so the sleep follows the last
socket served, and the last writable one, and not the busiest (`TcpThreads.TcpThread.RunOnce`).

## Assumptions

- Node ids are unique and constant, as `libdaylite/msgs/node_info.bsonbind:7-10` demands.
- The mailboxes of a node have distinct 32-bit keys where `Mailmen.OnceExactlyWhen` and
  `flood_mailmen.dfy` say how often each is served. `Mailmen.Mailman` does not need it; of
  two mailboxes with one key and one topic it knows the later.
- `_local_only` is false for received packets; the parsing constructor of a packet leaves
  it unset.
- A packet's encoding is a BSON document, whose first four bytes are its length, little
  endian (the `document` production of the BSON specification, version 1.1), on a
  little-endian host; a frame has at least five bytes. `Links.Faithful` asks that decoding
  inverts encoding for packets whose document is well formed, and nothing else.
- In the mesh, what is published on "!" is what a node announces: it is sent from the
  node's own internal mailbox, which does not handle it itself. An announcement may carry
  any info; those in the runs that are shown to exist carry the announcing node's own,
  with the topic "!", followed by any infos of others.
- The flood and a link are modelled without link failures: a link that goes takes what it
  holds with it.
- The nodes of `clock.dfy` read one ideal clock that never goes back, and no time reaches
  2^32 seconds. `Membership.NodeImpl.UpdateTime` itself makes no such assumption.
- A circular buffer made with a capacity of 0 can only be cleared: every operation that
  moves the head, growing included, divides by zero (`Usable` in `circular_buffer.dfy`).

## Model

| member | source | states |
|---|---|---|
| `RemoteNodes.RemoteNode.Send` | libdaylite/src/remote_node.cpp:27-65 | The link gets the packet with the node's id appended to its path and set as its id, exactly when the packet is not local and passes the filter (internal on an `allow_internal` link, or a topic that has a counter); otherwise nothing changes. |
| `RemoteNodes.RemoteNode.SpinUpdate` | libdaylite/src/remote_node.cpp:67-92 | Everything the link holds is taken; what is placed as mail is the held packets, in order, without those that name the node as id or in their path; the associated ids grow by exactly the senders of the packets placed. |
| `RemoteNodes.ForwardedIsSuppressedOnReturn` | libdaylite/src/remote_node.cpp:38-40 | A packet that a node has passed on is dropped by that node whenever it returns, wherever it has been. |
| `RemoteNodes.ForwardedExactly` | libdaylite/src/remote_node.cpp:30-36 | The filter passes a packet if and only if it is not local and its topic is counted, or is "!" on an `allow_internal` link. |
| `RemoteNodes.StampedExactly` | libdaylite/src/remote_node.cpp:38-41 | What is sent is what came, with the node's id at the end of the path and as id. |
| `RemoteNodes.UnsuppressedExactly` | libdaylite/src/remote_node.cpp:77-85 | One by one and in order, exactly the packets pass that name the node neither as id nor in their path. |
| `Topologies.UniqueRoutesIffAcyclic` | libdaylite/src/remote_node.cpp:77-85 | Meshes, parallel links included: simple routes between nodes are unique exactly when no cycle of links exists. |
| `Topologies.WalkToSimple` | libdaylite/src/remote_node.cpp:77-85 | Any walk through the mesh can be cut down to a simple route with the same ends. |
| `FloodSafety.SuppressedIffRevisits` | libdaylite/src/remote_node.cpp:77-85 | In flight, the suppression test fires exactly when the route the copy took comes back to a node it has visited. |
| `FloodSafety.RunInv` | libdaylite/src/remote_node.cpp:27-92 | Every run on every topology keeps the invariant: paths are the routes taken, each route is in at most one of flight, dispatch log and suppression log, and links are associated with their peer only. |
| `FloodTheorems.PathsAreRoutes` | libdaylite/src/remote_node.cpp:38-40 | In every reachable state a packet in flight has a non-empty path without repeats that is a walk along real links from its publisher to the sending end of its link; its id is that end; nothing but path and id differs from what was published. |
| `FloodTheorems.AssociatedWithPeerOnly` | libdaylite/src/remote_node.cpp:87 | In every reachable state the associated ids of a link are empty or just its direct peer, so that its loss marks no other node dead. |
| `FloodMembership.RunAssociates` | libdaylite/src/remote_node.cpp:87 | In every reachable state a link is associated with its direct peer if and only if a copy that came over it has been dispatched. |
| `FloodTheorems.DispatchedBySimpleRoutes` | libdaylite/src/remote_node.cpp:27-92 | Over every run no packet is dispatched twice by the same route, and every route by which one is dispatched is simple and made of links whose filter passes the packet. |
| `FloodTheorems.AcyclicAtMostOnce` | libdaylite/src/remote_node.cpp:72-90 | On an acyclic mesh no node dispatches a published packet twice, over any run, for any topic, with any filtering and conflation. |
| `FloodDelivery.RunGrows` | libdaylite/src/node_impl.cpp:377 | Over every run a topic that a node counted when a packet was published it counts ever after. |
| `FloodDelivery.RunComplete` | libdaylite/src/mailman.cpp:31-56 | Every run keeps completeness: a dispatched packet that is not droppable has, for every onward link that carried it when it was published, a successor in flight, dispatched or suppressed. |
| `FloodDelivery.EveryOpenRouteDispatched` | libdaylite/src/remote_node.cpp:34-40 | In a quiescent state a packet that is not droppable has been dispatched along every simple route from its publisher whose links carried it when it was published. |
| `FloodFilter.RunCarries` | libdaylite/src/remote_node.cpp:34-36 | Over every run a packet, in flight or dispatched, has gone only by links whose filter passes it. |
| `FloodFilter.SentOnlyIf` | libdaylite/src/remote_node.cpp:30-36 | In every reachable state a packet in flight or dispatched went over a link only if it is not local and its topic is counted at the sending end, or is "!" and the link lets internal mail through. |
| `FloodGossip.SentWhereToldOf` | libdaylite/src/remote_node.cpp:34-36 | A packet that is not internal was only sent by nodes that were told of a subscriber to its topic. |
| `FloodGossip.HandledBeforeServed` | libdaylite/src/mailman.cpp:34-53 | Internal mail is handled before the links are served: an info that makes a node count "!" goes on over all its other links. |
| `FloodTheorems.DeliveredAlongOpenRoutes` | libdaylite/src/remote_node.cpp:27-92 | At quiescence, for any topic and any mix of links: dispatched by every simple route open from the start, and by none that is not simple or not open now. |
| `FloodTheorems.DispatchedIffCarried` | libdaylite/src/remote_node.cpp:27-92 | The two bounds meet when no link has begun to carry the packet in between: the routes of dispatch are exactly the simple routes that carry the packet. |
| `FloodTheorems.InternalFloods` | libdaylite/src/remote_node.cpp:35-36 | An internal packet is carried by every link of an `allow_internal` mesh, so that the results about flooding packets apply to it. |
| `FloodTheorems.SubscribedFloods` | libdaylite/src/remote_node.cpp:34-36 | So do they to a packet on a topic that every node counts. |
| `FloodTheorems.DispatchedIffSimple` | libdaylite/src/remote_node.cpp:27-92 | At quiescence, on any topology, the routes along which a packet carried by every link was dispatched are exactly the simple routes from its publisher. |
| `FloodTheorems.OnceIffOneRoute` | libdaylite/src/remote_node.cpp:27-92 | At quiescence a node has dispatched such a packet at least once exactly when a simple route leads to it, and at most once exactly when no two do. |
| `FloodTheorems.AcyclicExactlyOnce` | libdaylite/src/remote_node.cpp:27-92 | On an acyclic mesh, at quiescence, every node that a walk of open links leads to from the publisher has dispatched a packet that is not droppable exactly once, on any topic. |
| `FloodTheorems.InternalExactlyOnce` | libdaylite/src/remote_node.cpp:27-92 | An internal packet on an acyclic mesh of `allow_internal` links: exactly once at every node connected to the publisher. |
| `FloodTheorems.NoDuplicatesIffAcyclic` | libdaylite/src/remote_node.cpp:72-90 | If every node has published a packet carried by every link, the quiescent mesh shows no double dispatch of any of them exactly when the links form no cycle. |
| `FloodCycles.EveryoneCanFlood` | libdaylite/src/remote_node.cpp:27-92 | Every mesh of `allow_internal` links has such a quiescent run, in which nodes do no more than announce themselves, whatever infos of others they append. |
| `FloodCycles.NeverTwiceIffCyclesAsleep` | libdaylite/src/remote_node.cpp:35-36 | On any mesh no run whatever dispatches a packet twice at a node if and only if no cycle is connected to a link between two nodes that lets internal mail through; the failing run is one of announcements and receptions, whatever the announcing nodes append. |
| `FloodCycles.NeverTwiceIffAcyclic` | libdaylite/src/remote_node.cpp:72-90 | Loop suppression alone does not give exactly-once: on a mesh of `allow_internal` links no run dispatches a packet twice at a node if and only if the links form no cycle, with the same kind of failing run. |
| `FloodCycles.AsleepNeverTwice` | libdaylite/src/remote_node.cpp:35-36 | Where all cycles are out of reach of internal mail no run dispatches a packet twice. |
| `FloodCycles.RunSilent` | libdaylite/src/remote_node.cpp:35-36 | Over every run a node out of reach of internal mail counts no topic, and nothing is carried between such nodes. |
| `FloodGossip.RunTells` | libdaylite/src/node_impl.cpp:45-70 | Over every run a node that was reached over a link by an info counts its topics, unless the info is about itself. |
| `FloodGossip.RunCauses` | libdaylite/src/node_impl.cpp:45-70 | Over every run whatever a node counts has a cause: an info that came over a link, lists the topic and is not about the node. |
| `FloodGossip.CountedIffTold` | libdaylite/src/node_impl.cpp:61-67 | In every reachable state a node counts a topic if and only if it has dispatched such an info. |
| `FloodGossip.AnnouncedIsCounted` | libdaylite/src/node_impl.cpp:270-281 | At quiescence an announced info is counted at every node that a walk of open links leads to, the announcer and the subject aside. |
| `FloodGossip.SubscriberHearsOnce` | libdaylite/src/node_impl.cpp:198-204 | On an acyclic mesh of `allow_internal` links: once a node has announced a topic and the mesh is quiescent, a packet published on the topic at any node connected to it is dispatched by it exactly once at the next quiescence. |
| `FloodOrder.RunOrders` | libdaylite/src/tcp_thread.cpp:64-67 | Every run keeps the order of publishing along each route, in flight and in the dispatch log. |
| `FloodOrder.InOrderByRoute` | libdaylite/src/tcp_thread.cpp:64-67 | On any mesh a node dispatches what came from one publisher by one route in the order of publishing, through any filtering and conflation. |
| `FloodOrder.AcyclicInOrder` | libdaylite/src/tcp_thread.cpp:64-67 | On an acyclic mesh every node dispatches all that one publisher publishes in the order of publishing. |
| `FloodMembership.LostLinkMarksPeersOnly` | libdaylite/src/node_impl.cpp:337-352 | In every reachable state of the mesh, the loss of a socket changes what a node knows of the direct peers on that socket and of nobody else. |
| `FloodCycles.TwoLinksDispatchTwice` | libdaylite/src/remote_node.cpp:72-90 | A run in which it happens: two nodes joined by two links, one internal packet, dispatched twice at the other node. |
| `FloodTermination.ReceiveLoad` | libdaylite/src/remote_node.cpp:72-90 | With W(h) = 1 + d*W(h-1), every reception lowers the total weight of the copies in flight. |
| `FloodTermination.FloodingTerminates` | libdaylite/src/remote_node.cpp:72-90 | On any mesh of degree at most d, cyclic or not, any interleaving without a new publish call receives at most as many copies as their weights add up to. |
| `FloodTermination.EveryRunCanSettle` | libdaylite/src/remote_node.cpp:72-90 | From every reachable state receptions alone lead to quiescence, within that bound. |
| `Mailmen.Mailman.Register` | libdaylite/src/mailman.cpp:9-18 | The registered mailboxes grow by exactly this one, whatever keys the others have; no bucket is empty and each mailbox stays under its own topic and id. |
| `Mailmen.Mailman.Unregister` | libdaylite/src/mailman.cpp:20-29 | The registered mailboxes shrink by exactly this one; a bucket left empty goes. |
| `Mailmen.Mailman.Send` | libdaylite/src/mailman.cpp:31-56 | How often a packet is placed in each mailbox, exactly: once for its topic's bucket and once for "*", never in the sender; those of the topic's bucket first. |
| `Mailmen.OnceExactlyWhen` | libdaylite/src/mailman.cpp:31-56 | Every matching registered mailbox but the sender is served exactly once and no other at all, if and only if the topic is not "*" or no other mailbox listens to "*". |
| `Mailmen.ServedTwice` | libdaylite/src/mailman.cpp:34-53 | A packet on "*" is placed twice in every other mailbox that listens to "*". |
| `FloodMailmen.LinksServedOnce` | libdaylite/src/mailman.cpp:44-53 | The dispatch at a node puts one copy into each of its links but the arrival one. |
| `FloodMailmen.DispatchIsMailmansSend` | libdaylite/src/mailman.cpp:31-56 | One dispatch of the flood is exactly mailman::send at the node followed by remote_node::send at each link, as often as it is served. |
| `TcpBuffers.SentExactly` | libdaylite/src/tcp_thread.cpp:79-101 | A packet sent is refused exactly when it is droppable and an older droppable packet of its topic still waits; otherwise it is queued last; the firehose set stays exactly the topics of queued droppable packets, one each. |
| `TcpBuffers.AcceptedExactly` | libdaylite/src/tcp_thread.cpp:181-190 | The same for a packet read. |
| `TcpBuffers.PoppedOk` | libdaylite/src/tcp_thread.cpp:64-74 | Taking the oldest packet keeps the firehose set exact. |
| `TcpBuffers.DrainedOk` | libdaylite/src/tcp_thread.cpp:161-164 | Draining keeps the firehose sets exact. |
| `TcpBuffers.RejectCount` | libdaylite/src/tcp_thread.cpp:88-98 | For any packets sent since a drain, the reject counter is the number refused, modulo 2^32, and every packet is either queued or refused. |
| `Links.RefusalsCounted` | libdaylite/src/tcp_thread.cpp:88-98 | At every point of every interleaving of send, drain, read and next the reject counter is the number of refusals since the last drain, modulo 2^32. |
| `TcpThreads.TcpThread.AddSocket` | libdaylite/src/tcp_thread.cpp:34-41 | A new socket gets an empty buffer; a known one fails and nothing changes. |
| `TcpThreads.TcpThread.RemoveSocket` | libdaylite/src/tcp_thread.cpp:43-52 | The socket's buffer goes; an unknown one fails and nothing changes. |
| `TcpThreads.TcpThread.Next` | libdaylite/src/tcp_thread.cpp:54-77 | The oldest received packet of the socket, taken out of its queue and its topic out of the firehose set; nothing for an empty or unknown socket. All buffers keep the firehose invariant. |
| `TcpThreads.TcpThread.Send` | libdaylite/src/tcp_thread.cpp:79-101 | Queued, or counted as rejected, in the socket's buffer only; unknown sockets fail. All buffers keep the firehose invariant. |
| `TcpThreads.TcpThread.Service` | libdaylite/src/tcp_thread.cpp:144-193 | One socket's turn: what is written, followed by what is still queued, is what was queued; what waits to be taken is what did, followed by what was read in the first hundred rounds up to a failure, with nothing missing but droppable packets behind an older one of their topic. |
| `TcpThreads.TcpThread.ReadRounds` | libdaylite/src/tcp_thread.cpp:169-191 | The reading loop accepts exactly the packets of its first hundred rounds, absent channels skipped, cut at the first failed read. |
| `TcpBuffers.AcceptedAllExactly` | libdaylite/src/tcp_thread.cpp:169-191 | The reading loop changes nothing but the receiving queue, which it extends; the queue then holds, in order, what it did and what was read, all non-droppable packets and the first droppable one of each topic included. |
| `TcpBuffers.ReadUpToFailure` | libdaylite/src/tcp_thread.cpp:173-178 | Every packet of a round before the first failed one is read, nothing after it, and rounds without a channel are passed over. |
| `TcpBuffers.FirstRoundsExactly` | libdaylite/src/tcp_thread.cpp:169 | Of the rounds the first hundred count. |
| `TcpThreads.EveryTurn` | libdaylite/src/tcp_thread.cpp:144-193 | Every socket in the order has its turn, on the buffer it had at the start of the round. |
| `TcpThreads.LastReceived` | libdaylite/src/tcp_thread.cpp:192 | The count of packets received is what waits at the last socket served, in 16 bits. |
| `TcpThreads.LastSent` | libdaylite/src/tcp_thread.cpp:161 | The count of packets sent is what was queued or refused at the last writable socket, in 16 bits, and 0 without one. |
| `Numbers.Greatest` | libdaylite/src/tcp_thread.cpp:196 | At least both numbers, and one of them. |
| `TcpThreads.TcpThread.RunOnce` | libdaylite/src/tcp_thread.cpp:140-196 | One round of the loop gives every socket exactly such a turn and then sets the sleep; the larger of two counts is used, cut to 16 bits: packets waiting at the last socket served, packets sent or refused at the last writable one. |
| `TcpThreads.TurnsKeepTable` | libdaylite/src/tcp_thread.cpp:144-193 | Any number of turns keeps every buffer's firehose sets exact. |
| `TcpThreads.TcpThread.UpdateSleep` | libdaylite/src/tcp_thread.cpp:200-208 | The weighted sum over the reals, rounded down, equals the integer recurrence and keeps the sleep in range. |
| `Sleep.SleepStaysInRange` | libdaylite/src/tcp_thread.cpp:200-208 | For every sequence of counts the sleep stays within [1000, 10000]. |
| `Sleep.RoundingKeepsRange` | libdaylite/src/tcp_thread.cpp:205 | For any rounding of the sum by less than a tenth the result is at most one less than the exact one, and in range unless both terms are at the minimum and the sum is rounded below it. |
| `Sleep.IdleStep` | libdaylite/src/tcp_thread.cpp:200-208 | An idle update moves strictly towards the fixed interval [4991, 5000] and never past it; in it nothing changes. |
| `Sleep.IdleSettles` | libdaylite/src/tcp_thread.cpp:200-208 | Under idle input the sleep reaches 5000 from above and 4991 from below, and stays. |
| `Sleep.LightStep` | libdaylite/src/tcp_thread.cpp:204-205 | With one packet the sleep stays; with two to nine it moves strictly down to the minimum, but no further than a tenth of the way to the sleep per packet. |
| `Sleep.BusyStep` | libdaylite/src/tcp_thread.cpp:200-208 | A count of ten or more lowers the sleep strictly down to 1000. |
| `Sleep.BusySettles` | libdaylite/src/tcp_thread.cpp:200-208 | Sustained counts of ten or more bring the sleep to exactly 1000. |
| `TcpChannels.TcpInputChannel.Read` | libdaylite/src/tcp_input_channel.cpp:20-69 | One call of read, whatever the one or two recv calls in it give: the new buffer, the bytes received and the result, error results included. If the buffer starts with n as a little-endian int32 and holds n bytes, it returns exactly those. |
| `TcpChannels.LengthIsLittleEndian` | libdaylite/src/tcp_input_channel.cpp:39 | The first four bytes are read lowest first. |
| `TcpChannels.BufferedFrame` | libdaylite/src/tcp_input_channel.cpp:39-68 | A frame that is in the buffer is returned exactly, and no recv is called. |
| `TcpChannels.NoLength` | libdaylite/src/tcp_input_channel.cpp:28-36 | Without a length: an error of the recv is passed on with the buffer as it was; what it gives is kept, and without a length still the result is EAGAIN. |
| `TcpChannels.OneRecv` | libdaylite/src/tcp_input_channel.cpp:40-47 | With a length but no frame: one recv, whose error is passed on; a frame that it completes is returned exactly, and otherwise all it gave is kept. |
| `TcpChannels.TwoRecvs` | libdaylite/src/tcp_input_channel.cpp:28-47 | The first recv gives the length, the second is for the rest: a frame that the two complete together is returned exactly. |
| `TcpChannels.ReadConserves` | libdaylite/src/tcp_input_channel.cpp:27-65 | For any bytes, well-formed or not: frame returned ++ new buffer == old buffer ++ bytes received. |
| `TcpChannels.FirstFrame` | libdaylite/src/tcp_input_channel.cpp:38-40 | On a stream of frames four bytes tell the length of the first frame, and that many bytes are that frame. |
| `TcpChannels.ReadingConserves` | libdaylite/src/tcp_input_channel.cpp:20-69 | Over any sequence of reads: frames returned ++ buffer == all bytes received. |
| `TcpChannels.FramingIndependentOfChunks` | libdaylite/src/tcp_input_channel.cpp:20-69 | However the bytes of a stream of frames are split into recv results, empty and failed ones included, the reads return those frames in order. |
| `TcpChannels.NextReadReturnsNextFrame` | libdaylite/src/tcp_input_channel.cpp:39-68 | Once all bytes have arrived each further read returns the next frame. |
| `TcpChannels.TcpOutputChannel.Write` | libdaylite/src/tcp_output_channel.cpp:20-35 | What is on the wire is always the first `written` bytes of the packet; the result flag is success whether the loop completes or breaks off. |
| `TcpChannels.WriteExactly` | libdaylite/src/tcp_output_channel.cpp:26-32 | The bytes written are the lesser of the size and what the socket takes before a break; normal exit exactly when that is the whole packet; error exit exactly when a break comes first. |
| `TcpChannels.EnoughProgressCompletes` | libdaylite/src/tcp_output_channel.cpp:26-32 | Without a break, as many progressing sends as there are bytes complete the write, whatever refusals and empty sends come between. |
| `Links.RunInv` | libdaylite/src/tcp_thread.cpp:54-101 | Every interleaving of send, drain, chunked reads and next keeps the invariant: delivered ++ received ++ on the wire ++ queued explains what was sent. |
| `Links.LinkRefinesFifo` | libdaylite/src/tcp_thread.cpp:54-191 | For every interleaving, the packets delivered are an order-preserving subsequence of those sent, and restricted to non-droppable packets a prefix of them. |
| `Links.FirehoseDeliversOldest` | libdaylite/src/tcp_thread.cpp:88-97 | The first droppable packet delivered on a topic is the first one sent on it. |
| `LinkQueues.SendIsAppend` | libdaylite/src/tcp_thread.cpp:79-101 | On what is under way in a link, send appends the packet; a refused one is appended and dropped at once. |
| `LinkQueues.ReadIsDrop` | libdaylite/src/tcp_thread.cpp:175-190 | A read leaves what is under way as it is, or drops one droppable packet from it. |
| `LinkQueues.NextIsPop` | libdaylite/src/tcp_thread.cpp:64-76 | next takes the oldest packet under way, if it has been received. |
| `LinkQueues.LinkIsQueue` | libdaylite/src/tcp_thread.cpp:54-191 | Every run of a link end to end is a run of a queue that may drop droppable packets: sent is put, delivered is taken, under way is waiting. |
| `LinkQueues.MeshQueueStep` | libdaylite/src/remote_node.cpp:72-90 | Every step of the mesh does to each of its queues what a step of such a queue does: a reception pops, a conflation drops, anything else appends at most one packet. |
| `Links.EmptyLinkLostNothing` | libdaylite/src/tcp_thread.cpp:152-191 | Once nothing is under way, every non-droppable packet has been delivered, and the first droppable one of each topic. |
| `Links.ReadProgresses` | libdaylite/src/tcp_input_channel.cpp:27-47 | A recv of as much of the wire as fits its 0xFFFF bytes returns the first frame or brings bytes of it nearer. |
| `Links.EveryRunCanEmpty` | libdaylite/src/tcp_input_channel.cpp:20-69 | From every reachable state, draining, reading in chunks of at most 0xFFFF bytes, which need not hold a frame, and taking deliver all that is left. |
| `Membership.NodeImpl.constructor` | libdaylite/src/node_impl.cpp:42-82 | A new node knows no other, has network time 0, and its counters are valid. |
| `Membership.NodeImpl.Tally` | libdaylite/src/node_impl.cpp:375-385 | Each topic and splat of an info is counted up, with repeats, in both tables. |
| `Membership.NodeImpl.Untally` | libdaylite/src/node_impl.cpp:387-397 | Each topic and splat of an info is counted down, with repeats. |
| `Membership.NodeImpl.UpdateTime` | libdaylite/src/node_impl.cpp:288-307 | The elapsed time is added to the network time, as carry and borrow have it, and cut to 32 bits. |
| `Membership.NodeImpl.HandleInfo` | libdaylite/src/node_impl.cpp:45-70 | Internal mail: the time is updated and jumps to a later stamp; the info replaces the old one of its node, unless it is the node's own; all counters still agree with a recount, and the only new ones are those of the info's topics, as in the mesh. |
| `Membership.NodeImpl.ServerDisconnection` | libdaylite/src/node_impl.cpp:325-356 | The links on the socket go, in order, and their mailboxes are unregistered; every known node associated with one of them is marked not alive, without topics and splats, its id and name kept, and every other info is as before; all counters still agree with a recount and none goes; then every known info, dead ones included, is announced. |
| `Membership.LinksExactly` | libdaylite/src/node_impl.cpp:327-354 | Link by link: those on the socket go with their mailboxes, the others stay in order. |
| `Membership.LostAreNotAnnounced` | libdaylite/src/node_impl.cpp:275-280 | Announcements of the living after that tell of nobody who was reached over the lost socket. |
| `Membership.NodeImpl.MarkDead` | libdaylite/src/node_impl.cpp:339-351 | One associated id: unknown ids change nothing, a known one is untallied and marked not alive, without topics and splats; all other infos are as before. |
| `Membership.MarkedExactly` | libdaylite/src/node_impl.cpp:346-351 | The same for a set of ids. |
| `Membership.NodeImpl.RegisterSubscriber` | libdaylite/src/node_impl.cpp:198-204 | The subscriber is last in the list and there once; the local counters still agree; own and live infos are announced, the first of them listing the new topic. |
| `Membership.NodeImpl.UnregisterSubscriber` | libdaylite/src/node_impl.cpp:213-225 | All entries of the subscriber go, the others keep their order; the local counters still agree. |
| `Membership.NodeImpl.SendInfo` | libdaylite/src/node_impl.cpp:270-281 | First the node's own info, then each info told of exactly once, in any order; all with the one updated time as stamp. |
| `Membership.NodeImpl.Info` | libdaylite/src/node_impl.cpp:236-263 | The node's own info: alive, under its id and name, the topic of every active subscriber as in-topics and of every active publisher as out-topics, in order. |
| `Membership.AnnouncesExactly` | libdaylite/src/node_impl.cpp:270-281 | After the own info come the infos as known, each once: of the living, or of all on request. |
| `Membership.FilingKeepsCounted` | libdaylite/src/node_impl.cpp:63-67 | Untallying a node's old info and tallying its new one keeps both counter tables equal to a recount over all infos. |
| `Membership.ListedIsCounted` | libdaylite/src/node_impl.cpp:375-385 | A counter is a node's own listings and those of the others, in-topics in one table and splats in the other; a topic listed has one. |
| `Membership.MarkedCount` | libdaylite/src/node_impl.cpp:337-352 | After a disconnection a topic's recount is that over the other nodes; marking a node dead again, as when a second link to it goes, changes nothing. |
| `Membership.SubscribedIsForwarded` | libdaylite/src/remote_node.cpp:34-36 | A topic that any known node subscribes to passes the filter of every link. |
| `Membership.CountIsDistinctSubscribers` | libdaylite/src/node_impl.cpp:198-225 | With no entry twice, a topic's local count is its number of distinct subscribers. |
| `Membership.EraseKeepsCounted` | libdaylite/src/node_impl.cpp:218-222 | Erasing an entry and counting its topic down keeps the local counters right. |
| `Membership.PushKeepsCounted` | libdaylite/src/node_impl.cpp:201-202 | Entering a subscriber and counting its topic up keeps the local counters right. |
| `Tallies.ReplaceAgrees` | libdaylite/src/node_impl.cpp:63-67 | For any counters that equal a recount modulo 2^32, replacing one node's list keeps them equal to it, and a counter is present for every topic listed. |
| `Tallies.ReplaceKeys` | libdaylite/src/node_impl.cpp:63-67 | It adds exactly the counters of the topics newly listed and removes none: the subscription filter only ever opens. |
| `Tallies.TalliedCount` | libdaylite/src/node_impl.cpp:377 | Tallying adds a topic's multiplicity in the list, modulo 2^32, and adds exactly the counters of its topics. |
| `Tallies.UntalliedCount` | libdaylite/src/node_impl.cpp:389 | Untallying subtracts it. |
| `Tallies.UntallyDoesNotWrap` | libdaylite/src/node_impl.cpp:387-397 | While recounts fit 32 bits, each single decrement of an untally finds a counter above zero. |
| `Tallies.RecountCleared` | libdaylite/src/node_impl.cpp:346-351 | Emptied lists count for nothing: the recount is that over the remaining nodes. |
| `Clocks.TimerAddInto` | libdaylite/src_win/win_sys_time.c:4-13 | timeradd through pointers, the result possibly written over an operand. |
| `Clocks.TimerSubInto` | libdaylite/src_win/win_sys_time.c:15-24 | timersub likewise. |
| `Clocks.TimerArithmetic` | libdaylite/src_win/win_sys_time.c:4-24 | On normal times both are exact and normal and undo each other; the stamp comparison is that of the times. |
| `Clocks.AdvancedExact` | libdaylite/src/node_impl.cpp:288-307 | Within 32 bits of seconds, update_time adds exactly the elapsed time. |
| `Clocks.AdvancedModulo` | libdaylite/src/node_impl.cpp:297-304 | Without that bound: what is stored is the sum modulo 2^32 seconds. |
| `Clocks.UpdateKeepsCorrected` | libdaylite/src/node_impl.cpp:288-307 | Reading the clock leaves the time corrected by the unread elapsed time as it was, with nothing unread. |
| `Clocks.ClockEnvelope` | libdaylite/src/node_impl.cpp:45-51 | In every reachable state of any number of nodes, corrected network time lies between now - own start and now - earliest start, and is at least every stamp handled. |
| `Clocks.ClockNeverGoesBack` | libdaylite/src/node_impl.cpp:45-51 | Over every run a node's time, read or corrected, never decreases. |
| `Clocks.StampsFollowCauses` | libdaylite/src/node_impl.cpp:270-279 | What a node stamps after handling a packet is never earlier than that packet's stamp. |
| `CrcTable.TableIsDivision` | libdaylite/src/crc.cpp:23-88 | Each of the 256 table entries is its index after eight steps of the reflected division by 0xEDB88320. |
| `Crc.TableStepIsDivision` | libdaylite/src/crc.cpp:124-125 | One table lookup is eight steps of the division. |
| `Crc.CrcUpdate` | libdaylite/src/crc.cpp:119-130 | For all registers and byte sequences the table-driven loop equals the bit-at-a-time reflected division. |
| `CrcRegister.FeedBitsBijective` | libdaylite/src/crc.cpp:119-130 | For fixed data the update is a bijection of the 32-bit register; its inverse is given. |
| `CrcRegister.FeedWord` | libdaylite/src/crc.cpp:124-125 | Up to 32 bits fed one at a time or added to the register at once: the same result. |
| `CrcPolynomial.GeneratorBits` | libdaylite/src/crc.cpp:6-14 | The reflected constant is x^32 + x^26 + ... + 1, the generator of ISO 3309 and of section 8.1.1.6.2 of ITU-T V.42. |
| `CrcPolynomial.ShiftIsDivisionStep` | libdaylite/src/crc.cpp:119-130 | One register step is one step of long division by the generator. |
| `CrcPolynomial.RegisterIsRemainder` | libdaylite/src/crc.cpp:119-130 | After any bits the register is the remainder of the message times x^32, its first 32 coefficients changed by the initial register. |
| `CrcPolynomial.InitComplements` | libdaylite/src/crc.h:58-61 | Starting from all ones is complementing the first 32 bits of the message, zeros appended. |
| `CrcPolynomial.ChecksumIsRemainder` | libdaylite/src/crc.h:58-84 | The checksum is, bit by bit, the complement of the remainder of the message with its first 32 bits complemented, as the standards define it. |
| `CrcReflection.CrcReflect` | libdaylite/src/crc.cpp:97-108 | For every width below 2^32, up to which the source's counter goes, the loop reverses the low bits of the word; a width of 0 reads one bit. |
| `CrcReflection.ReflectBits` | libdaylite/src/crc.cpp:97-108 | Bit k of the result is bit n-1-k of the word, and no higher bit is set. |
| `CrcReflection.ReflectTwice` | libdaylite/src/crc.cpp:97-108 | Reflecting twice gives back the low n bits. |
| `CrcReflection.ReflectedDivision` | libdaylite/src/crc.cpp:119-130 | Reflecting the register after the update gives the MSB-first division by 0x04C11DB7 started from the reflected register. |
| `CrcReflection.UpdateIsMsbDivision` | libdaylite/src/crc.cpp:97-130 | The same over bytes: crc_update, reflected, is the MSB-first division of the byte-reflected message. |
| `CrcDetection.UpdateAffine` | libdaylite/src/crc.cpp:119-130 | Updating the sum of two registers with the sum of two equally long messages gives the sum of the results. |
| `CrcDetection.UpdateComposes` | libdaylite/src/crc.cpp:119-130 | Updating over a concatenation is updating twice. |
| `CrcDetection.ResidueConstant` | libdaylite/src/crc.h:58-84 | Any message followed by its little-endian checksum leaves the register at 0xDEBB20E3. |
| `CrcDetection.ShortBurst` | libdaylite/src/crc.cpp:119-130 | Different bit streams of equal length up to 32 drive any one register apart. |
| `CrcDetection.SuffixKeepsApart` | libdaylite/src/crc.cpp:119-130 | A common suffix never brings two different registers together. |
| `CrcDetection.BurstDetected` | libdaylite/src/crc.cpp:119-130 | Two equally long messages that differ only within 32 consecutive bits, at any offset, have different checksums. |
| `CrcDetection.GeneratorBurstMissed` | libdaylite/src/crc.cpp:119-130 | The bound is tight: a 33-bit burst, the generator itself, goes undetected anywhere on a byte boundary. |
| `CircularBuffers.DynamicCircularBuffer.constructor` | libdaylite/src/dynamic_circular_buffer.cpp:9-16 | An empty queue of the given capacity, 0 included. |
| `CircularBuffers.DynamicCircularBuffer.Write` | libdaylite/src/dynamic_circular_buffer.cpp:23-48 | The bytes are appended to the queue, across wraparound and growth; head stays below, size at most, the physical size; what has been written, copied and grown is what the ledger of the cost theorem says. |
| `CircularBuffers.DynamicCircularBuffer.Read` | libdaylite/src/dynamic_circular_buffer.cpp:50-72 | The first bytes of the queue, as many as asked for and there, are copied out and dropped; the rest of the destination is untouched. |
| `CircularBuffers.DynamicCircularBuffer.Discard` | libdaylite/src/dynamic_circular_buffer.cpp:74-80 | As many bytes are dropped from the front. |
| `CircularBuffers.DynamicCircularBuffer.Clear` | libdaylite/src/dynamic_circular_buffer.cpp:82-86 | The queue is empty. |
| `CircularBuffers.DynamicCircularBuffer.ResizeBacking` | libdaylite/src/dynamic_circular_buffer.cpp:88-109 | The queue, unchanged, now starts at the beginning of a new array of the new size; the bytes its read moved are counted as copied, the array as a growth. |
| `CircularBuffers.DynamicCircularBuffer.ContiguousReadPossible` | libdaylite/src/dynamic_circular_buffer.hpp:27-31 | True exactly when so many bytes are queued and lie before the end of the array; then those at `data()` are the queue's first. |
| `CircularBuffers.WindowAppend` | libdaylite/src/dynamic_circular_buffer.cpp:30-47 | Storing at the insertion point, round the end or not, appends to the window of stored bytes. |
| `CircularBuffers.WindowDrop` | libdaylite/src/dynamic_circular_buffer.cpp:68-69 | Moving the head, round the end or not, drops from the window's front. |
| `CircularBuffers.GrowthSufficesIff` | libdaylite/src/dynamic_circular_buffer.cpp:27 | Doubled and cut to 32 bits, the new size holds the bytes exactly when they are fewer than 2^31; for 2^31 bytes it is 0. |
| `CircularBuffers.GrowthCost` | libdaylite/src/dynamic_circular_buffer.cpp:25-28 | Over any run whose sizes are not cut to 32 bits, with or without the assertion on growing, the bytes copied are at most twice the bytes written; from the default capacity there are at most 15 growths, and at most four while the assertion holds. |
| `CircularBuffers.GrowthsHappen` | libdaylite/src/dynamic_circular_buffer.cpp:25-28 | Every number of growths up to 15 is reached from the default capacity by a run, up to four with the assertion holding. |
| `CircularBuffers.FourGrowths` | libdaylite/src/dynamic_circular_buffer.hpp:33 | A run with four growths within the assertion, and one write more that makes a fifth outside it. |

## Left out

- Sockets, accepting and connecting, opening and closing of transports: recv and send are arbitrary results.
- The encoding of packets (`packet.cpp`, `bson.cpp`; libbson and bsonbind are not part of this model): a codec with the assumption stated above. A reader that cannot be created, or a document that cannot be unbound, does not occur.
- Publishing on "*" in the mesh of `flood.dfy`: such a step is refused there, because a node would put two copies into each link. `Mailmen.OnceExactlyWhen` says exactly what one node does with it.
- Link loss and removal in `flood.dfy` and `link.dfy`; `Membership.NodeImpl.ServerDisconnection` has what a node does about it.
- Freshness of `_latest_info`: infos are flooded again without versions, so that an older one can replace a newer one. Only the agreement of the counters is claimed.
- The subscription filter tests the presence of a counter and not that it is above zero; a topic once counted passes for ever. It is modelled as written.
- The source of the receiving half's scheduling (`spinner_impl.cpp`): the next step is any step.
- `node_impl::stop`, husks and the auto-exit of `node_impl::spin_update`: shutdown.
- `node_impl::register_publisher`, `server_connection`, `join_daylite`: they only add to a list and announce it. Publishers appear as the out-topics of `Membership.NodeImpl.Info`; host names and interfaces do not appear.
- The mailman behind `node_impl`: announcements and the mailboxes of lost links are collected in two lists instead of being passed to it.
- Splats: shared memory, disabled in the build. Their counters are kept, since `tally` and `untally` keep them in any build.
- Locks: each critical section is one step; the lookups made before a lock is taken are inside it.
- `usleep`, and the loop of `tcp_thread::run` beyond one round.
- TcpThreads.TcpThread.UpdateSleep: is over the reals, rounded down; the source computes in floating point, whose result is the same for the targets 1000 and 5000. For other targets `Sleep.RoundingKeepsRange` says what holds whatever the rounding.
- TcpThreads.TcpThread.RunOnce: the order in which the table holds the sockets is an argument, and the source's null entries do not occur.
- TcpChannels.TcpOutputChannel.Write: the source loops for as long as the socket refuses; here the results of the calls are a finite list, and `Unfinished` says that it has run out.
- CircularBuffers.DynamicCircularBuffer.Write: asks for less than 2^31 bytes when growing, because from there on the new size is cut to 32 bits and too small (`CircularBuffers.GrowthSufficesIff`); what writing past it would do to memory is not modelled.
- Services, `option` and `result`, the console, examples, the daemon and the tools.
