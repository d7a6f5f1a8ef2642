// Packets, their meta block and the infos they carry: libdaylite/src/packet.hpp,
// msgs/meta.bsonbind and msgs/node_info.bsonbind.

module Packets {

  /** A node id: 32 bits, unique on the network and constant for a node's life. */
  type NodeId = i: int | 0 <= i < 0x1_0000_0000

  type Topic = string

  const ANY: Topic := "*"
  const INTERNAL: Topic := "!"

  /** network_time: whole seconds and microseconds. */
  datatype Time = Time(seconds: int, microseconds: int)

  datatype Meta = Meta(
    topic: Topic,
    stamp: Time,
    originId: NodeId,
    id: NodeId,
    path: seq<NodeId>,
    droppable: bool)

  type Byte = b: int | 0 <= b < 256

  /** What a node tells of itself, and passes on of others. */
  datatype NodeInfo = NodeInfo(
    id: NodeId,
    name: string,
    alive: bool,
    inTopics: seq<Topic>,
    outTopics: seq<Topic>,
    splats: seq<Topic>)

  /** What a packet says: an info, if it is internal mail, or something else. */
  datatype Message = Info(info: NodeInfo) | Other(bytes: seq<Byte>)

  /** A packet; `localOnly` is not part of what is encoded. */
  datatype Packet = Packet(meta: Meta, msg: Message, localOnly: bool)

  /** The topics that a node starts to count when it handles an info; it passes over
      infos about itself. */
  function TopicsTold(self: NodeId, info: NodeInfo): set<Topic> {
    if info.id == self then {} else set topic | topic in info.inTopics
  }

  ghost predicate NoDuplicates<T>(s: seq<T>) {
    forall i, j | 0 <= i < j < |s| :: s[i] != s[j]
  }
}
