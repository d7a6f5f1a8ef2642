// One end of a link: `send` and `spin_update` of libdaylite/src/remote_node.cpp.

module RemoteNodes {
  import opened Packets
  import opened Wrappers

  /** The packet as it leaves a node: the node's id appended to its path, and as its id. */
  function Stamped(p: Packet, self: NodeId): Packet {
    p.(meta := p.meta.(path := p.meta.path + [self], id := self))
  }

  /** remote_node::send: what goes to the link, if anything does. `interests` are the
      keys of `_subscription_count`, tested for presence and not for a count. */
  function Forwarded(self: NodeId, allowInternal: bool, interests: set<Topic>, p: Packet): Option<Packet> {
    if p.localOnly then None
    else if !(allowInternal && p.meta.topic == INTERNAL) && p.meta.topic !in interests then None
    else Some(Stamped(p, self))
  }

  /** The loop suppression of spin_update. */
  predicate Suppressed(self: NodeId, p: Packet) {
    p.meta.id == self || self in p.meta.path
  }

  /** The packets of a queue that pass the loop suppression. */
  function Unsuppressed(self: NodeId, ps: seq<Packet>): seq<Packet> {
    if ps == [] then []
    else if Suppressed(self, ps[0]) then Unsuppressed(self, ps[1..])
    else [ps[0]] + Unsuppressed(self, ps[1..])
  }

  /** The filter lets a packet through if and only if it may leave the node at all and its
      topic is counted, or it is internal mail and the link is for that. */
  lemma ForwardedExactly(self: NodeId, allowInternal: bool, interests: set<Topic>, p: Packet)
    ensures Forwarded(self, allowInternal, interests, p).Some?
       <==> !p.localOnly && (p.meta.topic in interests || (p.meta.topic == "!" && allowInternal))
  {}

  /** What leaves has the node's id at the end of its path and as its id, and is otherwise
      what came. */
  lemma StampedExactly(p: Packet, self: NodeId)
    ensures Stamped(p, self).meta.path == p.meta.path + [self] && Stamped(p, self).meta.id == self
    ensures Stamped(p, self).msg == p.msg && Stamped(p, self).localOnly == p.localOnly
    ensures var m := Stamped(p, self).meta;
            && m.topic == p.meta.topic && m.stamp == p.meta.stamp
            && m.originId == p.meta.originId && m.droppable == p.meta.droppable
  {}

  /** Packets pass one by one and in order, those that name the node nowhere. */
  lemma {:induction false} UnsuppressedExactly(self: NodeId, ps: seq<Packet>, p: Packet)
    ensures Unsuppressed(self, ps + [p])
         == Unsuppressed(self, ps) + if p.meta.id == self || self in p.meta.path then [] else [p]
    decreases |ps|
  {
    if ps == [] {
      assert ps + [p] == [p];
    } else {
      assert (ps + [p])[1..] == ps[1..] + [p];
      UnsuppressedExactly(self, ps[1..], p);
    }
  }

  ghost function SendersOf(ps: seq<Packet>): set<NodeId> {
    set p | p in ps :: p.meta.id
  }

  /** The senders of the packets that pass. */
  lemma {:induction false} SendersExactly(self: NodeId, ps: seq<Packet>)
    ensures forall k :: k in SendersOf(Unsuppressed(self, ps))
              <==> exists p :: p in ps && p.meta.id == k && k != self && self !in p.meta.path
    decreases |ps|
  {
    if ps != [] {
      SendersExactly(self, ps[1..]);
      var rest := Unsuppressed(self, ps[1..]);
      assert ps == [ps[0]] + ps[1..];
      assert SendersOf([ps[0]] + rest) == {ps[0].meta.id} + SendersOf(rest);
    }
  }

  lemma NothingSent(self: NodeId)
    ensures Unsuppressed(self, []) == [] && SendersOf([]) == {}
  {}

  /** One packet of the queue, after those in `done`. */
  lemma PopOne(self: NodeId, ps: seq<Packet>, done: seq<Packet>)
    requires ps != []
    ensures done + Unsuppressed(self, ps)
         == (if Suppressed(self, ps[0]) then done else done + [ps[0]]) + Unsuppressed(self, ps[1..])
    ensures SendersOf(done + [ps[0]]) == SendersOf(done) + {ps[0].meta.id}
  {}

  class RemoteNode {
    const self: NodeId
    const allowInternal: bool
    var associatedIds: set<NodeId>
    var incoming: seq<Packet>   // what the I/O thread holds for this link
    var outgoing: seq<Packet>   // what was handed to the I/O thread
    var placed: seq<Packet>     // what was placed as outgoing mail

    constructor (self: NodeId, allowInternal: bool)
      ensures this.self == self && this.allowInternal == allowInternal
      ensures associatedIds == {} && incoming == outgoing == placed == []
    {
      this.self, this.allowInternal := self, allowInternal;
      associatedIds, incoming, outgoing, placed := {}, [], [], [];
    }

    method Send(p: Packet, interests: set<Topic>)
      modifies this`outgoing
      ensures outgoing == old(outgoing) + match Forwarded(self, allowInternal, interests, p)
                                          case Some(mod) => [mod]
                                          case None => []
      ensures var passes := !p.localOnly && (p.meta.topic in interests || (p.meta.topic == "!" && allowInternal));
              |outgoing| == |old(outgoing)| + if passes then 1 else 0
    {
      ForwardedExactly(self, allowInternal, interests, p);
      if p.localOnly {
        return;
      }
      var internalCheck := allowInternal && p.meta.topic == INTERNAL;
      if !internalCheck && p.meta.topic !in interests {
        return;
      }
      var mod := p;
      mod := mod.(meta := mod.meta.(path := mod.meta.path + [self]));
      mod := mod.(meta := mod.meta.(id := self));
      outgoing := outgoing + [mod];
    }

    /** The search of spin_update for the node's id. */
    method BeenHere(p: Packet) returns (found: bool)
      ensures found <==> Suppressed(self, p)
    {
      found := p.meta.id == self;
      for i := 0 to |p.meta.path|
        invariant found <==> p.meta.id == self || self in p.meta.path[..i]
      {
        found := found || p.meta.path[i] == self;
      }
      assert p.meta.path[..|p.meta.path|] == p.meta.path;
    }

    /** Takes everything the link holds and passes on what has not been here. */
    method SpinUpdate()
      modifies this
      ensures incoming == [] && outgoing == old(outgoing)
      ensures placed == old(placed) + Unsuppressed(self, old(incoming))
      ensures associatedIds == old(associatedIds) + SendersOf(Unsuppressed(self, old(incoming)))
      ensures forall k ::
                k in associatedIds <==>
                  (k in old(associatedIds)
                   || exists p :: p in old(incoming) && p.meta.id == k && k != self && self !in p.meta.path)
    {
      ghost var done: seq<Packet> := [];
      NothingSent(self);
      hide Unsuppressed, SendersOf, Suppressed;
      while incoming != []
        invariant outgoing == old(outgoing)
        invariant done + Unsuppressed(self, incoming) == Unsuppressed(self, old(incoming))
        invariant placed == old(placed) + done && associatedIds == old(associatedIds) + SendersOf(done)
        decreases |incoming|
      {
        PopOne(self, incoming, done);
        var p := incoming[0];
        incoming := incoming[1..];
        var found := BeenHere(p);
        if found {
          continue;
        }
        associatedIds := associatedIds + {p.meta.id};
        placed := placed + [p];
        done := done + [p];
      }
      assert done == done + [] == Unsuppressed(self, old(incoming));
      SendersExactly(self, old(incoming));
    }
  }

  /** A packet that comes back to a node that forwarded it is dropped there, wherever it
      has been since. */
  lemma ForwardedIsSuppressedOnReturn(self: NodeId, p: Packet, later: Packet)
    requires Stamped(p, self).meta.path <= later.meta.path
    ensures Suppressed(self, later)
  {
    assert later.meta.path[|p.meta.path|] == self;
  }
}
