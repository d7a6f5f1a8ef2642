// One dispatch of the flood, against the mailman and the links of the node it happens at.

module FloodMailmen {
  import opened Packets
  import opened Wrappers
  import opened Mailmen
  import opened RemoteNodes
  import opened Topologies
  import opened Flood

  /** The mailboxes of a node: those of its links, which listen to "*", among others;
      no two have one key. */
  ghost predicate Houses(t: Topology, node: NodeId, registered: set<Mailbox>, keys: seq<MailboxId>) {
    && DistinctIds(registered) && |keys| == |t.owner|
    && (forall p | 0 <= p < |t.owner| && t.owner[p] == node :: Mailbox(keys[p], ANY) in registered)
    && (forall p, q | 0 <= p < |t.owner| && 0 <= q < |t.owner| && t.owner[p] == t.owner[q] == node
          && keys[p] == keys[q] :: p == q)
  }

  /** The sender of a dispatch: the link that a packet came by, or no link at all. */
  ghost predicate SentBy(t: Topology, node: NodeId, keys: seq<MailboxId>, arrival: int, sender: MailboxId)
    requires |keys| == |t.owner|
  {
    if 0 <= arrival < |t.owner| then t.owner[arrival] == node && sender == keys[arrival]
    else forall p | 0 <= p < |t.owner| && t.owner[p] == node :: keys[p] != sender
  }

  /** mailman::send puts one copy into each of the node's links but the sender. */
  lemma LinksServedOnce(t: Topology, node: NodeId, registered: set<Mailbox>, keys: seq<MailboxId>,
                        arrival: int, sender: MailboxId, topic: Topic, p: Port)
    requires Houses(t, node, registered, keys) && SentBy(t, node, keys, arrival, sender)
    requires topic != ANY && p < |t.owner| && t.owner[p] == node
    ensures Times(registered, sender, topic, keys[p]) == if p != arrival then 1 else 0
  {
    var own, other := Mailbox(keys[p], ANY), Mailbox(keys[p], topic);
    assert own in registered && other.id == own.id && other != own;
  }

  /** What the link at port p does with n placements of a packet: remote_node::send each
      time. */
  function SentThrough(t: Topology, net: Net, p: Port, c: Copy, n: nat): seq<Copy>
    requires p < |t.owner| == |t.allowInternal|
  {
    if n == 0 then []
    else
      SentThrough(t, net, p, c, n - 1)
      + match Forwarded(t.owner[p], t.allowInternal[p], Interests(net, t.owner[p]), c.packet)
        case Some(mod) => [Copy(mod, c.uid, c.route + [p])]
        case None => []
  }

  /** The flood's dispatch is mailman::send at the node followed by remote_node::send at
      each of its links: every queue grows by what is placed in the link that feeds it. */
  lemma DispatchIsMailmansSend(t: Topology, net: Net, node: NodeId, registered: set<Mailbox>, keys: seq<MailboxId>,
                               arrival: int, sender: MailboxId, c: Copy, q: Port)
    requires Wired(t) && |net.queues| == |t.owner| && q < |t.owner|
    requires Houses(t, node, registered, keys) && SentBy(t, node, keys, arrival, sender)
    requires c.packet.meta.topic != ANY
    ensures var p := t.peer[q];
            var n := if t.owner[p] == node then Times(registered, sender, c.packet.meta.topic, keys[p]) else 0;
            Dispatch(t, net, node, arrival, c).queues[q] == net.queues[q] + SentThrough(t, net, p, c, n)
  {
    hide Times, Houses, SentBy;
    var p := t.peer[q];
    assert |keys| == |t.owner| by { KeysFit(t, node, registered, keys); }
    assert SentThrough(t, net, p, c, 0) == [];
    if t.owner[p] == node {
      LinksServedOnce(t, node, registered, keys, arrival, sender, c.packet.meta.topic, p);
    }
  }

  lemma KeysFit(t: Topology, node: NodeId, registered: set<Mailbox>, keys: seq<MailboxId>)
    requires Houses(t, node, registered, keys)
    ensures |keys| == |t.owner|
  {}
}
