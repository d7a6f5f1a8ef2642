// The loss of a link, in the mesh and in what a node knows of others.

module FloodMembership {
  import opened Packets
  import opened Topologies
  import opened RemoteNodes
  import opened Flood
  import opened FloodSafety
  import opened FloodTheorems
  import opened Membership

  /** A copy that came by port q has been dispatched. */
  ghost predicate CameBy(t: Topology, net: Net, q: Port)
    requires Wired(t) && q < |t.owner|
  {
    exists e :: e in net.dispatched && e.route != [] && e.route[|e.route| - 1] == t.peer[q]
  }

  ghost predicate AssociatedExactly(t: Topology, net: Net)
    requires Wired(t) && |net.associated| == |t.owner|
  {
    forall q | 0 <= q < |t.owner| :: net.associated[q] == if CameBy(t, net, q) then {t.owner[t.peer[q]]} else {}
  }

  lemma CameByFrame(t: Topology, net: Net, net': Net, q: Port)
    requires Wired(t) && q < |t.owner|
    requires || net'.dispatched == net.dispatched
             || (|net'.dispatched| == |net.dispatched| + 1 && net.dispatched <= net'.dispatched
                 && var e := net'.dispatched[|net.dispatched|];
                    e.route == [] || e.route[|e.route| - 1] != t.peer[q])
    ensures CameBy(t, net', q) == CameBy(t, net, q)
  {
    if e :| e in net'.dispatched && e.route != [] && e.route[|e.route| - 1] == t.peer[q] {
      assert e in net.dispatched;
    }
    if e :| e in net.dispatched && e.route != [] && e.route[|e.route| - 1] == t.peer[q] {
      assert e in net'.dispatched;
    }
  }

  lemma ReceivedCameBy(t: Topology, net: Net, q: Port)
    requires Wired(t) && Inv(t, net) && q < |net.queues| && net.queues[q] != []
    requires !Suppressed(t.owner[q], net.queues[q][0].packet)
    ensures var net', c := Next(t, net, Receive(q)), net.queues[q][0];
            && net'.dispatched == net.dispatched + [EventOf(c)] && CameBy(t, net', q)
            && net'.associated == net.associated[q := net.associated[q] + {t.owner[t.peer[q]]}]
            && c.route != [] && c.route[|c.route| - 1] == t.peer[q]
  {
    hide PassesOn, Suppressed;
    HeadOk(t, net, q);
    assert EventOf(net.queues[q][0]) in Next(t, net, Receive(q)).dispatched;
  }

  lemma StepAssociates(t: Topology, net: Net, step: Step)
    requires Wired(t) && Inv(t, net) && AssociatedExactly(t, net)
    ensures |Next(t, net, step).associated| == |t.owner| && AssociatedExactly(t, Next(t, net, step))
  {
    hide Inv, PassesOn, Suppressed, CameBy;
    InvShape(t, net);
    var net' := Next(t, net, step);
    forall q | 0 <= q < |t.owner|
      ensures net'.associated[q] == if CameBy(t, net', q) then {t.owner[t.peer[q]]} else {}
    {
      if step.Receive? && step.port < |net.queues| && net.queues[step.port] != []
         && !Suppressed(t.owner[step.port], net.queues[step.port][0].packet) {
        ReceivedCameBy(t, net, step.port);
        if q != step.port {
          assert t.peer[t.peer[q]] == q && t.peer[t.peer[step.port]] == step.port;
          CameByFrame(t, net, net', q);
        }
      } else {
        CameByFrame(t, net, net', q);
      }
    }
  }

  /** In every reachable state a link is associated with its direct peer if and only if a
      copy that came over it has been dispatched, and with nobody else. */
  lemma {:induction false} RunAssociates(t: Topology, steps: seq<Step>)
    requires Wired(t)
    ensures AssociatedExactly(t, Run(t, steps))
  {
    hide Inv, Next;
    if steps != [] {
      RunInv(t, steps[..|steps| - 1]);
      RunAssociates(t, steps[..|steps| - 1]);
      StepAssociates(t, Run(t, steps[..|steps| - 1]), steps[|steps| - 1]);
    }
  }

  /** The links of a node, each with the ids that its port is associated with. */
  ghost predicate LinksOf(t: Topology, net: Net, node: NodeId, remotes: seq<Remote>, ports: seq<Port>) {
    && |ports| == |remotes| && |net.associated| == |t.owner|
    && forall i | 0 <= i < |remotes| ::
         ports[i] < |t.owner| && t.owner[ports[i]] == node
         && remotes[i].associatedIds == net.associated[ports[i]]
  }

  /** In every reachable state of the mesh, a node that loses a socket changes what it
      knows of the direct peers on that socket, and of nobody else. */
  lemma LostLinkMarksPeersOnly(t: Topology, steps: seq<Step>, node: NodeId, remotes: seq<Remote>, ports: seq<Port>,
                               socket: int, latest: map<NodeId, NodeInfo>, k: NodeId)
    requires Wired(t) && LinksOf(t, Run(t, steps), node, remotes, ports)
    requires k in latest && Marked(latest, IdsOn(remotes, socket))[k] != latest[k]
    ensures exists i ::
        0 <= i < |remotes| && remotes[i].socket == socket && k == t.owner[t.peer[ports[i]]]
  {
    hide Run;
    var r :| r in remotes && r.socket == socket && k in r.associatedIds;
    var i :| 0 <= i < |remotes| && remotes[i] == r;
    AssociatedWithPeerOnly(t, steps, ports[i]);
  }
}
