// The filter of remote_node::send over a whole run: a packet is only ever dispatched by
// routes whose ports all carry it.

module FloodFilter {
  import opened Packets
  import opened RemoteNodes
  import opened Topologies
  import opened Flood
  import opened FloodSafety
  import opened FloodDelivery

  /** Every port of the event's route carries the packet, as interests are now. */
  ghost predicate Carried(t: Topology, net: Net, e: Event)
    requires |t.owner| == |t.allowInternal|
  {
    && e.uid < |net.published|
    && forall i | 0 <= i < |e.route| :: Passable(t, net.interests, net.published[e.uid].packet, e.route[i])
  }

  ghost predicate AllCarried(t: Topology, net: Net)
    requires |t.owner| == |t.allowInternal|
  {
    && (forall e | e in net.dispatched :: Carried(t, net, e))
    && (forall q, i | 0 <= q < |net.queues| && 0 <= i < |net.queues[q]| :: Carried(t, net, EventOf(net.queues[q][i])))
  }

  /** What once carried a packet still does. */
  lemma CarriedStays(t: Topology, net: Net, net': Net, e: Event)
    requires |t.owner| == |t.allowInternal| && Carried(t, net, e) && net.published <= net'.published
    requires forall n: NodeId :: Interests(net, n) <= Interests(net', n)
    ensures Carried(t, net', e)
  {
    forall i | 0 <= i < |e.route|
      ensures Passable(t, net'.interests, net'.published[e.uid].packet, e.route[i])
    {
      assert Passable(t, net.interests, net.published[e.uid].packet, e.route[i]);
      assert Interests(net, t.owner[e.route[i]]) <= Interests(net', t.owner[e.route[i]]);
    }
  }

  /** A copy that a node passes on was carried so far, and by the port it goes through. */
  lemma PassedOnIsCarried(t: Topology, net: Net, node: NodeId, arrival: int, c: Copy, p: Port)
    requires |t.owner| == |t.allowInternal| && p < |t.owner| && PassesOn(t, net, node, arrival, p, c.packet)
    requires Carried(t, net, EventOf(c)) && SamePayload(c.packet, net.published[c.uid].packet)
    ensures Carried(t, net, Event(c.uid, c.route + [p]))
  {
    assert Passable(t, net.interests, net.published[c.uid].packet, p);
  }

  lemma DispatchCarries(t: Topology, net: Net, node: NodeId, arrival: int, c: Copy)
    requires Wired(t) && |net.queues| == |t.owner| && AllCarried(t, net)
    requires Carried(t, net, EventOf(c)) && SamePayload(c.packet, net.published[c.uid].packet)
    ensures AllCarried(t, Dispatch(t, net, node, arrival, c))
  {
    hide PassesOn, Carried, SamePayload;
    var net' := Dispatch(t, net, node, arrival, c);
    forall e | e in net'.dispatched ensures Carried(t, net', e) {
      assert e in net.dispatched || e == EventOf(c);
      CarriedStays(t, net, net', e);
    }
    forall q, i | 0 <= q < |net'.queues| && 0 <= i < |net'.queues[q]|
      ensures Carried(t, net', EventOf(net'.queues[q][i]))
    {
      if i < |net.queues[q]| {
        assert net'.queues[q][i] == net.queues[q][i];
      } else {
        PassedOnIsCarried(t, net, node, arrival, c, t.peer[q]);
      }
      CarriedStays(t, net, net', EventOf(net'.queues[q][i]));
    }
  }

  /** Taking copies away, and anything that leaves the events alone. */
  lemma FewerCarried(t: Topology, net: Net, net': Net)
    requires Wired(t) && |net.queues| == |net'.queues| && AllCarried(t, net)
    requires net.published <= net'.published && net'.dispatched == net.dispatched
    requires forall n: NodeId :: Interests(net, n) <= Interests(net', n)
    requires forall q, i | 0 <= q < |net'.queues| && 0 <= i < |net'.queues[q]| :: net'.queues[q][i] in net.queues[q]
    ensures AllCarried(t, net')
  {
    hide Carried;
    forall e | e in net'.dispatched ensures Carried(t, net', e) {
      CarriedStays(t, net, net', e);
    }
    forall q, i | 0 <= q < |net'.queues| && 0 <= i < |net'.queues[q]|
      ensures Carried(t, net', EventOf(net'.queues[q][i]))
    {
      var k :| 0 <= k < |net.queues[q]| && net.queues[q][k] == net'.queues[q][i];
      CarriedStays(t, net, net', EventOf(net.queues[q][k]));
    }
  }

  lemma StepCarries(t: Topology, net: Net, step: Step)
    requires Wired(t) && Inv(t, net) && AllCarried(t, net)
    ensures AllCarried(t, Next(t, net, step))
  {
    hide Inv, AllCarried, Suppressed, PassesOn, SamePayload;
    InvShape(t, net);
    var net' := Next(t, net, step);
    match step
    case Publish(node, packet) =>
      if packet.meta.path == [] && packet.meta.topic != ANY {
        var logged := net.(published := net.published + [Published(node, packet, net.interests)]);
        FewerCarried(t, net, logged);
        SamePacket(packet);
        DispatchCarries(t, logged, node, -1, Copy(packet, |net.published|, []));
      }
    case Receive(q) =>
      if q < |net.queues| && net.queues[q] != [] {
        var c := net.queues[q][0];
        HeadCarried(t, net, q);
        var popped := net.(queues := net.queues[q := net.queues[q][1..]]);
        if Suppressed(t.owner[q], c.packet) {
          FewerCarried(t, net, net');
        } else {
          var heard := Heard(net, q, t.owner[q]);
          FewerCarried(t, net, heard);
          CarriedStays(t, net, heard, EventOf(c));
          DispatchCarries(t, heard, t.owner[q], q, c);
        }
      }
    case Conflate(_, _) => FewerCarried(t, net, net');
  }

  lemma SamePacket(p: Packet)
    ensures SamePayload(p, p)
  {}

  lemma HeadCarried(t: Topology, net: Net, q: Port)
    requires Wired(t) && Inv(t, net) && AllCarried(t, net) && q < |net.queues| && net.queues[q] != []
    ensures Carried(t, net, EventOf(net.queues[q][0]))
    ensures SamePayload(net.queues[q][0].packet, net.published[net.queues[q][0].uid].packet)
  {
    HeadOk(t, net, q);
  }

  /** Over every run, a packet goes over a link only if it may leave a node at all, and
      only where its topic is counted at the sending end, or as internal mail over a link
      for that. */
  lemma SentOnlyIf(t: Topology, steps: seq<Step>, e: Event, k: nat)
    requires Wired(t) && k < |e.route|
    requires var net := Run(t, steps);
             || e in net.dispatched
             || exists q, i :: 0 <= q < |net.queues| && 0 <= i < |net.queues[q]| && EventOf(net.queues[q][i]) == e
    ensures var net := Run(t, steps);
            && e.uid < |net.published| && e.route[k] < |t.owner|
            && !net.published[e.uid].packet.localOnly
            && (|| net.published[e.uid].packet.meta.topic in Interests(net, t.owner[e.route[k]])
                || (net.published[e.uid].packet.meta.topic == "!" && t.allowInternal[e.route[k]]))
  {
    hide Run;
    var net := Run(t, steps);
    RunCarries(t, steps);
    assert Carried(t, net, e);
    var p := e.route[k];
    assert Passable(t, net.interests, net.published[e.uid].packet, p);
    ForwardedExactly(t.owner[p], t.allowInternal[p], Interests(net, t.owner[p]), net.published[e.uid].packet);
  }

  /** Over every run a packet goes by ports that carry it. */
  lemma {:induction false} RunCarries(t: Topology, steps: seq<Step>)
    requires Wired(t)
    ensures AllCarried(t, Run(t, steps))
  {
    hide Inv, Next;
    if steps != [] {
      RunInv(t, steps[..|steps| - 1]);
      RunCarries(t, steps[..|steps| - 1]);
      StepCarries(t, Run(t, steps[..|steps| - 1]), steps[|steps| - 1]);
    }
  }
}
