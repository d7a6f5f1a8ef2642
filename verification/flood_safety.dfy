// What every run of the flood keeps, on any topology.

module FloodSafety {
  import opened Packets
  import opened RemoteNodes
  import opened Topologies
  import opened Flood

  function EventOf(c: Copy): Event { Event(c.uid, c.route) }

  /** Nothing but the path and the id of a packet changes on the way. */
  predicate SamePayload(p: Packet, original: Packet) {
    p == original.(meta := original.meta.(path := p.meta.path, id := p.meta.id))
  }

  /** The route by which the event's packet reached its node came from a node that
      dispatched it before. */
  ghost predicate HasParent(net: Net, e: Event) {
    e.route != [] ==> Event(e.uid, e.route[..|e.route| - 1]) in net.dispatched
  }

  ghost function Source(net: Net, uid: nat): NodeId
    requires uid < |net.published|
  {
    net.published[uid].node
  }

  /** A copy in flight to port q. */
  ghost predicate FlightOk(t: Topology, net: Net, q: Port, c: Copy)
    requires Wired(t) && q < |t.owner|
  {
    && c.uid < |net.published|
    && Walk(t, Source(net, c.uid), c.route)
    && c.route != [] && c.route[|c.route| - 1] == t.peer[q]
    && c.packet.meta.path == Senders(t, Source(net, c.uid), c.route)
    && NoDuplicates(c.packet.meta.path)
    && c.packet.meta.id == t.owner[t.peer[q]]
    && SamePayload(c.packet, net.published[c.uid].packet)
    && HasParent(net, EventOf(c))
    && EventOf(c) !in net.dispatched && EventOf(c) !in net.suppressed
  }

  ghost predicate FlightsOk(t: Topology, net: Net)
    requires Wired(t) && |net.queues| == |t.owner|
  {
    && (forall q, i | 0 <= q < |net.queues| && 0 <= i < |net.queues[q]| :: FlightOk(t, net, q, net.queues[q][i]))
    && (forall q, i, j | 0 <= q < |net.queues| && 0 <= i < j < |net.queues[q]| ::
          EventOf(net.queues[q][i]) != EventOf(net.queues[q][j]))
  }

  ghost predicate DispatchedOk(t: Topology, net: Net)
    requires Wired(t)
  {
    && NoDuplicates(net.dispatched)
    && (forall e | e in net.dispatched ::
          e.uid < |net.published| && Simple(t, Source(net, e.uid), e.route) && HasParent(net, e))
  }

  /** Every publish call is dispatched where it is made. */
  ghost predicate RootsOk(net: Net) {
    forall uid | 0 <= uid < |net.published| :: Event(uid, []) in net.dispatched
  }

  /** What the log of suppressed copies says of each. */
  ghost predicate SuppressedEvent(t: Topology, net: Net, e: Event)
    requires Wired(t)
  {
    && e.uid < |net.published| && e.route != []
    && Walk(t, Source(net, e.uid), e.route) && !Simple(t, Source(net, e.uid), e.route)
    && HasParent(net, e)
  }

  ghost predicate SuppressedOk(t: Topology, net: Net)
    requires Wired(t)
  {
    forall e | e in net.suppressed :: SuppressedEvent(t, net, e)
  }

  ghost predicate AssociatedOk(t: Topology, net: Net)
    requires Wired(t) && |net.associated| == |t.owner|
  {
    forall q | 0 <= q < |net.associated| :: net.associated[q] <= {t.owner[t.peer[q]]}
  }

  ghost predicate Inv(t: Topology, net: Net)
    requires Wired(t)
  {
    && |net.queues| == |t.owner| == |net.associated|
    && FlightsOk(t, net) && DispatchedOk(t, net) && RootsOk(net)
    && SuppressedOk(t, net) && AssociatedOk(t, net)
  }

  /** A copy that is ready to be dispatched at a node for the first time. */
  ghost predicate Ready(t: Topology, net: Net, node: NodeId, arrival: int, c: Copy)
    requires Wired(t) && |net.queues| == |t.owner|
  {
    && c.uid < |net.published|
    && Simple(t, Source(net, c.uid), c.route) && End(t, Source(net, c.uid), c.route) == node
    && c.packet.meta.path == Senders(t, Source(net, c.uid), c.route)
    && SamePayload(c.packet, net.published[c.uid].packet)
    && HasParent(net, EventOf(c))
    && EventOf(c) !in net.dispatched && EventOf(c) !in net.suppressed
    && (forall q, i | 0 <= q < |net.queues| && 0 <= i < |net.queues[q]| :: EventOf(net.queues[q][i]) != EventOf(c))
    && arrival == if c.route == [] then -1 else t.peer[c.route[|c.route| - 1]]
  }

  // ---- one dispatch -------------------------------------------------------

  /** The event of a copy just sent is new: its parent was not dispatched before. */
  lemma ForwardedEventIsNew(t: Topology, net: Net, e: Event, f: Event)
    requires Wired(t) && DispatchedOk(t, net) && SuppressedOk(t, net)
    requires e !in net.dispatched && f.uid == e.uid && f.route != [] && f.route[..|f.route| - 1] == e.route
    ensures f !in net.dispatched && f !in net.suppressed && f != e
  {
    assert f in net.dispatched ==> HasParent(net, f);
    assert f in net.suppressed ==> HasParent(net, f);
    assert |f.route| == |e.route| + 1;
  }

  /** A copy just sent carries on what its parent was. */
  lemma ForwardedFlightOk(t: Topology, net: Net, node: NodeId, arrival: int, c: Copy, q: Port, net': Net, c': Copy)
    requires Wired(t) && |net.queues| == |t.owner| && Ready(t, net, node, arrival, c)
    requires DispatchedOk(t, net) && SuppressedOk(t, net)
    requires q < |t.owner| && t.owner[t.peer[q]] == node
    requires net'.published == net.published && net'.suppressed == net.suppressed
    requires net'.dispatched == net.dispatched + [EventOf(c)]
    requires c' == Copy(Stamped(c.packet, node), c.uid, c.route + [t.peer[q]])
    ensures FlightOk(t, net', q, c')
  {
    WalkExtend(t, Source(net, c.uid), c.route, t.peer[q]);
    assert c'.route[..|c'.route| - 1] == c.route;
    ForwardedEventIsNew(t, net, EventOf(c), EventOf(c'));
    assert net'.dispatched[|net.dispatched|] == EventOf(c);
  }

  /** Copies already in flight are not affected by a dispatch of another event. */
  lemma OtherFlightOk(t: Topology, net: Net, e: Event, q: Port, c: Copy, net': Net)
    requires Wired(t) && q < |t.owner| && FlightOk(t, net, q, c) && EventOf(c) != e
    requires net'.published == net.published && net'.suppressed == net.suppressed
    requires net'.dispatched == net.dispatched + [e]
    ensures FlightOk(t, net', q, c)
  {
    assert Event(c.uid, c.route[..|c.route| - 1]) in net'.dispatched;
  }

  lemma DispatchKeepsFlights(t: Topology, net: Net, node: NodeId, arrival: int, c: Copy)
    requires Wired(t) && |net.queues| == |t.owner| && Ready(t, net, node, arrival, c)
    requires FlightsOk(t, net) && DispatchedOk(t, net) && SuppressedOk(t, net)
    ensures FlightsOk(t, Dispatch(t, net, node, arrival, c))
  {
    hide FlightOk, PassesOn, Simple;
    var net' := Dispatch(t, net, node, arrival, c);
    forall q, i | 0 <= q < |net'.queues| && 0 <= i < |net'.queues[q]|
      ensures FlightOk(t, net', q, net'.queues[q][i])
      ensures i == |net.queues[q]| ==>
                net'.queues[q][i].uid == c.uid && net'.queues[q][i].route == c.route + [t.peer[q]]
    {
      if i < |net.queues[q]| {
        assert net'.queues[q][i] == net.queues[q][i];
        OtherFlightOk(t, net, EventOf(c), q, net.queues[q][i], net');
      } else {
        PassedOnByOwner(t, net, node, arrival, t.peer[q], c.packet);
        ForwardedFlightOk(t, net, node, arrival, c, q, net', net'.queues[q][i]);
      }
    }
    forall q, i, j | 0 <= q < |net'.queues| && 0 <= i < j < |net'.queues[q]|
      ensures EventOf(net'.queues[q][i]) != EventOf(net'.queues[q][j])
    {
      if j == |net.queues[q]| {
        OlderIsDifferent(t, net, q, net.queues[q][i], EventOf(c), net'.queues[q][j]);
      }
    }
  }

  lemma PassedOnByOwner(t: Topology, net: Net, node: NodeId, arrival: int, p: Port, packet: Packet)
    requires p < |t.owner| == |t.allowInternal| && PassesOn(t, net, node, arrival, p, packet)
    ensures t.owner[p] == node && p != arrival
  {}

  lemma OlderIsDifferent(t: Topology, net: Net, q: Port, before: Copy, e: Event, after: Copy)
    requires Wired(t) && q < |t.owner| && FlightOk(t, net, q, before) && e !in net.dispatched
    requires after.uid == e.uid && after.route == e.route + [t.peer[q]]
    ensures EventOf(before) != EventOf(after)
  {
    assert after.route[..|after.route| - 1] == e.route;
  }

  lemma DispatchKeepsLogs(t: Topology, net: Net, node: NodeId, arrival: int, c: Copy)
    requires Wired(t) && |net.queues| == |t.owner| && Ready(t, net, node, arrival, c)
    requires DispatchedOk(t, net) && SuppressedOk(t, net)
    ensures DispatchedOk(t, Dispatch(t, net, node, arrival, c))
    ensures SuppressedOk(t, Dispatch(t, net, node, arrival, c))
  {
    hide PassesOn, Simple;
    var net' := Dispatch(t, net, node, arrival, c);
    forall e | e in net'.dispatched
      ensures e.uid < |net'.published| && Simple(t, Source(net', e.uid), e.route) && HasParent(net', e)
    {
      assert e in net.dispatched || e == EventOf(c);
      assert HasParent(net, e);
    }
    forall e | e in net'.suppressed ensures HasParent(net', e) {
      assert HasParent(net, e);
    }
  }

  // ---- the steps ----------------------------------------------------------

  lemma InitInv(t: Topology)
    requires Wired(t)
    ensures Inv(t, Init(t))
  {}

  /** A fresh publish call belongs to no event so far. */
  lemma FreshIsReady(t: Topology, net: Net, p: Published)
    requires Wired(t) && Inv(t, net) && p.packet.meta.path == []
    ensures var logged := net.(published := net.published + [p]);
            Ready(t, logged, p.node, -1, Copy(p.packet, |net.published|, []))
  {
    hide FlightsOk, DispatchedOk, SuppressedOk, RootsOk, AssociatedOk;
    assert Senders(t, p.node, []) == [];
    EventsKnown(t, net);
  }

  lemma EventsKnown(t: Topology, net: Net)
    requires Wired(t) && Inv(t, net)
    ensures forall e | e in net.dispatched || e in net.suppressed :: e.uid < |net.published|
    ensures forall q, i | 0 <= q < |net.queues| && 0 <= i < |net.queues[q]| ::
              net.queues[q][i].uid < |net.published|
  {
    hide Simple;
    forall q, i | 0 <= q < |net.queues| && 0 <= i < |net.queues[q]|
      ensures net.queues[q][i].uid < |net.published|
    {
      assert FlightOk(t, net, q, net.queues[q][i]);
    }
  }

  lemma PublishKeeps(t: Topology, net: Net, node: NodeId, packet: Packet)
    requires Wired(t) && Inv(t, net)
    ensures Inv(t, Next(t, net, Publish(node, packet)))
  {
    hide FlightsOk, DispatchedOk, SuppressedOk, Ready, PassesOn;
    if packet.meta.path == [] && packet.meta.topic != ANY {
      var logged := net.(published := net.published + [Published(node, packet, net.interests)]);
      var c := Copy(packet, |net.published|, []);
      LoggingKeeps(t, net, Published(node, packet, net.interests));
      FreshIsReady(t, net, Published(node, packet, net.interests));
      DispatchKeepsFlights(t, logged, node, -1, c);
      DispatchKeepsLogs(t, logged, node, -1, c);
      var net' := Dispatch(t, logged, node, -1, c);
      assert net'.dispatched[|net.dispatched|] == Event(|net.published|, []);
    }
  }

  lemma LoggingKeeps(t: Topology, net: Net, p: Published)
    requires Wired(t) && Inv(t, net)
    ensures var logged := net.(published := net.published + [p]);
            FlightsOk(t, logged) && DispatchedOk(t, logged) && SuppressedOk(t, logged)
  {
    var logged := net.(published := net.published + [p]);
    forall q, i | 0 <= q < |net.queues| && 0 <= i < |net.queues[q]|
      ensures FlightOk(t, logged, q, net.queues[q][i])
    {
      assert FlightOk(t, net, q, net.queues[q][i]);
    }
    forall e | e in net.dispatched || e in net.suppressed ensures HasParent(logged, e) {
      assert HasParent(net, e);
    }
  }

  /** What holds of a copy depends on the logs only. */
  lemma FlightFrame(t: Topology, net: Net, net': Net, q: Port, c: Copy)
    requires Wired(t) && q < |t.owner| && FlightOk(t, net, q, c)
    requires net'.published == net.published && net'.dispatched == net.dispatched
    requires forall e | e in net'.suppressed :: e in net.suppressed || e != EventOf(c)
    ensures FlightOk(t, net', q, c)
  {}

  lemma DifferentQueues(t: Topology, net: Net, p: Port, c: Copy, q: Port, d: Copy)
    requires Wired(t) && p < |t.owner| && FlightOk(t, net, p, c)
    requires q < |t.owner| && FlightOk(t, net, q, d) && p != q
    ensures EventOf(c) != EventOf(d)
  {
    assert t.peer[t.peer[p]] == p && t.peer[t.peer[q]] == q;
  }

  /** Popping a copy leaves the others as they were, and its event in none of them. */
  lemma PopKeeps(t: Topology, net: Net, q: Port)
    requires Wired(t) && Inv(t, net) && q < |net.queues| && net.queues[q] != []
    ensures var popped := net.(queues := net.queues[q := net.queues[q][1..]]);
            && FlightsOk(t, popped)
            && forall p, i | 0 <= p < |popped.queues| && 0 <= i < |popped.queues[p]| ::
                 EventOf(popped.queues[p][i]) != EventOf(net.queues[q][0])
  {
    hide FlightOk, DispatchedOk, SuppressedOk, AssociatedOk, RootsOk;
    var popped := net.(queues := net.queues[q := net.queues[q][1..]]);
    assert FlightOk(t, net, q, net.queues[q][0]);
    forall p, i | 0 <= p < |popped.queues| && 0 <= i < |popped.queues[p]|
      ensures FlightOk(t, popped, p, popped.queues[p][i])
      ensures EventOf(popped.queues[p][i]) != EventOf(net.queues[q][0])
    {
      var k := if p == q then i + 1 else i;
      assert popped.queues[p][i] == net.queues[p][k];
      FlightFrame(t, net, popped, p, net.queues[p][k]);
      if p != q {
        DifferentQueues(t, net, p, net.queues[p][k], q, net.queues[q][0]);
      }
    }
    forall p, i, j | 0 <= p < |popped.queues| && 0 <= i < j < |popped.queues[p]|
      ensures EventOf(popped.queues[p][i]) != EventOf(popped.queues[p][j])
    {
      if p == q {
        assert popped.queues[p][i] == net.queues[p][i + 1] && popped.queues[p][j] == net.queues[p][j + 1];
      }
    }
  }

  /** The suppression test finds the receiver in the path exactly when the route
      comes back to a node it has visited. */
  lemma SuppressedIffRevisits(t: Topology, net: Net, q: Port, c: Copy)
    requires Wired(t) && q < |t.owner| && FlightOk(t, net, q, c)
    ensures Suppressed(t.owner[q], c.packet) <==> !Simple(t, Source(net, c.uid), c.route)
  {
    assert c.packet.meta.id == c.packet.meta.path[|c.packet.meta.path| - 1];
  }

  lemma ReceiveKeeps(t: Topology, net: Net, q: Port)
    requires Wired(t) && Inv(t, net)
    ensures Inv(t, Next(t, net, Receive(q)))
  {
    hide FlightsOk, DispatchedOk, SuppressedOk, Ready, PassesOn, Suppressed;
    if q < |net.queues| && net.queues[q] != [] {
      var c := net.queues[q][0];
      var popped := net.(queues := net.queues[q := net.queues[q][1..]]);
      PopKeeps(t, net, q);
      HeadOk(t, net, q);
      if Suppressed(t.owner[q], c.packet) {
        SuppressKeeps(t, net, popped, q, c);
      } else {
        var heard := Heard(net, q, t.owner[q]);
        ReceivedIsReady(t, net, q, heard);
        SameLogs(t, net, heard);
        DispatchKeepsFlights(t, heard, t.owner[q], q, c);
        DispatchKeepsLogs(t, heard, t.owner[q], q, c);
      }
    }
  }

  lemma HeadOk(t: Topology, net: Net, q: Port)
    requires Wired(t) && Inv(t, net) && q < |net.queues| && net.queues[q] != []
    ensures FlightOk(t, net, q, net.queues[q][0])
  {}

  lemma SameLogs(t: Topology, net: Net, net': Net)
    requires Wired(t) && Inv(t, net) && |net'.queues| == |t.owner|
    requires net'.published == net.published && net'.dispatched == net.dispatched
    requires net'.suppressed == net.suppressed
    ensures DispatchedOk(t, net') && SuppressedOk(t, net') && RootsOk(net')
  {
    forall e | e in net.dispatched || e in net.suppressed ensures HasParent(net', e) {
      assert HasParent(net, e);
    }
  }

  lemma ReceivedIsReady(t: Topology, net: Net, q: Port, heard: Net)
    requires Wired(t) && Inv(t, net) && q < |net.queues| && net.queues[q] != []
    requires !Suppressed(t.owner[q], net.queues[q][0].packet)
    requires heard.queues == net.queues[q := net.queues[q][1..]] && heard.published == net.published
    requires heard.dispatched == net.dispatched && heard.suppressed == net.suppressed
    ensures Ready(t, heard, t.owner[q], q, net.queues[q][0]) && FlightsOk(t, heard)
  {
    hide Simple, Suppressed;
    PopKeeps(t, net, q);
    HeadOk(t, net, q);
    SuppressedIffRevisits(t, net, q, net.queues[q][0]);
    var popped := net.(queues := net.queues[q := net.queues[q][1..]]);
    forall p, i | 0 <= p < |heard.queues| && 0 <= i < |heard.queues[p]|
      ensures FlightOk(t, heard, p, heard.queues[p][i])
    {
      assert FlightOk(t, popped, p, popped.queues[p][i]);
    }
  }

  lemma SuppressKeeps(t: Topology, net: Net, popped: Net, q: Port, c: Copy)
    requires Wired(t) && Inv(t, net) && q < |net.queues| && net.queues[q] != [] && c == net.queues[q][0]
    requires popped == net.(queues := net.queues[q := net.queues[q][1..]])
    requires Suppressed(t.owner[q], c.packet)
    ensures Inv(t, popped.(suppressed := net.suppressed + [EventOf(c)]))
  {
    hide Simple, Suppressed, FlightOk, DispatchedOk, AssociatedOk;
    var net' := popped.(suppressed := net.suppressed + [EventOf(c)]);
    PopKeeps(t, net, q);
    HeadOk(t, net, q);
    forall p, i | 0 <= p < |net'.queues| && 0 <= i < |net'.queues[p]|
      ensures FlightOk(t, net', p, net'.queues[p][i])
    {
      FlightFrame(t, popped, net', p, popped.queues[p][i]);
    }
    SameLogs(t, net, popped);
    SuppressedCopy(t, net, q, c);
    SuppressLogs(t, popped, EventOf(c));
    AssociatedFrame(t, net, net');
  }

  lemma AssociatedFrame(t: Topology, net: Net, net': Net)
    requires Wired(t) && |net.associated| == |t.owner| && AssociatedOk(t, net)
    requires net'.associated == net.associated
    ensures AssociatedOk(t, net')
  {}

  lemma SuppressedCopy(t: Topology, net: Net, q: Port, c: Copy)
    requires Wired(t) && q < |t.owner| && FlightOk(t, net, q, c) && Suppressed(t.owner[q], c.packet)
    ensures SuppressedEvent(t, net, EventOf(c))
  {
    SuppressedIffRevisits(t, net, q, c);
  }

  lemma SuppressLogs(t: Topology, net: Net, e: Event)
    requires Wired(t) && DispatchedOk(t, net) && SuppressedOk(t, net) && SuppressedEvent(t, net, e)
    ensures var net' := net.(suppressed := net.suppressed + [e]);
            DispatchedOk(t, net') && SuppressedOk(t, net')
  {
    hide Simple, Walk;
    var net' := net.(suppressed := net.suppressed + [e]);
    forall f | f in net'.dispatched || f in net'.suppressed ensures HasParent(net', f) {
      assert f == e || HasParent(net, f);
    }
  }

  lemma ConflateKeeps(t: Topology, net: Net, q: Port, i: nat)
    requires Wired(t) && Inv(t, net)
    ensures Inv(t, Next(t, net, Conflate(q, i)))
  {
    hide FlightOk, DispatchedOk, SuppressedOk;
    if q < |net.queues| && i < |net.queues[q]| && net.queues[q][i].packet.meta.droppable {
      var net' := Next(t, net, Conflate(q, i));
      SameLogs(t, net, net');
      forall p, k | 0 <= p < |net'.queues| && 0 <= k < |net'.queues[p]|
        ensures net'.queues[p][k] == net.queues[p][Shifted(p == q, i, k)]
        ensures FlightOk(t, net', p, net'.queues[p][k])
      {
        assert FlightOk(t, net, p, net.queues[p][Shifted(p == q, i, k)]);
        FlightFrame(t, net, net', p, net.queues[p][Shifted(p == q, i, k)]);
      }
      forall p, k, l | 0 <= p < |net'.queues| && 0 <= k < l < |net'.queues[p]|
        ensures EventOf(net'.queues[p][k]) != EventOf(net'.queues[p][l])
      {
        assert net'.queues[p][k] == net.queues[p][Shifted(p == q, i, k)];
        assert net'.queues[p][l] == net.queues[p][Shifted(p == q, i, l)];
      }
    }
  }

  /** Where the k-th element was before the i-th was taken out. */
  function Shifted(out: bool, i: nat, k: nat): nat { if out && k >= i then k + 1 else k }

  lemma InvShape(t: Topology, net: Net)
    requires Wired(t) && Inv(t, net)
    ensures |net.queues| == |t.owner| == |net.associated|
  {}

  lemma StepKeeps(t: Topology, net: Net, step: Step)
    requires Wired(t) && Inv(t, net)
    ensures Inv(t, Next(t, net, step))
  {
    hide Inv, Next;
    match step
    case Publish(node, packet) => PublishKeeps(t, net, node, packet);
    case Receive(q) => ReceiveKeeps(t, net, q);
    case Conflate(q, i) => ConflateKeeps(t, net, q, i);
  }

  /** Every run, on every topology, keeps the invariant. */
  lemma {:induction false} RunInv(t: Topology, steps: seq<Step>)
    requires Wired(t)
    ensures Inv(t, Run(t, steps))
  {
    hide Inv, Next;
    if steps == [] {
      InitInv(t);
    } else {
      RunInv(t, steps[..|steps| - 1]);
      StepKeeps(t, Run(t, steps[..|steps| - 1]), steps[|steps| - 1]);
    }
  }
}
