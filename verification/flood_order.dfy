// Order: what one node publishes is dispatched in the order of publishing wherever it
// arrives by one route.

module FloodOrder {
  import opened Packets
  import opened RemoteNodes
  import opened Topologies
  import opened Flood
  import opened FloodSafety
  import opened FloodTheorems

  /** If both stem from one node and came by one route, e was published first. */
  ghost predicate Precedes(net: Net, e: Event, f: Event) {
    (e.uid < |net.published| && f.uid < |net.published| && Source(net, e.uid) == Source(net, f.uid)
      && e.route == f.route)
    ==> e.uid < f.uid
  }

  ghost predicate LogOrdered(net: Net) {
    forall i, j | 0 <= i < j < |net.dispatched| :: Precedes(net, net.dispatched[i], net.dispatched[j])
  }

  ghost predicate QueuesOrdered(net: Net) {
    forall q, i, j | 0 <= q < |net.queues| && 0 <= i < j < |net.queues[q]| ::
      Precedes(net, EventOf(net.queues[q][i]), EventOf(net.queues[q][j]))
  }

  /** What is in flight was published after what has been dispatched. */
  ghost predicate FlightsAfterLog(net: Net) {
    forall e, q, i | e in net.dispatched && 0 <= q < |net.queues| && 0 <= i < |net.queues[q]| ::
      Precedes(net, e, EventOf(net.queues[q][i]))
  }

  ghost predicate Ordered(net: Net) {
    LogOrdered(net) && QueuesOrdered(net) && FlightsAfterLog(net)
  }

  /** The next event comes after all that were dispatched and before all in flight. */
  ghost predicate IsNext(net: Net, e: Event) {
    && (forall d | d in net.dispatched :: Precedes(net, d, e))
    && (forall q, i | 0 <= q < |net.queues| && 0 <= i < |net.queues[q]| ::
          Precedes(net, e, EventOf(net.queues[q][i])))
  }

  // ---- one dispatch -------------------------------------------------------

  /** A copy passed on comes after every event with its route: their parents were
      dispatched before its own. */
  lemma PassedOnIsLast(net: Net, e: Event, d: Event, f: Event)
    requires f.uid == e.uid && f.route != [] && f.route[..|f.route| - 1] == e.route
    requires forall c | c in net.dispatched :: Precedes(net, c, e)
    requires HasParent(net, d)
    ensures Precedes(net, d, f)
  {
    if d.route == f.route {
      assert Event(d.uid, e.route) in net.dispatched;
      assert Precedes(net, Event(d.uid, e.route), e);
    }
  }

  lemma DispatchOrders(t: Topology, net: Net, node: NodeId, arrival: int, c: Copy)
    requires Wired(t) && |net.queues| == |t.owner| && Ready(t, net, node, arrival, c)
    requires FlightsOk(t, net) && DispatchedOk(t, net) && Ordered(net) && IsNext(net, EventOf(c))
    ensures Ordered(Dispatch(t, net, node, arrival, c))
  {
    hide PassesOn, Precedes, Simple, Walk;
    var net', e := Dispatch(t, net, node, arrival, c), EventOf(c);
    forall i, j | 0 <= i < j < |net'.dispatched|
      ensures Precedes(net', net'.dispatched[i], net'.dispatched[j])
    {
      SamePrecedes(net, net', net'.dispatched[i], net'.dispatched[j]);
    }
    forall q, i | 0 <= q < |net'.queues| && 0 <= i < |net'.queues[q]|
      ensures forall d | d in net'.dispatched :: Precedes(net', d, EventOf(net'.queues[q][i]))
      ensures forall j | 0 <= j < i :: Precedes(net', EventOf(net'.queues[q][j]), EventOf(net'.queues[q][i]))
    {
      var f := EventOf(net'.queues[q][i]);
      if i == |net.queues[q]| {
        assert f == Event(c.uid, c.route + [t.peer[q]]) && f.route[..|f.route| - 1] == c.route;
        NewIsLast(t, net, e, f, q);
        LongerRoute(net, e, f);
      }
      forall d | d in net'.dispatched ensures Precedes(net', d, f) {
        assert d in net.dispatched || d == e;
        SamePrecedes(net, net', d, f);
      }
      forall j | 0 <= j < i ensures Precedes(net', EventOf(net'.queues[q][j]), f) {
        assert net'.queues[q][j] == net.queues[q][j];
        SamePrecedes(net, net', EventOf(net.queues[q][j]), f);
      }
    }
  }

  lemma SamePrecedes(net: Net, net': Net, d: Event, f: Event)
    requires net'.published == net.published
    ensures Precedes(net', d, f) == Precedes(net, d, f)
  {}

  lemma LongerRoute(net: Net, e: Event, f: Event)
    requires |f.route| != |e.route|
    ensures Precedes(net, e, f)
  {}

  lemma NewIsLast(t: Topology, net: Net, e: Event, f: Event, q: Port)
    requires Wired(t) && |net.queues| == |t.owner| && q < |t.owner|
    requires FlightsOk(t, net) && DispatchedOk(t, net)
    requires f.uid == e.uid && f.route != [] && f.route[..|f.route| - 1] == e.route
    requires forall c | c in net.dispatched :: Precedes(net, c, e)
    ensures forall d | d in net.dispatched :: Precedes(net, d, f)
    ensures forall i | 0 <= i < |net.queues[q]| :: Precedes(net, EventOf(net.queues[q][i]), f)
  {
    hide Precedes, Simple, Walk;
    forall d | d in net.dispatched ensures Precedes(net, d, f) {
      PassedOnIsLast(net, e, d, f);
    }
    forall i | 0 <= i < |net.queues[q]| ensures Precedes(net, EventOf(net.queues[q][i]), f) {
      assert FlightOk(t, net, q, net.queues[q][i]);
      PassedOnIsLast(net, e, EventOf(net.queues[q][i]), f);
    }
  }

  // ---- the steps ----------------------------------------------------------

  /** Taking a copy out of a queue. */
  lemma CutOrdered(net: Net, net': Net, q: Port, k: nat)
    requires Ordered(net) && q < |net.queues| && k < |net.queues[q]|
    requires net'.queues == net.queues[q := net.queues[q][..k] + net.queues[q][k + 1..]]
    requires net'.published == net.published && net'.dispatched == net.dispatched
    ensures Ordered(net')
  {
    hide Precedes;
    forall i, j | 0 <= i < j < |net'.dispatched|
      ensures Precedes(net', net'.dispatched[i], net'.dispatched[j])
    {
      SamePrecedes(net, net', net'.dispatched[i], net'.dispatched[j]);
    }
    forall p, i | 0 <= p < |net'.queues| && 0 <= i < |net'.queues[p]|
      ensures net'.queues[p][i] == net.queues[p][Shifted(p == q, k, i)]
      ensures forall d | d in net'.dispatched :: Precedes(net', d, EventOf(net'.queues[p][i]))
      ensures forall j | 0 <= j < i :: Precedes(net', EventOf(net'.queues[p][j]), EventOf(net'.queues[p][i]))
    {
      forall d | d in net'.dispatched ensures Precedes(net', d, EventOf(net'.queues[p][i])) {
        SamePrecedes(net, net', d, EventOf(net'.queues[p][i]));
      }
      forall j | 0 <= j < i ensures Precedes(net', EventOf(net'.queues[p][j]), EventOf(net'.queues[p][i])) {
        assert net'.queues[p][j] == net.queues[p][Shifted(p == q, k, j)];
        SamePrecedes(net, net', EventOf(net'.queues[p][j]), EventOf(net'.queues[p][i]));
      }
    }
  }

  /** The first copy of a queue comes next. */
  lemma HeadIsNext(t: Topology, net: Net, q: Port, heard: Net)
    requires Wired(t) && Inv(t, net) && Ordered(net) && q < |net.queues| && net.queues[q] != []
    requires heard.queues == net.queues[q := net.queues[q][1..]]
    requires heard.published == net.published && heard.dispatched == net.dispatched
    ensures IsNext(heard, EventOf(net.queues[q][0]))
  {
    hide Precedes, Simple, DispatchedOk, SuppressedOk, RootsOk, AssociatedOk, FlightOk;
    var e := EventOf(net.queues[q][0]);
    forall d | d in heard.dispatched ensures Precedes(heard, d, e) {
      SamePrecedes(net, heard, d, e);
    }
    forall p, i | 0 <= p < |heard.queues| && 0 <= i < |heard.queues[p]|
      ensures Precedes(heard, e, EventOf(heard.queues[p][i]))
    {
      if p == q {
        assert heard.queues[p][i] == net.queues[p][i + 1];
        SamePrecedes(net, heard, e, EventOf(net.queues[p][i + 1]));
      } else {
        OtherQueue(t, net, q, net.queues[q][0], p, net.queues[p][i]);
        SamePrecedes(net, heard, e, EventOf(net.queues[p][i]));
      }
    }
  }

  lemma OtherQueue(t: Topology, net: Net, q: Port, c: Copy, p: Port, d: Copy)
    requires Wired(t) && p < |t.owner| && q < |t.owner| && p != q
    requires FlightOk(t, net, q, c) && FlightOk(t, net, p, d)
    ensures Precedes(net, EventOf(c), EventOf(d))
  {
    assert t.peer[t.peer[p]] == p && t.peer[t.peer[q]] == q;
  }

  lemma PublishOrders(t: Topology, net: Net, node: NodeId, packet: Packet)
    requires Wired(t) && Inv(t, net) && Ordered(net)
    ensures Ordered(Next(t, net, Publish(node, packet)))
  {
    hide PassesOn, FlightsOk, DispatchedOk, SuppressedOk, Ready, Ordered;
    if packet.meta.path == [] && packet.meta.topic != ANY {
      var p := Published(node, packet, net.interests);
      var logged := net.(published := net.published + [p]);
      FreshIsReady(t, net, p);
      LoggingKeeps(t, net, p);
      LoggingOrders(t, net, p);
      DispatchOrders(t, logged, node, -1, Copy(packet, |net.published|, []));
    }
  }

  lemma LoggingOrders(t: Topology, net: Net, p: Published)
    requires Wired(t) && Inv(t, net) && Ordered(net)
    ensures var logged := net.(published := net.published + [p]);
            Ordered(logged) && IsNext(logged, Event(|net.published|, []))
  {
    hide Precedes, FlightsOk, DispatchedOk, SuppressedOk, RootsOk, AssociatedOk;
    var logged := net.(published := net.published + [p]);
    EventsKnown(t, net);
    forall d: Event, f: Event | d.uid < |net.published| && f.uid < |net.published|
      ensures Precedes(logged, d, f) == Precedes(net, d, f)
    {
      StillPrecedes(net, logged, d, f);
    }
    forall d | d in net.dispatched ensures Precedes(logged, d, Event(|net.published|, [])) {
      EarlierPrecedes(logged, d, Event(|net.published|, []));
    }
    forall q, i | 0 <= q < |net.queues| && 0 <= i < |net.queues[q]|
      ensures Precedes(logged, Event(|net.published|, []), EventOf(net.queues[q][i]))
    {
      FlightHasRoute(t, net, q, i);
      LongerRoute(logged, Event(|net.published|, []), EventOf(net.queues[q][i]));
    }
    forall i, j | 0 <= i < j < |logged.dispatched|
      ensures Precedes(logged, logged.dispatched[i], logged.dispatched[j])
    {
      assert Precedes(net, net.dispatched[i], net.dispatched[j]);
    }
  }

  lemma StillPrecedes(net: Net, net': Net, d: Event, f: Event)
    requires net.published <= net'.published && d.uid < |net.published| && f.uid < |net.published|
    ensures Precedes(net', d, f) == Precedes(net, d, f)
  {}

  lemma EarlierPrecedes(net: Net, d: Event, f: Event)
    requires d.uid < f.uid
    ensures Precedes(net, d, f)
  {}

  lemma FlightHasRoute(t: Topology, net: Net, q: Port, i: nat)
    requires Wired(t) && Inv(t, net) && q < |net.queues| && i < |net.queues[q]|
    ensures net.queues[q][i].route != []
  {
    assert FlightOk(t, net, q, net.queues[q][i]);
  }

  lemma ReceiveOrders(t: Topology, net: Net, q: Port)
    requires Wired(t) && Inv(t, net) && Ordered(net)
    ensures Ordered(Next(t, net, Receive(q)))
  {
    hide PassesOn, Suppressed, FlightsOk, DispatchedOk, SuppressedOk, Ready, Ordered, IsNext;
    if q < |net.queues| && net.queues[q] != [] {
      var c := net.queues[q][0];
      assert net.queues[q][..0] + net.queues[q][0 + 1..] == net.queues[q][1..];
      if Suppressed(t.owner[q], c.packet) {
        CutOrdered(net, Next(t, net, Receive(q)), q, 0);
      } else {
        var heard := Heard(net, q, t.owner[q]);
        ReceivedIsReady(t, net, q, heard);
        SameLogs(t, net, heard);
        CutOrdered(net, heard, q, 0);
        HeadIsNext(t, net, q, heard);
        DispatchOrders(t, heard, t.owner[q], q, c);
      }
    }
  }

  /** Every run, on every topology, keeps the order. */
  lemma {:induction false} RunOrders(t: Topology, steps: seq<Step>)
    requires Wired(t)
    ensures Ordered(Run(t, steps))
  {
    hide Inv, Next, Ordered;
    if steps == [] {
      InitOrdered(t);
    } else {
      var net := Run(t, steps[..|steps| - 1]);
      RunInv(t, steps[..|steps| - 1]);
      RunOrders(t, steps[..|steps| - 1]);
      match steps[|steps| - 1]
      case Publish(node, packet) => PublishOrders(t, net, node, packet);
      case Receive(q) => ReceiveOrders(t, net, q);
      case Conflate(q, i) => ConflateOrders(t, net, q, i);
    }
  }

  lemma InitOrdered(t: Topology)
    ensures Ordered(Init(t))
  {}

  lemma ConflateOrders(t: Topology, net: Net, q: Port, i: nat)
    requires Wired(t) && Inv(t, net) && Ordered(net)
    ensures Ordered(Next(t, net, Conflate(q, i)))
  {
    hide Ordered, FlightsOk, DispatchedOk, SuppressedOk;
    if q < |net.queues| && i < |net.queues[q]| && net.queues[q][i].packet.meta.droppable {
      CutOrdered(net, Next(t, net, Conflate(q, i)), q, i);
    }
  }

  // ---- what it means ------------------------------------------------------

  /** On any mesh, what a node dispatches of one publisher by one route, it dispatches in
      the order of publishing, through any filtering and conflation. */
  lemma InOrderByRoute(t: Topology, steps: seq<Step>, i: nat, j: nat)
    requires Wired(t) && i < j < |Run(t, steps).dispatched|
    ensures var net := Run(t, steps);
            var e, f := net.dispatched[i], net.dispatched[j];
            && e.uid < |net.published| && f.uid < |net.published|
            && (Source(net, e.uid) == Source(net, f.uid) && e.route == f.route ==> e.uid < f.uid)
  {
    hide Inv, Run;
    RunOrders(t, steps);
    DispatchedBySimpleRoutes(t, steps);
    assert Precedes(Run(t, steps), Run(t, steps).dispatched[i], Run(t, steps).dispatched[j]);
    assert Run(t, steps).dispatched[i] in Run(t, steps).dispatched;
  }

  /** On an acyclic mesh every node dispatches all that one publisher publishes in the
      order of publishing. */
  lemma AcyclicInOrder(t: Topology, steps: seq<Step>, i: nat, j: nat)
    requires Wired(t) && Acyclic(t) && i < j < |Run(t, steps).dispatched|
    ensures Inv(t, Run(t, steps))
    ensures var net := Run(t, steps);
            && net.dispatched[i].uid < |net.published| && net.dispatched[j].uid < |net.published|
            && ((Source(net, net.dispatched[i].uid) == Source(net, net.dispatched[j].uid)
                 && NodeOf(t, net, i) == NodeOf(t, net, j))
                ==> net.dispatched[i].uid < net.dispatched[j].uid)
  {
    hide Run, Acyclic, Inv;
    var net := Run(t, steps);
    RunInv(t, steps);
    DispatchedBySimpleRoutes(t, steps);
    InOrderByRoute(t, steps, i, j);
    UniqueRoutesIffAcyclic(t);
    assert net.dispatched[i] in net.dispatched && net.dispatched[j] in net.dispatched;
  }
}
