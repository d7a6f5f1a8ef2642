// The flood, over every run on every topology.

module FloodTheorems {
  import opened Packets
  import opened Topologies
  import opened Flood
  import opened FloodSafety
  import opened FloodDelivery
  import opened FloodFilter

  /** The node at which the i-th dispatch took place. */
  ghost function NodeOf(t: Topology, net: Net, i: nat): NodeId
    requires Wired(t) && Inv(t, net) && i < |net.dispatched|
  {
    var e := net.dispatched[i];
    assert e in net.dispatched;
    End(t, Source(net, e.uid), e.route)
  }

  ghost predicate IsDispatchOf(t: Topology, net: Net, i: int, uid: nat, m: NodeId)
    requires Wired(t) && Inv(t, net)
  {
    0 <= i < |net.dispatched| && net.dispatched[i].uid == uid && NodeOf(t, net, i) == m
  }

  ghost predicate AtMostOnce(t: Topology, net: Net, uid: nat, m: NodeId)
    requires Wired(t) && Inv(t, net)
  {
    forall i, j | IsDispatchOf(t, net, i, uid, m) && IsDispatchOf(t, net, j, uid, m) :: i == j
  }

  ghost predicate AtLeastOnce(t: Topology, net: Net, uid: nat, m: NodeId)
    requires Wired(t) && Inv(t, net)
  {
    exists i :: IsDispatchOf(t, net, i, uid, m)
  }

  ghost predicate AtMostRoute(t: Topology, s: NodeId, m: NodeId)
    requires Wired(t)
  {
    forall r1, r2 | RouteTo(t, s, r1, m) && RouteTo(t, s, r2, m) :: r1 == r2
  }

  /** A packet that every port carried from the start and none conflates. */
  ghost predicate Flooding(t: Topology, net: Net, uid: nat)
    requires Wired(t)
  {
    uid < |net.published| && Lasting(net, uid) && forall p | 0 <= p < |t.owner| :: Open(t, net, uid, p)
  }

  /** No port carries the packet now that did not do so when it was published. */
  ghost predicate Settled(t: Topology, net: Net, uid: nat)
    requires Wired(t) && uid < |net.published|
  {
    forall p | Passable(t, net.interests, net.published[uid].packet, p) :: Open(t, net, uid, p)
  }

  ghost predicate AllowInternal(t: Topology) {
    forall p | 0 <= p < |t.allowInternal| :: t.allowInternal[p]
  }

  /** On an `allow_internal` mesh every internal packet floods. */
  lemma InternalFloods(t: Topology, net: Net, uid: nat)
    requires Wired(t) && AllowInternal(t) && uid < |net.published| && Lasting(net, uid)
    requires net.published[uid].packet.meta.topic == INTERNAL && !net.published[uid].packet.localOnly
    ensures Flooding(t, net, uid)
  {}

  /** And so does a packet on a topic that every node counts when it is published. */
  lemma SubscribedFloods(t: Topology, net: Net, uid: nat)
    requires Wired(t) && uid < |net.published| && Lasting(net, uid) && !net.published[uid].packet.localOnly
    requires forall p | 0 <= p < |t.owner| ::
        net.published[uid].packet.meta.topic in KeysOf(net.published[uid].known, t.owner[p])
    ensures Flooding(t, net, uid)
  {}

  ghost predicate RouteTo(t: Topology, s: NodeId, r: Route, m: NodeId)
    requires Wired(t)
  {
    Simple(t, s, r) && End(t, s, r) == m
  }

  // ---- every run ----------------------------------------------------------

  /** Every packet in flight has visited distinct nodes along real links, starting at
      its publisher, and its id is the node at the other end of the link; nothing but
      path and id has changed since it was published. */
  lemma PathsAreRoutes(t: Topology, steps: seq<Step>, q: Port, i: nat)
    requires Wired(t)
    requires q < |Run(t, steps).queues| && i < |Run(t, steps).queues[q]|
    ensures var net := Run(t, steps);
            var c := net.queues[q][i];
            var path := c.packet.meta.path;
            && c.uid < |net.published|
            && |path| > 0 && NoDuplicates(path) && path[0] == Source(net, c.uid)
            && path[|path| - 1] == c.packet.meta.id == t.owner[t.peer[q]]
            && (exists r ::
                  && Walk(t, path[0], r) && path == Senders(t, path[0], r)
                  && End(t, path[0], r) == t.owner[q])
            && SamePayload(c.packet, net.published[c.uid].packet)
  {
    var net := Run(t, steps);
    RunInv(t, steps);
    var c := net.queues[q][i];
    assert FlightOk(t, net, q, c);
    assert Walk(t, c.packet.meta.path[0], c.route);
    assert t.peer[t.peer[q]] == q;
  }

  /** A link has heard from nobody or from its direct peer only, so that losing it
      marks no other node dead. */
  lemma AssociatedWithPeerOnly(t: Topology, steps: seq<Step>, q: Port)
    requires Wired(t) && q < |t.owner|
    ensures Run(t, steps).associated[q] in {{}, {t.owner[t.peer[q]]}}
  {
    hide Run, FlightsOk, DispatchedOk, SuppressedOk, RootsOk;
    RunInv(t, steps);
    var heard := Run(t, steps).associated[q];
    assert heard <= {t.owner[t.peer[q]]};
    if heard != {} {
      assert heard == {t.owner[t.peer[q]]};
    }
  }

  /** No node dispatches a packet twice by the same route, and each route is simple and
      made of ports that carry the packet. */
  lemma DispatchedBySimpleRoutes(t: Topology, steps: seq<Step>)
    requires Wired(t)
    ensures var net := Run(t, steps);
            && NoDuplicates(net.dispatched)
            && forall e | e in net.dispatched ::
                 e.uid < |net.published| && Simple(t, Source(net, e.uid), e.route) && Carried(t, net, e)
  {
    RunInv(t, steps);
    RunCarries(t, steps);
  }

  /** Without cycles no node ever dispatches a packet twice, whatever its topic and
      whichever links the filter or conflation left out. */
  lemma AcyclicAtMostOnce(t: Topology, steps: seq<Step>, uid: nat, m: NodeId)
    requires Wired(t) && Acyclic(t)
    ensures Inv(t, Run(t, steps)) && AtMostOnce(t, Run(t, steps), uid, m)
  {
    var net := Run(t, steps);
    RunInv(t, steps);
    UniqueRoutesIffAcyclic(t);
    forall i, j | IsDispatchOf(t, net, i, uid, m) && IsDispatchOf(t, net, j, uid, m) ensures i == j {
      var e, f := net.dispatched[i], net.dispatched[j];
      assert e in net.dispatched && f in net.dispatched;
      assert e.route == f.route;
      assert e == f;
    }
  }

  // ---- quiescent runs -----------------------------------------------------

  /** Quiescence, any topic and any mix of links: a packet that is not droppable was
      dispatched by every simple route whose ports carried it from the start, and by
      none that is not simple or has a port that does not carry it yet. */
  lemma DeliveredAlongOpenRoutes(t: Topology, steps: seq<Step>, uid: nat, r: Route)
    requires Wired(t) && Quiescent(Run(t, steps))
    requires uid < |Run(t, steps).published| && Lasting(Run(t, steps), uid)
    ensures var net := Run(t, steps);
            && (Simple(t, Source(net, uid), r) && OpenRoute(t, net, uid, r) ==> Event(uid, r) in net.dispatched)
            && (Event(uid, r) in net.dispatched ==> Simple(t, Source(net, uid), r) && Carried(t, net, Event(uid, r)))
  {
    hide Simple, Inv, Carried, OpenRoute, Quiescent;
    var net := Run(t, steps);
    RunComplete(t, steps);
    if Simple(t, Source(net, uid), r) && OpenRoute(t, net, uid, r) {
      EveryOpenRouteDispatched(t, net, uid, r);
    }
    DispatchedBySimpleRoutes(t, steps);
  }

  /** The two agree when no port has begun to carry the packet in between. */
  lemma DispatchedIffCarried(t: Topology, steps: seq<Step>, uid: nat, r: Route)
    requires Wired(t) && Quiescent(Run(t, steps))
    requires uid < |Run(t, steps).published| && Lasting(Run(t, steps), uid) && Settled(t, Run(t, steps), uid)
    ensures Event(uid, r) in Run(t, steps).dispatched
       <==> Simple(t, Source(Run(t, steps), uid), r) && Carried(t, Run(t, steps), Event(uid, r))
  {
    hide Simple, Quiescent, Run;
    DeliveredAlongOpenRoutes(t, steps, uid, r);
    if Carried(t, Run(t, steps), Event(uid, r)) {
      assert OpenRoute(t, Run(t, steps), uid, r);
    }
  }

  /** A packet that floods was dispatched along a route exactly when the route is simple
      and starts at its publisher. */
  lemma DispatchedIffSimple(t: Topology, steps: seq<Step>, uid: nat, r: Route)
    requires Wired(t) && Quiescent(Run(t, steps)) && Flooding(t, Run(t, steps), uid)
    ensures Event(uid, r) in Run(t, steps).dispatched <==> Simple(t, Source(Run(t, steps), uid), r)
  {
    hide Simple, Quiescent, Run, Open;
    DeliveredAlongOpenRoutes(t, steps, uid, r);
    if Simple(t, Source(Run(t, steps), uid), r) {
      SimpleIsWalk(t, Source(Run(t, steps), uid), r);
      assert OpenRoute(t, Run(t, steps), uid, r);
    }
  }

  lemma DispatchOfRoute(t: Topology, net: Net, i: nat, uid: nat, m: NodeId)
    requires Wired(t) && Inv(t, net) && i < |net.dispatched| && uid < |net.published|
    ensures IsDispatchOf(t, net, i, uid, m)
       <==> net.dispatched[i].uid == uid && RouteTo(t, Source(net, uid), net.dispatched[i].route, m)
  {
    assert net.dispatched[i] in net.dispatched;
  }

  /** A node dispatches a packet that floods exactly once exactly when exactly one
      simple route leads to it from the publisher: one clause for each half. */
  lemma OnceIffOneRoute(t: Topology, steps: seq<Step>, uid: nat, m: NodeId)
    requires Wired(t) && Quiescent(Run(t, steps)) && Flooding(t, Run(t, steps), uid)
    ensures Inv(t, Run(t, steps))
    ensures var net, s := Run(t, steps), Source(Run(t, steps), uid);
            && (AtLeastOnce(t, net, uid, m) <==> exists r :: RouteTo(t, s, r, m))
            && (AtMostOnce(t, net, uid, m) <==> AtMostRoute(t, s, m))
  {
    hide Simple, Inv;
    var net := Run(t, steps);
    RunInv(t, steps);
    var s := Source(net, uid);
    forall r ensures Event(uid, r) in net.dispatched <==> Simple(t, s, r) {
      DispatchedIffSimple(t, steps, uid, r);
    }
    forall i | 0 <= i < |net.dispatched|
      ensures IsDispatchOf(t, net, i, uid, m)
         <==> net.dispatched[i].uid == uid && RouteTo(t, s, net.dispatched[i].route, m)
    {
      DispatchOfRoute(t, net, i, uid, m);
    }
    forall r | RouteTo(t, s, r, m)
      ensures exists i :: IsDispatchOf(t, net, i, uid, m) && net.dispatched[i] == Event(uid, r)
    {
      var i :| 0 <= i < |net.dispatched| && net.dispatched[i] == Event(uid, r);
    }
    DispatchedBySimpleRoutes(t, steps);
    forall i, j | AtMostRoute(t, s, m) && IsDispatchOf(t, net, i, uid, m) && IsDispatchOf(t, net, j, uid, m)
      ensures i == j
    {
      assert net.dispatched[i] == net.dispatched[j];
    }
  }

  /** On an acyclic mesh every node to which a walk leads from the publisher, through
      ports that carried the packet from the start, has dispatched it exactly once when
      the mesh is quiescent. */
  lemma AcyclicExactlyOnce(t: Topology, steps: seq<Step>, uid: nat, w: Route)
    requires Wired(t) && Acyclic(t) && Quiescent(Run(t, steps))
    requires uid < |Run(t, steps).published| && Lasting(Run(t, steps), uid)
    requires Walk(t, Source(Run(t, steps), uid), w) && OpenRoute(t, Run(t, steps), uid, w)
    ensures Inv(t, Run(t, steps))
    ensures var net := Run(t, steps);
            var m := End(t, Source(net, uid), w);
            AtLeastOnce(t, net, uid, m) && AtMostOnce(t, net, uid, m)
  {
    hide Simple, Walk, Quiescent, Inv, Open, Acyclic;
    var net := Run(t, steps);
    var s, m := Source(net, uid), End(t, Source(net, uid), w);
    AcyclicAtMostOnce(t, steps, uid, m);
    var r := WalkToSimple(t, s, w);
    assert OpenRoute(t, net, uid, r) by {
      forall i | 0 <= i < |r| ensures Open(t, net, uid, r[i]) {
        assert r[i] in w;
      }
    }
    DeliveredAlongOpenRoutes(t, steps, uid, r);
    var i :| 0 <= i < |net.dispatched| && net.dispatched[i] == Event(uid, r);
    DispatchOfRoute(t, net, i, uid, m);
    assert IsDispatchOf(t, net, i, uid, m);
  }

  /** An internal packet, on an acyclic mesh of `allow_internal` links, at every node
      that the publisher is connected to. */
  lemma InternalExactlyOnce(t: Topology, steps: seq<Step>, uid: nat, w: Route)
    requires Wired(t) && Acyclic(t) && AllowInternal(t) && Quiescent(Run(t, steps))
    requires uid < |Run(t, steps).published| && Lasting(Run(t, steps), uid)
    requires var p := Run(t, steps).published[uid].packet; p.meta.topic == INTERNAL && !p.localOnly
    requires Walk(t, Source(Run(t, steps), uid), w)
    ensures Inv(t, Run(t, steps))
    ensures var net := Run(t, steps);
            var m := End(t, Source(net, uid), w);
            AtLeastOnce(t, net, uid, m) && AtMostOnce(t, net, uid, m)
  {
    hide Inv, Quiescent, Run, Open, Acyclic;
    InternalFloods(t, Run(t, steps), uid);
    assert OpenRoute(t, Run(t, steps), uid, w);
    AcyclicExactlyOnce(t, steps, uid, w);
  }

  /** The node has published a packet that floods. */
  ghost predicate FloodsFrom(t: Topology, net: Net, n: NodeId)
    requires Wired(t)
  {
    exists uid: nat :: Flooding(t, net, uid) && Source(net, uid) == n
  }

  ghost predicate EveryoneFloods(t: Topology, net: Net)
    requires Wired(t)
  {
    forall p | 0 <= p < |t.owner| :: FloodsFrom(t, net, t.owner[p])
  }

  /** If every node has published a packet that floods, the quiescent mesh shows no
      double dispatch of any of them exactly when its links form no cycle. */
  lemma NoDuplicatesIffAcyclic(t: Topology, steps: seq<Step>)
    requires Wired(t) && Quiescent(Run(t, steps))
    requires EveryoneFloods(t, Run(t, steps))
    ensures Inv(t, Run(t, steps))
    ensures (forall uid: nat, m | Flooding(t, Run(t, steps), uid) :: AtMostOnce(t, Run(t, steps), uid, m))
       <==> Acyclic(t)
  {
    hide Inv, Open, Lasting, Acyclic, Quiescent, End, Walk, Senders;
    var net := Run(t, steps);
    RunInv(t, steps);
    UniqueRoutesIffAcyclic(t);
    if Acyclic(t) {
      forall uid: nat, m | Flooding(t, net, uid)
        ensures AtMostOnce(t, net, uid, m)
      {
        AcyclicAtMostOnce(t, steps, uid, m);
      }
    } else {
      var s, r1, r2 :| Simple(t, s, r1) && Simple(t, s, r2) && End(t, s, r1) == End(t, s, r2) && r1 != r2;
      var first := if r1 != [] then r1[0] else r2[0];
      SimpleIsWalk(t, s, r1);
      SimpleIsWalk(t, s, r2);
      assert t.owner[first] == s;
      assert FloodsFrom(t, net, t.owner[first]);
      var uid: nat :| Flooding(t, net, uid) && Source(net, uid) == s;
      var m := End(t, s, r1);
      assert RouteTo(t, s, r1, m) && RouteTo(t, s, r2, m);
      OnceIffOneRoute(t, steps, uid, m);
    }
  }
}
