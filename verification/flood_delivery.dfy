// Where a packet ends up: at quiescence it has been dispatched along every simple route
// from its publisher whose links all carry it.

module FloodDelivery {
  import opened Packets
  import opened RemoteNodes
  import opened Topologies
  import opened Flood
  import opened FloodSafety

  /** Port p carries the packet, given every node's interests: what remote_node::send
      tests, which is neither the path nor the id. */
  predicate Passable(t: Topology, interests: map<NodeId, set<Topic>>, packet: Packet, p: Port)
    requires |t.owner| == |t.allowInternal|
  {
    p < |t.owner| && Forwarded(t.owner[p], t.allowInternal[p], KeysOf(interests, t.owner[p]), packet).Some?
  }

  /** Port p carried the packet already when it was published. */
  predicate Open(t: Topology, net: Net, uid: nat, p: Port)
    requires |t.owner| == |t.allowInternal| && uid < |net.published|
  {
    Passable(t, net.published[uid].known, net.published[uid].packet, p)
  }

  predicate OpenRoute(t: Topology, net: Net, uid: nat, r: Route)
    requires |t.owner| == |t.allowInternal| && uid < |net.published|
  {
    forall i | 0 <= i < |r| :: Open(t, net, uid, r[i])
  }

  /** A packet that no link conflates. */
  predicate Lasting(net: Net, uid: nat)
    requires uid < |net.published|
  {
    !net.published[uid].packet.meta.droppable
  }

  /** Interests only grow. */
  ghost predicate Grown(net: Net) {
    forall uid, n: NodeId | 0 <= uid < |net.published| :: KeysOf(net.published[uid].known, n) <= Interests(net, n)
  }

  lemma StepGrows(t: Topology, net: Net, step: Step)
    requires |t.peer| == |t.owner| == |t.allowInternal| == |net.queues| == |net.associated|
    requires forall p | 0 <= p < |t.peer| :: t.peer[p] < |t.owner|
    requires Grown(net)
    ensures Grown(Next(t, net, step)) && net.published <= Next(t, net, step).published
    ensures forall n: NodeId :: Interests(net, n) <= Interests(Next(t, net, step), n)
  {
    hide PassesOn, Suppressed;
    match step
    case Publish(node, packet) =>
      var p := Published(node, packet, net.interests);
      LoggedGrown(net, p);
      if Next(t, net, step) != net {
        GrownFrame(net.(published := net.published + [p]), Next(t, net, step));
      }
    case Receive(_) => GrownFrame(net, Next(t, net, step));
    case Conflate(_, _) => GrownFrame(net, Next(t, net, step));
  }

  lemma LoggedGrown(net: Net, p: Published)
    requires Grown(net) && p.known == net.interests
    ensures Grown(net.(published := net.published + [p]))
  {
    var net' := net.(published := net.published + [p]);
    forall uid, n: NodeId | 0 <= uid < |net'.published|
      ensures KeysOf(net'.published[uid].known, n) <= Interests(net', n)
    {
      assert uid < |net.published| ==> KeysOf(net.published[uid].known, n) <= Interests(net, n);
    }
  }

  lemma GrownFrame(net: Net, net': Net)
    requires Grown(net) && net'.published == net.published
    requires forall n: NodeId :: Interests(net, n) <= Interests(net', n)
    ensures Grown(net')
  {
    forall uid, n: NodeId | 0 <= uid < |net'.published|
      ensures KeysOf(net'.published[uid].known, n) <= Interests(net', n)
    {
      assert KeysOf(net.published[uid].known, n) <= Interests(net, n);
    }
  }

  lemma {:induction false} RunGrows(t: Topology, steps: seq<Step>)
    requires Wired(t)
    ensures Grown(Run(t, steps))
  {
    hide Next, Grown;
    if steps == [] {
      InitGrown(t);
    } else {
      RunGrows(t, steps[..|steps| - 1]);
      StepGrows(t, Run(t, steps[..|steps| - 1]), steps[|steps| - 1]);
    }
  }

  lemma InitGrown(t: Topology)
    ensures Grown(Init(t))
  {}

  ghost predicate InFlight(t: Topology, net: Net, f: Event)
    requires Wired(t) && |net.queues| == |t.owner|
  {
    && f.route != [] && f.route[|f.route| - 1] < |t.owner|
    && var q := t.peer[f.route[|f.route| - 1]];
       exists i :: 0 <= i < |net.queues[q]| && EventOf(net.queues[q][i]) == f
  }

  /** The copy is on its way or has been dealt with. */
  ghost predicate Handed(t: Topology, net: Net, f: Event)
    requires Wired(t) && |net.queues| == |t.owner|
  {
    f in net.dispatched || f in net.suppressed || InFlight(t, net, f)
  }

  /** Port p leads on from the node that dispatched e, and not back. */
  ghost predicate LeadsOn(t: Topology, net: Net, e: Event, p: Port)
    requires Wired(t) && e.uid < |net.published| && Walk(t, Source(net, e.uid), e.route)
  {
    && p < |t.owner| && Open(t, net, e.uid, p)
    && t.owner[p] == End(t, Source(net, e.uid), e.route)
    && (e.route != [] ==> p != t.peer[e.route[|e.route| - 1]])
  }

  /** Whoever dispatched a packet handed a copy to every other link that carries it. */
  ghost predicate Complete(t: Topology, net: Net)
    requires Wired(t) && Inv(t, net)
  {
    forall e, p {:trigger LeadsOn(t, net, e, p)} |
        e in net.dispatched && Lasting(net, e.uid) && LeadsOn(t, net, e, p) ::
      Handed(t, net, Event(e.uid, e.route + [p]))
  }

  lemma DispatchHands(t: Topology, net: Net, node: NodeId, arrival: int, c: Copy, p: Port)
    requires Wired(t) && |net.queues| == |t.owner|
    requires p < |t.owner| && PassesOn(t, net, node, arrival, p, c.packet)
    ensures InFlight(t, Dispatch(t, net, node, arrival, c), Event(c.uid, c.route + [p]))
  {
    var net' := Dispatch(t, net, node, arrival, c);
    var q := t.peer[p];
    assert t.peer[q] == p;
    assert EventOf(net'.queues[q][|net.queues[q]|]) == Event(c.uid, c.route + [p]);
  }

  lemma DispatchStays(t: Topology, net: Net, node: NodeId, arrival: int, c: Copy, f: Event)
    requires Wired(t) && |net.queues| == |t.owner| && Handed(t, net, f)
    ensures Handed(t, Dispatch(t, net, node, arrival, c), f)
  {
    hide PassesOn;
    var net' := Dispatch(t, net, node, arrival, c);
    if InFlight(t, net, f) {
      var q := t.peer[f.route[|f.route| - 1]];
      var i :| 0 <= i < |net.queues[q]| && EventOf(net.queues[q][i]) == f;
      assert net'.queues[q][i] == net.queues[q][i];
    }
  }

  lemma PopStays(t: Topology, net: Net, q: Port, popped: Net, f: Event)
    requires Wired(t) && |net.queues| == |t.owner| && Handed(t, net, f)
    requires q < |net.queues| && net.queues[q] != [] && f != EventOf(net.queues[q][0])
    requires popped.queues == net.queues[q := net.queues[q][1..]]
    requires popped.dispatched == net.dispatched && popped.suppressed == net.suppressed
    ensures Handed(t, popped, f)
  {
    if InFlight(t, net, f) {
      var r := t.peer[f.route[|f.route| - 1]];
      var i :| 0 <= i < |net.queues[r]| && EventOf(net.queues[r][i]) == f;
      var k := if r == q then i - 1 else i;
      assert popped.queues[r][k] == net.queues[r][i];
    }
  }

  lemma LastingIsKept(t: Topology, net: Net, q: Port, c: Copy)
    requires Wired(t) && q < |t.owner| && FlightOk(t, net, q, c) && Lasting(net, c.uid)
    ensures !c.packet.meta.droppable
  {}

  lemma ConflateStays(t: Topology, net: Net, q: Port, j: nat, f: Event)
    requires Wired(t) && Inv(t, net) && Handed(t, net, f)
    requires f.uid < |net.published| && Lasting(net, f.uid)
    ensures Handed(t, Next(t, net, Conflate(q, j)), f)
  {
    hide Simple, DispatchedOk, SuppressedOk, FlightOk, Lasting;
    var net' := Next(t, net, Conflate(q, j));
    if net' != net && InFlight(t, net, f) {
      var r := t.peer[f.route[|f.route| - 1]];
      var i :| 0 <= i < |net.queues[r]| && EventOf(net.queues[r][i]) == f;
      LastingIsKept(t, net, r, net.queues[r][i]);
      assert r == q ==> i != j;
      var k := if r == q && i > j then i - 1 else i;
      assert net'.queues[r][k] == net.queues[r][i];
    }
  }

  // ---- the steps keep completeness ----------------------------------------

  /** Dispatching one more event keeps what was complete before it. */
  lemma DispatchCompletes(t: Topology, net: Net, node: NodeId, arrival: int, c: Copy, e: Event, p: Port)
    requires Wired(t) && |net.queues| == |t.owner| && Ready(t, net, node, arrival, c)
    requires e == EventOf(c) && LeadsOn(t, net, e, p) && Grown(net)
    ensures Handed(t, Dispatch(t, net, node, arrival, c), Event(e.uid, e.route + [p]))
  {
    hide Handed;
    LeadsOnPasses(t, net, node, arrival, c, p);
    DispatchHands(t, net, node, arrival, c, p);
    HandedInFlight(t, Dispatch(t, net, node, arrival, c), Event(e.uid, e.route + [p]));
  }

  lemma LeadsOnPasses(t: Topology, net: Net, node: NodeId, arrival: int, c: Copy, p: Port)
    requires Wired(t) && |net.queues| == |t.owner| && Ready(t, net, node, arrival, c)
    requires LeadsOn(t, net, EventOf(c), p) && Grown(net)
    ensures PassesOn(t, net, node, arrival, p, c.packet)
  {
    assert KeysOf(net.published[c.uid].known, node) <= Interests(net, node);
  }

  lemma HandedInFlight(t: Topology, net: Net, f: Event)
    requires Wired(t) && |net.queues| == |t.owner| && InFlight(t, net, f)
    ensures Handed(t, net, f)
  {}

  /** An event dispatched earlier leads on where it did. */
  lemma LeadsOnBefore(t: Topology, net: Net, net': Net, e: Event, p: Port)
    requires Wired(t) && Inv(t, net) && e in net.dispatched && net.published <= net'.published
    ensures e.uid < |net.published| && Walk(t, Source(net, e.uid), e.route)
    ensures Source(net', e.uid) == Source(net, e.uid)
    ensures LeadsOn(t, net', e, p) == LeadsOn(t, net, e, p)
  {}

  lemma {:induction false} HandedBefore(t: Topology, net: Net, net': Net, e: Event, p: Port)
    requires Wired(t) && Inv(t, net) && Complete(t, net) && e in net.dispatched && net.published <= net'.published
    requires e.uid < |net'.published| && Walk(t, Source(net', e.uid), e.route)
    requires LeadsOn(t, net', e, p) && Lasting(net', e.uid)
    ensures e.uid < |net.published| && Lasting(net, e.uid)
    ensures Handed(t, net, Event(e.uid, e.route + [p]))
  {
    hide Handed, Inv;
    LeadsOnBefore(t, net, net', e, p);
  }

  lemma PublishCompletes(t: Topology, net: Net, node: NodeId, packet: Packet)
    requires Wired(t) && Inv(t, net) && Complete(t, net) && Grown(net) && Inv(t, Next(t, net, Publish(node, packet)))
    ensures Complete(t, Next(t, net, Publish(node, packet)))
  {
    hide Handed, Inv, LeadsOn, PassesOn, Lasting, Ready, Grown;
    InvShape(t, net);
    if packet.meta.path == [] && packet.meta.topic != ANY {
      var logged := net.(published := net.published + [Published(node, packet, net.interests)]);
      var c := Copy(packet, |net.published|, []);
      var net' := Next(t, net, Publish(node, packet));
      LoggedGrown(net, Published(node, packet, net.interests));
      FreshIsReady(t, net, Published(node, packet, net.interests));
      DispatchedWalks(t, net');
      forall e, p | e in net'.dispatched && Lasting(net', e.uid) && LeadsOn(t, net', e, p)
        ensures Handed(t, net', Event(e.uid, e.route + [p]))
      {
        if e == EventOf(c) {
          SameLeadsOn(t, logged, net', e, p);
          DispatchCompletes(t, logged, node, -1, c, e, p);
        } else {
          HandedBefore(t, net, net', e, p);
          HandedFrame(t, net, logged, Event(e.uid, e.route + [p]));
          DispatchStays(t, logged, node, -1, c, Event(e.uid, e.route + [p]));
        }
      }
    }
  }

  lemma DispatchedWalks(t: Topology, net: Net)
    requires Wired(t) && Inv(t, net)
    ensures forall e | e in net.dispatched ::
        e.uid < |net.published| && Walk(t, Source(net, e.uid), e.route) && Simple(t, Source(net, e.uid), e.route)
  {}

  lemma SameLeadsOn(t: Topology, net: Net, net': Net, e: Event, p: Port)
    requires Wired(t) && net'.published == net.published
    requires e.uid < |net.published| && Walk(t, Source(net, e.uid), e.route)
    ensures LeadsOn(t, net', e, p) == LeadsOn(t, net, e, p)
  {}

  lemma HandedFrame(t: Topology, net: Net, net': Net, f: Event)
    requires Wired(t) && |net.queues| == |t.owner| && Handed(t, net, f)
    requires net'.queues == net.queues && net'.dispatched == net.dispatched && net'.suppressed == net.suppressed
    ensures Handed(t, net', f)
  {}

  lemma {:induction false} ReceiveCompletes(t: Topology, net: Net, q: Port)
    requires Wired(t) && Inv(t, net) && Complete(t, net) && Grown(net) && Inv(t, Next(t, net, Receive(q)))
    ensures Complete(t, Next(t, net, Receive(q)))
  {
    hide Handed, Inv, LeadsOn, PassesOn, Lasting, Ready, Suppressed, Grown;
    InvShape(t, net);
    if q < |net.queues| && net.queues[q] != [] {
      var c := net.queues[q][0];
      var popped := net.(queues := net.queues[q := net.queues[q][1..]]);
      var heard := Heard(net, q, t.owner[q]);
      var net' := Next(t, net, Receive(q));
      DispatchedWalks(t, net');
      forall e, p | e in net'.dispatched && Lasting(net', e.uid) && LeadsOn(t, net', e, p)
        ensures Handed(t, net', Event(e.uid, e.route + [p]))
      {
        var f := Event(e.uid, e.route + [p]);
        if e in net.dispatched {
          HandedBefore(t, net, net', e, p);
          if f == EventOf(c) {
            HandledNow(t, net', f);
          } else if Suppressed(t.owner[q], c.packet) {
            PopStays(t, net, q, popped, f);
            SuppressStays(t, popped, net', f);
          } else {
            PopStays(t, net, q, heard, f);
            DispatchStays(t, heard, t.owner[q], q, c, f);
          }
        } else {
          ReceivedIsReady(t, net, q, heard);
          GrownFrame(net, heard);
          SameLeadsOn(t, heard, net', e, p);
          DispatchCompletes(t, heard, t.owner[q], q, c, e, p);
        }
      }
    }
  }

  lemma HandledNow(t: Topology, net: Net, f: Event)
    requires Wired(t) && |net.queues| == |t.owner|
    requires f in net.dispatched || f in net.suppressed
    ensures Handed(t, net, f)
  {}

  lemma SuppressStays(t: Topology, net: Net, net': Net, f: Event)
    requires Wired(t) && |net.queues| == |t.owner| && Handed(t, net, f)
    requires net'.queues == net.queues && net'.dispatched == net.dispatched && net.suppressed <= net'.suppressed
    ensures Handed(t, net', f)
  {}

  lemma ConflateCompletes(t: Topology, net: Net, step: Step)
    requires Wired(t) && Inv(t, net) && Complete(t, net) && step.Conflate?
    requires Inv(t, Next(t, net, step))
    ensures Complete(t, Next(t, net, step))
  {
    hide Handed, Inv, LeadsOn, Lasting;
    InvShape(t, net);
    var net' := Next(t, net, step);
    assert net'.published == net.published && net'.dispatched == net.dispatched && net'.suppressed == net.suppressed;
    DispatchedWalks(t, net');
    forall e, p | e in net'.dispatched && Lasting(net', e.uid) && LeadsOn(t, net', e, p)
      ensures Handed(t, net', Event(e.uid, e.route + [p]))
    {
      HandedBefore(t, net, net', e, p);
      ConflateStays(t, net, step.port, step.index, Event(e.uid, e.route + [p]));
    }
  }

  /** Every run keeps completeness. */
  lemma {:induction false} RunComplete(t: Topology, steps: seq<Step>)
    requires Wired(t)
    ensures Inv(t, Run(t, steps)) && Complete(t, Run(t, steps))
  {
    hide Inv, Next, Complete, Grown;
    RunInv(t, steps);
    if steps == [] {
      assert Complete(t, Init(t)) by { InitComplete(t); }
    } else {
      var net, step := Run(t, steps[..|steps| - 1]), steps[|steps| - 1];
      RunComplete(t, steps[..|steps| - 1]);
      RunGrows(t, steps[..|steps| - 1]);
      match step
      case Publish(node, packet) => PublishCompletes(t, net, node, packet);
      case Receive(q) => ReceiveCompletes(t, net, q);
      case Conflate(_, _) => ConflateCompletes(t, net, step);
    }
  }

  lemma InitComplete(t: Topology)
    requires Wired(t) && Inv(t, Init(t))
    ensures Complete(t, Init(t))
  {}

  // ---- quiescence ---------------------------------------------------------

  /** Once no copy is left, a packet that is not droppable has been dispatched along
      every simple route from its publisher whose ports all carried it from the start. */
  lemma {:induction false} EveryOpenRouteDispatched(t: Topology, net: Net, uid: nat, r: Route)
    requires Wired(t) && Inv(t, net) && Complete(t, net) && Quiescent(net)
    requires uid < |net.published| && Lasting(net, uid)
    requires Simple(t, Source(net, uid), r) && OpenRoute(t, net, uid, r)
    ensures Event(uid, r) in net.dispatched
    decreases |r|
  {
    hide Simple, Inv, Handed, Lasting, Open, Walk;
    if r != [] {
      var s, k := Source(net, uid), |r| - 1;
      SimplePrefix(t, s, r, k);
      EveryOpenRouteDispatched(t, net, uid, r[..k]);
      SimpleIsWalk(t, s, r);
      SimpleIsWalk(t, s, r[..k]);
      assert r[..k] + [r[k]] == r;
      assert LeadsOn(t, net, Event(uid, r[..k]), r[k]);
      InvShape(t, net);
      HandedWhenQuiet(t, net, Event(uid, r));
    } else {
      Rooted(t, net, uid);
    }
  }

  lemma Rooted(t: Topology, net: Net, uid: nat)
    requires Wired(t) && Inv(t, net) && uid < |net.published|
    ensures Event(uid, []) in net.dispatched
  {}

  /** With nothing in flight, what was handed on was dispatched or suppressed; only
      routes that are not simple are suppressed. */
  lemma HandedWhenQuiet(t: Topology, net: Net, e: Event)
    requires Wired(t) && Inv(t, net) && Quiescent(net) && Handed(t, net, e)
    requires e.uid < |net.published| && Simple(t, Source(net, e.uid), e.route)
    ensures e in net.dispatched
  {
    hide Simple;
  }

  lemma SimpleIsWalk(t: Topology, s: NodeId, r: Route)
    requires Wired(t) && Simple(t, s, r)
    ensures Walk(t, s, r) && forall i | 0 <= i < |r| :: r[i] < |t.owner|
  {}
}
