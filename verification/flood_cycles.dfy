// Where the flood is not exactly-once: on every mesh with a cycle that internal mail can
// reach some run dispatches a packet twice, and on the smallest such mesh here is one.

module FloodCycles {
  import opened Packets
  import opened RemoteNodes
  import opened Topologies
  import opened Flood
  import opened FloodSafety
  import opened FloodDelivery
  import opened FloodTheorems
  import opened FloodGossip

  /** No node dispatches a packet twice in the run. */
  ghost predicate NeverTwice(t: Topology, steps: seq<Step>)
    requires Wired(t)
  {
    Inv(t, Run(t, steps)) && forall uid: nat, m :: AtMostOnce(t, Run(t, steps), uid, m)
  }

  // ---- parts of a mesh that internal mail gets into -----------------------

  /** A link between two nodes one end of which lets internal mail through. */
  ghost predicate LivePort(t: Topology, p: Port)
    requires Wired(t)
  {
    p < |t.owner| && t.owner[p] != t.owner[t.peer[p]] && (t.allowInternal[p] || t.allowInternal[t.peer[p]])
  }

  /** The node is connected to such a link. */
  ghost predicate Awake(t: Topology, n: NodeId)
    requires Wired(t)
  {
    exists p: Port :: LivePort(t, p) && Joined(t, n, t.owner[p])
  }

  lemma AwakeJoined(t: Topology, m: NodeId, n: NodeId)
    requires Wired(t) && Joined(t, m, n)
    ensures Awake(t, m) <==> Awake(t, n)
  {
    hide Joined;
    JoinedBack(t, m, n);
    if p: Port :| LivePort(t, p) && Joined(t, m, t.owner[p]) {
      JoinedThrough(t, n, m, t.owner[p]);
    }
    if p: Port :| LivePort(t, p) && Joined(t, n, t.owner[p]) {
      JoinedThrough(t, m, n, t.owner[p]);
    }
  }

  lemma LiveIsAwake(t: Topology, p: Port)
    requires Wired(t) && LivePort(t, p)
    ensures Awake(t, t.owner[p]) && Awake(t, t.owner[t.peer[p]]) && LivePort(t, t.peer[p])
  {
    assert Walk(t, t.owner[p], []) && End(t, t.owner[p], []) == t.owner[p];
    JoinedByPort(t, p);
    AwakeJoined(t, t.owner[p], t.owner[t.peer[p]]);
  }

  // ---- elsewhere nothing is ever carried ----------------------------------

  /** The link of the port is within the awake part, or leads from a node to itself. */
  ghost predicate Carries(t: Topology, p: Port)
    requires Wired(t) && p < |t.owner|
  {
    Awake(t, t.owner[p]) || t.owner[p] == t.owner[t.peer[p]]
  }

  ghost predicate Silent(t: Topology, net: Net)
    requires Wired(t) && |net.queues| == |t.owner|
  {
    && (forall n: NodeId :: Awake(t, n) || Interests(net, n) == {})
    && (forall q | 0 <= q < |net.queues| :: net.queues[q] == [] || Carries(t, t.peer[q]))
    && (forall e | e in net.dispatched && e.route != [] ::
          e.uid < |net.published| && Awake(t, Source(net, e.uid)))
  }

  lemma PassesOnCarries(t: Topology, net: Net, node: NodeId, arrival: int, p: Port, packet: Packet)
    requires Wired(t) && p < |t.owner| && PassesOn(t, net, node, arrival, p, packet)
    requires Awake(t, node) || Interests(net, node) == {}
    ensures Carries(t, p)
  {
    if !Awake(t, node) && t.owner[p] != t.owner[t.peer[p]] {
      assert LivePort(t, p);
      LiveIsAwake(t, p);
    }
  }

  lemma DispatchSilent(t: Topology, net: Net, node: NodeId, arrival: int, c: Copy)
    requires Wired(t) && |net.queues| == |t.owner| && Silent(t, net)
    requires c.uid < |net.published| && (c.route == [] || Awake(t, Source(net, c.uid)))
    ensures Silent(t, Dispatch(t, net, node, arrival, c))
  {
    hide PassesOn, Awake, Carries;
    var net' := Dispatch(t, net, node, arrival, c);
    forall q | 0 <= q < |net'.queues| ensures net'.queues[q] == [] || Carries(t, t.peer[q]) {
      if PassesOn(t, net, node, arrival, t.peer[q], c.packet) {
        PassesOnCarries(t, net, node, arrival, t.peer[q], c.packet);
      }
    }
    forall e | e in net'.dispatched && e.route != []
      ensures e.uid < |net'.published| && Awake(t, Source(net', e.uid))
    {
      assert e in net.dispatched || e == EventOf(c);
    }
    assert forall n: NodeId :: Interests(net', n) == Interests(net, n);
  }

  /** A copy that is not suppressed came over a link of the awake part. */
  lemma ArrivedAwake(t: Topology, net: Net, q: Port)
    requires Wired(t) && Inv(t, net) && Silent(t, net) && q < |net.queues| && net.queues[q] != []
    requires !Suppressed(t.owner[q], net.queues[q][0].packet)
    ensures Awake(t, t.owner[q])
    ensures net.queues[q][0].uid < |net.published| && Awake(t, Source(net, net.queues[q][0].uid))
  {
    hide Awake, Joined, NoDuplicates;
    HeadOk(t, net, q);
    var c := net.queues[q][0];
    var s := Source(net, c.uid);
    assert t.peer[t.peer[q]] == q && c.packet.meta.id == t.owner[t.peer[q]];
    JoinedByPort(t, t.peer[q]);
    AwakeJoined(t, t.owner[t.peer[q]], t.owner[q]);
    assert Walk(t, s, c.route) && End(t, s, c.route) == t.owner[q];
    assert Joined(t, s, t.owner[q]) by { WalkJoins(t, s, c.route); }
    AwakeJoined(t, s, t.owner[q]);
  }

  lemma WalkJoins(t: Topology, s: NodeId, r: Route)
    requires Wired(t) && Walk(t, s, r)
    ensures Joined(t, s, End(t, s, r))
  {}

  lemma StepSilent(t: Topology, net: Net, step: Step)
    requires Wired(t) && Inv(t, net) && Silent(t, net)
    ensures Silent(t, Next(t, net, step))
  {
    hide Inv, Awake, Carries, PassesOn, Suppressed;
    InvShape(t, net);
    match step
    case Publish(node, packet) =>
      if packet.meta.path == [] && packet.meta.topic != ANY {
        var logged := net.(published := net.published + [Published(node, packet, net.interests)]);
        assert forall n: NodeId :: Interests(logged, n) == Interests(net, n);
        DispatchSilent(t, logged, node, -1, Copy(packet, |net.published|, []));
      }
    case Receive(q) =>
      if q < |net.queues| && net.queues[q] != [] && !Suppressed(t.owner[q], net.queues[q][0].packet) {
        ArrivedAwake(t, net, q);
        HandledSilent(t, net, q);
        DispatchSilent(t, Heard(net, q, t.owner[q]), t.owner[q], q, net.queues[q][0]);
      } else {
        assert forall n: NodeId :: Interests(Next(t, net, step), n) == Interests(net, n);
      }
    case Conflate(_, _) =>
      assert forall n: NodeId :: Interests(Next(t, net, step), n) == Interests(net, n);
  }

  lemma HandledSilent(t: Topology, net: Net, q: Port)
    requires Wired(t) && |net.queues| == |t.owner| == |net.associated| && Silent(t, net)
    requires q < |net.queues| && net.queues[q] != [] && Awake(t, t.owner[q])
    ensures Silent(t, Heard(net, q, t.owner[q])) && Heard(net, q, t.owner[q]).published == net.published
  {
    hide Awake, Carries;
    var heard := Heard(net, q, t.owner[q]);
    forall n: NodeId ensures Awake(t, n) || Interests(heard, n) == {} {
      assert Awake(t, n) || Interests(net, n) == {};
    }
  }

  lemma {:induction false} RunSilent(t: Topology, steps: seq<Step>)
    requires Wired(t)
    ensures Silent(t, Run(t, steps))
  {
    hide Inv, Next, Awake;
    if steps != [] {
      RunInv(t, steps[..|steps| - 1]);
      RunSilent(t, steps[..|steps| - 1]);
      StepSilent(t, Run(t, steps[..|steps| - 1]), steps[|steps| - 1]);
    }
  }

  /** No cycle is connected to a link that lets internal mail through. */
  ghost predicate CyclesAsleep(t: Topology)
    requires Wired(t)
  {
    forall c | Cycle(t, c) :: !Awake(t, t.owner[c[0]])
  }

  /** Without a cycle in the awake part no run dispatches a packet twice at a node. */
  lemma AsleepNeverTwice(t: Topology, steps: seq<Step>)
    requires Wired(t) && CyclesAsleep(t)
    ensures NeverTwice(t, steps)
  {
    hide Run, Inv, Awake, CyclesAsleep, Walk, Senders;
    var net := Run(t, steps);
    RunInv(t, steps);
    RunSilent(t, steps);
    DispatchedBySimpleRoutes(t, steps);
    forall uid: nat, m ensures AtMostOnce(t, net, uid, m) {
      forall i, j | IsDispatchOf(t, net, i, uid, m) && IsDispatchOf(t, net, j, uid, m) ensures i == j {
        var e, f := net.dispatched[i], net.dispatched[j];
        assert e in net.dispatched && f in net.dispatched;
        if e.route != f.route {
          AsleepOneRoute(t, Source(net, uid), e.route, f.route);
        }
        assert e == f;
      }
    }
  }

  lemma AsleepOneRoute(t: Topology, s: NodeId, r1: Route, r2: Route)
    requires Wired(t) && CyclesAsleep(t)
    requires Awake(t, s) && Simple(t, s, r1) && Simple(t, s, r2) && End(t, s, r1) == End(t, s, r2)
    ensures r1 == r2
  {
    hide Awake, Simple;
    if r1 != r2 {
      var c, w := TwoRoutesMakeACycle(t, s, r1, r2);
      WalkJoins(t, s, w);
      AwakeJoined(t, s, t.owner[c[0]]);
    }
  }

  // ---- and with one some run does -----------------------------------------

  /** What node x announces when an application there subscribes to "!". */
  function Telling(x: NodeId): Packet {
    Packet(Meta(INTERNAL, Time(0, 0), x, x, [], false), Info(NodeInfo(x, "", true, [INTERNAL], [], [])), false)
  }

  /** The infos of others that a node appends to its own, after whatever steps. */
  type Appended = (seq<Step>, NodeId) -> seq<Packet>

  /** A run of receptions and announcements: each node that publishes announces itself,
      and with it, as send_info does, all that is appended. */
  ghost predicate Announced(steps: seq<Step>, appended: Appended)
    decreases |steps|
  {
    || steps == []
    || (steps[|steps| - 1].Receive? && Announced(steps[..|steps| - 1], appended))
    || (exists k, x :: 0 <= k < |steps| && AnnouncesAt(steps, k, x, appended) && Announced(steps[..k], appended))
  }

  ghost predicate AnnouncesAt(steps: seq<Step>, k: nat, x: NodeId, appended: Appended) {
    k <= |steps| && steps[k..] == Publishing(x, [Telling(x)] + appended(steps[..k], x))
  }

  lemma {:induction false} ReceivedOn(steps: seq<Step>, settle: seq<Step>, appended: Appended)
    requires Announced(steps, appended) && forall i | 0 <= i < |settle| :: settle[i].Receive?
    ensures Announced(steps + settle, appended)
  {
    if settle == [] {
      assert steps + settle == steps;
    } else {
      var l := |settle| - 1;
      ReceivedOn(steps, settle[..l], appended);
      assert (steps + settle)[..|steps + settle| - 1] == steps + settle[..l];
    }
  }

  /** One more announcement, after which the mesh becomes quiescent. */
  lemma Announce(t: Topology, steps: seq<Step>, x: NodeId, appended: Appended) returns (rest: seq<Step>)
    requires Wired(t) && Announced(steps, appended)
    ensures Announced(steps + rest, appended)
    ensures var net, net' := Run(t, steps), Run(t, steps + rest);
            && Quiescent(net') && |net'.published| > |net.published|
            && net'.published[|net.published|] == Published(x, Telling(x), net.interests)
  {
    hide Run, Quiescent;
    assert INTERNAL != ANY;
    var more := appended(steps, x);
    var calls := Publishing(x, [Telling(x)] + more);
    var settle := PublishAndSettle(t, steps, x, Telling(x), more);
    rest := calls + settle;
    assert steps + calls + settle == steps + rest;
    assert (steps + calls)[..|steps|] == steps && (steps + calls)[|steps|..] == calls;
    assert AnnouncesAt(steps + calls, |steps|, x, appended);
    ReceivedOn(steps + calls, settle, appended);
  }

  ghost predicate Taught(t: Topology, steps: seq<Step>, n: NodeId)
    requires Wired(t)
  {
    INTERNAL in Interests(Run(t, steps), n)
  }

  lemma TaughtStays(t: Topology, steps: seq<Step>, rest: seq<Step>, n: NodeId)
    requires Wired(t) && Taught(t, steps, n)
    ensures Taught(t, steps + rest, n)
  {
    RunExtends(t, steps, rest);
  }

  /** A node that counts "!", or has a link that lets internal mail through, can teach
      the node at the other end to count "!". */
  lemma TeachAcross(t: Topology, steps: seq<Step>, p: Port, appended: Appended) returns (rest: seq<Step>)
    requires Wired(t) && Announced(steps, appended) && p < |t.owner| && t.owner[p] != t.owner[t.peer[p]]
    requires t.allowInternal[p] || Taught(t, steps, t.owner[p])
    ensures Announced(steps + rest, appended) && Taught(t, steps + rest, t.owner[t.peer[p]])
  {
    hide Run, Quiescent, Next, Announced;
    var x, n, uid := t.owner[p], t.owner[t.peer[p]], |Run(t, steps).published|;
    rest := Announce(t, steps, x, appended);
    assert Walk(t, x, [p]) && End(t, x, [p]) == n && OpenRoute(t, Run(t, steps + rest), uid, [p]);
    AnnouncedIsCounted(t, steps + rest, uid, [p]);
    assert INTERNAL in TopicsTold(n, Telling(x).msg.info);
  }

  lemma {:induction false} TeachAlong(t: Topology, steps: seq<Step>, n: NodeId, w: Route, appended: Appended)
      returns (rest: seq<Step>)
    requires Wired(t) && Announced(steps, appended) && Taught(t, steps, n) && Walk(t, n, w)
    ensures Announced(steps + rest, appended) && Taught(t, steps + rest, End(t, n, w))
    decreases |w|
  {
    hide Run, Taught, Announced;
    if w == [] {
      rest := [];
      assert steps + rest == steps;
    } else {
      var k := |w| - 1;
      WalkPrefix(t, n, w, k);
      var front := TeachAlong(t, steps, n, w[..k], appended);
      if t.owner[w[k]] == t.owner[t.peer[w[k]]] {
        rest := front;
      } else {
        var last := TeachAcross(t, steps + front, w[k], appended);
        rest := front + last;
        assert steps + front + last == steps + rest;
      }
    }
  }

  /** The first k owners that are connected to n count "!". */
  ghost predicate AllTaught(t: Topology, steps: seq<Step>, n: NodeId, k: nat)
    requires Wired(t) && k <= |t.owner|
  {
    forall j | 0 <= j < k && Joined(t, n, t.owner[j]) :: Taught(t, steps, t.owner[j])
  }

  lemma {:induction false} TeachAll(t: Topology, steps: seq<Step>, n: NodeId, k: nat, appended: Appended)
      returns (rest: seq<Step>)
    requires Wired(t) && Announced(steps, appended) && Taught(t, steps, n) && k <= |t.owner|
    ensures Announced(steps + rest, appended) && AllTaught(t, steps + rest, n, k)
    decreases k
  {
    hide Run, Taught, Joined, Announced;
    if k == 0 {
      rest := [];
      assert steps + rest == steps;
    } else {
      var front := TeachAll(t, steps, n, k - 1, appended);
      var last: seq<Step> := [];
      TaughtStays(t, steps, front, n);
      if Joined(t, n, t.owner[k - 1]) {
        var w := WalkTo(t, n, t.owner[k - 1]);
        last := TeachAlong(t, steps + front, n, w, appended);
      } else {
        assert steps + front + last == steps + front;
      }
      rest := front + last;
      assert steps + front + last == steps + rest;
      forall j | 0 <= j < k && Joined(t, n, t.owner[j]) ensures Taught(t, steps + rest, t.owner[j]) {
        if j < k - 1 {
          TaughtStays(t, steps + front, last, t.owner[j]);
        }
      }
    }
  }

  lemma WalkTo(t: Topology, m: NodeId, n: NodeId) returns (w: Route)
    requires Wired(t) && Joined(t, m, n)
    ensures Walk(t, m, w) && End(t, m, w) == n
  {
    w :| Walk(t, m, w) && End(t, m, w) == n;
  }

  /** Wherever internal mail gets, all nodes can be brought to count "!". */
  lemma AwakeCanBeTaught(t: Topology, s: NodeId, appended: Appended) returns (steps: seq<Step>)
    requires Wired(t) && Awake(t, s)
    ensures Announced(steps, appended)
    ensures forall j | 0 <= j < |t.owner| && Joined(t, s, t.owner[j]) :: Taught(t, steps, t.owner[j])
  {
    hide Run, Taught, Joined;
    var p: Port :| LivePort(t, p) && Joined(t, s, t.owner[p]);
    JoinedByPort(t, p);
    JoinedThrough(t, s, t.owner[p], t.owner[t.peer[p]]);
    assert t.peer[t.peer[p]] == p;
    var a := if t.allowInternal[p] then p else t.peer[p];
    var n := t.owner[t.peer[a]];
    var one := TeachAcross(t, [], a, appended);
    assert [] + one == one;
    assert Joined(t, s, n);
    JoinedBack(t, s, n);
    var rest := TeachAll(t, one, n, |t.owner|, appended);
    steps := one + rest;
    forall j | 0 <= j < |t.owner| && Joined(t, s, t.owner[j]) ensures Taught(t, steps, t.owner[j]) {
      JoinedThrough(t, n, s, t.owner[j]);
    }
  }

  /** Then a node on a cycle announces itself, and another one handles that twice. */
  lemma AwakeCycleTwice(t: Topology, c: Route, appended: Appended) returns (steps: seq<Step>)
    requires Wired(t) && Cycle(t, c) && Awake(t, t.owner[c[0]])
    ensures Announced(steps, appended) && !NeverTwice(t, steps)
  {
    hide Announced, Run, Taught, Joined, Awake, Quiescent, Inv;
    var s := t.owner[c[0]];
    var r1, r2 := CycleMakesTwoRoutes(t, c);
    var taught := AwakeCanBeTaught(t, s, appended);
    var uid := |Run(t, taught).published|;
    var rest := Announce(t, taught, s, appended);
    steps := taught + rest;
    var net := Run(t, steps);
    TaughtRouteOpen(t, taught, net, uid, s, r1);
    TaughtRouteOpen(t, taught, net, uid, s, r2);
    DeliveredAlongOpenRoutes(t, steps, uid, r1);
    DeliveredAlongOpenRoutes(t, steps, uid, r2);
    RunInv(t, steps);
    TwoRoutesTwice(t, net, uid, r1, r2);
  }

  lemma TaughtRouteOpen(t: Topology, taught: seq<Step>, net: Net, uid: nat, s: NodeId, r: Route)
    requires Wired(t) && Simple(t, s, r)
    requires forall j | 0 <= j < |t.owner| && Joined(t, s, t.owner[j]) :: Taught(t, taught, t.owner[j])
    requires uid < |net.published| && net.published[uid] == Published(s, Telling(s), Run(t, taught).interests)
    ensures OpenRoute(t, net, uid, r)
  {
    hide Run, Joined;
    forall i | 0 <= i < |r| ensures Open(t, net, uid, r[i]) {
      SimpleIsWalk(t, s, r);
      JoinedOnWalk(t, s, r, i);
    }
  }

  lemma TwoRoutesTwice(t: Topology, net: Net, uid: nat, r1: Route, r2: Route)
    requires Wired(t) && Inv(t, net) && uid < |net.published| && r1 != r2
    requires Event(uid, r1) in net.dispatched && Event(uid, r2) in net.dispatched
    requires Simple(t, Source(net, uid), r1) && Simple(t, Source(net, uid), r2)
    requires End(t, Source(net, uid), r1) == End(t, Source(net, uid), r2)
    ensures exists m :: !AtMostOnce(t, net, uid, m)
  {
    hide Inv;
    var m := End(t, Source(net, uid), r1);
    var i :| 0 <= i < |net.dispatched| && net.dispatched[i] == Event(uid, r1);
    var j :| 0 <= j < |net.dispatched| && net.dispatched[j] == Event(uid, r2);
    DispatchOfRoute(t, net, i, uid, m);
    DispatchOfRoute(t, net, j, uid, m);
    assert IsDispatchOf(t, net, i, uid, m) && IsDispatchOf(t, net, j, uid, m);
    assert !AtMostOnce(t, net, uid, m);
  }

  // ---- exactly when -------------------------------------------------------

  /** On any mesh: no run dispatches a packet twice at a node if and only if no cycle is
      connected to a link that lets internal mail through. It takes no more than nodes
      announcing themselves, whatever they append. */
  lemma NeverTwiceIffCyclesAsleep(t: Topology, appended: Appended)
    requires Wired(t)
    ensures (forall steps :: NeverTwice(t, steps)) <==> CyclesAsleep(t)
    ensures (forall steps | Announced(steps, appended) :: NeverTwice(t, steps)) <==> CyclesAsleep(t)
  {
    hide NeverTwice, Awake, Announced;
    if CyclesAsleep(t) {
      forall steps ensures NeverTwice(t, steps) {
        AsleepNeverTwice(t, steps);
      }
    } else {
      var c :| Cycle(t, c) && Awake(t, t.owner[c[0]]);
      var steps := AwakeCycleTwice(t, c, appended);
      assert Announced(steps, appended) && !NeverTwice(t, steps);
    }
  }

  /** Where every link lets internal mail through, that is: if and only if the links form
      no cycle. */
  lemma NeverTwiceIffAcyclic(t: Topology, appended: Appended)
    requires Wired(t) && AllowInternal(t)
    ensures (forall steps :: NeverTwice(t, steps)) <==> Acyclic(t)
    ensures (forall steps | Announced(steps, appended) :: NeverTwice(t, steps)) <==> Acyclic(t)
  {
    hide NeverTwice, Awake, Announced;
    NeverTwiceIffCyclesAsleep(t, appended);
    forall c | Cycle(t, c) ensures Awake(t, t.owner[c[0]]) {
      var n := Senders(t, t.owner[c[0]], c);
      assert n[0] != n[1] && n[1] == t.owner[t.peer[c[0]]];
      LiveIsAwake(t, c[0]);
    }
  }

  lemma FloodStays(t: Topology, net: Net, net': Net, n: NodeId)
    requires Wired(t) && FloodsFrom(t, net, n) && net.published <= net'.published
    ensures FloodsFrom(t, net', n)
  {
    var uid: nat :| Flooding(t, net, uid) && Source(net, uid) == n;
    assert forall q | 0 <= q < |t.owner| :: Open(t, net', uid, q) == Open(t, net, uid, q);
    assert Flooding(t, net', uid);
  }

  lemma AnnouncedFloods(t: Topology, net: Net, uid: nat, x: NodeId)
    requires Wired(t) && AllowInternal(t) && uid < |net.published|
    requires net.published[uid].node == x && net.published[uid].packet == Telling(x)
    ensures FloodsFrom(t, net, x)
  {
    InternalFloods(t, net, uid);
  }

  lemma NothingAnnounced(appended: Appended)
    ensures Announced([], appended)
  {}

  /** Where every link lets internal mail through, all nodes can announce themselves one
      after the other, which is a quiescent run in which everyone floods. */
  lemma {:induction false} EveryoneCanFlood(t: Topology, k: nat, appended: Appended) returns (steps: seq<Step>)
    requires Wired(t) && AllowInternal(t) && k <= |t.owner|
    ensures Announced(steps, appended) && Quiescent(Run(t, steps))
    ensures forall p | 0 <= p < k :: FloodsFrom(t, Run(t, steps), t.owner[p])
    ensures k == |t.owner| ==> EveryoneFloods(t, Run(t, steps))
  {
    hide Announced, FloodsFrom;
    if k == 0 {
      steps := [];
      NothingAnnounced(appended);
    } else {
      hide Run, Quiescent;
      var front := EveryoneCanFlood(t, k - 1, appended);
      var rest := Announce(t, front, t.owner[k - 1], appended);
      steps := front + rest;
      RunExtends(t, front, rest);
      forall p | 0 <= p < k - 1 ensures FloodsFrom(t, Run(t, steps), t.owner[p]) {
        FloodStays(t, Run(t, front), Run(t, steps), t.owner[p]);
      }
      AnnouncedFloods(t, Run(t, steps), |Run(t, front).published|, t.owner[k - 1]);
    }
  }

  // ---- two nodes, two links -----------------------------------------------

  /** Ports 0 and 2 at node 1, ports 1 and 3 at node 2. */
  const TWO_LINKS: Topology := Topology([1, 2, 1, 2], [1, 0, 3, 2], [true, true, true, true])

  lemma TwoLinksWired()
    ensures Wired(TWO_LINKS)
  {}

  /** Publishing at node 1 puts a copy into both links. */
  lemma TwoLinksPublish(p: Packet)
    requires Wired(TWO_LINKS) && p.meta.topic == INTERNAL && !p.localOnly && p.meta.path == []
    ensures var net := Next(TWO_LINKS, Init(TWO_LINKS), Publish(1, p));
            && net.queues[1] == [Copy(Stamped(p, 1), 0, [0])] && net.queues[3] == [Copy(Stamped(p, 1), 0, [2])]
            && net.dispatched == [Event(0, [])] && |net.published| == 1 && net.published[0].node == 1
  {
    var t, net := TWO_LINKS, Init(TWO_LINKS);
    var logged := net.(published := [Published(1, p, map[])]);
    assert PassesOn(t, logged, 1, -1, 0, p) && PassesOn(t, logged, 1, -1, 2, p);
    assert [] + [0] == [0] && [] + [2] == [2];
  }

  /** Node 2 dispatches a copy with another route; the other link towards it is untouched. */
  lemma TwoLinksReceive(net: Net, p: Packet, q: Port, r: Route)
    requires Wired(TWO_LINKS) && |net.queues| == |net.associated| == 4 && (q == 1 || q == 3)
    requires net.queues[q] == [Copy(Stamped(p, 1), 0, r)] && p.meta.path == []
    ensures var net' := Next(TWO_LINKS, net, Receive(q));
            && net'.dispatched == net.dispatched + [Event(0, r)] && net'.published == net.published
            && net'.queues[4 - q] == net.queues[4 - q]
  {
    assert !Suppressed(2, Stamped(p, 1));
  }

  lemma TwoDispatches(net: Net)
    requires Wired(TWO_LINKS) && Inv(TWO_LINKS, net) && |net.published| > 0 && Source(net, 0) == 1
    requires net.dispatched == [Event(0, []), Event(0, [0]), Event(0, [2])]
    ensures !AtMostOnce(TWO_LINKS, net, 0, 2)
  {
    hide Inv;
    assert IsDispatchOf(TWO_LINKS, net, 1, 0, 2) && IsDispatchOf(TWO_LINKS, net, 2, 0, 2);
  }

  /** An internal packet that node 1 publishes is dispatched at node 2 for each link. */
  lemma TwoLinksDispatchTwice(p: Packet)
    requires p.meta.topic == INTERNAL && !p.localOnly && p.meta.path == []
    ensures Wired(TWO_LINKS)
    ensures var net := Run(TWO_LINKS, [Publish(1, p), Receive(1), Receive(3)]);
            && net.dispatched == [Event(0, []), Event(0, [0]), Event(0, [2])]
            && Inv(TWO_LINKS, net) && !AtMostOnce(TWO_LINKS, net, 0, 2)
  {
    hide Inv, Next, Init, Run;
    var t := TWO_LINKS;
    TwoLinksWired();
    RunFirst(t);
    RunNext(t, [], Publish(1, p));
    RunNext(t, [Publish(1, p)], Receive(1));
    RunNext(t, [Publish(1, p), Receive(1)], Receive(3));
    assert [] + [Publish(1, p)] == [Publish(1, p)];
    assert [Publish(1, p)] + [Receive(1)] == [Publish(1, p), Receive(1)];
    assert [Publish(1, p), Receive(1)] + [Receive(3)] == [Publish(1, p), Receive(1), Receive(3)];
    TwoLinksPublish(p);
    var one := Run(t, [Publish(1, p)]);
    TwoLinksReceive(one, p, 1, [0]);
    TwoLinksReceive(Next(t, one, Receive(1)), p, 3, [2]);
    RunInv(t, [Publish(1, p), Receive(1), Receive(3)]);
    TwoDispatches(Run(t, [Publish(1, p), Receive(1), Receive(3)]));
  }

  lemma RunFirst(t: Topology)
    requires Wired(t)
    ensures Run(t, []) == Init(t)
  {}
}
