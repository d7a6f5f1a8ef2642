// How subscriptions become known: internal mail that a node handles makes it count
// topics, and what it counts decides what its links carry.

module FloodGossip {
  import opened Packets
  import opened RemoteNodes
  import opened Topologies
  import opened Flood
  import opened FloodSafety
  import opened FloodDelivery
  import opened FloodFilter
  import opened FloodTermination
  import opened FloodTheorems

  /** The packet is internal mail that links may carry, and none conflates. */
  predicate Announcing(p: Packet) {
    p.meta.topic == INTERNAL && p.msg.Info? && !p.localOnly && !p.meta.droppable
  }

  /** A node that was reached over a link counts what it was told. */
  ghost predicate Told(t: Topology, net: Net, e: Event)
    requires Wired(t) && e.uid < |net.published| && Walk(t, Source(net, e.uid), e.route)
  {
    var p, n := net.published[e.uid].packet, End(t, Source(net, e.uid), e.route);
    e.route != [] && p.meta.topic == INTERNAL && p.msg.Info? ==> TopicsTold(n, p.msg.info) <= Interests(net, n)
  }

  ghost predicate AllTold(t: Topology, net: Net)
    requires Wired(t) && Inv(t, net)
  {
    forall e | e in net.dispatched :: Told(t, net, e)
  }

  lemma ToldStays(t: Topology, net: Net, net': Net, e: Event)
    requires Wired(t) && e.uid < |net.published| && Walk(t, Source(net, e.uid), e.route) && Told(t, net, e)
    requires net.published <= net'.published
    requires forall n: NodeId :: Interests(net, n) <= Interests(net', n)
    ensures Source(net', e.uid) == Source(net, e.uid) && Told(t, net', e)
  {}

  lemma HandledIsTold(t: Topology, net: Net, q: Port)
    requires Wired(t) && Inv(t, net) && q < |net.queues| && net.queues[q] != []
    ensures var heard, e := Heard(net, q, t.owner[q]), EventOf(net.queues[q][0]);
            && e.uid < |net.published| && heard.published == net.published
            && Walk(t, Source(heard, e.uid), e.route) && Told(t, heard, e)
  {
    HeadOk(t, net, q);
    assert t.peer[t.peer[q]] == q;
  }

  lemma StepTells(t: Topology, net: Net, step: Step)
    requires Wired(t) && Inv(t, net) && AllTold(t, net)
    ensures Inv(t, Next(t, net, step)) && AllTold(t, Next(t, net, step))
  {
    hide Inv, Told, PassesOn, Suppressed, Walk, Simple;
    StepKeeps(t, net, step);
    InvShape(t, net);
    StepInterests(t, net, step);
    var net' := Next(t, net, step);
    DispatchedWalks(t, net);
    DispatchedWalks(t, net');
    forall e | e in net'.dispatched ensures Told(t, net', e) {
      if e in net.dispatched {
        ToldStays(t, net, net', e);
      } else if step.Publish? {
        RootTold(t, net', e);
      } else {
        var heard := Heard(net, step.port, t.owner[step.port]);
        HandledIsTold(t, net, step.port);
        ToldStays(t, heard, net', e);
      }
    }
  }

  lemma RootTold(t: Topology, net: Net, e: Event)
    requires Wired(t) && e.uid < |net.published| && Walk(t, Source(net, e.uid), e.route) && e.route == []
    ensures Told(t, net, e)
  {}

  /** Interests and publish calls only grow. */
  lemma StepInterests(t: Topology, net: Net, step: Step)
    requires |t.peer| == |t.owner| == |t.allowInternal| == |net.queues| == |net.associated|
    requires forall p | 0 <= p < |t.peer| :: t.peer[p] < |t.owner|
    ensures net.published <= Next(t, net, step).published
    ensures !step.Publish? ==> net.published == Next(t, net, step).published
    ensures forall n: NodeId :: Interests(net, n) <= Interests(Next(t, net, step), n)
  {
    hide PassesOn, Suppressed;
  }

  lemma {:induction false} RunTells(t: Topology, steps: seq<Step>)
    requires Wired(t)
    ensures Inv(t, Run(t, steps)) && AllTold(t, Run(t, steps))
  {
    hide Inv, Next, AllTold;
    RunInv(t, steps);
    if steps == [] {
      NobodyTold(t);
    } else {
      RunTells(t, steps[..|steps| - 1]);
      StepTells(t, Run(t, steps[..|steps| - 1]), steps[|steps| - 1]);
    }
  }

  // ---- and counts nothing else --------------------------------------------

  /** The event is the dispatch, at node n, of an info that came over a link, lists the
      topic and is not about the node. */
  ghost predicate TellsOf(t: Topology, net: Net, e: Event, n: NodeId, topic: Topic)
    requires Wired(t)
  {
    && e.uid < |net.published| && e.route != []
    && Walk(t, Source(net, e.uid), e.route) && End(t, Source(net, e.uid), e.route) == n
    && var p := net.published[e.uid].packet;
       p.meta.topic == INTERNAL && p.msg.Info? && topic in TopicsTold(n, p.msg.info)
  }

  ghost predicate HasCause(t: Topology, net: Net, n: NodeId, topic: Topic)
    requires Wired(t)
  {
    exists e :: e in net.dispatched && TellsOf(t, net, e, n, topic)
  }

  ghost predicate AllCaused(t: Topology, net: Net)
    requires Wired(t)
  {
    forall n: NodeId, topic: Topic | topic in Interests(net, n) :: HasCause(t, net, n, topic)
  }

  lemma CauseStays(t: Topology, net: Net, net': Net, n: NodeId, topic: Topic)
    requires Wired(t) && HasCause(t, net, n, topic) && net.published <= net'.published
    requires forall e | e in net.dispatched :: e in net'.dispatched
    ensures HasCause(t, net', n, topic)
  {
    var e :| e in net.dispatched && TellsOf(t, net, e, n, topic);
    assert TellsOf(t, net', e, n, topic);
  }

  /** What a node starts to count at a reception it is told by the packet received. */
  lemma HandledHasCause(t: Topology, net: Net, q: Port, n: NodeId, topic: Topic)
    requires Wired(t) && Inv(t, net) && q < |net.queues| && net.queues[q] != []
    requires topic in Interests(Heard(net, q, t.owner[q]), n) && topic !in Interests(net, n)
    ensures TellsOf(t, net, EventOf(net.queues[q][0]), n, topic)
  {
    HeadOk(t, net, q);
    assert t.peer[t.peer[q]] == q;
  }

  lemma StepCauses(t: Topology, net: Net, step: Step)
    requires Wired(t) && Inv(t, net) && AllCaused(t, net)
    ensures AllCaused(t, Next(t, net, step))
  {
    hide Inv, TellsOf, PassesOn, Suppressed, HasCause;
    InvShape(t, net);
    StepInterests(t, net, step);
    var net' := Next(t, net, step);
    forall n: NodeId, topic: Topic | topic in Interests(net', n) ensures HasCause(t, net', n, topic) {
      if topic in Interests(net, n) {
        CauseStays(t, net, net', n, topic);
      } else {
        NewInterest(t, net, step, n, topic);
        HandledHasCause(t, net, step.port, n, topic);
        DispatchedHasCause(t, net, net', EventOf(net.queues[step.port][0]), n, topic);
      }
    }
  }

  lemma NewInterest(t: Topology, net: Net, step: Step, n: NodeId, topic: Topic)
    requires Wired(t) && |net.queues| == |t.owner| == |net.associated|
    requires topic in Interests(Next(t, net, step), n) && topic !in Interests(net, n)
    ensures step.Receive? && step.port < |net.queues| && net.queues[step.port] != []
    ensures topic in Interests(Heard(net, step.port, t.owner[step.port]), n)
    ensures EventOf(net.queues[step.port][0]) in Next(t, net, step).dispatched
  {
    hide PassesOn, Suppressed;
  }

  lemma DispatchedHasCause(t: Topology, net: Net, net': Net, e: Event, n: NodeId, topic: Topic)
    requires Wired(t) && TellsOf(t, net, e, n, topic) && net.published <= net'.published && e in net'.dispatched
    ensures HasCause(t, net', n, topic)
  {
    assert TellsOf(t, net', e, n, topic);
  }

  lemma {:induction false} RunCauses(t: Topology, steps: seq<Step>)
    requires Wired(t)
    ensures AllCaused(t, Run(t, steps))
  {
    hide Inv, Next, HasCause;
    if steps != [] {
      RunInv(t, steps[..|steps| - 1]);
      RunCauses(t, steps[..|steps| - 1]);
      StepCauses(t, Run(t, steps[..|steps| - 1]), steps[|steps| - 1]);
    }
  }

  /** In every reachable state a node counts a topic if and only if it has dispatched an
      info that came over a link, lists the topic and is not about the node. */
  lemma CountedIffTold(t: Topology, steps: seq<Step>, n: NodeId, topic: Topic)
    requires Wired(t)
    ensures topic in Interests(Run(t, steps), n) <==> HasCause(t, Run(t, steps), n, topic)
  {
    hide Run, Inv;
    RunCauses(t, steps);
    RunTells(t, steps);
    if HasCause(t, Run(t, steps), n, topic) {
      var e :| e in Run(t, steps).dispatched && TellsOf(t, Run(t, steps), e, n, topic);
      assert Told(t, Run(t, steps), e);
    }
  }

  /** A node that was never told of a subscriber to a topic passes nothing on it on: where
      a packet that is not internal was sent, the sending end has dispatched an info that
      lists the topic. */
  lemma SentWhereToldOf(t: Topology, steps: seq<Step>, e: Event, k: nat)
    requires Wired(t) && e in Run(t, steps).dispatched && k < |e.route|
    ensures e.uid < |Run(t, steps).published| && e.route[k] < |t.owner|
    ensures var topic := Run(t, steps).published[e.uid].packet.meta.topic;
            topic != "!" ==> HasCause(t, Run(t, steps), t.owner[e.route[k]], topic)
  {
    hide Run, HasCause;
    SentOnlyIf(t, steps, e, k);
    CountedIffTold(t, steps, t.owner[e.route[k]], Run(t, steps).published[e.uid].packet.meta.topic);
  }

  /** Internal mail is handled before the links are served: an info that makes the node
      count "!" goes on over all its other links, whatever they let through before. */
  lemma HandledBeforeServed(t: Topology, net: Net, q: Port, p: Port)
    requires Wired(t) && |net.queues| == |net.associated| == |t.owner|
    requires q < |net.queues| && net.queues[q] != [] && p < |t.owner| && t.owner[p] == t.owner[q] && p != q
    requires var packet := net.queues[q][0].packet;
             && !Suppressed(t.owner[q], packet) && !packet.localOnly && packet.meta.topic == "!"
             && packet.msg.Info? && packet.msg.info.id != t.owner[q] && "!" in packet.msg.info.inTopics
    ensures var after := Next(t, net, Receive(q)).queues[t.peer[p]];
            var c := net.queues[q][0];
            after != [] && after[|after| - 1] == Copy(Stamped(c.packet, t.owner[q]), c.uid, c.route + [p])
  {
    var heard := Heard(net, q, t.owner[q]);
    assert "!" in Interests(heard, t.owner[q]);
    assert t.peer[t.peer[p]] == p && PassesOn(t, heard, t.owner[q], q, p, net.queues[q][0].packet);
  }

  lemma NobodyTold(t: Topology)
    requires Wired(t) && Inv(t, Init(t))
    ensures AllTold(t, Init(t))
  {}

  /** The longer run has the publish calls of the shorter one, and what was counted is
      counted still. */
  lemma {:induction false} RunExtends(t: Topology, steps: seq<Step>, rest: seq<Step>)
    requires Wired(t)
    ensures Run(t, steps).published <= Run(t, steps + rest).published
    ensures (forall i | 0 <= i < |rest| :: !rest[i].Publish?)
        ==> Run(t, steps).published == Run(t, steps + rest).published
    ensures forall n: NodeId :: Interests(Run(t, steps), n) <= Interests(Run(t, steps + rest), n)
  {
    hide Next;
    if rest == [] {
      assert steps + rest == steps;
    } else {
      var l := |rest| - 1;
      RunExtends(t, steps, rest[..l]);
      RunNext(t, steps + rest[..l], rest[l]);
      assert steps + rest[..l] + [rest[l]] == steps + rest;
      StepInterests(t, Run(t, steps + rest[..l]), rest[l]);
    }
  }

  lemma RunNext(t: Topology, steps: seq<Step>, step: Step)
    requires Wired(t)
    ensures Run(t, steps + [step]) == Next(t, Run(t, steps), step)
  {
    assert (steps + [step])[..|steps|] == steps;
  }

  // ---- what an announcement achieves --------------------------------------

  /** Once a mesh is quiescent, an info that a node has announced is known wherever a
      walk of open links leads: every such node counts its topics, the node itself and
      the one the info is about aside. */
  lemma AnnouncedIsCounted(t: Topology, steps: seq<Step>, uid: nat, w: Route)
    requires Wired(t) && Quiescent(Run(t, steps))
    requires uid < |Run(t, steps).published| && Announcing(Run(t, steps).published[uid].packet)
    requires Walk(t, Source(Run(t, steps), uid), w) && OpenRoute(t, Run(t, steps), uid, w)
    ensures var net := Run(t, steps);
            var n := End(t, Source(net, uid), w);
            n != Source(net, uid) ==> TopicsTold(n, net.published[uid].packet.msg.info) <= Interests(net, n)
  {
    hide Simple, Walk, Quiescent, Inv, Open, Run;
    var net := Run(t, steps);
    var s, n := Source(net, uid), End(t, Source(net, uid), w);
    if n != s {
      var r := WalkToSimple(t, s, w);
      assert OpenRoute(t, net, uid, r) by {
        forall i | 0 <= i < |r| ensures Open(t, net, uid, r[i]) {
          assert r[i] in w;
        }
      }
      DeliveredAlongOpenRoutes(t, steps, uid, r);
      RunTells(t, steps);
      SimpleIsWalk(t, s, r);
      assert Told(t, net, Event(uid, r));
    }
  }

  /** One publish call after another at a node. */
  function Publishing(node: NodeId, ps: seq<Packet>): seq<Step> {
    seq(|ps|, i requires 0 <= i < |ps| => Publish(node, ps[i]))
  }

  /** A node publishes a packet and whatever else, and then receiving goes on until
      nothing is in flight. */
  lemma PublishAndSettle(t: Topology, steps: seq<Step>, node: NodeId, p: Packet, more: seq<Packet>)
      returns (settle: seq<Step>)
    requires Wired(t) && p.meta.path == [] && p.meta.topic != ANY
    ensures forall i | 0 <= i < |settle| :: settle[i].Receive?
    ensures var net, net' := Run(t, steps), Run(t, steps + Publishing(node, [p] + more) + settle);
            && Quiescent(net') && |net'.published| > |net.published|
            && net'.published[|net.published|] == Published(node, p, net.interests)
  {
    hide Run, Next, Quiescent;
    var one, calls := [Publish(node, p)], Publishing(node, [p] + more);
    settle := EveryRunCanSettle(t, steps + calls);
    RunNext(t, steps, Publish(node, p));
    PublishedLast(t, Run(t, steps), node, p);
    assert steps + one + calls[1..] == steps + calls by { assert calls == one + calls[1..]; }
    RunExtends(t, steps + one, calls[1..]);
    RunExtends(t, steps + calls, settle);
  }

  lemma PublishedLast(t: Topology, net: Net, node: NodeId, p: Packet)
    requires |t.peer| == |t.owner| == |t.allowInternal| == |net.queues| == |net.associated|
    requires forall q | 0 <= q < |t.peer| :: t.peer[q] < |t.owner|
    requires p.meta.path == [] && p.meta.topic != ANY
    ensures Next(t, net, Publish(node, p)).published == net.published + [Published(node, p, net.interests)]
  {
    hide PassesOn;
  }

  // ---- a subscription, and what it brings ---------------------------------

  /** On an acyclic mesh of `allow_internal` links: a node has announced itself with a
      topic, and the mesh is quiescent. What is published on the topic after that, at any
      node connected to it, it dispatches exactly once when the mesh is quiescent again. */
  lemma SubscriberHearsOnce(t: Topology, before: seq<Step>, announced: nat, x: NodeId, p: Packet,
                            after: seq<Step>, w: Route)
    requires Wired(t) && Acyclic(t) && AllowInternal(t) && Quiescent(Run(t, before))
    requires announced < |Run(t, before).published| && Announcing(Run(t, before).published[announced].packet)
    requires Run(t, before).published[announced].packet.msg.info.id == Source(Run(t, before), announced)
    requires p.meta.topic in Run(t, before).published[announced].packet.msg.info.inTopics
    requires p.meta.topic != ANY && p.meta.path == [] && !p.localOnly && !p.meta.droppable
    requires Walk(t, x, w) && End(t, x, w) == Source(Run(t, before), announced)
    requires Quiescent(Run(t, before + [Publish(x, p)] + after))
    ensures var net := Run(t, before + [Publish(x, p)] + after);
            var uid, s := |Run(t, before).published|, End(t, x, w);
            && uid < |net.published| && net.published[uid].packet == p && Source(net, uid) == x
            && Inv(t, net) && AtLeastOnce(t, net, uid, s) && AtMostOnce(t, net, uid, s)
  {
    hide Simple, Walk, Quiescent, Inv, Run, Next, Acyclic, Announcing, Passable;
    var one, steps := before + [Publish(x, p)], before + [Publish(x, p)] + after;
    var net, uid, s := Run(t, steps), |Run(t, before).published|, End(t, x, w);
    RunNext(t, before, Publish(x, p));
    PublishedLast(t, Run(t, before), x, p);
    RunExtends(t, one, after);
    assert net.published[uid] == Published(x, p, Run(t, before).interests);
    var r := WalkToSimple(t, x, w);
    assert OpenRoute(t, net, uid, r) by {
      forall i | 0 <= i < |r| ensures Open(t, net, uid, r[i]) {
        SubscribedOnTheWay(t, before, announced, x, r, i);
        TopicPasses(t, Run(t, before).interests, p, r[i]);
      }
    }
    SimpleIsWalk(t, x, r);
    AcyclicExactlyOnce(t, steps, uid, r);
  }

  lemma TopicPasses(t: Topology, interests: map<NodeId, set<Topic>>, p: Packet, q: Port)
    requires |t.owner| == |t.allowInternal| && q < |t.owner|
    requires !p.localOnly && p.meta.topic in KeysOf(interests, t.owner[q])
    ensures Passable(t, interests, p, q)
  {}

  /** Every node on a simple route to the subscriber counts its topics. */
  lemma SubscribedOnTheWay(t: Topology, before: seq<Step>, announced: nat, x: NodeId, r: Route, i: nat)
    requires Wired(t) && AllowInternal(t) && Quiescent(Run(t, before))
    requires announced < |Run(t, before).published| && Announcing(Run(t, before).published[announced].packet)
    requires var info := Run(t, before).published[announced].packet.msg.info;
             info.id == Source(Run(t, before), announced)
    requires Simple(t, x, r) && End(t, x, r) == Source(Run(t, before), announced) && i < |r|
    ensures r[i] < |t.owner|
    ensures var info := Run(t, before).published[announced].packet.msg.info;
            forall topic | topic in info.inTopics :: topic in Interests(Run(t, before), t.owner[r[i]])
  {
    hide Quiescent, Run, Inv, Open;
    var net, n := Run(t, before), t.owner[r[i]];
    var s := Source(net, announced);
    assert n == Senders(t, x, r)[i] && n != s;
    JoinedOnWalk(t, x, r, i);
    assert Joined(t, x, s);
    JoinedBack(t, x, s);
    JoinedThrough(t, s, x, n);
    var w :| Walk(t, s, w) && End(t, s, w) == n;
    InternalFloods(t, net, announced);
    assert OpenRoute(t, net, announced, w);
    AnnouncedIsCounted(t, before, announced, w);
  }
}
