// One queue of the mesh, and a link end to end: what a link does between send and next is
// what the mesh takes a queue to do.

module LinkQueues {
  import opened Packets
  import opened PacketOrders
  import opened RemoteNodes
  import opened Topologies
  import opened TcpBuffers
  import opened TcpChannels
  import opened Links
  import Flood
  import FloodSafety

  /** A queue that may lose droppable packets; `put` and `taken` are history. */
  datatype Queue = Queue(waiting: seq<Packet>, put: seq<Packet>, taken: seq<Packet>)

  datatype QueueStep = Append(packet: Packet) | Drop(index: nat) | Pop

  function Without(ps: seq<Packet>, i: nat): seq<Packet>
    requires i < |ps|
  {
    ps[..i] + ps[i + 1..]
  }

  function QueueAfter(w: Queue, step: QueueStep): Queue {
    match step
    case Append(p) => Queue(w.waiting + [p], w.put + [p], w.taken)
    case Drop(i) =>
      if i < |w.waiting| && w.waiting[i].meta.droppable then w.(waiting := Without(w.waiting, i)) else w
    case Pop =>
      if w.waiting == [] then w else Queue(w.waiting[1..], w.put, w.taken + [w.waiting[0]])
  }

  function QueueFrom(w: Queue, steps: seq<QueueStep>): Queue {
    if steps == [] then w else QueueAfter(QueueFrom(w, steps[..|steps| - 1]), steps[|steps| - 1])
  }

  lemma {:induction false} QueueOn(w: Queue, a: seq<QueueStep>, b: seq<QueueStep>)
    ensures QueueFrom(QueueFrom(w, a), b) == QueueFrom(w, a + b)
    decreases |b|
  {
    if b == [] {
      assert a + b == a;
    } else {
      assert (a + b)[..|a + b| - 1] == a + b[..|b| - 1];
      QueueOn(w, a, b[..|b| - 1]);
    }
  }

  lemma FewSteps(w: Queue, one: QueueStep, two: QueueStep)
    ensures QueueFrom(w, []) == w && QueueFrom(w, [one]) == QueueAfter(w, one)
    ensures QueueFrom(w, [one, two]) == QueueAfter(QueueAfter(w, one), two)
  {
    assert [one][..0] == [] && [one, two][..1] == [one];
  }

  // ---- a link is such a queue ---------------------------------------------

  /** What is between send and next, oldest first: received, on the wire as q, queued. */
  function Pipeline(l: Link, q: seq<Packet>): seq<Packet> { l.receiver.incoming + q + l.sender.out }

  function AsQueue(l: Link, q: seq<Packet>): Queue { Queue(Pipeline(l, q), l.sent, l.delivered) }

  /** send appends; a refused packet is one appended and dropped at once. */
  lemma SendIsAppend(c: Codec, l: Link, q: seq<Packet>, p: Packet) returns (steps: seq<QueueStep>)
    requires InvWith(c, l, q)
    ensures AsQueue(After(c, l, Send(p)), q) == QueueFrom(AsQueue(l, q), steps)
    ensures Sendable(c, p) ==> steps != [] && steps[0] == Append(p)
    ensures forall i | 1 <= i < |steps| :: steps[i].Drop?
  {
    hide Explains, BufferOk, Waiting, QueueFrom;
    var w, n := AsQueue(l, q), |Pipeline(l, q)|;
    FewSteps(w, Append(p), Drop(n));
    if !Sendable(c, p) {
      steps := [];
    } else {
      SentExactly(l.sender, p);
      SentFrame(l.sender, p);
      if p.meta.droppable && Waiting(l.sender.out, p.meta.topic) {
        steps := [Append(p), Drop(n)];
        assert Without(w.waiting + [p], n) == w.waiting;
      } else {
        steps := [Append(p)];
        assert Pipeline(l, q) + [p] == l.receiver.incoming + q + (l.sender.out + [p]);
      }
    }
  }

  /** Draining moves packets on within the queue. */
  lemma DrainIsNothing(c: Codec, l: Link, q: seq<Packet>)
    ensures AsQueue(After(c, l, Drain), q + l.sender.out) == AsQueue(l, q)
  {
    assert Pipeline(After(c, l, Drain), q + l.sender.out) == Pipeline(l, q);
  }

  /** The first of q moved on, and the first of q taken out. */
  lemma OneOfThree(r: seq<Packet>, q: seq<Packet>, out: seq<Packet>)
    requires q != []
    ensures |r + q + out| > |r| && (r + q + out)[|r|] == q[0]
    ensures r + [q[0]] + q[1..] + out == r + q + out
    ensures Without(r + q + out, |r|) == r + q[1..] + out
  {
    assert q == [q[0]] + q[1..];
  }

  /** Reading moves one on, or drops it, if it is droppable. */
  lemma ReadIsDrop(c: Codec, l: Link, q: seq<Packet>, first: Recv, second: Recv)
      returns (q': seq<Packet>, steps: seq<QueueStep>)
    requires Faithful(c) && InvWith(c, l, q)
    ensures InvWith(c, After(c, l, Read(first, second)), q')
    ensures AsQueue(After(c, l, Read(first, second)), q') == QueueFrom(AsQueue(l, q), steps)
    ensures forall i | 0 <= i < |steps| :: steps[i].Drop?
  {
    hide Explains, BufferOk, ReadOnce, Accepted, Waiting, Faithful, Encoded, QueueFrom;
    var w, n, e := AsQueue(l, q), |l.receiver.incoming|, ReadOnce(l.channel, first, second);
    q' := ReadKeeps(c, l, q, first, second);
    FewSteps(w, Drop(n), Drop(n));
    steps := [];
    if e.received <= l.wire {
      ReadDecodes(c, l, q, first, second);
      if e.result.Frame? {
        var p, r, out := q[0], l.receiver.incoming, l.sender.out;
        AcceptedExactly(l.receiver, p);
        AcceptedFrame(l.receiver, p);
        OneOfThree(r, q, out);
        if p.meta.droppable && Waiting(r, p.meta.topic) {
          steps := [Drop(n)];
        }
      }
    }
  }

  /** next pops. */
  lemma NextIsPop(c: Codec, l: Link, q: seq<Packet>) returns (steps: seq<QueueStep>)
    ensures AsQueue(After(c, l, Next), q) == QueueFrom(AsQueue(l, q), steps)
    ensures steps == if l.receiver.incoming == [] then [] else [Pop]
  {
    FewSteps(AsQueue(l, q), Pop, Pop);
    steps := [];
    if l.receiver.incoming != [] {
      steps := [Pop];
      assert Pipeline(After(c, l, Next), q) == Pipeline(l, q)[1..];
      assert QueueAfter(AsQueue(l, q), Pop) == AsQueue(After(c, l, Next), q);
    }
  }

  /** Every run of a link is a run of such a queue, packet by packet: what was sent was
      put, what was delivered was taken, and what is under way is waiting. */
  lemma {:induction false} LinkIsQueue(c: Codec, steps: seq<Step>)
      returns (qs: seq<QueueStep>, q: seq<Packet>)
    requires Faithful(c)
    ensures InvWith(c, Run(c, steps), q)
    ensures AsQueue(Run(c, steps), q) == QueueFrom(Queue([], [], []), qs)
  {
    hide InvWith, After, Faithful, QueueFrom;
    if steps == [] {
      qs, q := [], [];
      IdleInv(c);
      FewSteps(Queue([], [], []), Pop, Pop);
    } else {
      var l, step := Run(c, steps[..|steps| - 1]), steps[|steps| - 1];
      var front: seq<QueueStep>, more: seq<QueueStep>;
      front, q := LinkIsQueue(c, steps[..|steps| - 1]);
      match step {
        case Send(p) =>
          SendKeeps(c, l, q, p);
          more := SendIsAppend(c, l, q, p);
        case Drain =>
          DrainKeeps(c, l, q);
          DrainIsNothing(c, l, q);
          FewSteps(AsQueue(l, q), Pop, Pop);
          more, q := [], q + l.sender.out;
        case Read(first, second) =>
          q, more := ReadIsDrop(c, l, q, first, second);
        case Next =>
          NextKeeps(c, l, q);
          more := NextIsPop(c, l, q);
      }
      qs := front + more;
      QueueOn(Queue([], [], []), front, more);
    }
  }

  // ---- and so is every queue of the mesh ----------------------------------

  function PacketsOf(cs: seq<Flood.Copy>): (ps: seq<Packet>)
    ensures |ps| == |cs|
  {
    seq(|cs|, i requires 0 <= i < |cs| => cs[i].packet)
  }

  lemma PacketsAppend(cs: seq<Flood.Copy>, c: Flood.Copy)
    ensures PacketsOf(cs + [c]) == PacketsOf(cs) + [c.packet]
  {}

  lemma PacketsWithout(cs: seq<Flood.Copy>, i: nat)
    requires i < |cs|
    ensures PacketsOf(cs[..i] + cs[i + 1..]) == Without(PacketsOf(cs), i)
    ensures PacketsOf(cs[1..]) == PacketsOf(cs)[1..]
  {}

  /** A queue after a step of the mesh: one packet more, at the end, or no change. */
  ghost predicate OneMore(before: seq<Packet>, after: seq<Packet>) {
    after == before || exists p :: after == before + [p]
  }

  lemma DispatchAppends(t: Topology, net: Flood.Net, node: NodeId, arrival: int, c: Flood.Copy, r: Port)
    requires Wired(t) && |net.queues| == |t.owner| && r < |t.owner|
    ensures OneMore(PacketsOf(net.queues[r]), PacketsOf(Flood.Dispatch(t, net, node, arrival, c).queues[r]))
    ensures t.owner[t.peer[r]] != node ==> Flood.Dispatch(t, net, node, arrival, c).queues[r] == net.queues[r]
  {
    var p := t.peer[r];
    if Flood.PassesOn(t, net, node, arrival, p, c.packet) {
      PacketsAppend(net.queues[r], Flood.Copy(Stamped(c.packet, node), c.uid, c.route + [p]));
    }
  }

  /** What a node takes from a link it does not put back into it. */
  lemma ReceivePops(t: Topology, net: Flood.Net, r: Port)
    requires Wired(t) && FloodSafety.Inv(t, net) && r < |net.queues| && net.queues[r] != []
    ensures Flood.Next(t, net, Flood.Receive(r)).queues[r] == net.queues[r][1..]
  {
    hide FloodSafety.Inv, Flood.PassesOn;
    FloodSafety.InvShape(t, net);
    FloodSafety.HeadOk(t, net, r);
    if !Suppressed(t.owner[r], net.queues[r][0].packet) {
      DispatchAppends(t, Flood.Heard(net, r, t.owner[r]), t.owner[r], r, net.queues[r][0], r);
    }
  }

  /** A step of the mesh pops from queue r, drops a droppable packet from it, appends a
      packet to it, or leaves it alone. */
  lemma MeshQueueStep(t: Topology, net: Flood.Net, step: Flood.Step, r: Port)
    requires Wired(t) && FloodSafety.Inv(t, net) && r < |t.owner|
    ensures |net.queues| == |t.owner|
    ensures var w, after := PacketsOf(net.queues[r]), PacketsOf(Flood.Next(t, net, step).queues[r]);
            match step
            case Receive(q) => if q == r then after == QueueAfter(Queue(w, [], []), Pop).waiting else OneMore(w, after)
            case Conflate(q, i) => after == if q == r then QueueAfter(Queue(w, [], []), Drop(i)).waiting else w
            case Publish(_, _) => OneMore(w, after)
  {
    hide FloodSafety.Inv, Flood.PassesOn, OneMore, Suppressed;
    FloodSafety.InvShape(t, net);
    Unchanged(PacketsOf(net.queues[r]));
    match step
    case Receive(q) =>
      if q < |net.queues| && net.queues[q] != [] {
        if q == r {
          ReceivePops(t, net, r);
          PacketsWithout(net.queues[r], 0);
        } else {
          DispatchAppends(t, Flood.Heard(net, q, t.owner[q]), t.owner[q], q, net.queues[q][0], r);
        }
      }
    case Conflate(q, i) =>
      if q == r && i < |net.queues[r]| {
        PacketsWithout(net.queues[r], i);
      }
    case Publish(node, packet) =>
      var logged := net.(published := net.published + [Flood.Published(node, packet, net.interests)]);
      DispatchAppends(t, logged, node, -1, Flood.Copy(packet, |net.published|, []), r);
  }

  lemma Unchanged(ps: seq<Packet>)
    ensures OneMore(ps, ps)
  {}
}
