// One direction of a link end to end: the sender's queue (tcp_thread::send and the
// writing half of run), the socket, the reassembler, the receiver's queue (the reading
// half of run and tcp_thread::next). Each critical section is one step.

module Links {
  import opened Numbers
  import opened Packets
  import opened PacketOrders
  import opened TcpBuffers
  import opened TcpChannels

  /** How packets become BSON documents: packet::build and the parsing constructor. */
  datatype Codec = Codec(encode: Packet -> seq<Byte>, decode: seq<Byte> -> Packet)

  /** The packet's document is well formed, its length fitting the int32 prefix, and
      the packet is meant for the network at all. */
  predicate Sendable(c: Codec, p: Packet) {
    !p.localOnly && WellFormed(c.encode(p))
  }

  /** Decoding gives back what was encoded. */
  ghost predicate Faithful(c: Codec) {
    forall p: Packet :: Sendable(c, p) ==> c.decode(c.encode(p)) == p
  }

  datatype Link = Link(
    sender: Buffer,
    wire: seq<Byte>,           // sent and not received yet
    channel: seq<Byte>,        // the receiver's _buffer
    receiver: Buffer,
    refused: nat,              // history: how often send refused a packet since the last drain
    sent: seq<Packet>,         // history: the arguments of send, in order
    delivered: seq<Packet>)    // history: the results of next, in order

  const IDLE: Link := Link(EMPTY, [], [], EMPTY, 0, [], [])

  datatype Step =
    | Send(packet: Packet)
    | Drain
    | Read(first: Recv, second: Recv)
    | Next

  function Frames(c: Codec, ps: seq<Packet>): seq<seq<Byte>> {
    if ps == [] then [] else [c.encode(ps[0])] + Frames(c, ps[1..])
  }

  function Encoded(c: Codec, ps: seq<Packet>): seq<Byte> { Concat(Frames(c, ps)) }

  /** A step that cannot happen, such as receiving bytes that are not on the wire,
      leaves the link as it is. */
  function After(c: Codec, l: Link, step: Step): Link {
    match step
    case Send(p) =>
      if !Sendable(c, p) then l
      else
        var sender := Sent(l.sender, p);
        l.(sender := sender, refused := if sender.out == l.sender.out then l.refused + 1 else l.refused,
           sent := l.sent + [p])
    case Drain =>
      l.(wire := l.wire + Encoded(c, l.sender.out), sender := Drained(l.sender), refused := 0)
    case Read(first, second) =>
      var e := ReadOnce(l.channel, first, second);
      if !(e.received <= l.wire) then l
      else
        var taken := l.(wire := l.wire[|e.received|..], channel := e.buffer);
        if e.result.Frame? then taken.(receiver := Accepted(l.receiver, c.decode(e.result.bytes))) else taken
    case Next =>
      if l.receiver.incoming == [] then l
      else l.(receiver := Popped(l.receiver), delivered := l.delivered + [l.receiver.incoming[0]])
  }

  function Run(c: Codec, steps: seq<Step>): Link {
    if steps == [] then IDLE else After(c, Run(c, steps[..|steps| - 1]), steps[|steps| - 1])
  }

  // ---- the invariant ------------------------------------------------------

  ghost predicate AllSendable(c: Codec, ps: seq<Packet>) {
    forall i | 0 <= i < |ps| :: Sendable(c, ps[i])
  }

  /** With q the packets whose bytes are on the wire or in the reassembler. */
  ghost predicate InvWith(c: Codec, l: Link, q: seq<Packet>) {
    && BufferOk(l.sender) && BufferOk(l.receiver)
    && l.channel + l.wire == Encoded(c, q)
    && AllSendable(c, q) && AllSendable(c, l.sender.out)
    && Explains(l.delivered + l.receiver.incoming + q + l.sender.out, l.sent)
  }

  ghost predicate Inv(c: Codec, l: Link) {
    exists q :: InvWith(c, l, q)
  }

  lemma {:induction false} FramesConcat(c: Codec, a: seq<Packet>, b: seq<Packet>)
    ensures Encoded(c, a + b) == Encoded(c, a) + Encoded(c, b)
  {
    if a == [] {
      assert a + b == b;
    } else {
      assert (a + b)[1..] == a[1..] + b;
      FramesConcat(c, a[1..], b);
      EncodedHead(c, a);
      EncodedHead(c, a + b);
    }
  }

  lemma EncodedHead(c: Codec, a: seq<Packet>)
    requires a != []
    ensures Frames(c, a)[1..] == Frames(c, a[1..])
    ensures Encoded(c, a) == c.encode(a[0]) + Encoded(c, a[1..])
  {
    assert Frames(c, a)[1..] == Frames(c, a[1..]);
  }

  lemma {:induction false} FramesWellFormed(c: Codec, ps: seq<Packet>)
    requires AllSendable(c, ps)
    ensures AllWellFormed(Frames(c, ps))
  {
    if ps != [] {
      FramesWellFormed(c, ps[1..]);
      var f := Frames(c, ps);
      assert forall i | 1 <= i < |f| :: f[i] == Frames(c, ps[1..])[i - 1];
    }
  }

  lemma SendKeeps(c: Codec, l: Link, q: seq<Packet>, p: Packet)
    requires InvWith(c, l, q)
    ensures InvWith(c, After(c, l, Send(p)), q)
  {
    hide Explains, BufferOk, Sent, Waiting;
    var l' := After(c, l, Send(p));
    var front := l.delivered + l.receiver.incoming + q;
    if Sendable(c, p) {
      SentExactly(l.sender, p);
      if p.meta.droppable && Waiting(l.sender.out, p.meta.topic) {
        WaitingHasFirst(l.sender.out, p.meta.topic);
        FirstConcat(front, l.sender.out, p.meta.topic);
        ExplainsRefuse(front + l.sender.out, l.sent, p);
      } else {
        ExplainsAppend(front + l.sender.out, l.sent, p);
        assert front + l.sender.out + [p] == front + (l.sender.out + [p]);
      }
      SentFrame(l.sender, p);
    }
  }

  lemma SentFrame(b: Buffer, p: Packet)
    ensures Sent(b, p).incoming == b.incoming
  {}

  lemma DrainKeeps(c: Codec, l: Link, q: seq<Packet>)
    requires InvWith(c, l, q)
    ensures InvWith(c, After(c, l, Drain), q + l.sender.out)
  {
    hide Explains, BufferOk;
    var front := l.delivered + l.receiver.incoming;
    FramesConcat(c, q, l.sender.out);
    assert l.channel + (l.wire + Encoded(c, l.sender.out)) == l.channel + l.wire + Encoded(c, l.sender.out);
    assert front + (q + l.sender.out) + [] == front + q + l.sender.out;
    DrainedOk(l.sender);
  }

  lemma NextKeeps(c: Codec, l: Link, q: seq<Packet>)
    requires InvWith(c, l, q)
    ensures InvWith(c, After(c, l, Next), q)
  {
    hide Explains, BufferOk;
    if l.receiver.incoming != [] {
      PoppedOk(l.receiver);
      var r := l.receiver.incoming;
      assert l.delivered + [r[0]] + r[1..] == l.delivered + r;
    }
  }

  /** A successful read takes the oldest packet off the stream and decodes it. */
  lemma ReadDecodes(c: Codec, l: Link, q: seq<Packet>, first: Recv, second: Recv)
    requires Faithful(c) && InvWith(c, l, q)
    requires ReadOnce(l.channel, first, second).received <= l.wire
    ensures var e := ReadOnce(l.channel, first, second);
            var rest := l.wire[|e.received|..];
            if e.result.Frame?
            then q != [] && c.decode(e.result.bytes) == q[0] && e.buffer + rest == Encoded(c, q[1..])
            else e.buffer + rest == Encoded(c, q)
  {
    hide Explains, BufferOk, ReadOnce;
    var e := ReadOnce(l.channel, first, second);
    var rest := l.wire[|e.received|..];
    assert e.received + rest == l.wire;
    assert l.channel + e.received + rest == l.channel + l.wire;
    FramesWellFormed(c, q);
    ReadFromStream(l.channel, rest, Frames(c, q), first, second);
    if e.result.Frame? {
      EncodedHead(c, q);
      assert Frames(c, q)[0] == c.encode(q[0]);
      assert Sendable(c, q[0]);
    }
  }

  lemma ReadKeeps(c: Codec, l: Link, q: seq<Packet>, first: Recv, second: Recv) returns (q': seq<Packet>)
    requires Faithful(c) && InvWith(c, l, q)
    ensures InvWith(c, After(c, l, Read(first, second)), q')
    ensures var e := ReadOnce(l.channel, first, second);
            if e.received <= l.wire && e.result.Frame? then q != [] && q' == q[1..] else q' == q
  {
    hide Explains, BufferOk, ReadOnce, Accepted, Waiting, Faithful, Encoded;
    var e := ReadOnce(l.channel, first, second);
    q' := q;
    if e.received <= l.wire {
      ReadDecodes(c, l, q, first, second);
      if e.result.Frame? {
        q' := q[1..];
        var p, r, out := q[0], l.receiver.incoming, l.sender.out;
        AcceptedExactly(l.receiver, p);
        AcceptedFrame(l.receiver, p);
        if p.meta.droppable && Waiting(r, p.meta.topic) {
          assert l.delivered + r + q + out == (l.delivered + r) + [p] + (q' + out);
          WaitingHasFirst(r, p.meta.topic);
          FirstConcat(l.delivered, r, p.meta.topic);
          ExplainsConflate(l.delivered + r, p, q' + out, l.sent);
          assert (l.delivered + r) + (q' + out) == l.delivered + r + q' + out;
        } else {
          assert l.delivered + r + q + out == l.delivered + (r + [p]) + q' + out;
        }
      }
    }
  }

  lemma AcceptedFrame(b: Buffer, p: Packet)
    ensures Accepted(b, p).out == b.out
  {}

  /** Every run keeps the invariant. */
  lemma {:induction false} RunInv(c: Codec, steps: seq<Step>)
    requires Faithful(c)
    ensures Inv(c, Run(c, steps))
  {
    hide InvWith, After, Faithful;
    if steps == [] {
      IdleInv(c);
    } else {
      RunInv(c, steps[..|steps| - 1]);
      var l, step := Run(c, steps[..|steps| - 1]), steps[|steps| - 1];
      var q :| InvWith(c, l, q);
      match step
      case Send(p) => SendKeeps(c, l, q, p);
      case Drain => DrainKeeps(c, l, q);
      case Read(first, second) => var q' := ReadKeeps(c, l, q, first, second);
      case Next => NextKeeps(c, l, q);
    }
  }

  lemma IdleInv(c: Codec)
    ensures InvWith(c, IDLE, [])
  {}

  // ---- the link as a whole ------------------------------------------------

  /** For every interleaving of send, drain, chunked reads and next: what was delivered
      is what was sent with some packets taken out, and restricted to packets that are
      not droppable it is a prefix of what was sent. */
  lemma LinkRefinesFifo(c: Codec, steps: seq<Step>)
    requires Faithful(c)
    ensures var l := Run(c, steps);
            Subsequence(l.delivered, l.sent) && Kept(l.delivered) <= Kept(l.sent)
  {
    hide Run, BufferOk, AllSendable, Encoded, Faithful, Subsequence, Kept, First;
    RunInv(c, steps);
    var l := Run(c, steps);
    var q :| InvWith(c, l, q);
    var rest := l.receiver.incoming + q + l.sender.out;
    assert l.delivered + l.receiver.incoming + q + l.sender.out == l.delivered + rest;
    SubsequencePrefix(l.delivered, rest, l.sent);
    KeptConcat(l.delivered, rest);
  }

  /** The first droppable packet delivered on a topic is the first one sent on it. */
  lemma FirehoseDeliversOldest(c: Codec, steps: seq<Step>, topic: Topic)
    requires Faithful(c)
    ensures var l := Run(c, steps);
            First(l.delivered, topic) != [] ==> First(l.delivered, topic) == First(l.sent, topic)
  {
    RunInv(c, steps);
    var l := Run(c, steps);
    var q :| InvWith(c, l, q);
    var rest := l.receiver.incoming + q + l.sender.out;
    assert l.delivered + l.receiver.incoming + q + l.sender.out == l.delivered + rest;
    FirstConcat(l.delivered, rest, topic);
  }

  /** At every point of every interleaving the counter of the sender is the number of
      packets it has refused since the last drain, modulo its width. */
  lemma {:induction false} RefusalsCounted(c: Codec, steps: seq<Step>)
    ensures BufferOk(Run(c, steps).sender)
    ensures Run(c, steps).sender.rejectOutCount == Run(c, steps).refused % U32
  {
    hide BufferOk, Sent, ReadOnce, Waiting;
    if steps == [] {
      EmptyOk();
    } else {
      var l := Run(c, steps[..|steps| - 1]);
      RefusalsCounted(c, steps[..|steps| - 1]);
      match steps[|steps| - 1]
      case Send(p) =>
        SentExactly(l.sender, p);
        SentCounts(l.sender, p);
        ModAdd(l.refused, 1);
      case Drain => DrainedOk(l.sender);
      case Read(_, _) =>
      case Next =>
    }
  }

  lemma EmptyOk()
    ensures BufferOk(EMPTY)
  {}

  ghost predicate Empty(l: Link) {
    l.sender.out == [] && l.wire == [] && l.channel == [] && l.receiver.incoming == []
  }

  lemma SomethingEncoded(c: Codec, q: seq<Packet>)
    requires AllSendable(c, q) && q != []
    ensures Encoded(c, q) != []
  {
    EncodedHead(c, q);
    assert Sendable(c, q[0]);
  }

  /** Once nothing is under way, every packet that is not droppable has been delivered,
      and of every topic that had droppable packets the first one. */
  lemma EmptyLinkLostNothing(c: Codec, steps: seq<Step>)
    requires Faithful(c) && Empty(Run(c, steps))
    ensures var l := Run(c, steps);
            && Kept(l.delivered) == Kept(l.sent)
            && forall topic: Topic :: First(l.delivered, topic) == First(l.sent, topic)
  {
    RunInv(c, steps);
    var l := Run(c, steps);
    var q :| InvWith(c, l, q);
    if q != [] {
      SomethingEncoded(c, q);
    }
    assert l.delivered + l.receiver.incoming + q + l.sender.out == l.delivered;
  }

  // ---- and it can always be emptied ---------------------------------------

  function RunFrom(c: Codec, l: Link, steps: seq<Step>): Link
    decreases |steps|
  {
    if steps == [] then l else RunFrom(c, After(c, l, steps[0]), steps[1..])
  }

  /** As much of the wire as one call of recv can take. */
  function NextChunk(wire: seq<Byte>): (chunk: Chunk)
    ensures chunk <= wire && (|chunk| == 0xFFFF || chunk == wire)
  {
    wire[..Least(RECV_SIZE, |wire|)]
  }

  /** One more call of recv returns the first frame under way, or takes something off
      the wire towards it; with nothing left on the wire the frame is there. */
  lemma ReadProgresses(c: Codec, l: Link, q: seq<Packet>)
    requires InvWith(c, l, q) && q != []
    ensures var e := ReadOnce(l.channel, Received(NextChunk(l.wire)), Received([]));
            e.received <= l.wire && (e.result.Frame? || e.received != [])
  {
    hide Explains, BufferOk, FrameLength;
    if l.wire == [] {
      FramesWellFormed(c, q);
      assert l.channel + [] == l.channel + l.wire == l.channel;
      EncodedHead(c, q);
      assert |l.channel| >= |c.encode(q[0])| && WellFormed(c.encode(q[0])) by { assert Sendable(c, q[0]); }
      FirstFrame(l.channel, [], Frames(c, q));
      assert Frames(c, q)[0] == c.encode(q[0]);
    }
  }

  /** Draining, receiving chunk by chunk and taking empties a link. A chunk need not
      complete a frame; then there is less on the wire. */
  lemma {:induction false} CanEmpty(c: Codec, l: Link, q: seq<Packet>) returns (steps: seq<Step>)
    requires Faithful(c) && InvWith(c, l, q)
    ensures Empty(RunFrom(c, l, steps)) && RunFrom(c, l, steps).sent == l.sent
    decreases 3 * |l.sender.out| + 2 * |q| + |l.receiver.incoming|, |l.wire|
  {
    hide InvWith, ReadOnce, Faithful, Accepted;
    if l.receiver.incoming != [] {
      NextKeeps(c, l, q);
      var rest := CanEmpty(c, After(c, l, Next), q);
      steps := [Next] + rest;
    } else if l.sender.out != [] {
      DrainKeeps(c, l, q);
      var rest := CanEmpty(c, After(c, l, Drain), q + l.sender.out);
      steps := [Drain] + rest;
    } else if q != [] {
      var read := Read(Received(NextChunk(l.wire)), Received([]));
      ReadProgresses(c, l, q);
      var q' := ReadGoesOn(c, l, q, read.first, read.second);
      var rest := CanEmpty(c, After(c, l, read), q');
      steps := [read] + rest;
    } else {
      steps := [];
      assert l.channel == [] && l.wire == [] by { NothingUnderWay(c, l); }
    }
  }

  lemma NothingUnderWay(c: Codec, l: Link)
    requires InvWith(c, l, [])
    ensures l.channel == [] && l.wire == []
  {
    assert l.channel + l.wire == [];
    assert |l.channel| + |l.wire| == 0;
  }

  lemma ReadGoesOn(c: Codec, l: Link, q: seq<Packet>, first: Recv, second: Recv) returns (q': seq<Packet>)
    requires Faithful(c) && InvWith(c, l, q) && q != []
    requires var e := ReadOnce(l.channel, first, second);
             e.received <= l.wire && (e.result.Frame? || e.received != [])
    ensures var l' := After(c, l, Read(first, second));
            && InvWith(c, l', q') && l'.sender == l.sender && l'.sent == l.sent
            && (|| (|q'| == |q| - 1 && |l'.receiver.incoming| <= |l.receiver.incoming| + 1)
                || (|q'| == |q| && l'.receiver == l.receiver && |l'.wire| < |l.wire|))
  {
    hide ReadOnce, Explains, BufferOk, Encoded;
    q' := ReadKeeps(c, l, q, first, second);
  }

  lemma {:induction false} RunFromIsRun(c: Codec, a: seq<Step>, b: seq<Step>)
    ensures RunFrom(c, Run(c, a), b) == Run(c, a + b)
    decreases |b|
  {
    hide After;
    if b == [] {
      assert a + b == a;
    } else {
      assert (a + [b[0]])[..|a|] == a && a + [b[0]] + b[1..] == a + b;
      RunFromIsRun(c, a + [b[0]], b[1..]);
    }
  }

  /** Whatever has happened, draining, reading and taking delivers all that is left. */
  lemma EveryRunCanEmpty(c: Codec, steps: seq<Step>) returns (rest: seq<Step>)
    requires Faithful(c)
    ensures Empty(Run(c, steps + rest)) && Run(c, steps + rest).sent == Run(c, steps).sent
  {
    RunInv(c, steps);
    var q :| InvWith(c, Run(c, steps), q);
    rest := CanEmpty(c, Run(c, steps), q);
    RunFromIsRun(c, steps, rest);
  }
}
