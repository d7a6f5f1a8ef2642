// The queues of one link inside libdaylite/src/tcp_thread.cpp, critical section by
// critical section, with the conflation of droppable ("firehose") packets.

module TcpBuffers {
  import opened Numbers
  import opened Packets
  import opened PacketOrders

  datatype Buffer = Buffer(
    incoming: seq<Packet>,      // in
    inFirehose: set<Topic>,
    out: seq<Packet>,
    outFirehose: set<Topic>,
    rejectOutCount: int)

  const EMPTY: Buffer := Buffer([], {}, [], {}, 0)

  /** tcp_thread::send: a droppable packet is refused while one of its topic waits. */
  function Sent(b: Buffer, p: Packet): Buffer {
    if !p.meta.droppable then b.(out := b.out + [p])
    else if p.meta.topic in b.outFirehose then b.(rejectOutCount := (b.rejectOutCount + 1) % U32)
    else b.(out := b.out + [p], outFirehose := b.outFirehose + {p.meta.topic})
  }

  /** The writing half of the loop in run, once everything in `out` is written. */
  function Drained(b: Buffer): Buffer {
    b.(out := [], outFirehose := {}, rejectOutCount := 0)
  }

  /** The reading half of the loop in run, for one packet read. */
  function Accepted(b: Buffer, p: Packet): Buffer {
    if !p.meta.droppable then b.(incoming := b.incoming + [p])
    else if p.meta.topic in b.inFirehose then b
    else b.(incoming := b.incoming + [p], inFirehose := b.inFirehose + {p.meta.topic})
  }

  /** tcp_thread::next, on a queue that is not empty. */
  function Popped(b: Buffer): Buffer
    requires b.incoming != []
  {
    var p := b.incoming[0];
    b.(incoming := b.incoming[1..],
       inFirehose := if p.meta.droppable then b.inFirehose - {p.meta.topic} else b.inFirehose)
  }

  // ---- the firehose invariant ---------------------------------------------

  /** The set is exactly the topics of the droppable packets queued, one each. */
  ghost predicate Firehose(queue: seq<Packet>, topics: set<Topic>) {
    && (forall i | 0 <= i < |queue| :: queue[i].meta.droppable ==> queue[i].meta.topic in topics)
    && (forall topic | topic in topics ::
          exists i :: 0 <= i < |queue| && queue[i].meta.droppable && queue[i].meta.topic == topic)
    && (forall i, j | 0 <= i < j < |queue| && queue[i].meta.droppable && queue[j].meta.droppable ::
          queue[i].meta.topic != queue[j].meta.topic)
  }

  ghost predicate BufferOk(b: Buffer) {
    Firehose(b.incoming, b.inFirehose) && Firehose(b.out, b.outFirehose) && 0 <= b.rejectOutCount < U32
  }

  /** A droppable packet of the topic is waiting in the queue. */
  ghost predicate Waiting(queue: seq<Packet>, topic: Topic) {
    exists i :: 0 <= i < |queue| && queue[i].meta.droppable && queue[i].meta.topic == topic
  }

  lemma FirehoseAppend(queue: seq<Packet>, topics: set<Topic>, p: Packet)
    requires Firehose(queue, topics) && (p.meta.droppable ==> p.meta.topic !in topics)
    ensures Firehose(queue + [p], if p.meta.droppable then topics + {p.meta.topic} else topics)
  {
    var queue', topics' := queue + [p], if p.meta.droppable then topics + {p.meta.topic} else topics;
    forall topic | topic in topics'
      ensures exists i :: 0 <= i < |queue'| && queue'[i].meta.droppable && queue'[i].meta.topic == topic
    {
      if topic in topics {
        var i :| 0 <= i < |queue| && queue[i].meta.droppable && queue[i].meta.topic == topic;
        assert queue'[i] == queue[i];
      } else {
        assert queue'[|queue|] == p;
      }
    }
  }

  lemma FirehosePop(queue: seq<Packet>, topics: set<Topic>)
    requires Firehose(queue, topics) && queue != []
    ensures var p := queue[0];
            Firehose(queue[1..], if p.meta.droppable then topics - {p.meta.topic} else topics)
  {
    var p := queue[0];
    var topics' := if p.meta.droppable then topics - {p.meta.topic} else topics;
    forall topic | topic in topics'
      ensures exists i :: 0 <= i < |queue[1..]| && queue[1..][i].meta.droppable && queue[1..][i].meta.topic == topic
    {
      var i :| 0 <= i < |queue| && queue[i].meta.droppable && queue[i].meta.topic == topic;
      assert queue[1..][i - 1] == queue[i];
    }
  }

  /** A packet is refused or conflated away exactly when it is droppable and an older
      droppable packet of its topic is still queued; otherwise it is queued last. */
  lemma SentExactly(b: Buffer, p: Packet)
    requires BufferOk(b)
    ensures BufferOk(Sent(b, p))
    ensures Sent(b, p).out == if p.meta.droppable && Waiting(b.out, p.meta.topic) then b.out else b.out + [p]
  {
    if p.meta.droppable && p.meta.topic in b.outFirehose {
      assert Waiting(b.out, p.meta.topic);
    } else {
      FirehoseAppend(b.out, b.outFirehose, p);
    }
  }

  lemma AcceptedExactly(b: Buffer, p: Packet)
    requires BufferOk(b)
    ensures BufferOk(Accepted(b, p))
    ensures Accepted(b, p).incoming
         == if p.meta.droppable && Waiting(b.incoming, p.meta.topic) then b.incoming else b.incoming + [p]
  {
    if p.meta.droppable && p.meta.topic in b.inFirehose {
      assert Waiting(b.incoming, p.meta.topic);
    } else {
      FirehoseAppend(b.incoming, b.inFirehose, p);
    }
  }

  lemma PoppedOk(b: Buffer)
    requires BufferOk(b) && b.incoming != []
    ensures BufferOk(Popped(b))
  {
    FirehosePop(b.incoming, b.inFirehose);
  }

  lemma DrainedOk(b: Buffer)
    requires BufferOk(b)
    ensures BufferOk(Drained(b))
  {}

  /** The refusals among packets sent since the queue was last drained. */
  ghost function Refusals(b: Buffer, ps: seq<Packet>): nat
    decreases |ps|
  {
    if ps == [] then 0
    else (if Sent(b, ps[0]).out == b.out then 1 else 0) + Refusals(Sent(b, ps[0]), ps[1..])
  }

  function SentAll(b: Buffer, ps: seq<Packet>): Buffer
    decreases |ps|
  {
    if ps == [] then b else SentAll(Sent(b, ps[0]), ps[1..])
  }

  /** The counter is the number of refusals since the last drain, modulo its width, and
      every packet sent is either in the queue or counted. */
  lemma {:induction false} RejectCount(b: Buffer, ps: seq<Packet>)
    requires BufferOk(b)
    ensures BufferOk(SentAll(b, ps))
    ensures SentAll(b, ps).rejectOutCount == (b.rejectOutCount + Refusals(b, ps)) % U32
    ensures |SentAll(b, ps).out| + Refusals(b, ps) == |b.out| + |ps|
    decreases |ps|
  {
    hide BufferOk, Sent;
    assert 0 <= b.rejectOutCount < U32 by { CountInRange(b); }
    if ps != [] {
      SentExactly(b, ps[0]);
      SentCounts(b, ps[0]);
      RejectCount(Sent(b, ps[0]), ps[1..]);
      ModAdd(b.rejectOutCount + 1, Refusals(Sent(b, ps[0]), ps[1..]));
    }
  }

  lemma CountInRange(b: Buffer)
    requires BufferOk(b)
    ensures 0 <= b.rejectOutCount < U32
  {}

  lemma SentCounts(b: Buffer, p: Packet)
    requires BufferOk(b)
    ensures Sent(b, p).rejectOutCount
         == if Sent(b, p).out == b.out then (b.rejectOutCount + 1) % U32 else b.rejectOutCount
  {
    assert |b.out + [p]| != |b.out|;
  }

  lemma ModAdd(a: nat, k: nat)
    ensures (a % U32 + k) % U32 == (a + k) % U32
  {}

  // ---- reading up to a hundred packets ------------------------------------

  /** What one round of the reading loop meets: no input channel, a failed read, or a packet. */
  datatype ReadOutcome = NoChannel | Failed | Got(packet: Packet)

  /** Rounds of the reading loop per turn. */
  const ROUNDS: nat := 100

  /** The reading loop over what its rounds meet; when nothing more is foreseen, the
      next read fails. */
  function AcceptedAll(b: Buffer, rounds: seq<ReadOutcome>): Buffer
    decreases |rounds|
  {
    if rounds == [] then b
    else match rounds[0]
      case NoChannel => AcceptedAll(b, rounds[1..])
      case Failed => b
      case Got(p) => AcceptedAll(Accepted(b, p), rounds[1..])
  }

  function FirstRounds(rounds: seq<ReadOutcome>): seq<ReadOutcome> {
    if |rounds| > ROUNDS then rounds[..ROUNDS] else rounds
  }

  lemma {:induction false} WaitingHasFirst(ps: seq<Packet>, topic: Topic)
    requires Waiting(ps, topic)
    ensures First(ps, topic) != []
  {
    var i :| 0 <= i < |ps| && ps[i].meta.droppable && ps[i].meta.topic == topic;
    if i > 0 {
      assert ps[1..][i - 1] == ps[i];
      WaitingHasFirst(ps[1..], topic);
    }
  }

  /** The packets of the rounds up to the first failed read. */
  function PacketsRead(rounds: seq<ReadOutcome>): seq<Packet>
    decreases |rounds|
  {
    if rounds == [] || rounds[0].Failed? then []
    else (if rounds[0].Got? then [rounds[0].packet] else []) + PacketsRead(rounds[1..])
  }

  lemma {:induction false} ReadOn(good: seq<ReadOutcome>, rest: seq<ReadOutcome>)
    requires forall i | 0 <= i < |good| :: !good[i].Failed?
    ensures PacketsRead(good + rest) == PacketsRead(good) + PacketsRead(rest)
    decreases |good|
  {
    if good == [] {
      assert good + rest == rest;
    } else {
      assert (good + rest)[1..] == good[1..] + rest;
      ReadOn(good[1..], rest);
      var head := if good[0].Got? then [good[0].packet] else [];
      assert head + (PacketsRead(good[1..]) + PacketsRead(rest)) == head + PacketsRead(good[1..]) + PacketsRead(rest);
    }
  }

  /** Every packet of rounds that do not fail is read, and nothing after a failed one. */
  lemma ReadUpToFailure(good: seq<ReadOutcome>, p: Packet, rest: seq<ReadOutcome>)
    requires forall i | 0 <= i < |good| :: !good[i].Failed?
    ensures PacketsRead(good + [Got(p)]) == PacketsRead(good) + [p]
    ensures PacketsRead(good + [NoChannel]) == PacketsRead(good)
    ensures PacketsRead(good + ([Failed] + rest)) == PacketsRead(good)
  {
    ReadOn(good, [Got(p)]);
    ReadOn(good, [NoChannel]);
    ReadOn(good, [Failed] + rest);
    assert [Got(p)][1..] == [] && [NoChannel][1..] == [];
  }

  /** A hundred rounds at most. */
  lemma FirstRoundsExactly(rounds: seq<ReadOutcome>)
    ensures FirstRounds(rounds) == rounds[..Least(100, |rounds|)]
  {}

  /** What the reading loop leaves in the queue is what was there and what was read, with
      nothing missing but droppable packets behind an older one of their topic; it does
      nothing to the rest of the buffer. */
  lemma {:induction false} AcceptedAllExactly(b: Buffer, rounds: seq<ReadOutcome>)
    requires BufferOk(b)
    ensures var r := AcceptedAll(b, rounds);
            && BufferOk(r) && r == b.(incoming := r.incoming, inFirehose := r.inFirehose)
            && b.incoming <= r.incoming && Explains(r.incoming, b.incoming + PacketsRead(rounds))
    decreases |rounds|
  {
    hide BufferOk, Explains, Accepted, Waiting;
    if rounds == [] {
      assert b.incoming + [] == b.incoming;
      ExplainsItself(b.incoming);
    } else {
      match rounds[0]
      case NoChannel =>
        AcceptedAllExactly(b, rounds[1..]);
        assert [] + PacketsRead(rounds[1..]) == PacketsRead(rounds[1..]);
      case Failed =>
        assert b.incoming + [] == b.incoming;
        ExplainsItself(b.incoming);
      case Got(p) =>
        AcceptedExactly(b, p);
        AcceptedRest(b, p);
        AcceptedAllExactly(Accepted(b, p), rounds[1..]);
        ExplainsBefore(AcceptedAll(b, rounds).incoming, b, p, PacketsRead(rounds[1..]));
    }
  }

  lemma AcceptedRest(b: Buffer, p: Packet)
    ensures Accepted(b, p) == b.(incoming := Accepted(b, p).incoming, inFirehose := Accepted(b, p).inFirehose)
    ensures b.incoming <= Accepted(b, p).incoming
  {}

  /** If what follows explains the queue with the packet accepted, it explains the packet. */
  lemma ExplainsBefore(all: seq<Packet>, b: Buffer, p: Packet, more: seq<Packet>)
    requires BufferOk(b) && Explains(all, Accepted(b, p).incoming + more)
    ensures Explains(all, b.incoming + ([p] + more))
  {
    hide BufferOk, Explains, Waiting;
    AcceptedExactly(b, p);
    assert b.incoming + ([p] + more) == b.incoming + [p] + more;
    if p.meta.droppable && Waiting(b.incoming, p.meta.topic) {
      WaitingHasFirst(b.incoming, p.meta.topic);
      ExplainsInserted(all, b.incoming, p, more);
    }
  }
}
