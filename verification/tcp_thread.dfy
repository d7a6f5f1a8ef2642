// The I/O thread of libdaylite/src/tcp_thread.cpp: one buffer per socket, one round of
// its loop, and the sleep between rounds. Every critical section is one method or one
// atomic part of one.

module TcpThreads {
  import opened Numbers
  import opened Packets
  import opened PacketOrders
  import opened Wrappers
  import opened TcpBuffers
  import opened Sleep

  type Socket = nat

  datatype Outcome = Success | SocketWatched | NoSuchSocket

  /** What the sockets do during one round of the loop. */
  datatype Weather = Weather(writable: set<Socket>, rounds: map<Socket, seq<ReadOutcome>>)

  /** A buffer after one round: drained if it can be written to, then filled by reading. */
  function Serviced(b: Buffer, s: Socket, w: Weather): Buffer {
    AcceptedAll(if s in w.writable then Drained(b) else b, Rounds(s, w))
  }

  function Rounds(s: Socket, w: Weather): seq<ReadOutcome> {
    if s in w.rounds then FirstRounds(w.rounds[s]) else []
  }

  /** The packets put on the wire of a socket in one round. */
  function Written(b: Buffer, s: Socket, w: Weather): seq<Packet> {
    if s in w.writable then b.out else []
  }

  /** The table once the sockets in `done` have had their turn. */
  ghost function Table(start: map<Socket, Buffer>, done: seq<Socket>, w: Weather): map<Socket, Buffer> {
    map s | s in start :: if s in done then Serviced(start[s], s, w) else start[s]
  }

  ghost function Wire(start: map<Socket, Buffer>, done: seq<Socket>, w: Weather): map<Socket, seq<Packet>> {
    map s | s in start && s in done :: Written(start[s], s, w)
  }

  /** The count of packets sent, as 16 bits: the last writable socket's, with the
      packets refused there. */
  ghost function OutCount(start: map<Socket, Buffer>, done: seq<Socket>, w: Weather): nat {
    if done == [] then 0
    else OutCountNext(start, done[|done| - 1], w, OutCount(start, done[..|done| - 1], w))
  }

  ghost function OutCountNext(start: map<Socket, Buffer>, s: Socket, w: Weather, before: nat): nat {
    if s in w.writable && s in start then (|start[s].out| + start[s].rejectOutCount) % U16 else before
  }

  /** The count of packets waiting, as 16 bits: the last socket's. */
  ghost function InCount(start: map<Socket, Buffer>, done: seq<Socket>, w: Weather): nat {
    if done == [] || done[|done| - 1] !in start then 0
    else |Serviced(start[done[|done| - 1]], done[|done| - 1], w).incoming| % U16
  }

  ghost predicate TableOk(buffers: map<Socket, Buffer>) {
    forall s | s in buffers :: BufferOk(buffers[s])
  }

  lemma ServicedOk(b: Buffer, s: Socket, w: Weather)
    requires BufferOk(b)
    ensures BufferOk(Serviced(b, s, w))
  {
    hide BufferOk;
    DrainedOk(b);
    AcceptedAllExactly(if s in w.writable then Drained(b) else b, Rounds(s, w));
  }

  lemma TurnsKeepTable(start: map<Socket, Buffer>, done: seq<Socket>, w: Weather)
    requires TableOk(start)
    ensures TableOk(Table(start, done, w))
  {
    hide BufferOk, Serviced;
    forall s | s in start ensures BufferOk(Table(start, done, w)[s]) {
      ServicedOk(start[s], s, w);
    }
  }

  /** What one turn does to a buffer: all that is queued is written, in order, if that is
      possible at all; and what was read in the first hundred rounds, up to a failure,
      follows what was waiting, droppable packets behind older ones of their topic apart. */
  ghost predicate Turn(b: Buffer, after: Buffer, written: seq<Packet>, writable: bool, rounds: seq<ReadOutcome>) {
    && written + after.out == b.out
    && (if writable then after.out == [] && after.outFirehose == {} && after.rejectOutCount == 0
        else written == [] && after.outFirehose == b.outFirehose && after.rejectOutCount == b.rejectOutCount)
    && b.incoming <= after.incoming
    && Explains(after.incoming, b.incoming + PacketsRead(rounds[..Least(100, |rounds|)]))
  }

  function Foreseen(s: Socket, w: Weather): seq<ReadOutcome> { if s in w.rounds then w.rounds[s] else [] }

  lemma ServicedTurn(b: Buffer, s: Socket, w: Weather)
    requires BufferOk(b)
    ensures Turn(b, Serviced(b, s, w), Written(b, s, w), s in w.writable, Foreseen(s, w))
  {
    hide BufferOk, Explains;
    DrainedOk(b);
    AcceptedAllExactly(if s in w.writable then Drained(b) else b, Rounds(s, w));
    FirstRoundsExactly(Foreseen(s, w));
    assert b.out + [] == [] + b.out == b.out;
    assert Rounds(s, w) == FirstRounds(Foreseen(s, w));
  }

  /** Every socket has its turn, once. */
  lemma EveryTurn(start: map<Socket, Buffer>, order: seq<Socket>, w: Weather, s: Socket)
    requires TableOk(start) && s in start && s in order
    ensures s in Table(start, order, w) && s in Wire(start, order, w)
    ensures Turn(start[s], Table(start, order, w)[s], Wire(start, order, w)[s], s in w.writable, Foreseen(s, w))
  {
    hide Serviced, Written, Turn, BufferOk;
    ServicedTurn(start[s], s, w);
  }

  lemma EverySocket(start: map<Socket, Buffer>, order: seq<Socket>, w: Weather)
    requires forall s :: s in order <==> s in start
    ensures Table(start, order, w).Keys == Wire(start, order, w).Keys == start.Keys
  {}

  /** The first count is what waits at the last socket served, in 16 bits. */
  lemma LastReceived(start: map<Socket, Buffer>, order: seq<Socket>, w: Weather)
    requires order != [] && order[|order| - 1] in start
    ensures InCount(start, order, w) == |Table(start, order, w)[order[|order| - 1]].incoming| % 0x1_0000
  {}

  /** The second is what was queued or refused at the last writable one; 0 if there is
      none. */
  lemma {:induction false} LastSent(start: map<Socket, Buffer>, order: seq<Socket>, w: Weather, k: nat)
    requires k <= |order| && forall i | 0 <= i < |order| :: order[i] in start
    requires forall i | k <= i < |order| :: order[i] !in w.writable
    ensures k == 0 ==> OutCount(start, order, w) == 0
    ensures k > 0 && order[k - 1] in w.writable ==>
              OutCount(start, order, w)
              == (|start[order[k - 1]].out| + start[order[k - 1]].rejectOutCount) % 0x1_0000
    decreases |order|
  {
    if k < |order| {
      LastSent(start, order[..|order| - 1], w, k);
    }
  }

  lemma NoTurns(start: map<Socket, Buffer>, w: Weather)
    ensures Table(start, [], w) == start && Wire(start, [], w) == map[]
    ensures InCount(start, [], w) == OutCount(start, [], w) == 0
  {}

  lemma OneMoreTurn(start: map<Socket, Buffer>, order: seq<Socket>, k: nat, w: Weather)
    requires NoDuplicates(order) && k < |order| && order[k] in start
    ensures Table(start, order[..k], w)[order[k]] == start[order[k]]
    ensures Table(start, order[..k + 1], w)
         == Table(start, order[..k], w)[order[k] := Serviced(start[order[k]], order[k], w)]
    ensures Wire(start, order[..k + 1], w)
         == Wire(start, order[..k], w)[order[k] := Written(start[order[k]], order[k], w)]
    ensures OutCount(start, order[..k + 1], w) == OutCountNext(start, order[k], w, OutCount(start, order[..k], w))
    ensures InCount(start, order[..k + 1], w) == |Serviced(start[order[k]], order[k], w).incoming| % U16
  {
    hide Serviced, Written, OutCountNext;
    assert order[..k + 1] == order[..k] + [order[k]];
    assert order[k] !in order[..k];
    assert order[..k + 1][..k] == order[..k];
  }

  class TcpThread {
    var buffers: map<Socket, Buffer>
    var sleep: nat

    ghost predicate Valid()
      reads this
    {
      InRange(sleep) && TableOk(buffers)
    }

    constructor ()
      ensures Valid() && buffers == map[] && sleep == 10000
    {
      buffers := map[];
      sleep := FIRST_SLEEP;
    }

    method AddSocket(s: Socket) returns (r: Outcome)
      requires Valid()
      modifies this`buffers
      ensures Valid()
      ensures r == if s in old(buffers) then SocketWatched else Success
      ensures buffers == if s in old(buffers) then old(buffers) else old(buffers)[s := EMPTY]
    {
      if s in buffers {
        return SocketWatched;
      }
      buffers := buffers[s := EMPTY];
      r := Success;
    }

    method RemoveSocket(s: Socket) returns (r: Outcome)
      requires Valid()
      modifies this`buffers
      ensures Valid()
      ensures r == if s in old(buffers) then Success else NoSuchSocket
      ensures buffers == old(buffers) - {s}
    {
      if s !in buffers {
        return NoSuchSocket;
      }
      buffers := buffers - {s};
      r := Success;
    }

    /** The oldest packet received on a socket; none for an empty or unknown one. */
    method Next(s: Socket) returns (p: Option<Packet>)
      requires Valid()
      modifies this`buffers
      ensures Valid()
      ensures p == if s in old(buffers) && old(buffers)[s].incoming != []
                   then Some(old(buffers)[s].incoming[0]) else None
      ensures buffers == if p.Some? then old(buffers)[s := Popped(old(buffers)[s])] else old(buffers)
    {
      if s !in buffers || buffers[s].incoming == [] {
        return None;
      }
      var b := buffers[s];
      PoppedOk(b);
      var head := b.incoming[0];
      b := b.(incoming := b.incoming[1..]);
      if head.meta.droppable {
        b := b.(inFirehose := b.inFirehose - {head.meta.topic});
      }
      buffers := buffers[s := b];
      p := Some(head);
    }

    method Send(s: Socket, p: Packet) returns (r: Outcome)
      requires Valid()
      modifies this`buffers
      ensures Valid()
      ensures r == if s in old(buffers) then Success else NoSuchSocket
      ensures buffers == if s in old(buffers) then old(buffers)[s := Sent(old(buffers)[s], p)] else old(buffers)
    {
      if s !in buffers {
        return NoSuchSocket;
      }
      SentExactly(buffers[s], p);
      var b := buffers[s];
      if p.meta.droppable {
        if p.meta.topic in b.outFirehose {
          buffers := buffers[s := b.(rejectOutCount := (b.rejectOutCount + 1) % U32)];
          return Success;
        }
        b := b.(outFirehose := b.outFirehose + {p.meta.topic});
      }
      buffers := buffers[s := b.(out := b.out + [p])];
      r := Success;
    }

    /** One socket's turn in the loop of run: write out everything queued, then read until
        a read fails, a hundred rounds at most. */
    method Service(s: Socket, w: Weather) returns (written: seq<Packet>, outCount: Option<nat>, inCount: nat)
      requires s in buffers
      modifies this`buffers
      ensures buffers == old(buffers)[s := Serviced(old(buffers)[s], s, w)]
      ensures written == Written(old(buffers)[s], s, w)
      ensures outCount == if s in w.writable
                          then Some((|old(buffers)[s].out| + old(buffers)[s].rejectOutCount) % U16) else None
      ensures inCount == |Serviced(old(buffers)[s], s, w).incoming| % U16
      ensures BufferOk(old(buffers)[s]) ==>
                Turn(old(buffers)[s], buffers[s], written, s in w.writable, Foreseen(s, w))
    {
      if BufferOk(buffers[s]) {
        ServicedTurn(buffers[s], s, w);
      }
      var b := buffers[s];
      written, outCount := [], None;
      if s in w.writable {
        var count: nat;
        written, count, b := WriteOut(b);
        outCount := Some(count);
      }
      b := ReadRounds(b, if s in w.rounds then w.rounds[s] else []);
      buffers := buffers[s := b];
      inCount := |b.incoming| % U16;
    }

    /** The writing loop of one turn. */
    static method WriteOut(start: Buffer) returns (written: seq<Packet>, count: nat, b: Buffer)
      ensures written == start.out && count == (|start.out| + start.rejectOutCount) % U16
      ensures b == Drained(start)
    {
      written := [];
      for k := 0 to |start.out|
        invariant written == start.out[..k]
      {
        written := written + [start.out[k]];
      }
      count := (|start.out| + start.rejectOutCount) % U16;
      b := start.(out := [], rejectOutCount := 0, outFirehose := {});
    }

    /** The reading loop of one turn. */
    static method ReadRounds(start: Buffer, rounds: seq<ReadOutcome>) returns (b: Buffer)
      ensures b == AcceptedAll(start, FirstRounds(rounds))
    {
      b := start;
      ghost var all := FirstRounds(rounds);
      var i := 0;
      while i < ROUNDS
        invariant 0 <= i <= |all|
        invariant AcceptedAll(b, all[i..]) == AcceptedAll(start, all)
      {
        if i >= |rounds| {
          break;
        }
        match rounds[i] {
          case NoChannel =>
          case Failed => break;
          case Got(p) =>
            if p.meta.droppable {
              if p.meta.topic in b.inFirehose {
                i := i + 1;
                continue;
              }
              b := b.(inFirehose := b.inFirehose + {p.meta.topic});
            }
            b := b.(incoming := b.incoming + [p]);
        }
        i := i + 1;
      }
    }

    /** Every socket's turn, in the order in which the table holds them. The counts are
        those of the last socket served, and of the last writable one: each turn
        overwrites them. */
    method ServeAll(order: seq<Socket>, w: Weather) returns (wire: map<Socket, seq<Packet>>, count: nat)
      requires NoDuplicates(order) && forall s | s in order :: s in buffers
      modifies this`buffers
      ensures buffers == Table(old(buffers), order, w) && wire == Wire(old(buffers), order, w)
      ensures count == Greatest(InCount(old(buffers), order, w), OutCount(old(buffers), order, w))
    {
      wire := map[];
      var outCount: nat, inCount: nat := 0, 0;
      ghost var start := buffers;
      hide Table, Wire, InCount, OutCount, Serviced, Written;
      NoTurns(start, w);
      for k := 0 to |order|
        invariant buffers == Table(start, order[..k], w) && wire == Wire(start, order[..k], w)
        invariant inCount == InCount(start, order[..k], w) && outCount == OutCount(start, order[..k], w)
      {
        OneMoreTurn(start, order, k, w);
        var written, out, received := Service(order[k], w);
        wire := wire[order[k] := written];
        inCount := received;
        if out.Some? {
          outCount := out.value;
        }
      }
      assert order[..|order|] == order;
      count := Greatest(inCount, outCount);
    }

    /** One round of the loop of run: every socket's turn, then the sleep. */
    method RunOnce(order: seq<Socket>, w: Weather) returns (wire: map<Socket, seq<Packet>>)
      requires Valid() && NoDuplicates(order) && (forall s :: s in order <==> s in buffers)
      modifies this
      ensures Valid()
      ensures buffers == Table(old(buffers), order, w) && wire == Wire(old(buffers), order, w)
      ensures buffers.Keys == wire.Keys == old(buffers.Keys)
      ensures forall s | s in old(buffers) ::
                Turn(old(buffers)[s], buffers[s], wire[s], s in w.writable, Foreseen(s, w))
      ensures var count := Greatest(InCount(old(buffers), order, w), OutCount(old(buffers), order, w));
              sleep == NextSleep(old(sleep), count)
    {
      TurnsKeepTable(buffers, order, w);
      EverySocket(buffers, order, w);
      hide Table, Wire, Turn, InCount, OutCount, TableOk;
      forall s | s in buffers
        ensures s in Table(buffers, order, w) && s in Wire(buffers, order, w)
        ensures Turn(buffers[s], Table(buffers, order, w)[s], Wire(buffers, order, w)[s], s in w.writable,
                     Foreseen(s, w))
      {
        EveryTurn(buffers, order, w, s);
      }
      var count: nat;
      wire, count := ServeAll(order, w);
      UpdateSleep(count);
    }

    /** update_sleep, over the reals and rounded down. */
    method UpdateSleep(count: nat)
      requires InRange(sleep)
      modifies this`sleep
      ensures InRange(sleep) && sleep == NextSleep(old(sleep), count)
    {
      var distance := if count != 0 then sleep / count else MAX_SLEEP;
      var wanted := if distance > MIN_SLEEP then distance else MIN_SLEEP;
      RoundedDown(wanted, sleep);
      SleepStaysInRange(sleep, [count]);
      assert [count][1..] == [];
      sleep := (wanted as real * 0.1 + sleep as real * 0.9).Floor;
    }
  }
}
