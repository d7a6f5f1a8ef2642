// Order and loss: what remains of a stream of packets when droppable ones are conflated.

module PacketOrders {
  import opened Packets

  /** a is what is left of b when some packets are taken out. */
  ghost predicate Subsequence(a: seq<Packet>, b: seq<Packet>)
    decreases |b|
  {
    || a == []
    || (b != [] && (|| Subsequence(a, b[..|b| - 1])
                    || (a[|a| - 1] == b[|b| - 1] && Subsequence(a[..|a| - 1], b[..|b| - 1]))))
  }

  /** The packets that must not be lost. */
  function Kept(ps: seq<Packet>): seq<Packet> {
    if ps == [] then []
    else Kept(ps[..|ps| - 1]) + if ps[|ps| - 1].meta.droppable then [] else [ps[|ps| - 1]]
  }

  /** Whether a droppable packet of the topic is among them, and the first such. */
  function First(ps: seq<Packet>, topic: Topic): seq<Packet> {
    if ps == [] then []
    else if ps[0].meta.droppable && ps[0].meta.topic == topic then [ps[0]]
    else First(ps[1..], topic)
  }

  lemma SubsequenceAppend(a: seq<Packet>, b: seq<Packet>, p: Packet)
    requires Subsequence(a, b)
    ensures Subsequence(a + [p], b + [p]) && Subsequence(a, b + [p])
  {
    assert (b + [p])[..|b|] == b && (a + [p])[..|a|] == a;
  }

  lemma {:induction false} SubsequenceRemove(x: seq<Packet>, d: Packet, y: seq<Packet>, b: seq<Packet>)
    requires Subsequence(x + [d] + y, b)
    ensures Subsequence(x + y, b)
    decreases |b|
  {
    var a := x + [d] + y;
    var b' := b[..|b| - 1];
    if Subsequence(a, b') {
      SubsequenceRemove(x, d, y, b');
    } else if y == [] {
      assert a[..|a| - 1] == x && x + y == x;
    } else {
      assert a[..|a| - 1] == x + [d] + y[..|y| - 1];
      SubsequenceRemove(x, d, y[..|y| - 1], b');
      assert (x + y)[..|x + y| - 1] == x + y[..|y| - 1];
    }
  }

  lemma {:induction false} SubsequencePrefix(x: seq<Packet>, y: seq<Packet>, b: seq<Packet>)
    requires Subsequence(x + y, b)
    ensures Subsequence(x, b)
    decreases |y|
  {
    if y == [] {
      assert x + y == x;
    } else {
      assert x + y == x + [y[0]] + y[1..];
      SubsequenceRemove(x, y[0], y[1..], b);
      SubsequencePrefix(x, y[1..], b);
    }
  }

  lemma {:induction false} KeptConcat(a: seq<Packet>, b: seq<Packet>)
    ensures Kept(a + b) == Kept(a) + Kept(b)
    decreases |b|
  {
    if b == [] {
      assert a + b == a;
    } else {
      assert (a + b)[..|a + b| - 1] == a + b[..|b| - 1];
      KeptConcat(a, b[..|b| - 1]);
    }
  }

  lemma KeptOne(p: Packet)
    ensures Kept([p]) == if p.meta.droppable then [] else [p]
  {
    assert [p][..0] == [];
  }

  lemma {:induction false} FirstConcat(a: seq<Packet>, b: seq<Packet>, topic: Topic)
    ensures First(a + b, topic) == if First(a, topic) != [] then First(a, topic) else First(b, topic)
  {
    if a == [] {
      assert a + b == b;
    } else {
      assert (a + b)[1..] == a[1..] + b;
      FirstConcat(a[1..], b, topic);
    }
  }

  /** What relates the packets in the pipeline to those sent: order is kept, nothing but
      droppable packets is missing, and the oldest droppable one of each topic is not. */
  ghost predicate Explains(pipeline: seq<Packet>, sent: seq<Packet>) {
    && Subsequence(pipeline, sent)
    && Kept(pipeline) == Kept(sent)
    && forall topic: Topic :: First(pipeline, topic) == First(sent, topic)
  }

  lemma {:induction false} SubsequenceItself(a: seq<Packet>)
    ensures Subsequence(a, a)
  {
    if a != [] {
      SubsequenceItself(a[..|a| - 1]);
    }
  }

  lemma ExplainsItself(a: seq<Packet>)
    ensures Explains(a, a)
  {
    SubsequenceItself(a);
  }

  lemma {:induction false} SubsequenceInserted(a: seq<Packet>, x: seq<Packet>, p: Packet, y: seq<Packet>)
    requires Subsequence(a, x + y)
    ensures Subsequence(a, x + [p] + y)
    decreases |y|
  {
    var b, c := x + y, x + [p] + y;
    if y == [] {
      assert b == x && c[..|c| - 1] == x;
    } else {
      assert b[..|b| - 1] == x + y[..|y| - 1] && c[..|c| - 1] == x + [p] + y[..|y| - 1];
      if a != [] && Subsequence(a, b[..|b| - 1]) {
        SubsequenceInserted(a, x, p, y[..|y| - 1]);
      } else if a != [] {
        SubsequenceInserted(a[..|a| - 1], x, p, y[..|y| - 1]);
      }
    }
  }

  /** A droppable packet behind an older one of its topic may have been there as well. */
  lemma ExplainsInserted(a: seq<Packet>, x: seq<Packet>, p: Packet, y: seq<Packet>)
    requires Explains(a, x + y) && p.meta.droppable && First(x, p.meta.topic) != []
    ensures Explains(a, x + [p] + y)
  {
    hide Subsequence, Kept, First;
    SubsequenceInserted(a, x, p, y);
    KeptConcat(x + [p], y);
    KeptConcat(x, [p]);
    KeptConcat(x, y);
    KeptOne(p);
    forall topic: Topic ensures First(a, topic) == First(x + [p] + y, topic) {
      FirstConcat(x + [p], y, topic);
      FirstConcat(x, [p], topic);
      FirstConcat(x, y, topic);
      FirstOne(p, topic);
    }
  }

  lemma ExplainsAppend(pipeline: seq<Packet>, sent: seq<Packet>, p: Packet)
    requires Explains(pipeline, sent)
    ensures Explains(pipeline + [p], sent + [p])
  {
    SubsequenceAppend(pipeline, sent, p);
    KeptConcat(pipeline, [p]);
    KeptConcat(sent, [p]);
    forall topic: Topic ensures First(pipeline + [p], topic) == First(sent + [p], topic) {
      FirstConcat(pipeline, [p], topic);
      FirstConcat(sent, [p], topic);
    }
  }

  /** Refusing a packet whose topic is already in the pipeline. */
  lemma ExplainsRefuse(pipeline: seq<Packet>, sent: seq<Packet>, p: Packet)
    requires Explains(pipeline, sent) && p.meta.droppable && First(pipeline, p.meta.topic) != []
    ensures Explains(pipeline, sent + [p])
  {
    SubsequenceAppend(pipeline, sent, p);
    KeptConcat(sent, [p]);
    KeptOne(p);
    forall topic: Topic ensures First(pipeline, topic) == First(sent + [p], topic) {
      FirstConcat(sent, [p], topic);
      FirstOne(p, topic);
    }
  }

  lemma FirstOne(p: Packet, topic: Topic)
    ensures p.meta.topic != topic ==> First([p], topic) == []
  {}

  /** Conflating one away in the middle of the pipeline. */
  lemma ExplainsConflate(x: seq<Packet>, p: Packet, y: seq<Packet>, sent: seq<Packet>)
    requires Explains(x + [p] + y, sent) && p.meta.droppable && First(x, p.meta.topic) != []
    ensures Explains(x + y, sent)
  {
    hide Subsequence, Kept, First;
    SubsequenceRemove(x, p, y, sent);
    KeptConcat(x + [p], y);
    KeptConcat(x, [p]);
    KeptConcat(x, y);
    KeptOne(p);
    forall topic: Topic ensures First(x + y, topic) == First(sent, topic) {
      FirstConcat(x + [p], y, topic);
      FirstConcat(x, [p], topic);
      FirstConcat(x, y, topic);
      FirstOne(p, topic);
    }
  }
}
