// Flooding terminates on every finite mesh, cyclic or not: a weight on the copies in
// flight goes down with every copy received.

module FloodTermination {
  import opened Packets
  import opened RemoteNodes
  import opened Topologies
  import opened Flood
  import opened FloodSafety

  /** All nodes of the mesh. */
  ghost function Nodes(t: Topology): set<NodeId> {
    set p | 0 <= p < |t.owner| :: t.owner[p]
  }

  /** How many of the first k links are fed by node n. */
  ghost function Links(t: Topology, n: NodeId, k: nat): nat
    requires Wired(t) && k <= |t.owner|
  {
    if k == 0 then 0 else Links(t, n, k - 1) + if t.owner[t.peer[k - 1]] == n then 1 else 0
  }

  ghost predicate DegreeAtMost(t: Topology, d: nat)
    requires Wired(t)
  {
    forall n :: Links(t, n, |t.owner|) <= d
  }

  /** The receptions a copy can cause that may still visit h nodes, d links each. */
  ghost function Weight(h: nat, d: nat): nat {
    if h == 0 then 1 else 1 + d * Weight(h - 1, d)
  }

  ghost function CopyWeight(n: nat, d: nat, c: Copy): nat {
    if |c.packet.meta.path| <= n then Weight(n - |c.packet.meta.path|, d) else 0
  }

  ghost function QueueLoad(n: nat, d: nat, cs: seq<Copy>): nat {
    if cs == [] then 0 else CopyWeight(n, d, cs[0]) + QueueLoad(n, d, cs[1..])
  }

  ghost function Load(n: nat, d: nat, qs: seq<seq<Copy>>): nat {
    if qs == [] then 0 else Load(n, d, qs[..|qs| - 1]) + QueueLoad(n, d, qs[|qs| - 1])
  }

  ghost function NetLoad(t: Topology, d: nat, net: Net): nat {
    Load(|Nodes(t)|, d, net.queues)
  }

  // ---- sums ---------------------------------------------------------------

  lemma {:induction false} QueueLoadConcat(n: nat, d: nat, a: seq<Copy>, b: seq<Copy>)
    ensures QueueLoad(n, d, a + b) == QueueLoad(n, d, a) + QueueLoad(n, d, b)
  {
    if a == [] {
      assert a + b == b;
    } else {
      assert (a + b)[1..] == a[1..] + b;
      QueueLoadConcat(n, d, a[1..], b);
    }
  }

  lemma QueueLoadOne(n: nat, d: nat, c: Copy)
    ensures QueueLoad(n, d, [c]) == CopyWeight(n, d, c)
  {
    assert [c][1..] == [];
  }

  lemma {:induction false} LoadUpdate(n: nat, d: nat, qs: seq<seq<Copy>>, q: nat, cs: seq<Copy>)
    requires q < |qs|
    ensures Load(n, d, qs[q := cs]) == Load(n, d, qs) - QueueLoad(n, d, qs[q]) + QueueLoad(n, d, cs)
  {
    var l := |qs| - 1;
    if q == l {
      assert qs[q := cs][..l] == qs[..l];
    } else {
      assert qs[q := cs][..l] == qs[..l][q := cs];
      LoadUpdate(n, d, qs[..l], q, cs);
    }
  }

  /** If every queue fed by a node grows by at most w, so does the load, link by link. */
  lemma {:induction false} LoadGrowth(t: Topology, n: nat, d: nat, qs: seq<seq<Copy>>, qs': seq<seq<Copy>>,
                                      node: NodeId, w: nat, k: nat)
    requires Wired(t) && |qs| == |qs'| == |t.owner| && k <= |qs|
    requires forall q | 0 <= q < |qs| ::
        QueueLoad(n, d, qs'[q]) <= QueueLoad(n, d, qs[q]) + if t.owner[t.peer[q]] == node then w else 0
    ensures Load(n, d, qs'[..k]) <= Load(n, d, qs[..k]) + Links(t, node, k) * w
  {
    hide QueueLoad, Wired;
    if k > 0 {
      LoadGrowth(t, n, d, qs, qs', node, w, k - 1);
      LoadLast(n, d, qs, k);
      LoadLast(n, d, qs', k);
      OneMoreTimes(Links(t, node, k - 1), w);
    }
  }

  lemma LoadLast(n: nat, d: nat, qs: seq<seq<Copy>>, k: nat)
    requires 0 < k <= |qs|
    ensures Load(n, d, qs[..k]) == Load(n, d, qs[..k - 1]) + QueueLoad(n, d, qs[k - 1])
  {
    assert qs[..k][..k - 1] == qs[..k - 1];
  }

  lemma OneMoreTimes(m: nat, w: nat)
    ensures (m + 1) * w == m * w + w
  {}

  lemma {:induction false} DistinctInSet(s: seq<NodeId>, nodes: set<NodeId>)
    requires NoDuplicates(s) && forall i | 0 <= i < |s| :: s[i] in nodes
    ensures |s| <= |nodes|
  {
    if s != [] {
      var l := |s| - 1;
      DistinctInSet(s[..l], nodes - {s[l]});
    }
  }

  // ---- one reception ------------------------------------------------------

  /** A copy that is not suppressed has not visited every node yet. */
  lemma RoomForOneMore(t: Topology, net: Net, q: Port, c: Copy)
    requires Wired(t) && q < |t.owner| && FlightOk(t, net, q, c) && !Suppressed(t.owner[q], c.packet)
    ensures |c.packet.meta.path| < |Nodes(t)|
  {
    var path := c.packet.meta.path;
    DistinctInSet(path + [t.owner[q]], Nodes(t));
  }

  lemma FlightFits(t: Topology, net: Net, q: Port, c: Copy)
    requires Wired(t) && q < |t.owner| && FlightOk(t, net, q, c)
    ensures |c.packet.meta.path| <= |Nodes(t)|
  {
    DistinctInSet(c.packet.meta.path, Nodes(t));
  }

  lemma WeightUnfolds(h: nat, d: nat)
    requires h > 0
    ensures Weight(h, d) == 1 + d * Weight(h - 1, d)
  {}

  lemma WeightPositive(h: nat, d: nat)
    ensures Weight(h, d) >= 1
  {}

  lemma DispatchLoad(t: Topology, d: nat, net: Net, node: NodeId, arrival: int, c: Copy)
    requires Wired(t) && |net.queues| == |t.owner| && DegreeAtMost(t, d)
    requires |c.packet.meta.path| < |Nodes(t)|
    ensures NetLoad(t, d, Dispatch(t, net, node, arrival, c)) < NetLoad(t, d, net) + CopyWeight(|Nodes(t)|, d, c)
  {
    hide Weight, Load, QueueLoad, Links, Nodes;
    var n, net' := |Nodes(t)|, Dispatch(t, net, node, arrival, c);
    var w := Weight(n - |c.packet.meta.path| - 1, d);
    WeightUnfolds(n - |c.packet.meta.path|, d);
    forall q | 0 <= q < |net.queues|
      ensures QueueLoad(n, d, net'.queues[q])
           <= QueueLoad(n, d, net.queues[q]) + if t.owner[t.peer[q]] == node then w else 0
    {
      var c' := Copy(Stamped(c.packet, node), c.uid, c.route + [t.peer[q]]);
      QueueLoadConcat(n, d, net.queues[q], [c']);
      QueueLoadOne(n, d, c');
    }
    LoadGrowth(t, n, d, net.queues, net'.queues, node, w, |net.queues|);
    assert net.queues[..|net.queues|] == net.queues && net'.queues[..|net.queues|] == net'.queues;
    MulMonotone(Links(t, node, |t.owner|), d, w);
  }

  lemma MulMonotone(a: nat, b: nat, w: nat)
    requires a <= b
    ensures a * w <= b * w
  {}

  lemma {:induction false} ReceiveLoad(t: Topology, d: nat, net: Net, q: Port)
    requires Wired(t) && Inv(t, net) && DegreeAtMost(t, d) && q < |net.queues| && net.queues[q] != []
    ensures NetLoad(t, d, Next(t, net, Receive(q))) < NetLoad(t, d, net)
  {
    hide FlightOk, Suppressed, PassesOn, DegreeAtMost;
    var c := net.queues[q][0];
    var popped := net.(queues := net.queues[q := net.queues[q][1..]]);
    HeadOk(t, net, q);
    LoadUpdate(|Nodes(t)|, d, net.queues, q, net.queues[q][1..]);
    FlightFits(t, net, q, c);
    WeightPositive(|Nodes(t)| - |c.packet.meta.path|, d);
    if !Suppressed(t.owner[q], c.packet) {
      var heard := Heard(net, q, t.owner[q]);
      RoomForOneMore(t, net, q, c);
      DispatchLoad(t, d, heard, t.owner[q], q, c);
    }
  }

  lemma ConflateLoad(t: Topology, d: nat, net: Net, q: Port, i: nat)
    requires Wired(t) && |net.queues| == |t.owner| == |net.associated|
    ensures NetLoad(t, d, Next(t, net, Conflate(q, i))) <= NetLoad(t, d, net)
  {
    if q < |net.queues| && i < |net.queues[q]| {
      var n, cs := |Nodes(t)|, net.queues[q];
      LoadUpdate(n, d, net.queues, q, cs[..i] + cs[i + 1..]);
      QueueLoadConcat(n, d, cs[..i], cs[i + 1..]);
      QueueLoadConcat(n, d, cs[..i], cs[i..]);
      assert cs[..i] + cs[i..] == cs && cs[i..][1..] == cs[i + 1..];
    }
  }

  // ---- whole runs ---------------------------------------------------------

  function Continue(t: Topology, net: Net, steps: seq<Step>): Net
    requires |t.peer| == |t.owner| == |t.allowInternal| == |net.queues| == |net.associated|
    requires forall p | 0 <= p < |t.peer| :: t.peer[p] < |t.owner|
    decreases |steps|
  {
    if steps == [] then net else Continue(t, Next(t, net, steps[0]), steps[1..])
  }

  /** How many of the steps pop a copy from a link. */
  function Receptions(t: Topology, net: Net, steps: seq<Step>): nat
    requires |t.peer| == |t.owner| == |t.allowInternal| == |net.queues| == |net.associated|
    requires forall p | 0 <= p < |t.peer| :: t.peer[p] < |t.owner|
    decreases |steps|
  {
    if steps == [] then 0
    else
      var pops := steps[0].Receive? && steps[0].port < |net.queues| && net.queues[steps[0].port] != [];
      (if pops then 1 else 0) + Receptions(t, Next(t, net, steps[0]), steps[1..])
  }

  lemma StepLoad(t: Topology, d: nat, net: Net, step: Step)
    requires Wired(t) && Inv(t, net) && DegreeAtMost(t, d) && !step.Publish?
    ensures Inv(t, Next(t, net, step))
    ensures NetLoad(t, d, Next(t, net, step)) + Receptions(t, net, [step]) <= NetLoad(t, d, net)
  {
    hide Inv;
    StepKeeps(t, net, step);
    assert [step][1..] == [];
    assert |net.queues| == |t.owner| == |net.associated| by { InvShape(t, net); }
    match step
    case Receive(q) =>
      if q < |net.queues| && net.queues[q] != [] {
        ReceiveLoad(t, d, net, q);
      }
    case Conflate(q, i) => ConflateLoad(t, d, net, q, i);
  }

  /** However the steps interleave, at most as many copies are received before the next
      publish call as the weights of the copies in flight add up to. */
  lemma {:induction false} FloodingTerminates(t: Topology, d: nat, net: Net, steps: seq<Step>)
    requires Wired(t) && Inv(t, net) && DegreeAtMost(t, d)
    requires forall i | 0 <= i < |steps| :: !steps[i].Publish?
    ensures Inv(t, Continue(t, net, steps))
    ensures Receptions(t, net, steps) + NetLoad(t, d, Continue(t, net, steps)) <= NetLoad(t, d, net)
    decreases |steps|
  {
    hide Inv, Next, DegreeAtMost;
    assert |net.queues| == |t.owner| == |net.associated| by { InvShape(t, net); }
    if steps != [] {
      StepLoad(t, d, net, steps[0]);
      assert [steps[0]][1..] == [];
      FloodingTerminates(t, d, Next(t, net, steps[0]), steps[1..]);
    }
  }

  /** And quiescence is always within reach: receiving alone gets there. */
  lemma {:induction false} QuiescenceReachable(t: Topology, d: nat, net: Net) returns (steps: seq<Step>)
    requires Wired(t) && Inv(t, net) && DegreeAtMost(t, d)
    ensures forall i | 0 <= i < |steps| :: steps[i].Receive?
    ensures |steps| <= NetLoad(t, d, net)
    ensures Quiescent(Continue(t, net, steps))
    decreases NetLoad(t, d, net)
  {
    hide Inv, Next, DegreeAtMost;
    assert |net.queues| == |t.owner| == |net.associated| by { InvShape(t, net); }
    if q :| 0 <= q < |net.queues| && net.queues[q] != [] {
      ReceiveLoad(t, d, net, q);
      StepKeeps(t, net, Receive(q));
      var rest := QuiescenceReachable(t, d, Next(t, net, Receive(q)));
      steps := [Receive(q)] + rest;
      assert steps[1..] == rest;
    } else {
      steps := [];
    }
  }

  // ---- for any mesh -------------------------------------------------------

  lemma {:induction false} LinksBound(t: Topology, n: NodeId, k: nat)
    requires Wired(t) && k <= |t.owner|
    ensures Links(t, n, k) <= k
  {
    if k > 0 {
      LinksBound(t, n, k - 1);
    }
  }

  lemma {:induction false} ContinueIsRun(t: Topology, a: seq<Step>, b: seq<Step>)
    requires Wired(t)
    ensures Continue(t, Run(t, a), b) == Run(t, a + b)
    decreases |b|
  {
    hide Next;
    if b == [] {
      assert a + b == a;
    } else {
      assert (a + [b[0]])[..|a|] == a && a + [b[0]] + b[1..] == a + b;
      ContinueIsRun(t, a + [b[0]], b[1..]);
    }
  }

  /** Every run can be brought to quiescence by receiving, and in no more receptions
      than the copies in flight weigh. */
  lemma EveryRunCanSettle(t: Topology, steps: seq<Step>) returns (rest: seq<Step>)
    requires Wired(t)
    ensures forall i | 0 <= i < |rest| :: rest[i].Receive?
    ensures Quiescent(Run(t, steps + rest))
    ensures |rest| <= NetLoad(t, |t.owner|, Run(t, steps))
  {
    hide Inv, Next;
    RunInv(t, steps);
    forall n ensures Links(t, n, |t.owner|) <= |t.owner| {
      LinksBound(t, n, |t.owner|);
    }
    rest := QuiescenceReachable(t, |t.owner|, Run(t, steps));
    ContinueIsRun(t, steps, rest);
  }
}
