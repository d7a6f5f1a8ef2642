// The link graph of a mesh, the routes a flooded packet can take through it, and
// when those routes are unique.
//
// A port is one remote_node: its owner is the node that holds it, its peer the
// remote_node at the other end of the connection.

module Topologies {
  import opened Packets

  type Port = nat

  datatype Topology = Topology(owner: seq<NodeId>, peer: seq<Port>, allowInternal: seq<bool>)

  /** Every port is connected to exactly one other, which is connected back. */
  ghost predicate Wired(t: Topology) {
    && |t.peer| == |t.owner| && |t.allowInternal| == |t.owner|
    && forall p | 0 <= p < |t.peer| ::
         t.peer[p] < |t.owner| && t.peer[p] != p && t.peer[t.peer[p]] == p
  }

  /** The ports a packet was sent through, first hop first. */
  type Route = seq<Port>

  ghost predicate Walk(t: Topology, s: NodeId, r: Route)
    requires Wired(t)
  {
    && (forall i | 0 <= i < |r| :: r[i] < |t.owner|)
    && (r != [] ==> t.owner[r[0]] == s)
    && (forall i | 0 < i < |r| :: t.owner[r[i]] == t.owner[t.peer[r[i - 1]]])
  }

  /** Where a route from s leads. */
  ghost function End(t: Topology, s: NodeId, r: Route): NodeId
    requires Wired(t) && Walk(t, s, r)
  {
    if r == [] then s else t.owner[t.peer[r[|r| - 1]]]
  }

  /** The nodes that sent the packet on its way: what `meta.path` should hold. */
  ghost function Senders(t: Topology, s: NodeId, r: Route): (path: seq<NodeId>)
    requires Wired(t) && Walk(t, s, r)
    ensures |path| == |r|
  {
    seq(|r|, i requires 0 <= i < |r| => t.owner[r[i]])
  }

  /** A route that visits no node twice, its end included. */
  ghost predicate Simple(t: Topology, s: NodeId, r: Route)
    requires Wired(t)
  {
    Walk(t, s, r) && NoDuplicates(Senders(t, s, r)) && End(t, s, r) !in Senders(t, s, r)
  }

  /** At most one simple route between any two nodes. */
  ghost predicate UniqueRoutes(t: Topology)
    requires Wired(t)
  {
    forall s, r1, r2 | Simple(t, s, r1) && Simple(t, s, r2) && End(t, s, r1) == End(t, s, r2) :: r1 == r2
  }

  /** Two or more links that lead from a node through distinct nodes back to it. */
  ghost predicate Cycle(t: Topology, c: Route)
    requires Wired(t)
  {
    && |c| >= 2
    && Walk(t, if c[0] < |t.owner| then t.owner[c[0]] else 0, c)
    && NoDuplicates(Senders(t, t.owner[c[0]], c))
    && End(t, t.owner[c[0]], c) == t.owner[c[0]]
    && c[1] != t.peer[c[0]]
  }

  ghost predicate Acyclic(t: Topology)
    requires Wired(t)
  {
    forall c :: !Cycle(t, c)
  }

  // ---- routes and their parts ---------------------------------------------

  lemma WalkPrefix(t: Topology, s: NodeId, r: Route, k: nat)
    requires Wired(t) && Walk(t, s, r) && k <= |r|
    ensures Walk(t, s, r[..k])
    ensures Senders(t, s, r[..k]) == Senders(t, s, r)[..k]
    ensures k < |r| ==> End(t, s, r[..k]) == t.owner[r[k]]
  {}

  lemma WalkExtend(t: Topology, s: NodeId, r: Route, p: Port)
    requires Wired(t) && Walk(t, s, r) && p < |t.owner| && t.owner[p] == End(t, s, r)
    ensures Walk(t, s, r + [p])
    ensures Senders(t, s, r + [p]) == Senders(t, s, r) + [t.owner[p]]
    ensures End(t, s, r + [p]) == t.owner[t.peer[p]]
  {}

  /** Every prefix of a simple route is one, and its last hop does not turn back. */
  lemma SimplePrefix(t: Topology, s: NodeId, r: Route, k: nat)
    requires Wired(t) && Simple(t, s, r) && k < |r|
    ensures Simple(t, s, r[..k]) && t.owner[r[k]] == End(t, s, r[..k])
    ensures k > 0 ==> r[k] != t.peer[r[k - 1]]
  {
    WalkPrefix(t, s, r, k);
    var n := Senders(t, s, r);
    assert End(t, s, r[..k]) == n[k];
    var next := t.owner[t.peer[r[k]]];
    assert next == if k + 1 < |r| then n[k + 1] else End(t, s, r);
    assert k > 0 ==> n[k - 1] != next;
  }

  lemma WalkPrepend(t: Topology, p: Port, r: Route)
    requires Wired(t) && p < |t.owner| && Walk(t, t.owner[t.peer[p]], r)
    ensures Walk(t, t.owner[p], [p] + r) && End(t, t.owner[p], [p] + r) == End(t, t.owner[t.peer[p]], r)
  {}

  lemma WalkConcat(t: Topology, s: NodeId, r: Route, u: Route)
    requires Wired(t) && Walk(t, s, r) && Walk(t, End(t, s, r), u)
    ensures Walk(t, s, r + u) && End(t, s, r + u) == End(t, End(t, s, r), u)
  {
    forall i | 0 < i < |r + u| ensures t.owner[(r + u)[i]] == t.owner[t.peer[(r + u)[i - 1]]] {
      if i > |r| {
        assert (r + u)[i] == u[i - |r|] && (r + u)[i - 1] == u[i - |r| - 1];
      }
    }
  }

  /** The same links walked the other way. */
  function Back(t: Topology, r: Route): (b: Route)
    requires forall i | 0 <= i < |r| :: r[i] < |t.peer|
    ensures |b| == |r|
  {
    seq(|r|, i requires 0 <= i < |r| => t.peer[r[|r| - 1 - i]])
  }

  lemma BackWalks(t: Topology, s: NodeId, r: Route)
    requires Wired(t) && Walk(t, s, r)
    ensures Walk(t, End(t, s, r), Back(t, r)) && End(t, End(t, s, r), Back(t, r)) == s
  {
    var b := Back(t, r);
    forall i | 0 < i < |b| ensures t.owner[b[i]] == t.owner[t.peer[b[i - 1]]] {
      assert t.peer[b[i - 1]] == r[|r| - i];
    }
    if r != [] {
      assert t.peer[b[|b| - 1]] == r[0];
    }
  }

  /** A walk leads from one node to the other. */
  ghost predicate Joined(t: Topology, m: NodeId, n: NodeId)
    requires Wired(t)
  {
    exists w :: Walk(t, m, w) && End(t, m, w) == n
  }

  lemma JoinedBack(t: Topology, m: NodeId, n: NodeId)
    requires Wired(t) && Joined(t, m, n)
    ensures Joined(t, n, m)
  {
    var w :| Walk(t, m, w) && End(t, m, w) == n;
    BackWalks(t, m, w);
  }

  lemma JoinedThrough(t: Topology, l: NodeId, m: NodeId, n: NodeId)
    requires Wired(t) && Joined(t, l, m) && Joined(t, m, n)
    ensures Joined(t, l, n)
  {
    var w :| Walk(t, l, w) && End(t, l, w) == m;
    var u :| Walk(t, m, u) && End(t, m, u) == n;
    WalkConcat(t, l, w, u);
  }

  lemma JoinedByPort(t: Topology, p: Port)
    requires Wired(t) && p < |t.owner|
    ensures Joined(t, t.owner[p], t.owner[t.peer[p]])
  {
    assert Walk(t, t.owner[p], [p]) && End(t, t.owner[p], [p]) == t.owner[t.peer[p]];
  }

  lemma JoinedOnWalk(t: Topology, s: NodeId, r: Route, i: nat)
    requires Wired(t) && Walk(t, s, r) && i < |r|
    ensures Joined(t, s, t.owner[r[i]])
  {
    WalkPrefix(t, s, r, i);
    assert End(t, s, r[..i]) == t.owner[r[i]];
  }

  // ---- a walk contains a simple route -------------------------------------

  /** Cuts the loops out of a walk; the route uses ports of the walk only. */
  lemma {:induction false} WalkToSimple(t: Topology, s: NodeId, r: Route) returns (q: Route)
    requires Wired(t) && Walk(t, s, r)
    ensures Simple(t, s, q) && End(t, s, q) == End(t, s, r)
    ensures forall p | p in q :: p in r
    decreases |r|
  {
    var n := Senders(t, s, r) + [End(t, s, r)];
    if i, j :| 0 <= i < j < |n| && n[i] == n[j] {
      var cut := r[..i] + r[j..];
      assert Walk(t, s, cut) && End(t, s, cut) == End(t, s, r) by {
        CutIsWalk(t, s, r, i, j);
      }
      q := WalkToSimple(t, s, cut);
      assert forall p | p in cut :: p in r;
    } else {
      assert forall i | 0 <= i < |r| :: n[i] == Senders(t, s, r)[i];
      assert n[|r|] == End(t, s, r);
      q := r;
    }
  }

  lemma CutIsWalk(t: Topology, s: NodeId, r: Route, i: nat, j: nat)
    requires Wired(t) && Walk(t, s, r) && i < j <= |r|
    requires t.owner[r[i]] == if j < |r| then t.owner[r[j]] else End(t, s, r)
    ensures Walk(t, s, r[..i] + r[j..]) && End(t, s, r[..i] + r[j..]) == End(t, s, r)
  {
    var c := r[..i] + r[j..];
    forall k | 0 < k < |c| ensures t.owner[c[k]] == t.owner[t.peer[c[k - 1]]] {
      if k < i {
        assert c[k] == r[k] && c[k - 1] == r[k - 1];
      } else if k == i {
        assert c[k] == r[j] && c[k - 1] == r[i - 1];
      } else {
        assert c[k] == r[k - i + j] && c[k - 1] == r[k - i + j - 1];
      }
    }
  }

  // ---- no cycles and unique routes ----------------------------------------

  /** Two different simple routes with the same ends contain a cycle, and w leads to it. */
  lemma {:induction false} TwoRoutesMakeACycle(t: Topology, s: NodeId, r1: Route, r2: Route)
      returns (c: Route, w: Route)
    requires Wired(t) && Simple(t, s, r1) && Simple(t, s, r2)
    requires End(t, s, r1) == End(t, s, r2) && r1 != r2
    ensures Cycle(t, c) && Walk(t, s, w) && End(t, s, w) == t.owner[c[0]]
    decreases |r1| + |r2|
  {
    assert r1 != [] && r2 != [] by {
      assert r1 != [] ==> Senders(t, s, r1)[0] == s;
      assert r2 != [] ==> Senders(t, s, r2)[0] == s;
    }
    if r1[0] == r2[0] {
      var s' := t.owner[t.peer[r1[0]]];
      SimpleTail(t, s, r1);
      SimpleTail(t, s, r2);
      c, w := TwoRoutesMakeACycle(t, s', r1[1..], r2[1..]);
      WalkPrepend(t, r1[0], w);
      w := [r1[0]] + w;
    } else if i, j :| 0 < i < |r1| && 0 < j < |r2| && t.owner[r1[i]] == t.owner[r2[j]] {
      SimplePrefix(t, s, r1, i);
      SimplePrefix(t, s, r2, j);
      assert r1[..i][0] != r2[..j][0];
      c, w := TwoRoutesMakeACycle(t, s, r1[..i], r2[..j]);
    } else {
      c, w := r1 + Back(t, r2), [];
      ThereAndBack(t, s, r1, r2);
    }
  }

  lemma SimpleTail(t: Topology, s: NodeId, r: Route)
    requires Wired(t) && Simple(t, s, r) && r != []
    ensures var s' := t.owner[t.peer[r[0]]];
            Simple(t, s', r[1..]) && End(t, s', r[1..]) == End(t, s, r)
  {
    var s' := t.owner[t.peer[r[0]]];
    assert Walk(t, s', r[1..]);
    assert Senders(t, s', r[1..]) == Senders(t, s, r)[1..];
  }

  lemma ThereAndBack(t: Topology, s: NodeId, r1: Route, r2: Route)
    requires Wired(t) && Simple(t, s, r1) && Simple(t, s, r2)
    requires End(t, s, r1) == End(t, s, r2) && r1 != [] && r2 != [] && r1[0] != r2[0]
    requires forall i, j | 0 < i < |r1| && 0 < j < |r2| :: t.owner[r1[i]] != t.owner[r2[j]]
    ensures Cycle(t, r1 + Back(t, r2))
  {
    var b := Back(t, r2);
    var c := r1 + b;
    var n1, n2 := |r1|, |r2|;
    forall i | 0 <= i < n2 ensures t.owner[b[i]] == (if i == 0 then End(t, s, r1) else t.owner[r2[n2 - i]]) {
      if i > 0 {
        assert t.owner[r2[n2 - i]] == t.owner[t.peer[r2[n2 - i - 1]]];
      }
    }
    forall i | 0 < i < |c| ensures t.owner[c[i]] == t.owner[t.peer[c[i - 1]]] {
      if i > n1 {
        assert t.peer[c[i - 1]] == r2[n2 - 1 - (i - 1 - n1)];
      }
    }
    assert Walk(t, s, c);
    var d, d1, d2 := Senders(t, s, c), Senders(t, s, r1), Senders(t, s, r2);
    forall i, j | 0 <= i < j < |d| ensures d[i] != d[j] {
      if j < n1 {
        assert d1[i] != d1[j];
      } else if i < n1 {
        assert d[i] == d1[i];
        if j > n1 {
          assert d[j] == d2[n2 - (j - n1)];
          assert i == 0 ==> d2[0] == d[i];
        }
      } else if i == n1 {
        assert d[j] == d2[n2 - (j - n1)];
      } else {
        assert d[i] == d2[n2 - (i - n1)] && d[j] == d2[n2 - (j - n1)];
      }
    }
    NoTurnBack(t, s, r1, r2);
  }

  lemma NoTurnBack(t: Topology, s: NodeId, r1: Route, r2: Route)
    requires Wired(t) && Simple(t, s, r1) && Simple(t, s, r2)
    requires r1 != [] && r2 != [] && r1[0] != r2[0]
    ensures (r1 + Back(t, r2))[1] != t.peer[r1[0]]
  {
    var c, d2, n2 := r1 + Back(t, r2), Senders(t, s, r2), |r2|;
    if |r1| == 1 && n2 == 1 {
      assert c[1] == t.peer[r2[0]];
      assert t.peer[t.peer[r2[0]]] == r2[0];
    } else if |r1| == 1 {
      assert c[1] == t.peer[r2[n2 - 1]];
      assert t.owner[t.peer[c[1]]] == d2[n2 - 1] && t.peer[c[1]] == r2[n2 - 1];
      assert d2[n2 - 1] != d2[0];
    } else {
      SimplePrefix(t, s, r1, 1);
    }
  }

  /** A cycle gives two simple routes to the node before it closes. */
  lemma CycleMakesTwoRoutes(t: Topology, c: Route) returns (long: Route, short: Route)
    requires Wired(t) && Cycle(t, c)
    ensures Simple(t, t.owner[c[0]], long) && Simple(t, t.owner[c[0]], short)
    ensures End(t, t.owner[c[0]], long) == End(t, t.owner[c[0]], short) && long != short
  {
    var s, n := t.owner[c[0]], |c| - 1;
    long, short := c[..n], [t.peer[c[n]]];
    WalkPrefix(t, s, c, n);
    assert Senders(t, s, c)[n] != Senders(t, s, c)[0];
    assert Simple(t, s, long);
    assert t.peer[t.peer[c[n]]] == c[n];
    assert Senders(t, s, short) == [s];
    assert Simple(t, s, short) && End(t, s, short) == t.owner[c[n]];
    if n == 1 {
      assert t.peer[t.peer[c[1]]] == c[1] && t.peer[t.peer[c[0]]] == c[0];
      assert long[0] == c[0] && short[0] == t.peer[c[1]];
    }
    assert long != short;
  }

  /** Routes are unique exactly when the links form no cycle. */
  lemma UniqueRoutesIffAcyclic(t: Topology)
    requires Wired(t)
    ensures UniqueRoutes(t) <==> Acyclic(t)
  {
    forall c | Cycle(t, c) ensures !UniqueRoutes(t) {
      var long, short := CycleMakesTwoRoutes(t, c);
    }
    forall s, r1, r2 | Simple(t, s, r1) && Simple(t, s, r2) && End(t, s, r1) == End(t, s, r2) && r1 != r2
      ensures !Acyclic(t)
    {
      var c, w := TwoRoutesMakeACycle(t, s, r1, r2);
    }
  }
}
