// Subscription counts kept incrementally, against a recount: the arithmetic under
// `tally` and `untally` of libdaylite/src/node_impl.cpp.

module Tallies {
  import opened Numbers
  import opened Packets

  /** A table of 32-bit counters; a missing one reads as 0. */
  type Counters = map<Topic, nat>

  function Count(c: Counters, t: Topic): nat { if t in c then c[t] else 0 }

  /** ++c[t], which inserts a missing counter and wraps. */
  function Incremented(c: Counters, t: Topic): Counters { c[t := (Count(c, t) + 1) % U32] }

  /** --c[t] */
  function Decremented(c: Counters, t: Topic): Counters { c[t := (Count(c, t) + U32 - 1) % U32] }

  function Tallied(c: Counters, topics: seq<Topic>): Counters {
    if topics == [] then c else Incremented(Tallied(c, topics[..|topics| - 1]), topics[|topics| - 1])
  }

  function Untallied(c: Counters, topics: seq<Topic>): Counters {
    if topics == [] then c else Decremented(Untallied(c, topics[..|topics| - 1]), topics[|topics| - 1])
  }

  /** How often a topic is listed. */
  ghost function Multiplicity(topics: seq<Topic>, t: Topic): nat { multiset(topics)[t] }

  /** How often a topic is listed over all nodes. */
  ghost function Recount(lists: map<NodeId, seq<Topic>>, t: Topic): nat {
    if lists == map[] then 0
    else
      var id :| id in lists;
      Multiplicity(lists[id], t) + Recount(lists - {id}, t)
  }

  /** Each counter holds the recount, modulo its width; a topic listed anywhere has one. */
  ghost predicate Agrees(c: Counters, lists: map<NodeId, seq<Topic>>) {
    && (forall t: Topic :: Count(c, t) == Recount(lists, t) % U32)
    && (forall t: Topic :: Recount(lists, t) > 0 ==> t in c)
  }

  // ---- one list -----------------------------------------------------------

  lemma MultiplicityLast(topics: seq<Topic>, t: Topic)
    requires topics != []
    ensures Multiplicity(topics, t)
         == Multiplicity(topics[..|topics| - 1], t) + if topics[|topics| - 1] == t then 1 else 0
  {
    assert topics == topics[..|topics| - 1] + [topics[|topics| - 1]];
  }

  lemma MultiplicityAt(topics: seq<Topic>, i: nat)
    requires i < |topics|
    ensures Multiplicity(topics, topics[i]) > Multiplicity(topics[..i], topics[i])
  {
    assert topics == topics[..i] + [topics[i]] + topics[i + 1..];
  }

  lemma ModPlusOne(a: nat, b: nat)
    requires a == b % U32
    ensures (a + 1) % U32 == (b + 1) % U32
  {}

  lemma ModMinusOne(a: nat, b: int)
    requires a == b % U32
    ensures (a + U32 - 1) % U32 == (b - 1) % U32
  {}

  lemma {:induction false} TalliedCount(c: Counters, topics: seq<Topic>, t: Topic)
    requires Count(c, t) < U32
    ensures Count(Tallied(c, topics), t) == (Count(c, t) + Multiplicity(topics, t)) % U32
    ensures t in Tallied(c, topics) <==> t in c || t in topics
  {
    if topics != [] {
      var front := topics[..|topics| - 1];
      TalliedCount(c, front, t);
      MultiplicityLast(topics, t);
      ModPlusOne(Count(Tallied(c, front), t), Count(c, t) + Multiplicity(front, t));
      assert topics == front + [topics[|topics| - 1]];
    }
  }

  lemma {:induction false} UntalliedCount(c: Counters, topics: seq<Topic>, t: Topic)
    requires Count(c, t) < U32
    ensures Count(Untallied(c, topics), t) == (Count(c, t) - Multiplicity(topics, t)) % U32
    ensures t in Untallied(c, topics) <==> t in c || t in topics
  {
    if topics != [] {
      var front := topics[..|topics| - 1];
      UntalliedCount(c, front, t);
      MultiplicityLast(topics, t);
      ModMinusOne(Count(Untallied(c, front), t), Count(c, t) - Multiplicity(front, t));
      assert topics == front + [topics[|topics| - 1]];
    }
  }

  // ---- all lists ----------------------------------------------------------

  lemma {:induction false} RecountRemove(lists: map<NodeId, seq<Topic>>, id: NodeId, t: Topic)
    requires id in lists
    ensures Recount(lists, t) == Multiplicity(lists[id], t) + Recount(lists - {id}, t)
    decreases |lists|
  {
    var first :| first in lists && Recount(lists, t) == Multiplicity(lists[first], t) + Recount(lists - {first}, t);
    if first != id {
      RecountRemove(lists - {first}, id, t);
      RecountRemove(lists - {id}, first, t);
      assert lists - {first} - {id} == lists - {id} - {first};
    }
  }

  lemma RecountReplace(lists: map<NodeId, seq<Topic>>, id: NodeId, topics: seq<Topic>, t: Topic)
    ensures Recount(lists[id := topics], t) == Multiplicity(topics, t) + Recount(lists - {id}, t)
  {
    RecountRemove(lists[id := topics], id, t);
    assert lists[id := topics] - {id} == lists - {id};
  }

  lemma ModShift(a: nat, b: int, k: int)
    requires a == b % U32
    ensures (a + k) % U32 == (b + k) % U32
  {}

  /** A node's topics, none if the node is unknown. */
  function ListOf(lists: map<NodeId, seq<Topic>>, id: NodeId): seq<Topic> {
    if id in lists then lists[id] else []
  }

  lemma SplitRecount(lists: map<NodeId, seq<Topic>>, id: NodeId, t: Topic)
    ensures Recount(lists, t) == Multiplicity(ListOf(lists, id), t) + Recount(lists - {id}, t)
  {
    if id in lists {
      RecountRemove(lists, id, t);
    } else {
      assert lists - {id} == lists;
    }
  }

  /** The counter of one topic after a node's old list is untallied and its new one tallied. */
  lemma ReplaceCount(c: Counters, before: seq<Topic>, after: seq<Topic>, rest: nat, t: Topic)
    requires Count(c, t) == (Multiplicity(before, t) + rest) % U32
    requires Multiplicity(before, t) + rest > 0 ==> t in c
    ensures Count(Tallied(Untallied(c, before), after), t) == (Multiplicity(after, t) + rest) % U32
    ensures Multiplicity(after, t) + rest > 0 ==> t in Tallied(Untallied(c, before), after)
  {
    hide Tallied, Untallied;
    UntalliedCount(c, before, t);
    TalliedCount(Untallied(c, before), after, t);
    var m: int := Multiplicity(before, t);
    ModShift(Count(c, t), m + rest, -m);
    ModShift(Count(Untallied(c, before), t), rest, Multiplicity(after, t));
  }

  /** Untallying a node's old list and tallying its new one keeps the counters right. */
  lemma ReplaceAgrees(c: Counters, lists: map<NodeId, seq<Topic>>, id: NodeId, topics: seq<Topic>)
    requires Agrees(c, lists)
    ensures Agrees(Tallied(Untallied(c, ListOf(lists, id)), topics), lists[id := topics])
  {
    hide Tallied, Untallied, Count, Multiplicity, Recount;
    forall t: Topic
      ensures Count(Tallied(Untallied(c, ListOf(lists, id)), topics), t) == Recount(lists[id := topics], t) % U32
      ensures Recount(lists[id := topics], t) > 0 ==> t in Tallied(Untallied(c, ListOf(lists, id)), topics)
    {
      RecountReplace(lists, id, topics, t);
      SplitRecount(lists, id, t);
      ReplaceCount(c, ListOf(lists, id), topics, Recount(lists - {id}, t), t);
    }
  }

  /** A counter is a node's own listings and those of the others. */
  lemma ListedCount(c: Counters, lists: map<NodeId, seq<Topic>>, k: NodeId, t: Topic)
    requires Agrees(c, lists) && k in lists
    ensures t in lists[k] ==> t in c
    ensures Count(c, t) == (Multiplicity(lists[k], t) + Recount(lists - {k}, t)) % U32
  {
    hide Recount;
    RecountRemove(lists, k, t);
  }

  /** Counters are only ever added: those of the topics newly listed. */
  lemma ReplaceKeys(c: Counters, lists: map<NodeId, seq<Topic>>, id: NodeId, topics: seq<Topic>)
    requires Agrees(c, lists)
    ensures Tallied(Untallied(c, ListOf(lists, id)), topics).Keys == c.Keys + set t | t in topics
  {
    hide Tallied, Untallied, Recount;
    forall t: Topic
      ensures t in Tallied(Untallied(c, ListOf(lists, id)), topics) <==> t in c || t in topics
    {
      SplitRecount(lists, id, t);
      UntalliedCount(c, ListOf(lists, id), t);
      TalliedCount(Untallied(c, ListOf(lists, id)), topics, t);
    }
  }

  /** While the counters agree and the recounts fit, no decrement of an untally wraps:
      each finds a counter above zero. */
  lemma {:induction false} UntallyDoesNotWrap(c: Counters, lists: map<NodeId, seq<Topic>>, id: NodeId, i: nat)
    requires Agrees(c, lists) && id in lists && i < |lists[id]| && Recount(lists, lists[id][i]) < U32
    ensures Count(Untallied(c, lists[id][..i]), lists[id][i]) > 0
  {
    hide Recount, Untallied, Multiplicity;
    var topics := lists[id];
    RecountRemove(lists, id, topics[i]);
    UntalliedCount(c, topics[..i], topics[i]);
    MultiplicityAt(topics, i);
  }

  function Cleared(lists: map<NodeId, seq<Topic>>, ids: set<NodeId>): map<NodeId, seq<Topic>> {
    map k | k in lists :: if k in ids then [] else lists[k]
  }

  /** Emptied lists count for nothing: the recount is that over the remaining nodes. */
  lemma {:induction false} RecountCleared(lists: map<NodeId, seq<Topic>>, ids: set<NodeId>, t: Topic)
    ensures Recount(Cleared(lists, ids), t) == Recount(lists - ids, t)
    decreases |lists|
  {
    assert Multiplicity([], t) == 0;
    hide Multiplicity, Recount, Cleared;
    ClearedStep(lists, ids);
    if lists != map[] {
      var id :| id in lists;
      RecountCleared(lists - {id}, ids, t);
      RecountRemove(Cleared(lists, ids), id, t);
      if id !in ids {
        RecountRemove(lists - ids, id, t);
      }
    }
  }

  lemma ClearedStep(lists: map<NodeId, seq<Topic>>, ids: set<NodeId>)
    ensures Cleared(lists, ids).Keys == lists.Keys
    ensures lists == map[] ==> Cleared(lists, ids) == lists - ids
    ensures forall id | id in lists ::
      && Cleared(lists, ids)[id] == (if id in ids then [] else lists[id])
      && Cleared(lists, ids) - {id} == Cleared(lists - {id}, ids)
      && lists - {id} - ids == if id in ids then lists - ids else lists - ids - {id}
  {}
}
