// Dispatch inside a node: libdaylite/src/mailman.cpp.

module Mailmen {
  import opened Packets

  /** The 32-bit key under which a mailbox is filed. */
  type MailboxId = i: int | 0 <= i < 0x1_0000_0000

  /** A mailbox is known by its key and its topic: of two that have both in common the
      later one takes the place of the earlier. */
  datatype Mailbox = Mailbox(id: MailboxId, topic: Topic)

  /** The mailboxes filed in a table of buckets. */
  ghost function Filed(buckets: map<Topic, map<MailboxId, Mailbox>>): set<Mailbox> {
    set t, id | t in buckets && id in buckets[t] :: buckets[t][id]
  }

  /** Buckets are never empty, and a mailbox is filed under its own topic and id. */
  ghost predicate WellFiled(buckets: map<Topic, map<MailboxId, Mailbox>>) {
    forall t | t in buckets ::
      buckets[t] != map[] && forall id | id in buckets[t] :: buckets[t][id] == Mailbox(id, t)
  }

  /** One mailbox per id. */
  ghost predicate DistinctIds(registered: set<Mailbox>) {
    forall m, n | m in registered && n in registered && m.id == n.id :: m == n
  }

  /** How often a dispatch puts a packet of the topic into the mailbox with the id. */
  ghost function Times(registered: set<Mailbox>, sender: MailboxId, topic: Topic, id: MailboxId): nat {
    (if Mailbox(id, topic) in registered && id != sender then 1 else 0)
    + (if Mailbox(id, ANY) in registered && id != sender then 1 else 0)
  }

  /** The first so many mailboxes listen to the topic, the others to "*". */
  ghost predicate TopicFirst(registered: set<Mailbox>, topic: Topic, placed: seq<MailboxId>, first: nat) {
    && first <= |placed|
    && (forall i | 0 <= i < first :: Mailbox(placed[i], topic) in registered)
    && (forall i | first <= i < |placed| :: Mailbox(placed[i], "*") in registered)
  }

  lemma FiledIff(buckets: map<Topic, map<MailboxId, Mailbox>>, m: Mailbox)
    requires WellFiled(buckets)
    ensures m in Filed(buckets) <==> m.topic in buckets && m.id in buckets[m.topic]
  {
    if m.topic in buckets && m.id in buckets[m.topic] {
      assert buckets[m.topic][m.id] == m;
    }
  }

  function Added(buckets: map<Topic, map<MailboxId, Mailbox>>, m: Mailbox): map<Topic, map<MailboxId, Mailbox>> {
    buckets[m.topic := (if m.topic in buckets then buckets[m.topic] else map[])[m.id := m]]
  }

  function Removed(buckets: map<Topic, map<MailboxId, Mailbox>>, m: Mailbox): map<Topic, map<MailboxId, Mailbox>>
    requires m.topic in buckets
  {
    var bucket := buckets[m.topic] - {m.id};
    if bucket == map[] then buckets - {m.topic} else buckets[m.topic := bucket]
  }

  lemma FileOne(buckets: map<Topic, map<MailboxId, Mailbox>>, m: Mailbox)
    requires WellFiled(buckets)
    ensures WellFiled(Added(buckets, m)) && Filed(Added(buckets, m)) == Filed(buckets) + {m}
  {
    var filed := Added(buckets, m);
    assert m.id in filed[m.topic];
    forall n ensures n in Filed(filed) <==> n in Filed(buckets) || n == m {
      FiledIff(buckets, n);
      FiledIff(filed, n);
    }
  }

  lemma RemoveOne(buckets: map<Topic, map<MailboxId, Mailbox>>, m: Mailbox)
    requires WellFiled(buckets) && m in Filed(buckets)
    ensures m.topic in buckets && m.id in buckets[m.topic]
    ensures WellFiled(Removed(buckets, m)) && Filed(Removed(buckets, m)) == Filed(buckets) - {m}
  {
    FiledIff(buckets, m);
    var filed := Removed(buckets, m);
    forall n ensures n in Filed(filed) <==> n in Filed(buckets) && n != m {
      FiledIff(buckets, n);
      FiledIff(filed, n);
      if n.topic == m.topic && n.id != m.id && n.id in buckets[m.topic] {
        assert n.id in buckets[m.topic] - {m.id};
      }
    }
  }

  ghost predicate Tidy(buckets: map<Topic, map<MailboxId, Mailbox>>, attached: set<Mailbox>) {
    WellFiled(buckets) && attached == Filed(buckets)
  }

  lemma AddedTidy(buckets: map<Topic, map<MailboxId, Mailbox>>, attached: set<Mailbox>, m: Mailbox)
    requires Tidy(buckets, attached)
    ensures Tidy(Added(buckets, m), attached + {m}) && Filed(Added(buckets, m)) == Filed(buckets) + {m}
  {
    hide WellFiled, Filed;
    FileOne(buckets, m);
  }

  lemma RemovedTidy(buckets: map<Topic, map<MailboxId, Mailbox>>, attached: set<Mailbox>, m: Mailbox)
    requires Tidy(buckets, attached) && m in Filed(buckets)
    ensures m.topic in buckets && m.id in buckets[m.topic]
    ensures Tidy(Removed(buckets, m), attached - {m}) && Filed(Removed(buckets, m)) == Filed(buckets) - {m}
  {
    hide WellFiled, Filed;
    RemoveOne(buckets, m);
  }

  class Mailman {
    var mailboxes: map<Topic, map<MailboxId, Mailbox>>
    var attached: set<Mailbox>  // mailboxes whose outgoing callback leads here

    ghost predicate Valid()
      reads this
    {
      Tidy(mailboxes, attached)
    }

    ghost function Registered(): set<Mailbox>
      reads this
    {
      Filed(mailboxes)
    }

    constructor ()
      ensures Valid() && Registered() == {}
    {
      mailboxes, attached := map[], {};
    }

    method Register(m: Mailbox)
      requires Valid()
      modifies this
      ensures Valid() && Registered() == old(Registered()) + {m}
    {
      AddedTidy(mailboxes, attached, m);
      attached := attached + {m};
      var bucket := if m.topic in mailboxes then mailboxes[m.topic] else map[];
      mailboxes := mailboxes[m.topic := bucket[m.id := m]];
    }

    method Unregister(m: Mailbox)
      requires Valid() && m in Registered()
      modifies this
      ensures Valid() && Registered() == old(Registered()) - {m}
    {
      RemovedTidy(mailboxes, attached, m);
      attached := attached - {m};
      var bucket := mailboxes[m.topic] - {m.id};
      if bucket == map[] {
        mailboxes := mailboxes - {m.topic};
      } else {
        mailboxes := mailboxes[m.topic := bucket];
      }
    }

    /** The mailboxes a packet is placed in, in the order in which the tables hold them. */
    method Send(sender: MailboxId, p: Packet) returns (placed: seq<MailboxId>)
      requires Valid()
      ensures exists first :: TopicFirst(Registered(), p.meta.topic, placed, first)
      ensures forall id: MailboxId :: multiset(placed)[id] == Times(Registered(), sender, p.meta.topic, id)
    {
      placed := [];
      if p.meta.topic in mailboxes {
        placed := Serve(mailboxes[p.meta.topic], sender);
      }
      var all := [];
      if ANY in mailboxes {
        all := Serve(mailboxes[ANY], sender);
      }
      forall id: MailboxId
        ensures multiset(placed + all)[id] == Times(Registered(), sender, p.meta.topic, id)
      {
        FiledIff(mailboxes, Mailbox(id, p.meta.topic));
        FiledIff(mailboxes, Mailbox(id, ANY));
      }
      forall i | 0 <= i < |placed| ensures Mailbox(placed[i], p.meta.topic) in Registered() {
        assert multiset(placed)[placed[i]] > 0;
        FiledIff(mailboxes, Mailbox(placed[i], p.meta.topic));
      }
      forall i | 0 <= i < |all| ensures Mailbox(all[i], ANY) in Registered() {
        assert multiset(all)[all[i]] > 0;
        FiledIff(mailboxes, Mailbox(all[i], ANY));
      }
      assert TopicFirst(Registered(), p.meta.topic, placed + all, |placed|);
      placed := placed + all;
    }

    /** One bucket, all but the sender. */
    static method Serve(bucket: map<MailboxId, Mailbox>, sender: MailboxId) returns (placed: seq<MailboxId>)
      ensures forall id: MailboxId :: multiset(placed)[id] == if id in bucket && id != sender then 1 else 0
    {
      placed := [];
      var todo := bucket.Keys;
      while todo != {}
        invariant todo <= bucket.Keys
        invariant forall id: MailboxId ::
            multiset(placed)[id] == if id in bucket && id !in todo && id != sender then 1 else 0
        decreases todo
      {
        var id :| id in todo;
        todo := todo - {id};
        if id == sender {
          continue;
        }
        placed := placed + [id];
      }
    }
  }

  // ---- what the specification amounts to ----------------------------------

  /** The topic of a packet matches a mailbox. */
  ghost predicate Matches(topic: Topic, m: Mailbox) { m.topic == topic || m.topic == ANY }

  /** Exactly once in every other registered mailbox that matches, and nowhere else,
      exactly when the topic is not "*" or no other mailbox listens to "*". */
  lemma OnceExactlyWhen(registered: set<Mailbox>, sender: MailboxId, topic: Topic)
    requires DistinctIds(registered)
    ensures (forall id: MailboxId ::
              Times(registered, sender, topic, id)
              == if id != sender && exists m :: m in registered && m.id == id && Matches(topic, m) then 1 else 0)
       <==> topic != ANY || forall m | m in registered && m.topic == ANY :: m.id == sender
  {
    if topic != ANY {
      forall id: MailboxId
        ensures Times(registered, sender, topic, id)
             == if id != sender && exists m :: m in registered && m.id == id && Matches(topic, m) then 1 else 0
      {
        var a, b := Mailbox(id, topic), Mailbox(id, ANY);
        assert a.id == b.id && a != b;
        if m :| m in registered && m.id == id && Matches(topic, m) {
          assert m == a || m == b;
        }
      }
    } else if m :| m in registered && m.topic == ANY && m.id != sender {
      assert Mailbox(m.id, ANY) == m && Times(registered, sender, topic, m.id) == 2;
    }
  }

  /** A packet on "*" does reach every other mailbox that listens to "*" twice. */
  lemma ServedTwice(registered: set<Mailbox>, sender: MailboxId, id: MailboxId)
    requires Mailbox(id, "*") in registered && id != sender
    ensures Times(registered, sender, "*", id) == 2
  {}
}
