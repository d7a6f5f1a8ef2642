// What a node knows of the others, and its subscription counts:
// libdaylite/src/node_impl.cpp.

module Membership {
  import opened Numbers
  import opened Packets
  import opened Wrappers
  import opened Mailmen
  import opened Tallies
  import Clocks
  import RemoteNodes

  /** A link as the disconnection handler sees it. */
  datatype Remote = Remote(mailbox: MailboxId, socket: int, associatedIds: set<NodeId>)

  /** Internal mail: a packet that carries a node's info. */
  datatype Mail = Mail(info: NodeInfo, stamp: Time)

  /** A subscriber or publisher; it is told from others by its address. */
  class Endpoint {
    const topic: Topic

    constructor (topic: Topic)
      ensures this.topic == topic
    {
      this.topic := topic;
    }
  }

  // ---- infos and their counts ---------------------------------------------

  function InLists(latest: map<NodeId, NodeInfo>): map<NodeId, seq<Topic>> {
    map k | k in latest :: latest[k].inTopics
  }

  function SplatLists(latest: map<NodeId, NodeInfo>): map<NodeId, seq<Topic>> {
    map k | k in latest :: latest[k].splats
  }

  /** The counters match a recount over all infos, which are filed under their own ids;
      there is none about the node itself. */
  ghost predicate Counted(self: NodeId, latest: map<NodeId, NodeInfo>, subscriptions: Counters, splats: Counters) {
    && self !in latest
    && (forall k | k in latest :: latest[k].id == k)
    && Agrees(subscriptions, InLists(latest))
    && Agrees(splats, SplatLists(latest))
  }

  /** An info with its node gone. */
  function Dead(info: NodeInfo): NodeInfo {
    info.(alive := false, inTopics := [], outTopics := [], splats := [])
  }

  function Marked(latest: map<NodeId, NodeInfo>, ids: set<NodeId>): map<NodeId, NodeInfo> {
    map k | k in latest :: if k in ids then Dead(latest[k]) else latest[k]
  }

  /** The node is gone: not alive, without topics, and otherwise what was known of it. */
  ghost predicate IsGone(after: NodeInfo, before: NodeInfo) {
    && !after.alive && after.inTopics == [] && after.outTopics == [] && after.splats == []
    && after.id == before.id && after.name == before.name
  }

  lemma MarkedExactly(latest: map<NodeId, NodeInfo>, ids: set<NodeId>, k: NodeId)
    requires k in latest
    ensures Marked(latest, ids).Keys == latest.Keys
    ensures k in ids ==> IsGone(Marked(latest, ids)[k], latest[k])
    ensures k !in ids ==> Marked(latest, ids)[k] == latest[k]
  {}

  /** Filing a new info with its topics tallied, the old one's untallied. */
  lemma FilingKeepsCounted(self: NodeId, latest: map<NodeId, NodeInfo>, c: Counters, d: Counters, info: NodeInfo)
    requires Counted(self, latest, c, d) && info.id != self
    ensures Counted(self, latest[info.id := info],
                    Tallied(Untallied(c, ListOf(InLists(latest), info.id)), info.inTopics),
                    Tallied(Untallied(d, ListOf(SplatLists(latest), info.id)), info.splats))
    ensures Tallied(Untallied(c, ListOf(InLists(latest), info.id)), info.inTopics).Keys
         == c.Keys + set t | t in info.inTopics
  {
    hide Agrees, Tallied, Untallied;
    ReplaceKeys(c, InLists(latest), info.id, info.inTopics);
    ReplaceAgrees(c, InLists(latest), info.id, info.inTopics);
    ReplaceAgrees(d, SplatLists(latest), info.id, info.splats);
    assert InLists(latest[info.id := info]) == InLists(latest)[info.id := info.inTopics];
    assert SplatLists(latest[info.id := info]) == SplatLists(latest)[info.id := info.splats];
  }

  /** A topic that any known node subscribes to passes the filter of every link. */
  lemma SubscribedIsForwarded(self: NodeId, latest: map<NodeId, NodeInfo>, c: Counters, d: Counters,
                              k: NodeId, allowInternal: bool, p: Packet)
    requires Counted(self, latest, c, d) && k in latest && p.meta.topic in latest[k].inTopics && !p.localOnly
    ensures RemoteNodes.Forwarded(self, allowInternal, c.Keys, p) == Some(RemoteNodes.Stamped(p, self))
  {
    SplitRecount(InLists(latest), k, p.meta.topic);
  }

  /** The counters of the two tables are those of the in-topics and of the splats that
      the infos list. */
  lemma ListedIsCounted(self: NodeId, latest: map<NodeId, NodeInfo>, c: Counters, d: Counters, k: NodeId, t: Topic)
    requires Counted(self, latest, c, d) && k in latest
    ensures t in latest[k].inTopics ==> t in c
    ensures t in latest[k].splats ==> t in d
    ensures Count(c, t) == (Multiplicity(latest[k].inTopics, t) + Recount(InLists(latest - {k}), t)) % U32
    ensures Count(d, t) == (Multiplicity(latest[k].splats, t) + Recount(SplatLists(latest - {k}), t)) % U32
  {
    hide Agrees, Recount, Multiplicity, Count;
    ListedCount(c, InLists(latest), k, t);
    ListedCount(d, SplatLists(latest), k, t);
    assert InLists(latest) - {k} == InLists(latest - {k});
    assert SplatLists(latest) - {k} == SplatLists(latest - {k});
  }

  /** Nodes marked dead count for nothing; marking them again, as when a second link to
      the same peer goes, changes nothing. */
  lemma MarkedCount(latest: map<NodeId, NodeInfo>, ids: set<NodeId>, t: Topic)
    ensures Recount(InLists(Marked(latest, ids)), t) == Recount(InLists(latest) - ids, t)
    ensures Marked(Marked(latest, ids), ids) == Marked(latest, ids)
  {
    RecountCleared(InLists(latest), ids, t);
    assert InLists(Marked(latest, ids)) == Cleared(InLists(latest), ids);
  }

  // ---- subscribers of this node -------------------------------------------

  function Without(active: seq<Endpoint>, e: Endpoint): seq<Endpoint> {
    if active == [] then []
    else if active[0] == e then Without(active[1..], e)
    else [active[0]] + Without(active[1..], e)
  }

  function TopicsOf(active: seq<Endpoint>): seq<Topic> {
    seq(|active|, i requires 0 <= i < |active| => active[i].topic)
  }

  ghost function On(active: seq<Endpoint>, t: Topic): set<Endpoint> {
    set e | e in active && e.topic == t
  }

  /** Each local counter holds the number of entries for its topic. */
  ghost predicate LocallyCounted(active: seq<Endpoint>, local: Counters) {
    forall t: Topic :: Count(local, t) == Multiplicity(TopicsOf(active), t) % U32
  }

  lemma TopicsSplit(active: seq<Endpoint>, i: nat, t: Topic)
    requires i < |active|
    ensures Multiplicity(TopicsOf(active), t)
         == Multiplicity(TopicsOf(active[..i] + active[i + 1..]), t) + if active[i].topic == t then 1 else 0
  {
    assert TopicsOf(active) == TopicsOf(active[..i]) + [active[i].topic] + TopicsOf(active[i + 1..]);
    assert TopicsOf(active[..i] + active[i + 1..]) == TopicsOf(active[..i]) + TopicsOf(active[i + 1..]);
  }

  lemma NoDuplicatesTail(active: seq<Endpoint>)
    requires NoDuplicates(active) && active != []
    ensures NoDuplicates(active[1..]) && active[0] !in active[1..]
  {
    assert forall i | 0 <= i < |active[1..]| :: active[1..][i] == active[i + 1];
  }

  lemma NoneOn(t: Topic)
    ensures Multiplicity(TopicsOf([]), t) == |On([], t)| == 0
  {}

  lemma OnOneMore(active: seq<Endpoint>, t: Topic)
    requires active != [] && active[0] !in active[1..]
    ensures |On(active, t)| == |On(active[1..], t)| + if active[0].topic == t then 1 else 0
  {
    var e, rest := active[0], active[1..];
    assert active == [e] + rest;
    assert On(active, t) == On(rest, t) + if e.topic == t then {e} else {};
  }

  /** With no subscriber entered twice, a counter is the number of distinct subscribers. */
  lemma {:induction false} CountIsDistinctSubscribers(active: seq<Endpoint>, t: Topic)
    requires NoDuplicates(active)
    ensures Multiplicity(TopicsOf(active), t) == |On(active, t)|
  {
    hide NoDuplicates, Multiplicity, TopicsOf, On;
    if active != [] {
      var rest := active[1..];
      assert active[..0] + active[1..] == rest;
      TopicsSplit(active, 0, t);
      NoDuplicatesTail(active);
      CountIsDistinctSubscribers(rest, t);
      OnOneMore(active, t);
    } else {
      NoneOn(t);
    }
  }

  lemma EraseKeepsCounted(active: seq<Endpoint>, local: Counters, i: nat)
    requires LocallyCounted(active, local) && i < |active|
    ensures LocallyCounted(active[..i] + active[i + 1..], Decremented(local, active[i].topic))
  {
    hide Multiplicity, TopicsOf;
    forall t: Topic
      ensures Count(Decremented(local, active[i].topic), t)
           == Multiplicity(TopicsOf(active[..i] + active[i + 1..]), t) % U32
    {
      TopicsSplit(active, i, t);
      ModMinusOne(Count(local, t), Multiplicity(TopicsOf(active), t));
    }
  }

  lemma PushKeepsCounted(active: seq<Endpoint>, local: Counters, e: Endpoint)
    requires LocallyCounted(active, local)
    ensures LocallyCounted(active + [e], Incremented(local, e.topic))
  {
    hide Multiplicity, TopicsOf;
    forall t: Topic
      ensures Count(Incremented(local, e.topic), t) == Multiplicity(TopicsOf(active + [e]), t) % U32
    {
      TopicsSplit(active + [e], |active|, t);
      assert (active + [e])[..|active|] + (active + [e])[|active| + 1..] == active;
      ModPlusOne(Count(local, t), Multiplicity(TopicsOf(active), t));
    }
  }

  lemma {:induction false} WithoutErased(active: seq<Endpoint>, e: Endpoint, i: nat)
    requires i < |active| && active[i] == e
    ensures Without(active[..i] + active[i + 1..], e) == Without(active, e)
  {
    if i > 0 {
      var rest := active[1..];
      WithoutErased(rest, e, i - 1);
      assert active[..i] + active[i + 1..] == [active[0]] + (rest[..i - 1] + rest[i..]);
    } else {
      assert active[..i] + active[i + 1..] == active[1..];
    }
  }

  lemma {:induction false} WithoutAbsent(active: seq<Endpoint>, e: Endpoint)
    ensures e !in active ==> Without(active, e) == active
    ensures forall x :: x in Without(active, e) <==> x in active && x != e
    ensures NoDuplicates(active) ==> NoDuplicates(Without(active, e))
  {
    if active != [] {
      WithoutAbsent(active[1..], e);
      if NoDuplicates(active) {
        NoDuplicatesTail(active);
      }
    }
  }

  // ---- links --------------------------------------------------------------

  function OnOthers(remotes: seq<Remote>, socket: int): seq<Remote> {
    if remotes == [] then []
    else (if remotes[0].socket == socket then [] else [remotes[0]]) + OnOthers(remotes[1..], socket)
  }

  /** The mailboxes of the links on a socket, in order. */
  function MailboxesOn(remotes: seq<Remote>, socket: int): seq<MailboxId> {
    if remotes == [] then []
    else (if remotes[0].socket == socket then [remotes[0].mailbox] else []) + MailboxesOn(remotes[1..], socket)
  }

  function IdsOn(remotes: seq<Remote>, socket: int): set<NodeId> {
    set r, k | r in remotes && r.socket == socket && k in r.associatedIds :: k
  }

  /** k was reached over the socket. */
  ghost predicate Through(remotes: seq<Remote>, socket: int, k: NodeId) {
    exists i :: 0 <= i < |remotes| && remotes[i].socket == socket && k in remotes[i].associatedIds
  }

  /** Who was reached over the socket is gone, and everyone else as before. */
  ghost predicate Lost(before: map<NodeId, NodeInfo>, after: map<NodeId, NodeInfo>, remotes: seq<Remote>, socket: int) {
    && after.Keys == before.Keys
    && (forall k | k in before && Through(remotes, socket, k) :: IsGone(after[k], before[k]))
    && (forall k | k in before && !Through(remotes, socket, k) :: after[k] == before[k])
  }

  lemma MarkedIsLost(latest: map<NodeId, NodeInfo>, remotes: seq<Remote>, socket: int)
    ensures Lost(latest, Marked(latest, IdsOn(remotes, socket)), remotes, socket)
  {
    hide Marked, IsGone;
    var ids := IdsOn(remotes, socket);
    forall k | k in latest
      ensures Marked(latest, ids).Keys == latest.Keys
      ensures if Through(remotes, socket, k) then IsGone(Marked(latest, ids)[k], latest[k])
              else Marked(latest, ids)[k] == latest[k]
    {
      MarkedExactly(latest, ids, k);
      assert k in ids <==> Through(remotes, socket, k);
    }
    SameKeys(latest, ids);
  }

  lemma SameKeys(latest: map<NodeId, NodeInfo>, ids: set<NodeId>)
    ensures Marked(latest, ids).Keys == latest.Keys
  {}

  /** Link by link and in order: those on the socket go, and their mailboxes with them. */
  lemma {:induction false} LinksExactly(remotes: seq<Remote>, socket: int, r: Remote)
    ensures OnOthers(remotes + [r], socket)
         == OnOthers(remotes, socket) + if r.socket == socket then [] else [r]
    ensures MailboxesOn(remotes + [r], socket)
         == MailboxesOn(remotes, socket) + if r.socket == socket then [r.mailbox] else []
  {
    if remotes == [] {
      assert remotes + [r] == [r];
    } else {
      assert (remotes + [r])[1..] == remotes[1..] + [r];
      LinksExactly(remotes[1..], socket, r);
    }
  }

  /** How far the loop over the links is: `left` of the links `before`, the first i of
      them looked at; dropped so far are the mailboxes `gone` and the node ids `lost`. */
  ghost predicate Dropping(before: seq<Remote>, socket: int, left: seq<Remote>, i: nat,
                           gone: seq<MailboxId>, lost: set<NodeId>)
  {
    && i <= |left|
    && left[..i] + OnOthers(left[i..], socket) == OnOthers(before, socket)
    && gone + MailboxesOn(left[i..], socket) == MailboxesOn(before, socket)
    && lost + IdsOn(left[i..], socket) == IdsOn(before, socket)
  }

  lemma DroppingStarts(before: seq<Remote>, socket: int)
    ensures Dropping(before, socket, before, 0, [], {})
  {
    assert before[0..] == before;
  }

  lemma DroppingPasses(before: seq<Remote>, socket: int, left: seq<Remote>, i: nat,
                       gone: seq<MailboxId>, lost: set<NodeId>)
    requires Dropping(before, socket, left, i, gone, lost) && i < |left| && left[i].socket != socket
    ensures Dropping(before, socket, left, i + 1, gone, lost)
  {
    var r, rest := left[i], left[i + 1..];
    assert left[i..] == [r] + rest && left[..i + 1] == left[..i] + [r];
    assert OnOthers([r] + rest, socket) == [r] + OnOthers(rest, socket);
    assert MailboxesOn([r] + rest, socket) == MailboxesOn(rest, socket);
  }

  lemma DroppingDrops(before: seq<Remote>, socket: int, left: seq<Remote>, i: nat,
                      gone: seq<MailboxId>, lost: set<NodeId>)
    requires Dropping(before, socket, left, i, gone, lost) && i < |left| && left[i].socket == socket
    ensures Dropping(before, socket, left[..i] + left[i + 1..], i,
                     gone + [left[i].mailbox], lost + left[i].associatedIds)
  {
    var r, rest := left[i], left[i + 1..];
    assert left[i..] == [r] + rest && (left[..i] + rest)[i..] == rest;
    assert OnOthers([r] + rest, socket) == OnOthers(rest, socket);
    assert MailboxesOn([r] + rest, socket) == [r.mailbox] + MailboxesOn(rest, socket);
    assert IdsOn([r] + rest, socket) == r.associatedIds + IdsOn(rest, socket);
  }

  lemma DroppingEnds(before: seq<Remote>, socket: int, left: seq<Remote>,
                     gone: seq<MailboxId>, lost: set<NodeId>)
    requires Dropping(before, socket, left, |left|, gone, lost)
    ensures left == OnOthers(before, socket)
    ensures gone == MailboxesOn(before, socket) && lost == IdsOn(before, socket)
  {}

  lemma NoneMarked(latest: map<NodeId, NodeInfo>)
    ensures Marked(latest, {}) == latest
  {}

  lemma MarkedMore(latest: map<NodeId, NodeInfo>, some: set<NodeId>, more: set<NodeId>)
    ensures Marked(Marked(latest, some), more) == Marked(latest, some + more)
  {}

  // ---- announcements ------------------------------------------------------

  /** Each info once, in any order, and no others; one stamp on all. */
  ghost predicate Lists(mail: seq<Mail>, infos: map<NodeId, NodeInfo>, stamp: Time) {
    && (forall i | 0 <= i < |mail| :: mail[i].info.id in infos && mail[i] == Mail(infos[mail[i].info.id], stamp))
    && (forall i, j | 0 <= i < j < |mail| :: mail[i].info.id != mail[j].info.id)
    && (forall k | k in infos :: Mail(infos[k], stamp) in mail)
  }

  /** The infos that are announced: of the nodes known to be alive, or of all nodes known. */
  function Told(latest: map<NodeId, NodeInfo>, includeDead: bool): map<NodeId, NodeInfo> {
    map k | k in latest && (includeDead || latest[k].alive) :: latest[k]
  }

  /** First the node's own info, then those it has of others. */
  ghost predicate Announces(mail: seq<Mail>, own: NodeInfo, latest: map<NodeId, NodeInfo>,
                            includeDead: bool, stamp: Time)
  {
    mail != [] && mail[0] == Mail(own, stamp) && Lists(mail[1..], Told(latest, includeDead), stamp)
  }

  /** What is announced: after the node's own, the infos of others as they are known, each
      once, of the living or, on request, of all. */
  lemma AnnouncesExactly(mail: seq<Mail>, own: NodeInfo, latest: map<NodeId, NodeInfo>, includeDead: bool, stamp: Time)
    requires Announces(mail, own, latest, includeDead, stamp) && forall k | k in latest :: latest[k].id == k
    ensures mail != [] && mail[0] == Mail(own, stamp)
    ensures forall i | 1 <= i < |mail| ::
              && mail[i].stamp == stamp && mail[i].info.id in latest && mail[i].info == latest[mail[i].info.id]
              && (includeDead || mail[i].info.alive)
    ensures forall i, j | 1 <= i < j < |mail| :: mail[i].info.id != mail[j].info.id
    ensures forall k | k in latest && (includeDead || latest[k].alive) :: Mail(latest[k], stamp) in mail[1..]
  {
    var told, infos := mail[1..], Told(latest, includeDead);
    forall i | 1 <= i < |mail|
      ensures mail[i].info.id in infos && mail[i] == Mail(infos[mail[i].info.id], stamp)
    {
      assert mail[i] == told[i - 1];
    }
    forall i, j | 1 <= i < j < |mail| ensures mail[i].info.id != mail[j].info.id {
      assert mail[i] == told[i - 1] && mail[j] == told[j - 1];
    }
    forall k | k in latest && (includeDead || latest[k].alive) ensures Mail(latest[k], stamp) in told {
      assert k in infos;
    }
  }

  /** Nobody who was reached over a lost socket is announced as living after that. */
  lemma LostAreNotAnnounced(before: map<NodeId, NodeInfo>, after: map<NodeId, NodeInfo>, remotes: seq<Remote>,
                            socket: int, mail: seq<Mail>, own: NodeInfo, stamp: Time, i: nat)
    requires Lost(before, after, remotes, socket) && forall k | k in after :: after[k].id == k
    requires Announces(mail, own, after, false, stamp) && 1 <= i < |mail|
    ensures !Through(remotes, socket, mail[i].info.id)
  {
    hide Announces, Through;
    AnnouncesExactly(mail, own, after, false, stamp);
  }

  lemma ListOne(mail: seq<Mail>, infos: map<NodeId, NodeInfo>, stamp: Time, info: NodeInfo)
    requires Lists(mail, infos, stamp) && info.id !in infos
    ensures Lists(mail + [Mail(info, stamp)], infos[info.id := info], stamp)
  {
    var more, added := mail + [Mail(info, stamp)], infos[info.id := info];
    forall k | k in added
      ensures Mail(added[k], stamp) in more
    {
      assert k == info.id ==> more[|mail|] == Mail(added[k], stamp);
    }
  }

  lemma ToldOneMore(latest: map<NodeId, NodeInfo>, includeDead: bool, todo: set<NodeId>, id: NodeId)
    requires id in latest && id in todo
    ensures id !in Told(latest - todo, includeDead)
    ensures Told(latest - (todo - {id}), includeDead)
         == if includeDead || latest[id].alive then Told(latest - todo, includeDead)[id := latest[id]]
            else Told(latest - todo, includeDead)
  {}

  class NodeImpl {
    const self: NodeId
    const name: string
    var latestInfo: map<NodeId, NodeInfo>
    var subscriptionCount: Counters
    var splatCount: Counters
    var localSubscriptionCount: Counters
    var activeSubscribers: seq<Endpoint>
    var activePublishers: seq<Endpoint>
    var remotes: seq<Remote>
    var networkTime: Time
    var lastTime: Time
    var mail: seq<Mail>               // placed as outgoing mail
    var unregistered: seq<MailboxId>  // mailboxes that the mailman was told to drop

    ghost predicate Valid()
      reads this
    {
      && Counted(self, latestInfo, subscriptionCount, splatCount)
      && NoDuplicates(activeSubscribers)
      && LocallyCounted(activeSubscribers, localSubscriptionCount)
    }

    constructor (self: NodeId, name: string, now: Time)
      ensures Valid()
      ensures latestInfo == map[] && activeSubscribers == [] && remotes == [] && mail == [] && unregistered == []
      ensures networkTime == Time(0, 0) && lastTime == now
    {
      this.self, this.name := self, name;
      latestInfo, subscriptionCount, splatCount, localSubscriptionCount := map[], map[], map[], map[];
      activeSubscribers, activePublishers, remotes, mail, unregistered := [], [], [], [], [];
      networkTime, lastTime := Time(0, 0), now;
    }

    method Tally(info: NodeInfo)
      modifies this`subscriptionCount, this`splatCount
      ensures subscriptionCount == Tallied(old(subscriptionCount), info.inTopics)
      ensures splatCount == Tallied(old(splatCount), info.splats)
    {
      for i := 0 to |info.inTopics|
        invariant subscriptionCount == Tallied(old(subscriptionCount), info.inTopics[..i])
        invariant splatCount == old(splatCount)
      {
        subscriptionCount := Incremented(subscriptionCount, info.inTopics[i]);
        assert info.inTopics[..i + 1] == info.inTopics[..i] + [info.inTopics[i]];
      }
      assert info.inTopics[..|info.inTopics|] == info.inTopics;
      for i := 0 to |info.splats|
        invariant splatCount == Tallied(old(splatCount), info.splats[..i])
        invariant subscriptionCount == Tallied(old(subscriptionCount), info.inTopics)
      {
        splatCount := Incremented(splatCount, info.splats[i]);
        assert info.splats[..i + 1] == info.splats[..i] + [info.splats[i]];
      }
      assert info.splats[..|info.splats|] == info.splats;
    }

    method Untally(info: NodeInfo)
      modifies this`subscriptionCount, this`splatCount
      ensures subscriptionCount == Untallied(old(subscriptionCount), info.inTopics)
      ensures splatCount == Untallied(old(splatCount), info.splats)
    {
      for i := 0 to |info.inTopics|
        invariant subscriptionCount == Untallied(old(subscriptionCount), info.inTopics[..i])
        invariant splatCount == old(splatCount)
      {
        subscriptionCount := Decremented(subscriptionCount, info.inTopics[i]);
        assert info.inTopics[..i + 1] == info.inTopics[..i] + [info.inTopics[i]];
      }
      assert info.inTopics[..|info.inTopics|] == info.inTopics;
      for i := 0 to |info.splats|
        invariant splatCount == Untallied(old(splatCount), info.splats[..i])
        invariant subscriptionCount == Untallied(old(subscriptionCount), info.inTopics)
      {
        splatCount := Decremented(splatCount, info.splats[i]);
        assert info.splats[..i + 1] == info.splats[..i] + [info.splats[i]];
      }
      assert info.splats[..|info.splats|] == info.splats;
    }

    method UpdateTime(now: Time)
      modifies this`networkTime, this`lastTime
      ensures networkTime == Clocks.Advanced(old(networkTime), old(lastTime), now) && lastTime == now
    {
      var diff := Clocks.TimerSub(now, lastTime);
      var ans := Clocks.TimerAdd(networkTime, diff);
      networkTime := Time(ans.seconds % U32, ans.microseconds % U32);
      lastTime := now;
    }

    /** Internal mail. */
    method HandleInfo(info: NodeInfo, stamp: Time, now: Time)
      requires Valid()
      modifies this`networkTime, this`lastTime, this`latestInfo, this`subscriptionCount, this`splatCount
      ensures Valid()
      ensures networkTime == Clocks.Heeded(Clocks.Advanced(old(networkTime), old(lastTime), now), stamp)
      ensures lastTime == now
      ensures latestInfo == if info.id == self then old(latestInfo) else old(latestInfo)[info.id := info]
      ensures info.id == self ==> subscriptionCount == old(subscriptionCount) && splatCount == old(splatCount)
      ensures subscriptionCount.Keys == old(subscriptionCount.Keys) + TopicsTold(self, info)
      ensures info.id != self ==> forall topic | topic in info.inTopics :: topic in subscriptionCount
    {
      UpdateTime(now);
      if Clocks.Later(stamp, networkTime) {
        networkTime := stamp;
      }
      if info.id == self {
        return;
      }
      File(info);
    }

    /** The handler's update of the tallies. */
    method File(info: NodeInfo)
      requires Counted(self, latestInfo, subscriptionCount, splatCount) && info.id != self
      modifies this`latestInfo, this`subscriptionCount, this`splatCount
      ensures Counted(self, latestInfo, subscriptionCount, splatCount)
      ensures latestInfo == old(latestInfo)[info.id := info]
      ensures subscriptionCount.Keys == old(subscriptionCount.Keys) + set t | t in info.inTopics
    {
      FilingKeepsCounted(self, latestInfo, subscriptionCount, splatCount, info);
      if info.id in latestInfo {
        Untally(latestInfo[info.id]);
      }
      latestInfo := latestInfo[info.id := info];
      Tally(info);
    }

    /** One pass of the loop over a lost link's ids. */
    method MarkDead(id: NodeId)
      requires Counted(self, latestInfo, subscriptionCount, splatCount)
      modifies this`latestInfo, this`subscriptionCount, this`splatCount
      ensures Counted(self, latestInfo, subscriptionCount, splatCount)
      ensures latestInfo == Marked(old(latestInfo), {id}) && subscriptionCount.Keys == old(subscriptionCount.Keys)
      ensures latestInfo.Keys == old(latestInfo.Keys)
      ensures forall k | k in latestInfo ::
                if k == id then IsGone(latestInfo[k], old(latestInfo)[k]) else latestInfo[k] == old(latestInfo)[k]
    {
      if id !in latestInfo {
        return;
      }
      FilingKeepsCounted(self, latestInfo, subscriptionCount, splatCount, Dead(latestInfo[id]));
      Untally(latestInfo[id]);
      latestInfo := latestInfo[id := Dead(latestInfo[id])];
    }

    method MarkAllDead(ids: set<NodeId>)
      requires Counted(self, latestInfo, subscriptionCount, splatCount)
      modifies this`latestInfo, this`subscriptionCount, this`splatCount
      ensures Counted(self, latestInfo, subscriptionCount, splatCount)
      ensures latestInfo == Marked(old(latestInfo), ids) && subscriptionCount.Keys == old(subscriptionCount.Keys)
    {
      var todo := ids;
      NoneMarked(latestInfo);
      assert ids - todo == {};
      hide Marked, Counted;
      while todo != {}
        invariant todo <= ids
        invariant Counted(self, latestInfo, subscriptionCount, splatCount)
        invariant latestInfo == Marked(old(latestInfo), ids - todo)
        invariant subscriptionCount.Keys == old(subscriptionCount.Keys)
      {
        var id :| id in todo;
        MarkedMore(old(latestInfo), ids - todo, {id});
        MarkDead(id);
        assert ids - todo + {id} == ids - (todo - {id});
        todo := todo - {id};
      }
      assert ids - {} == ids;
    }

    /** The disconnection of a socket: every node known through it is marked dead. */
    method ServerDisconnection(socket: int, now: Time)
      requires Valid()
      modifies this
      ensures Valid()
      ensures remotes == OnOthers(old(remotes), socket)
      ensures unregistered == old(unregistered) + MailboxesOn(old(remotes), socket)
      ensures latestInfo == Marked(old(latestInfo), IdsOn(old(remotes), socket))
      ensures Lost(old(latestInfo), latestInfo, old(remotes), socket)
      ensures subscriptionCount.Keys == old(subscriptionCount.Keys)
      ensures networkTime == Clocks.Advanced(old(networkTime), old(lastTime), now) && lastTime == now
      ensures old(mail) <= mail && Announces(mail[|old(mail)|..], Info(), latestInfo, true, networkTime)
      ensures activeSubscribers == old(activeSubscribers) && activePublishers == old(activePublishers)
      ensures localSubscriptionCount == old(localSubscriptionCount)
    {
      MarkedIsLost(latestInfo, remotes, socket);
      DropRemotes(socket);
      SendInfo(true, now);
    }

    method DropRemotes(socket: int)
      requires Valid()
      modifies this`remotes, this`unregistered, this`latestInfo, this`subscriptionCount, this`splatCount
      ensures Valid()
      ensures remotes == OnOthers(old(remotes), socket)
      ensures unregistered == old(unregistered) + MailboxesOn(old(remotes), socket)
      ensures latestInfo == Marked(old(latestInfo), IdsOn(old(remotes), socket))
      ensures subscriptionCount.Keys == old(subscriptionCount.Keys)
    {
      var i := 0;
      ghost var gone: seq<MailboxId>, lost: set<NodeId> := [], {};
      NoneMarked(latestInfo);
      DroppingStarts(remotes, socket);
      hide Dropping, Marked, Counted;
      while i < |remotes|
        invariant 0 <= i <= |remotes|
        invariant Dropping(old(remotes), socket, remotes, i, gone, lost)
        invariant unregistered == old(unregistered) + gone
        invariant Counted(self, latestInfo, subscriptionCount, splatCount)
        invariant latestInfo == Marked(old(latestInfo), lost) && subscriptionCount.Keys == old(subscriptionCount.Keys)
        decreases |remotes| - i
      {
        if remotes[i].socket != socket {
          DroppingPasses(old(remotes), socket, remotes, i, gone, lost);
          i := i + 1;
          continue;
        }
        DroppingDrops(old(remotes), socket, remotes, i, gone, lost);
        MarkedMore(old(latestInfo), lost, remotes[i].associatedIds);
        gone, lost := gone + [remotes[i].mailbox], lost + remotes[i].associatedIds;
        unregistered := unregistered + [remotes[i].mailbox];
        MarkAllDead(remotes[i].associatedIds);
        remotes := remotes[..i] + remotes[i + 1..];
      }
      DroppingEnds(old(remotes), socket, remotes, gone, lost);
    }

    method RegisterSubscriber(e: Endpoint, now: Time)
      requires Valid()
      modifies this`activeSubscribers, this`localSubscriptionCount, this`networkTime, this`lastTime, this`mail
      ensures Valid()
      ensures activeSubscribers == Without(old(activeSubscribers), e) + [e]
      ensures networkTime == Clocks.Advanced(old(networkTime), old(lastTime), now) && lastTime == now
      ensures old(mail) <= mail && Announces(mail[|old(mail)|..], Info(), latestInfo, false, networkTime)
      ensures |mail| > |old(mail)| && OwnMail(mail[|old(mail)|].info) && e.topic in mail[|old(mail)|].info.inTopics
    {
      UnregisterSubscriber(e);
      WithoutAbsent(old(activeSubscribers), e);
      Enter(e);
      SendInfo(false, now);
      assert activeSubscribers[|activeSubscribers| - 1] == e;
      assert mail[|old(mail)|].info.inTopics[|activeSubscribers| - 1] == e.topic;
    }

    /** The node tells of itself, as living, the topic of every subscriber and of every
        publisher. */
    ghost predicate OwnMail(info: NodeInfo)
      reads this
    {
      && info.id == self && info.name == name && info.alive && info.splats == []
      && |info.inTopics| == |activeSubscribers| && |info.outTopics| == |activePublishers|
      && (forall i | 0 <= i < |activeSubscribers| :: info.inTopics[i] == activeSubscribers[i].topic)
      && (forall i | 0 <= i < |activePublishers| :: info.outTopics[i] == activePublishers[i].topic)
    }

    method Enter(e: Endpoint)
      requires Valid() && e !in activeSubscribers
      modifies this`activeSubscribers, this`localSubscriptionCount
      ensures Valid()
      ensures activeSubscribers == old(activeSubscribers) + [e]
    {
      PushKeepsCounted(activeSubscribers, localSubscriptionCount, e);
      localSubscriptionCount := Incremented(localSubscriptionCount, e.topic);
      activeSubscribers := activeSubscribers + [e];
    }

    method UnregisterSubscriber(e: Endpoint)
      requires Valid()
      modifies this`activeSubscribers, this`localSubscriptionCount
      ensures Valid()
      ensures activeSubscribers == Without(old(activeSubscribers), e)
    {
      var i := 0;
      while i < |activeSubscribers|
        invariant 0 <= i <= |activeSubscribers|
        invariant e !in activeSubscribers[..i]
        invariant Without(activeSubscribers, e) == Without(old(activeSubscribers), e)
        invariant LocallyCounted(activeSubscribers, localSubscriptionCount)
        decreases |activeSubscribers| - i
      {
        if activeSubscribers[i] == e {
          WithoutErased(activeSubscribers, e, i);
          EraseKeepsCounted(activeSubscribers, localSubscriptionCount, i);
          activeSubscribers := activeSubscribers[..i] + activeSubscribers[i + 1..];
          localSubscriptionCount := Decremented(localSubscriptionCount, e.topic);
        } else {
          i := i + 1;
        }
      }
      WithoutAbsent(activeSubscribers, e);
      WithoutAbsent(old(activeSubscribers), e);
    }

    /** The node's own info: its in-topics are those of its subscribers, with repeats. */
    function Info(): (info: NodeInfo)
      reads this
      ensures OwnMail(info)
    {
      NodeInfo(self, name, true, TopicsOf(activeSubscribers), TopicsOf(activePublishers), [])
    }

    method SendInfo(includeDead: bool, now: Time)
      requires forall k | k in latestInfo :: latestInfo[k].id == k
      modifies this`networkTime, this`lastTime, this`mail
      ensures networkTime == Clocks.Advanced(old(networkTime), old(lastTime), now) && lastTime == now
      ensures old(mail) <= mail && Announces(mail[|old(mail)|..], Info(), latestInfo, includeDead, networkTime)
      ensures |mail| > |old(mail)| && OwnMail(mail[|old(mail)|].info) && mail[|old(mail)|].stamp == networkTime
    {
      UpdateTime(now);
      mail := mail + [Mail(Info(), networkTime)];
      ghost var listed := SendPeers(includeDead);
      assert mail[|old(mail)|..] == [Mail(Info(), networkTime)] + listed;
    }

    method SendPeers(includeDead: bool) returns (ghost listed: seq<Mail>)
      requires forall k | k in latestInfo :: latestInfo[k].id == k
      modifies this`mail
      ensures mail == old(mail) + listed
      ensures Lists(listed, Told(latestInfo, includeDead), networkTime)
    {
      var todo := latestInfo.Keys;
      listed := [];
      while todo != {}
        invariant todo <= latestInfo.Keys && mail == old(mail) + listed
        invariant Lists(listed, Told(latestInfo - todo, includeDead), networkTime)
      {
        var id :| id in todo;
        ToldOneMore(latestInfo, includeDead, todo, id);
        if includeDead || latestInfo[id].alive {
          ListOne(listed, Told(latestInfo - todo, includeDead), networkTime, latestInfo[id]);
          mail := mail + [Mail(latestInfo[id], networkTime)];
          listed := listed + [Mail(latestInfo[id], networkTime)];
        }
        todo := todo - {id};
      }
      assert latestInfo - {} == latestInfo;
    }
  }
}
