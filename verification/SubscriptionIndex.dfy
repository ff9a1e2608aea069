/** The two-way subscription index in memory: every subscription is a node of its socket's list
    and a node of its topic's list, and both lists are what the Subscriptions module says. */
module SubscriptionIndex {
  import opened MsgPack
  import opened IntrusiveList
  import opened ListFamily
  import opened Records
  import S = Subscriptions
  import Requests

  type SubLink = Link<Sub?>

  // ----- The lists that the sequence of all subscriptions implies

  ghost function OwnLinks(subs: seq<Sub>, s: Socket): seq<SubLink> {
    if subs == [] then []
    else (if subs[0].socket == s then [subs[0].ofSocket] else []) + OwnLinks(subs[1..], s)
  }

  ghost function TopicLinks(subs: seq<Sub>, t: Topic): seq<SubLink> {
    if subs == [] then []
    else (if subs[0].topic == t then [subs[0].ofTopic] else []) + TopicLinks(subs[1..], t)
  }

  /** The subscriptions of a socket, in the order of its list. */
  ghost function OwnSubs(subs: seq<Sub>, s: Socket): (r: seq<Sub>)
    ensures forall k :: 0 <= k < |r| ==> r[k] in subs && r[k].socket == s
    ensures forall k :: 0 <= k < |subs| && subs[k].socket == s ==> subs[k] in r
  {
    if subs == [] then []
    else (if subs[0].socket == s then [subs[0]] else []) + OwnSubs(subs[1..], s)
  }

  /** The subscriptions to a topic, in the order of its list. */
  ghost function TopicSubs(subs: seq<Sub>, t: Topic): (r: seq<Sub>)
    ensures forall k :: 0 <= k < |r| ==> r[k] in subs && r[k].topic == t
    ensures forall k :: 0 <= k < |subs| && subs[k].topic == t ==> subs[k] in r
  {
    if subs == [] then []
    else (if subs[0].topic == t then [subs[0]] else []) + TopicSubs(subs[1..], t)
  }

  lemma {:induction false} TopicSubsLinks(subs: seq<Sub>, t: Topic)
    ensures |TopicSubs(subs, t)| == |TopicLinks(subs, t)|
    ensures forall k :: 0 <= k < |TopicSubs(subs, t)| ==> TopicLinks(subs, t)[k] == TopicSubs(subs, t)[k].ofTopic
  {
    if subs != [] {
      TopicSubsLinks(subs[1..], t);
    }
  }

  ghost predicate HeldBy(subs: seq<Sub>, s: Socket) {
    exists n :: n in subs && n.socket == s
  }

  /** A subscription of `s` to a topic that the message starts with. */
  predicate Concerns<O(==)>(sub: S.Sub<O>, msg: Bytes, s: O) {
    sub.owner == s && sub.topic <= msg
  }

  ghost predicate Concerned<O>(subs: seq<S.Sub<O>>, msg: Bytes, s: O) {
    exists k :: 0 <= k < |subs| && Concerns(subs[k], msg, s)
  }

  /** An update is for the sockets with a subscription whose topic, all of it, comes first in the
      message; whatever comes behind it does not matter. */
  lemma ConcernedExactly<O>(subs: seq<S.Sub<O>>, msg: Bytes, s: O)
    ensures Concerned(subs, msg, s) <==>
            exists k: nat, rest: Bytes :: k < |subs| && subs[k].owner == s && subs[k].topic + rest == msg
  {
    if Concerned(subs, msg, s) {
      var k :| 0 <= k < |subs| && Concerns(subs[k], msg, s);
      assert subs[k].topic + msg[|subs[k].topic|..] == msg;
    }
    if k: nat, rest: Bytes :| k < |subs| && subs[k].owner == s && subs[k].topic + rest == msg {
      assert Concerns(subs[k], msg, s);
    }
  }

  lemma {:induction false} OwnSubsLinks(subs: seq<Sub>, s: Socket)
    ensures |OwnSubs(subs, s)| == |OwnLinks(subs, s)|
    ensures forall k :: 0 <= k < |OwnSubs(subs, s)| ==> OwnLinks(subs, s)[k] == OwnSubs(subs, s)[k].ofSocket
  {
    if subs != [] {
      OwnSubsLinks(subs[1..], s);
    }
  }

  ghost function View(subs: seq<Sub>): (r: seq<S.Sub<Socket>>)
    reads subs`visited
    ensures |r| == |subs|
    ensures forall k :: 0 <= k < |r| ==> r[k] == S.Sub(subs[k].socket, subs[k].topic.name, subs[k].visited)
  {
    if subs == [] then []
    else
      var n := |subs| - 1;
      View(subs[..n]) + [S.Sub(subs[n].socket, subs[n].topic.name, subs[n].visited)]
  }

  ghost function Names(topics: seq<Topic>): (r: seq<Bytes>)
    ensures |r| == |topics| && forall k :: 0 <= k < |r| ==> r[k] == topics[k].name
  {
    seq(|topics|, k requires 0 <= k < |topics| => topics[k].name)
  }

  lemma {:induction false} OwnLinksConcat(a: seq<Sub>, b: seq<Sub>, s: Socket)
    ensures OwnLinks(a + b, s) == OwnLinks(a, s) + OwnLinks(b, s)
  {
    if a == [] {
      assert a + b == b;
    } else {
      assert (a + b)[1..] == a[1..] + b && (a + b)[0] == a[0];
      OwnLinksConcat(a[1..], b, s);
      var here := if a[0].socket == s then [a[0].ofSocket] else [];
      assert here + (OwnLinks(a[1..], s) + OwnLinks(b, s)) == here + OwnLinks(a[1..], s) + OwnLinks(b, s);
    }
  }

  lemma {:induction false} TopicLinksConcat(a: seq<Sub>, b: seq<Sub>, t: Topic)
    ensures TopicLinks(a + b, t) == TopicLinks(a, t) + TopicLinks(b, t)
  {
    if a == [] {
      assert a + b == b;
    } else {
      assert (a + b)[1..] == a[1..] + b && (a + b)[0] == a[0];
      TopicLinksConcat(a[1..], b, t);
      var here := if a[0].topic == t then [a[0].ofTopic] else [];
      assert here + (TopicLinks(a[1..], t) + TopicLinks(b, t)) == here + TopicLinks(a[1..], t) + TopicLinks(b, t);
    }
  }

  method NewSub(s: Socket, t: Topic) returns (n: Sub)
    ensures fresh(n) && n.visited
    ensures n.socket == s && n.topic == t && n.ofSocket.item == n && n.ofTopic.item == n
    ensures fresh(n.ofSocket) && fresh(n.ofTopic) && n.ofSocket != n.ofTopic
    ensures n.ofSocket.home == null && n.ofTopic.home == null
  {
    var link := new Link<Sub?>(null);
    var link' := new Link<Sub?>(null);
    n := new Sub(s, t, link, link');
    link.item, link'.item := n, n;
  }

  class Index {
    var topics: seq<Topic>       // worker->topic_list: it never loses a member in a defined run
    var subscribed: seq<Bytes>   // the topics whose updates are asked for
    ghost var subs: seq<Sub>     // all subscriptions, in order of creation
    ghost var sockets: set<Socket>
    var outcome: S.Outcome

    ghost function Lists(): set<List<Sub?>>
      reads this
    {
      (set s | s in sockets :: s.subs) + (set t | t in topics :: t.subs)
    }

    ghost function Nodes(): set<SubLink>
      reads this
    {
      (set n | n in subs :: n.ofSocket) + (set n | n in subs :: n.ofTopic)
    }

    /** Everything the index is made of. */
    ghost function Footprint(): set<object>
      reads this, Lists()
    {
      {this} + Lists() + Nodes() + Tails(Lists()) + (set n | n in subs :: n)
    }

    /** What the index is made of is what it was made of, and new objects. */
    twostate predicate Grew()
      reads this, Lists()
    {
      forall o :: o in Footprint() ==> o in old(Footprint()) || fresh(o)
    }

    lemma AllAllocated()
      ensures forall o :: o in Footprint() ==> allocated(o)
    {
    }

    /** No part of a socket itself or of its endpoint list. */
    lemma Beside(s: Socket)
      ensures s !in Footprint() && s.endpoints !in Footprint() && s.endpoints.list !in Footprint()
      ensures forall n :: n in s.endpoints.list.links || n in s.endpoints.list.TailNode() ==> n !in Footprint()
    {
    }

    lemma NoSockets()
      ensures forall s: Socket :: s !in Footprint()
      ensures forall n: Link<Socket?> :: n !in Footprint()
      ensures forall l: List<Socket?> :: l !in Footprint()
    {
    }

    lemma Parts()
      requires AllListed()
      ensures this in Footprint() && forall n :: n in subs ==> n in Footprint()
      ensures forall l :: l in Lists() ==> l in Footprint()
      ensures forall n :: n in Tails(Lists()) || n in Cells(Lists()) ==> n in Footprint()
    {
      CellsAreNodes();
    }

    lemma CellsAreNodes()
      requires AllListed()
      ensures Cells(Lists()) <= Nodes()
    {
      forall l, n | l in Lists() && n in l.links
        ensures n in Nodes()
      {
        if s :| s in sockets && s.subs == l {
          OwnSubsLinks(subs, s);
        } else {
          var t :| t in topics && t.subs == l;
          TopicSubsLinks(subs, t);
        }
      }
    }

    constructor ()
      ensures Valid() && fresh(Footprint()) && sockets == {}
      ensures State() == S.Index([], [], {}, {}, [], S.Fine)
    {
      topics, subscribed, subs, sockets, outcome := [], [], [], {}, S.Fine;
    }

    /** A new socket, which has no subscriptions. */
    ghost method Register(s: Socket)
      requires Valid() && s !in sockets && s.subs !in Lists() &&
               s.subs.Valid() && s.subs.links == [] && s.subs.Attached()
      modifies this`sockets
      ensures Valid() && sockets == old(sockets) + {s} && State() == old(State())
      ensures Footprint() == old(Footprint()) + {s.subs}
    {
      hide *;
      sockets := sockets + {s};
      SocketAdded(s);
    }

    twostate lemma SocketAdded(new s: Socket)
      requires old(Valid()) && topics == old(topics) && subs == old(subs) && sockets == old(sockets) + {s}
      requires subscribed == old(subscribed) && outcome == old(outcome)
      requires s !in old(sockets) && s.subs !in old(Lists())
      requires s.subs.Valid() && s.subs.links == [] && s.subs.Attached()
      requires unchanged(old(Lists())) && unchanged(old(Cells(Lists())))
      requires unchanged(old(Tails(Lists()))) && unchanged(old(Nodes())) && unchanged(old(subs))
      ensures Valid() && State() == old(State()) && Footprint() == old(Footprint()) + {s.subs}
    {
      hide AllValid, NoRepeats, State, Footprint;
      SocketFootprint(s);
      SocketState(s);
      assert Lists() == old(Lists()) + {s.subs};
      OneMoreValid(old(Lists()), s.subs);
      ApartWith(s);
      hide Apart;
      assert AllPlaced();
      NoneOwned(subs, s);
      hide OwnLinks, TopicLinks;
    }

    twostate lemma ApartWith(new s: Socket)
      requires old(Apart()) && topics == old(topics) && sockets == old(sockets) + {s} && s.subs !in old(Lists())
      ensures Apart()
    {
      hide NoRepeats;
      forall s' | s' in old(sockets)
        ensures s.subs != s'.subs
      {
        assert s'.subs in old(Lists());
      }
      forall t | t in topics
        ensures s.subs != t.subs
      {
        assert t.subs in old(Lists());
      }
    }

    twostate lemma SocketState(new s: Socket)
      requires topics == old(topics) && subs == old(subs) && sockets == old(sockets) + {s}
      requires subscribed == old(subscribed) && outcome == old(outcome) && s.subs.Attached()
      requires unchanged(old(Lists())) && unchanged(old(subs))
      ensures State() == old(State())
    {
      hide View, List.Attached;
      assert View(subs) == old(View(subs));
    }

    twostate lemma SocketFootprint(new s: Socket)
      requires topics == old(topics) && subs == old(subs) && sockets == old(sockets) + {s}
      requires unchanged(old(Lists())) && s.subs.links == [] && s.subs.Attached()
      ensures Footprint() == old(Footprint()) + {s.subs}
    {
      assert Lists() == old(Lists()) + {s.subs};
      assert Tails(Lists()) == old(Tails(Lists()));
    }

    ghost predicate Valid()
      reads this, Lists(), Cells(Lists())`next, Cells(Lists())`prev, Cells(Lists())`home,
            Tails(Lists())`home, Nodes()`item
    {
      && AllValid(Lists())
      && Apart()
      && NoRepeats(subs)
      && AllPlaced()
      && AllListed()
    }

    /** Each list is the part of `subs` that belongs on it. */
    ghost predicate AllListed()
      reads this, Lists()
    {
      && (forall s :: s in sockets ==> s.subs.links == OwnLinks(subs, s))
      && (forall t :: t in topics ==> t.subs.links == TopicLinks(subs, t))
    }

    ghost predicate AllPlaced()
      reads this, Nodes()`item
    {
      forall n :: n in subs ==> Placed(n)
    }

    /** No list is shared and no topic name is listed twice. */
    ghost predicate Apart()
      reads this
    {
      && (forall s, s' :: s in sockets && s' in sockets && s != s' ==> s.subs != s'.subs)
      && (forall t, t' :: t in topics && t' in topics && t != t' ==> t.subs != t'.subs && t.name != t'.name)
      && (forall s, t :: s in sockets && t in topics ==> s.subs != t.subs)
      && NoRepeats(topics)
    }

    ghost predicate Placed(n: Sub)
      reads this, n.ofSocket`item, n.ofTopic`item
    {
      && n.socket in sockets && n.topic in topics
      && n.ofSocket.item == n && n.ofTopic.item == n
    }

    ghost function State(): (r: S.Index<Socket>)
      reads this, Lists(), subs`visited
      ensures |r.subs| == |subs| && r.outcome == outcome
    {
      S.Index(View(subs), Names(topics), LooseOwners(), LooseTopics(), subscribed, outcome)
    }

    ghost function LooseOwners(): set<Socket>
      reads this, Lists()
    {
      set s | s in sockets && !s.subs.Attached()
    }

    ghost function LooseTopics(): set<Bytes>
      reads this, Lists()
    {
      set t | t in topics && !t.subs.Attached() :: t.name
    }

    /** The node of a socket's list at place k, and what it stands for. */
    lemma OwnNode(s: Socket, k: nat)
      requires Valid() && s in sockets && k < |s.subs.links|
      ensures k < |OwnSubs(subs, s)| && |OwnSubs(subs, s)| == |s.subs.links|
      ensures var n := OwnSubs(subs, s)[k];
              && n in subs && n.socket == s && n.topic in topics
              && s.subs.links[k] == n.ofSocket && n.ofSocket.item == n
              && n.ofSocket.next == s.subs.NodeAt(k + 1)
    {
      OwnSubsLinks(subs, s);
      var n := OwnSubs(subs, s)[k];
      assert n in OwnSubs(subs, s);
      s.subs.WalksOn(k);
    }

    lemma OwnStart(s: Socket)
      requires Valid() && s in sockets
      ensures s.subs.head == s.subs.NodeAt(0) && |OwnSubs(subs, s)| == |s.subs.links|
    {
      OwnSubsLinks(subs, s);
      assert s.subs in Lists();
      s.subs.Walks();
    }

    method UnmarkOwn(s: Socket)
      requires Valid() && s in sockets
      modifies subs`visited
      ensures Valid() && State() == old(S.Unmark(State(), s)) && Footprint() == old(Footprint())
    {
      hide AllValid, Apart, AllListed, AllPlaced, OwnSubs, View, NoRepeats, Footprint;
      OwnStart(s);
      var link := s.subs.head;
      ghost var k, own := 0, OwnSubs(subs, s);
      while link != null
        invariant k <= |s.subs.links| == |own| && link == s.subs.NodeAt(k)
        invariant forall n :: n in subs ==> n.visited == (old(n.visited) && n !in own[..k])
        decreases |s.subs.links| - k
      {
        StillValid();
        OwnNode(s, k);
        assert own[..k + 1] == own[..k] + [own[k]];
        link.item.visited := false;
        link := link.next;
        k := k + 1;
      }
      StillValid();
      assert own[..k] == own;
      Unmarked(s);
    }

    twostate lemma Unmarked(s: Socket)
      requires unchanged(this) && unchanged(old(Lists()))
      requires forall n :: n in subs ==> n.visited == (old(n.visited) && n !in OwnSubs(subs, s))
      ensures State() == old(S.Unmark(State(), s))
    {
      hide View, OwnSubs;
      assert View(subs) == S.Marked(old(View(subs)), s, []);
    }

    /** Visit the subscriptions of a socket to a topic; the search runs to the end of the list. */
    method TouchOwn(s: Socket, name: Bytes)
      requires Valid() && s in sockets
      modifies subs`visited
      ensures Valid() && Footprint() == old(Footprint())
      ensures State() == old(S.Touch(State(), s, name))
    {
      hide AllValid, Apart, AllListed, AllPlaced, OwnSubs, View, NoRepeats, Footprint;
      OwnStart(s);
      var link := s.subs.head;
      ghost var k, own := 0, OwnSubs(subs, s);
      while link != null
        invariant k <= |s.subs.links| == |own| && link == s.subs.NodeAt(k)
        invariant forall n :: n in subs ==> n.visited == (old(n.visited) || (n in own[..k] && n.topic.name == name))
        decreases |s.subs.links| - k
      {
        StillValid();
        OwnNode(s, k);
        assert own[..k + 1] == own[..k] + [own[k]];
        if link.item.topic.name == name {
          link.item.visited := true;
        }
        link := link.next;
        k := k + 1;
      }
      StillValid();
      assert own[..k] == own;
      Touched(s, name);
    }

    twostate lemma Touched(new s: Socket, new name: Bytes)
      requires unchanged(this) && unchanged(old(Lists()))
      requires forall n :: n in subs ==>
                 n.visited == (old(n.visited) || (n in OwnSubs(subs, s) && n.topic.name == name))
      ensures State() == S.Touch(old(State()), s, name)
    {
      hide View, OwnSubs;
      assert View(subs) == S.Touched(old(View(subs)), s, name);
    }

    method FindTopic(name: Bytes) returns (i: nat)
      requires Valid()
      ensures Valid() && State() == old(State()) && Footprint() == old(Footprint())
      ensures i <= |topics| && (i < |topics| ==> topics[i].name == name)
      ensures i < |topics| <==> name in Names(topics)
    {
      hide AllValid, AllListed, AllPlaced, NoRepeats;
      i := 0;
      while i < |topics|
        invariant i <= |topics| && forall j :: 0 <= j < i ==> topics[j].name != name
      {
        if topics[i].name == name {
          assert Names(topics)[i] == name;
          return;
        }
        i := i + 1;
      }
    }

    /** List a new topic and ask for its updates. */
    method AddTopic(name: Bytes) returns (t: Topic)
      requires Valid() && name !in Names(topics)
      modifies this`topics, this`subscribed
      ensures Valid() && fresh(t) && fresh(t.subs) && t.name == name && t.subs.Attached() && t.subs.links == []
      ensures topics == old(topics) + [t] && subscribed == old(subscribed) + [name]
      ensures forall l :: l in old(Lists()) ==> l.Attached() == old(l.Attached())
      ensures Grew()
    {
      hide Footprint;
      t := new Topic(name);
      topics := topics + [t];
      subscribed := subscribed + [name];
      TopicAdded(t);
      TopicFootprint(t);
    }

    twostate lemma TopicAdded(new t: Topic)
      requires old(Valid()) && topics == old(topics) + [t] && subs == old(subs) && sockets == old(sockets)
      requires unchanged(old(Lists())) && unchanged(old(Cells(Lists())))
      requires unchanged(old(Tails(Lists()))) && unchanged(old(Nodes()))
      requires t.name !in Names(old(topics)) && t !in old(topics) && t.subs !in old(Lists())
      requires t.subs.Valid() && t.subs.links == []
      ensures Valid()
    {
      hide AllValid, NoRepeats;
      assert Lists() == old(Lists()) + {t.subs};
      OneMoreValid(old(Lists()), t.subs);
      ApartStill(t);
      hide Apart;
      assert AllPlaced();
      NoneHere(subs, t);
      hide TopicLinks, OwnLinks;
    }

    twostate lemma TopicFootprint(new t: Topic)
      requires topics == old(topics) + [t] && subs == old(subs) && sockets == old(sockets)
      requires unchanged(old(Lists())) && t.subs.links == [] && t.subs.Attached()
      ensures Footprint() <= old(Footprint()) + {t.subs}
    {
      assert Lists() == old(Lists()) + {t.subs};
      assert Tails(Lists()) == old(Tails(Lists()));
    }

    twostate lemma ApartStill(new t: Topic)
      requires old(Apart()) && topics == old(topics) + [t] && sockets == old(sockets)
      requires t.name !in Names(old(topics)) && t !in old(topics) && t.subs !in old(Lists())
      ensures Apart()
    {
      NoneNew(old(topics), t);
      hide NoRepeats;
      forall k | 0 <= k < |old(topics)|
        ensures old(topics)[k].name != t.name && old(topics)[k].subs != t.subs
      {
        assert Names(old(topics))[k] == old(topics)[k].name;
        assert old(topics)[k] in old(topics);
      }
      forall s | s in sockets
        ensures s.subs != t.subs
      {
        assert s.subs in old(Lists());
      }
    }

    lemma NoneOwned(subs: seq<Sub>, s: Socket)
      requires forall n :: n in subs ==> n.socket != s
      ensures OwnLinks(subs, s) == []
    {
      if subs != [] {
        NoneOwned(subs[1..], s);
      }
    }

    lemma NoneHere(subs: seq<Sub>, t: Topic)
      requires forall n :: n in subs ==> n.topic != t
      ensures TopicLinks(subs, t) == []
    {
      if subs != [] {
        NoneHere(subs[1..], t);
      }
    }

    /** Create a subscription and thread it on both its lists. */
    method AddSub(s: Socket, t: Topic) returns (n: Sub)
      requires Valid() && s in sockets && t in topics && s.subs.Attached() && t.subs.Attached()
      modifies this`subs, s.subs, t.subs, s.subs.TailNode()`next, t.subs.TailNode()`next
      ensures Valid() && fresh(n) && subs == old(subs) + [n]
      ensures State() == old(S.Append(State(), s, t.name))
      ensures Grew()
    {
      hide AllValid, Apart, AllListed, AllPlaced, NoRepeats, Footprint, Grew;
      n := NewSub(s, t);
      StillValid();
      Thread(n);
      AddedState(n, s, t);
      Grown(n);
    }

    twostate lemma Grown(new n: Sub)
      requires topics == old(topics) && subs == old(subs) + [n] && sockets == old(sockets)
      requires Tails(Lists()) <= old(Tails(Lists())) + {n.ofSocket, n.ofTopic}
      requires fresh(n) && fresh(n.ofSocket) && fresh(n.ofTopic)
      ensures Grew()
    {
      hide Tails;
      assert Lists() == old(Lists());
    }

    twostate lemma AddedState(new n: Sub, new s: Socket, new t: Topic)
      requires subs == old(subs) + [n] && n.visited && n.socket == s && n.topic == t
      requires topics == old(topics) && sockets == old(sockets) &&
               subscribed == old(subscribed) && outcome == old(outcome)
      requires forall l :: l in Lists() ==> l.Attached() == old(l.Attached())
      requires forall m :: m in old(subs) ==> m.visited == old(m.visited)
      ensures State() == S.Append(old(State()), s, t.name)
    {
      hide List.Attached;
      assert subs[..|old(subs)|] == old(subs);
      assert View(subs) == View(old(subs)) + [S.Sub(s, t.name, true)];
      assert View(old(subs)) == old(View(subs));
    }

    /** New objects do not disturb the index. */
    twostate lemma StillValid()
      requires old(Valid()) && topics == old(topics) && subs == old(subs) && sockets == old(sockets)
      requires unchanged(old(Lists())) && unchanged(old(Cells(Lists())))
      requires unchanged(old(Tails(Lists()))) && unchanged(old(Nodes()))
      ensures Valid() && Lists() == old(Lists())
    {
    }

    twostate lemma Untouched()
      requires old(Valid()) && unchanged(old(Footprint()))
      ensures Valid() && State() == old(State()) && Footprint() == old(Footprint())
      ensures sockets == old(sockets) && outcome == old(outcome)
    {
      hide View, OwnLinks, TopicLinks, NoRepeats, AllValid, List.Attached, Cells, Tails, Apart;
      CellsAreNodes();
      StillValid();
      forall n | n in subs
        ensures n.visited == old(n.visited)
      {
        assert n in old(Footprint());
      }
      assert View(subs) == old(View(subs));
      assert LooseOwners() == old(LooseOwners()) && LooseTopics() == old(LooseTopics());
    }

    /** The topic with this name, listed now if it was not. */
    method ListTopic(name: Bytes) returns (t: Topic)
      requires Valid()
      modifies this`topics, this`subscribed
      ensures Valid() && t in topics && t.name == name
      ensures State() == old(S.List(State(), name))
      ensures t.subs in old(Lists()) || (fresh(t.subs) && t.subs.TailNode() == {})
      ensures old(Lists()) <= Lists()
      ensures Grew()
    {
      hide AllValid, Apart, AllListed, AllPlaced, NoRepeats, View, Footprint;
      var i := FindTopic(name);
      if i < |topics| {
        t := topics[i];
        assert t.subs in Lists();
      } else {
        t := AddTopic(name);
        TopicState(t);
      }
    }

    twostate lemma TopicState(new t: Topic)
      requires topics == old(topics) + [t] && subscribed == old(subscribed) + [t.name] && t.name !in old(Names(topics))
      requires sockets == old(sockets) && subs == old(subs) && outcome == old(outcome) && t.subs.Attached()
      requires forall l :: l in old(Lists()) ==> l.Attached() == old(l.Attached())
      requires forall m :: m in subs ==> m.visited == old(m.visited)
      ensures State() == S.List(old(State()), t.name)
    {
      hide List.Attached;
      assert Names(topics) == Names(old(topics)) + [t.name];
    }

    /** Name a topic of a reply. */
    method UseTopic(s: Socket, name: Bytes)
      requires Valid() && s in sockets && outcome == S.Fine
      modifies this, subs`visited, Lists(), Tails(Lists())`next
      ensures Valid() && sockets == old(sockets) && Grew()
      ensures State() == old(S.Use(State(), s, name))
    {
      hide AllValid, Apart, AllListed, AllPlaced, NoRepeats, View, List.Attached, State, Footprint;
      assert s.subs in Lists();
      TouchOwn(s, name);
      var t := ListTopic(name);
      LooseState(s, t);
      if s.subs.Loose() || t.subs.Loose() {
        SetUndefined();
        return;
      }
      var n := AddSub(s, t);
    }

    method SetUndefined()
      requires Valid()
      modifies this`outcome
      ensures Valid() && State() == old(S.Undefine(State())) && Footprint() == old(Footprint())
    {
      outcome := S.Undefined;
      StillValid();
    }

    /** What the tails say is what the state says. */
    lemma LooseState(s: Socket, t: Topic)
      requires Valid() && s in sockets && t in topics
      ensures s.subs.Loose() == !s.subs.Attached() == (s in State().looseOwners)
      ensures t.subs.Loose() == !t.subs.Attached() == (t.name in State().looseTopics)
    {
      OwnLoose(s, t);
      hide AllValid, AllListed, AllPlaced, NoRepeats, View, List.Attached;
    }

    lemma OwnLoose(s: Socket, t: Topic)
      requires Valid() && s in sockets && t in topics
      ensures s.subs.Loose() <==> !s.subs.Attached()
      ensures t.subs.Loose() <==> !t.subs.Attached()
    {
      assert s.subs in Lists() && t.subs in Lists();
      s.subs.LooseIsDetached();
      t.subs.LooseIsDetached();
    }

    /** Put a new subscription on the list of its socket and on the list of its topic. */
    method Thread(n: Sub)
      requires Valid() && n.socket in sockets && n.topic in topics
      requires n.socket.subs.Attached() && n.topic.subs.Attached()
      requires n !in subs && n.ofSocket.item == n && n.ofTopic.item == n && n.ofSocket != n.ofTopic
      requires n.ofSocket.home == null && n.ofTopic.home == null
      requires n.ofSocket !in Tails(Lists()) && n.ofTopic !in Tails(Lists())
      modifies this`subs, n.socket.subs, n.topic.subs
      modifies n.socket.subs.TailNode()`next, n.topic.subs.TailNode()`next
      modifies n.ofSocket`next, n.ofSocket`prev, n.ofSocket`home
      modifies n.ofTopic`next, n.ofTopic`prev, n.ofTopic`home
      ensures Valid() && subs == old(subs) + [n]
      ensures forall l :: l in Lists() ==> l.Attached() == old(l.Attached())
      ensures Tails(Lists()) <= old(Tails(Lists())) + {n.ofSocket, n.ofTopic}
    {
      hide AllValid, NoRepeats, AllListed, AllPlaced, List.Attached, Footprint;
      ghost var lists := Lists();
      AppendToBoth(lists, n.socket.subs, n.ofSocket, n.topic.subs, n.ofTopic);
      subs := subs + [n];
      Threaded(n);
    }

    /** One more subscription, threaded on its two lists, and the index is in order again. */
    twostate lemma Threaded(n: Sub)
      requires old(Apart() && NoRepeats(subs) && AllPlaced() && AllListed())
      requires n !in old(subs) && subs == old(subs) + [n]
      requires sockets == old(sockets) && topics == old(topics)
      requires n.socket in sockets && n.topic in topics
      requires n.ofSocket.item == n && n.ofTopic.item == n
      requires forall m :: m in old(subs) ==>
                 m.ofSocket.item == old(m.ofSocket.item) && m.ofTopic.item == old(m.ofTopic.item)
      requires forall l :: l in Lists() ==>
                 l.links == if l == n.socket.subs then old(l.links) + [n.ofSocket]
                            else if l == n.topic.subs then old(l.links) + [n.ofTopic]
                            else old(l.links)
      ensures Apart() && NoRepeats(subs) && AllPlaced() && AllListed()
    {
      hide OwnLinks, TopicLinks, NoRepeats, AllListed;
      NoneNew(old(subs), n);
      ThreadedLists(n);
    }

    twostate lemma ThreadedLists(n: Sub)
      requires old(Apart() && AllListed()) && subs == old(subs) + [n]
      requires sockets == old(sockets) && topics == old(topics) && n.socket in sockets && n.topic in topics
      requires forall l :: l in Lists() ==>
                 l.links == if l == n.socket.subs then old(l.links) + [n.ofSocket]
                            else if l == n.topic.subs then old(l.links) + [n.ofTopic]
                            else old(l.links)
      ensures AllListed()
    {
      hide OwnLinks, TopicLinks, NoRepeats;
      forall s | s in sockets
        ensures s.subs.links == OwnLinks(subs, s)
      {
        assert s.subs in Lists();
        OwnOfNew(old(subs), n, s);
      }
      forall t | t in topics
        ensures t.subs.links == TopicLinks(subs, t)
      {
        assert t.subs in Lists();
        TopicOfNew(old(subs), n, t);
      }
    }

    // ----- Updates

    /** Restart the sockets that hold a subscription to a topic the message starts with. */
    method Dispatch(msg: Bytes)
      requires Valid()
      modifies (set n | n in subs :: n.socket)`state
      ensures Valid() && State() == old(State())
      ensures forall s :: s in sockets ==>
                s.state == if Concerned(State().subs, msg, s) then Requests.Starting else old(s.state)
    {
      hide AllValid, AllListed, AllPlaced, Apart, NoRepeats, State, TopicSubs;
      ghost var done: seq<Sub> := [];
      var i := 0;
      while i < |topics|
        invariant i <= |topics|
        invariant forall n :: n in done <==> n in subs && n.topic in topics[..i] && n.topic.name <= msg
        invariant forall s :: s in sockets ==> s.state == if HeldBy(done, s) then Requests.Starting else old(s.state)
      {
        StillValid();
        assert topics[..i + 1] == topics[..i] + [topics[i]];
        if topics[i].name <= msg {
          RestartHolders(topics[i]);
          done := done + TopicSubs(subs, topics[i]);
        }
        i := i + 1;
      }
      StillValid();
      AllConcerned(msg, done);
    }

    method RestartHolders(t: Topic)
      requires Valid() && t in topics
      modifies (set n | n in subs :: n.socket)`state
      ensures forall s :: s in sockets ==>
                s.state == if HeldBy(TopicSubs(subs, t), s) then Requests.Starting else old(s.state)
    {
      hide AllValid, AllListed, AllPlaced, Apart, NoRepeats, State, TopicSubs;
      TopicStart(t);
      TopicLength(t);
      ghost var k, its := 0, TopicSubs(subs, t);
      var link := t.subs.head;
      while link != null
        invariant k <= |t.subs.links| == |its| && link == t.subs.NodeAt(k)
        invariant forall s :: s in sockets ==>
                    s.state == if HeldBy(its[..k], s) then Requests.Starting else old(s.state)
        decreases |t.subs.links| - k
      {
        StillValid();
        TopicNode(t, k);
        assert its[..k + 1] == its[..k] + [its[k]];
        link.item.socket.state := Requests.Starting;
        link := link.next;
        k := k + 1;
      }
      assert its[..k] == its;
    }

    lemma TopicLength(t: Topic)
      requires AllListed() && t in topics
      ensures |TopicSubs(subs, t)| == |t.subs.links|
    {
      TopicSubsLinks(subs, t);
    }

    lemma TopicNode(t: Topic, k: nat)
      requires Valid() && t in topics && k < |t.subs.links|
      ensures |TopicSubs(subs, t)| == |t.subs.links|
      ensures var n := TopicSubs(subs, t)[k];
              && n in subs && n.topic == t && n.socket in sockets
              && t.subs.links[k].item == n && t.subs.links[k].next == t.subs.NodeAt(k + 1)
    {
      TopicSubsLinks(subs, t);
      var n := TopicSubs(subs, t)[k];
      assert n in TopicSubs(subs, t);
      t.subs.WalksOn(k);
    }

    lemma AllConcerned(msg: Bytes, done: seq<Sub>)
      requires AllPlaced() && forall n :: n in done <==> n in subs && n.topic in topics && n.topic.name <= msg
      ensures forall s :: HeldBy(done, s) <==> Concerned(State().subs, msg, s)
    {
      forall s
        ensures HeldBy(done, s) <==> Concerned(View(subs), msg, s)
      {
        if HeldBy(done, s) {
          var n :| n in done && n.socket == s;
          var k :| 0 <= k < |subs| && subs[k] == n;
          assert View(subs)[k] == S.Sub(s, n.topic.name, n.visited);
        }
        if Concerned(View(subs), msg, s) {
          var k :| 0 <= k < |subs| && Concerns(View(subs)[k], msg, s);
          assert subs[k] in subs && Placed(subs[k]);
          assert subs[k] in done;
        }
      }
    }

    // ----- The sweep

    /** Sweep the subscriptions of a socket; it ends early where what follows is undefined. */
    method SettleOwn(s: Socket)
      requires Valid() && s in sockets && outcome == S.Fine
      modifies this`subs, this`outcome, Lists()`head, Lists()`links
      modifies Cells(Lists())`next, Cells(Lists())`prev, Cells(Lists())`home
      ensures Valid() && sockets == old(sockets) && Footprint() <= old(Footprint())
      ensures State() == old(S.Settle(State(), s))
    {
      hide AllValid, Apart, AllListed, AllPlaced, OwnSubs, View, NoRepeats, State, OwnLinks, Cells,
           List.Attached, S.Settle, Footprint;
      ghost var x := State();
      ghost var j: nat, k: nat := 0, 0;
      Starting(s);
      var sub := s.subs.head;
      while sub != null
        invariant Valid() && topics == old(topics) && sockets == old(sockets) && outcome == S.Fine
        invariant forall n :: n in subs ==> n in old(subs)
        invariant Cells(Lists()) <= old(Cells(Lists()))
        invariant k <= |subs| && j == |OwnLinks(subs[..k], s)| <= |s.subs.links| && sub == s.subs.NodeAt(j)
        invariant S.SweepFrom(x, s, 0) == S.SweepFrom(State(), s, k)
        decreases |subs| - k
      {
        var nsub := sub.next;
        j, k := SweepTurn(s, sub, j, k);
        if outcome != S.Fine {
          Shrunk();
          return;
        }
        sub := nsub;
      }
      k := NextOwn(s, j, k);
      Shrunk();
    }

    twostate lemma Shrunk()
      requires topics == old(topics) && sockets == old(sockets) && forall n :: n in subs ==> n in old(subs)
      requires forall l :: l in Lists() ==> l.tail == old(l.tail)
      ensures Footprint() <= old(Footprint())
    {
      assert Lists() == old(Lists()) && Tails(Lists()) == old(Tails(Lists()));
      hide Tails;
    }

    /** Take a subscription off both its lists.  If its topic has none left the topic would go
        as well, through a `prev` that was never set. */
    method RemoveSub(n: Sub, ghost j: nat, ghost k: nat)
      requires Valid() && outcome == S.Fine && k < |subs| && n == subs[k] && j == |OwnLinks(subs[..k], n.socket)|
      modifies this`subs, this`outcome, n.socket.subs`head, n.socket.subs`links, n.topic.subs`head, n.topic.subs`links
      modifies n.ofSocket`home, n.ofTopic`home
      modifies Cells({n.socket.subs, n.topic.subs})`next, Cells({n.socket.subs, n.topic.subs})`prev
      ensures Valid() && subs == old(Without(subs, k))
      ensures Cells(Lists()) <= old(Cells(Lists()))
      ensures State() == old(S.Remove(State(), k))
      ensures j < |old(n.socket.subs.links)| && j <= |n.socket.subs.links|
      ensures n.socket.subs.NodeAt(j) == old(n.socket.subs.NodeAt(j + 1))
    {
      hide AllValid, Apart, AllListed, AllPlaced, NoRepeats, State, OwnLinks, TopicLinks, Cells,
           List.Attached, Footprint;
      Unthread(n, j, |TopicLinks(subs[..k], n.topic)|, k);
      TopicStart(n.topic);
      if n.topic.subs.head == null {
        label Before:
        outcome := S.Undefined;
        StillValid@Before();
      }
      RemovedState(n, k);
    }

    lemma TopicStart(t: Topic)
      requires Valid() && t in topics
      ensures t.subs.head == t.subs.NodeAt(0)
    {
      assert t.subs in Lists();
      t.subs.Walks();
    }

    method Unthread(n: Sub, ghost j: nat, ghost i: nat, ghost k: nat)
      requires Valid() && k < |subs| && n == subs[k]
      requires j == |OwnLinks(subs[..k], n.socket)| && i == |TopicLinks(subs[..k], n.topic)|
      modifies this`subs, n.socket.subs`head, n.socket.subs`links, n.topic.subs`head, n.topic.subs`links
      modifies n.ofSocket`home, n.ofTopic`home
      modifies Cells({n.socket.subs, n.topic.subs})`next, Cells({n.socket.subs, n.topic.subs})`prev
      ensures Valid() && subs == old(Without(subs, k))
      ensures j < |old(n.socket.subs.links)| && i < |old(n.topic.subs.links)|
      ensures n.socket in sockets && n.topic in topics
      ensures n.socket.subs.links == old(Without(n.socket.subs.links, j))
      ensures forall l :: l in Lists() ==>
                l.Attached() == (old(l.Attached())
                                 && (l == n.socket.subs ==> j + 1 < |old(l.links)|)
                                 && (l == n.topic.subs ==> i + 1 < |old(l.links)|))
      ensures Cells(Lists()) <= old(Cells(Lists()))
    {
      hide AllValid, Apart, AllListed, AllPlaced, NoRepeats, OwnLinks, TopicLinks, Cells, List.Attached;
      ghost var lists := Lists();
      AtPlaces(n, k);
      RemoveFromBoth(lists, n.socket.subs, n.ofSocket, j, n.topic.subs, n.ofTopic, i);
      subs := Without(subs, k);
      Unthreaded(n, j, i, k);
    }

    lemma AtPlaces(n: Sub, k: nat)
      requires Valid() && k < |subs| && n == subs[k]
      ensures n.socket in sockets && n.topic in topics && n.socket.subs in Lists() && n.topic.subs in Lists()
      ensures n.socket.subs != n.topic.subs
      ensures var j := |OwnLinks(subs[..k], n.socket)|;
              j < |n.socket.subs.links| && n.socket.subs.links[j] == n.ofSocket
      ensures var i := |TopicLinks(subs[..k], n.topic)|;
              i < |n.topic.subs.links| && n.topic.subs.links[i] == n.ofTopic
    {
      OwnLinksAt(subs, k, n.socket);
      TopicLinksAt(subs, k, n.topic);
      hide OwnLinks, TopicLinks, AllValid, NoRepeats;
      assert n in subs && Placed(n);
    }

    twostate lemma Unthreaded(new n: Sub, new j: nat, new i: nat, new k: nat)
      requires old(Apart() && NoRepeats(subs) && AllPlaced() && AllListed())
      requires k < |old(subs)| && n == old(subs)[k] && subs == Without(old(subs), k)
      requires j == |OwnLinks(old(subs)[..k], n.socket)| && i == |TopicLinks(old(subs)[..k], n.topic)|
      requires sockets == old(sockets) && topics == old(topics)
      requires forall m :: m in old(subs) ==>
                 m.ofSocket.item == old(m.ofSocket.item) && m.ofTopic.item == old(m.ofTopic.item)
      requires forall l :: l in Lists() ==>
                 l.links == if l == n.socket.subs then Cut(old(l.links), j)
                            else if l == n.topic.subs then Cut(old(l.links), i)
                            else old(l.links)
      ensures Apart() && NoRepeats(subs) && AllPlaced() && AllListed()
      ensures Cells(Lists()) <= old(Cells(Lists()))
    {
      hide OwnLinks, TopicLinks, NoRepeats, AllListed, Cells;
      WithoutKeeps(old(subs), k);
      assert n in old(subs) && old(Placed(n));
      UnthreadedOwn(n, j, i, k);
      UnthreadedTopics(n, j, i, k);
      assert AllListed() by {
        Listed();
      }
      FewerCells(old(Lists()), n.socket.subs, j, n.topic.subs, i);
    }

    lemma Listed()
      requires forall s :: s in sockets ==> s.subs.links == OwnLinks(subs, s)
      requires forall t :: t in topics ==> t.subs.links == TopicLinks(subs, t)
      ensures AllListed()
    {
    }

    twostate lemma UnthreadedOwn(new n: Sub, new j: nat, new i: nat, new k: nat)
      requires old(Apart() && AllListed())
      requires k < |old(subs)| && n == old(subs)[k] && subs == Without(old(subs), k)
      requires j == |OwnLinks(old(subs)[..k], n.socket)|
      requires sockets == old(sockets) && topics == old(topics) && n.socket in sockets && n.topic in topics
      requires forall l :: l in Lists() ==>
                 l.links == if l == n.socket.subs then Cut(old(l.links), j)
                            else if l == n.topic.subs then Cut(old(l.links), i)
                            else old(l.links)
      ensures forall s :: s in sockets ==> s.subs.links == OwnLinks(subs, s)
    {
      hide OwnLinks, TopicLinks, NoRepeats, Cut;
      forall s | s in sockets
        ensures s.subs.links == OwnLinks(subs, s)
      {
        assert s.subs in Lists();
        OwnWithout(old(subs), k, s);
      }
    }

    twostate lemma UnthreadedTopics(new n: Sub, new j: nat, new i: nat, new k: nat)
      requires old(Apart() && AllListed())
      requires k < |old(subs)| && n == old(subs)[k] && subs == Without(old(subs), k)
      requires i == |TopicLinks(old(subs)[..k], n.topic)|
      requires sockets == old(sockets) && topics == old(topics) && n.socket in sockets && n.topic in topics
      requires forall l :: l in Lists() ==>
                 l.links == if l == n.socket.subs then Cut(old(l.links), j)
                            else if l == n.topic.subs then Cut(old(l.links), i)
                            else old(l.links)
      ensures forall t :: t in topics ==> t.subs.links == TopicLinks(subs, t)
    {
      hide OwnLinks, TopicLinks, NoRepeats, Cut;
      forall t | t in topics
        ensures t.subs.links == TopicLinks(subs, t)
      {
        assert t.subs in Lists();
        TopicWithout(old(subs), k, t);
      }
    }

    twostate lemma RemovedState(new n: Sub, new k: nat)
      requires k < |old(subs)| && n == old(subs)[k] && subs == Without(old(subs), k)
      requires topics == old(topics) && sockets == old(sockets) && subscribed == old(subscribed)
      requires n.socket in sockets && n.topic in topics
      requires old(AllListed() && AllPlaced() && Apart()) && AllListed()
      requires forall m :: m in old(subs) ==> m.visited == old(m.visited)
      requires forall l :: l in Lists() ==>
                l.Attached() == (old(l.Attached())
                                 && (l == n.socket.subs ==> |OwnLinks(old(subs)[..k], n.socket)| + 1 < |old(l.links)|)
                                 && (l == n.topic.subs ==> |TopicLinks(old(subs)[..k], n.topic)| + 1 < |old(l.links)|))
      requires outcome == if n.topic.subs.links == [] then S.Undefined else old(outcome)
      ensures State() == S.Remove(old(State()), k)
    {
      hide List.Attached, View, OwnLinks, TopicLinks, S.HasOwner, S.HasTopic, Apart, AllPlaced, AllListed,
           LooseOwners, LooseTopics, Names;
      RemovedView(k);
      OneNameOneTopic(n, k);
      OwnerLeft(old(subs), k);
      TopicLeft(old(subs), k);
      Lengths(n);
      RemovedLoose(n, S.HasOwner(View(old(subs)[k + 1..]), n.socket),
                   S.HasTopic(View(old(subs)[k + 1..]), n.topic.name));
    }

    twostate lemma Lengths(new n: Sub)
      requires old(AllListed()) && AllListed() && sockets == old(sockets) && topics == old(topics)
      requires n.socket in sockets && n.topic in topics
      ensures n.socket.subs in Lists() && n.topic.subs in Lists()
      ensures forall l :: l in old(Lists()) && l == n.socket.subs ==> old(l.links) == OwnLinks(old(subs), n.socket)
      ensures forall l :: l in old(Lists()) && l == n.topic.subs ==> old(l.links) == TopicLinks(old(subs), n.topic)
      ensures n.topic.subs.links == TopicLinks(subs, n.topic) && Lists() == old(Lists())
    {
      hide OwnLinks, TopicLinks;
      var s, t := n.socket, n.topic;
      assert s.subs in old(Lists()) && t.subs in old(Lists());
    }

    twostate lemma OneNameOneTopic(new n: Sub, new k: nat)
      requires k < |old(subs)| && n == old(subs)[k] && old(AllPlaced() && Apart())
      ensures forall m :: m in old(subs) && m.topic.name == n.topic.name ==> m.topic == n.topic
    {
      assert n in old(subs);
      forall m | m in old(subs) && m.topic.name == n.topic.name
        ensures m.topic == n.topic
      {
        assert old(Placed(m)) && old(Placed(n));
      }
    }

    twostate lemma RemovedLoose(new n: Sub, new ownerLeft: bool, new topicLeft: bool)
      requires topics == old(topics) && sockets == old(sockets) && old(Apart())
      requires n.socket in sockets && n.topic in topics
      requires forall l :: l in Lists() ==>
                l.Attached() == (old(l.Attached()) && (l == n.socket.subs ==> ownerLeft) &&
                                 (l == n.topic.subs ==> topicLeft))
      ensures LooseOwners() == old(LooseOwners()) + (if ownerLeft then {} else {n.socket})
      ensures LooseTopics() == old(LooseTopics()) + (if topicLeft then {} else {n.topic.name})
    {
      hide List.Attached;
    }

    twostate lemma RemovedView(new k: nat)
      requires k < |old(subs)| && subs == Without(old(subs), k)
      requires forall m :: m in old(subs) ==> m.visited == old(m.visited)
      ensures View(old(subs)) == old(View(subs))
      ensures var v := old(View(subs)); v[k + 1..] == View(old(subs)[k + 1..]) && v[..k] + v[k + 1..] == View(subs)
    {
      hide View;
      assert View(old(subs)) == old(View(subs));
    }

    /** One turn: keep the subscription if it was visited, and remove it otherwise. */
    method SweepTurn(s: Socket, sub: SubLink, ghost j: nat, ghost k: nat) returns (ghost j': nat, ghost k': nat)
      requires Valid() && s in sockets && outcome == S.Fine
      requires k <= |subs| && j == |OwnLinks(subs[..k], s)| < |s.subs.links| && sub == s.subs.links[j]
      modifies this`subs, this`outcome, Lists()`head, Lists()`links
      modifies Cells(Lists())`next, Cells(Lists())`prev, Cells(Lists())`home
      ensures Valid() && topics == old(topics) && sockets == old(sockets)
      ensures Cells(Lists()) <= old(Cells(Lists())) && forall n :: n in subs ==> n in old(subs)
      ensures k' <= |subs| && j' == |OwnLinks(subs[..k'], s)| <= |s.subs.links|
      ensures |subs| - k' < old(|subs|) - k
      ensures s.subs.NodeAt(j') == old(sub.next)
      ensures S.SweepFrom(State(), s, k') == old(S.SweepFrom(State(), s, k))
    {
      hide AllValid, Apart, AllListed, AllPlaced, OwnSubs, View, NoRepeats, State, OwnLinks, Cells,
           List.Attached, Footprint;
      hide S.SweepFrom, S.Remove;
      j' := j;
      k' := NextOwn(s, j, k);
      OwnNode(s, j);
      if sub.item.visited {
        PassOver(s, k');
        j', k' := j + 1, k' + 1;
      } else {
        InCells(k');
        TakeOut(s, k');
        RemoveSub(sub.item, j, k');
      }
    }

    lemma TakeOut(s: Socket, k: nat)
      requires outcome == S.Fine && k < |subs| && subs[k].socket == s && !subs[k].visited
      ensures S.SweepFrom(State(), s, k) == S.SweepFrom(S.Remove(State(), k), s, k)
    {
    }

    lemma InCells(k: nat)
      requires Valid() && k < |subs|
      ensures var n := subs[k];
              && n.socket.subs in Lists() && n.topic.subs in Lists()
              && n.ofSocket in Cells(Lists()) && n.ofTopic in Cells(Lists())
              && Cells({n.socket.subs, n.topic.subs}) <= Cells(Lists())
    {
      AtPlaces(subs[k], k);
    }

    lemma Starting(s: Socket)
      requires Valid() && s in sockets
      ensures s.subs.head == s.subs.NodeAt(0) && OwnLinks(subs[..0], s) == [] && State().outcome == outcome
      ensures S.Settle(State(), s) == S.SweepFrom(State(), s, 0)
    {
      OwnStart(s);
    }

    /** The index place of the node at place j of the socket's list. */
    lemma NextOwn(s: Socket, j: nat, k: nat) returns (k': nat)
      requires Valid() && s in sockets && outcome == S.Fine && k <= |subs| && j == |OwnLinks(subs[..k], s)|
      ensures k <= k' <= |subs| && j <= |s.subs.links| && |OwnLinks(subs[..k'], s)| == j
      ensures j < |s.subs.links| ==> k' < |subs| && subs[k'].socket == s && s.subs.links[j].item == subs[k']
      ensures j < |s.subs.links| ==> S.SweepFrom(State(), s, k) == S.SweepFrom(State(), s, k')
      ensures j == |s.subs.links| ==> S.SweepFrom(State(), s, k) == State()
    {
      k' := OwnFrom(subs, State(), s, j, k);
      assert k' < |subs| ==> subs[k'] in subs;
    }

    lemma PassOver(s: Socket, k: nat)
      requires outcome == S.Fine && k < |subs| && subs[k].socket == s && subs[k].visited
      ensures |OwnLinks(subs[..k + 1], s)| == |OwnLinks(subs[..k], s)| + 1
      ensures S.SweepFrom(State(), s, k) == S.SweepFrom(State(), s, k + 1)
    {
      assert subs[..k + 1] == subs[..k] + [subs[k]];
      OwnLinksConcat(subs[..k], [subs[k]], s);
      assert [subs[k]][1..] == [];
    }
  }

  lemma OwnOfNew(subs: seq<Sub>, n: Sub, s: Socket)
    ensures OwnLinks(subs + [n], s) == if s == n.socket then OwnLinks(subs, s) + [n.ofSocket] else OwnLinks(subs, s)
  {
    assert [n][1..] == [];
    OwnLinksConcat(subs, [n], s);
    assert OwnLinks([n], s) == if s == n.socket then [n.ofSocket] else [];
    hide OwnLinks;
    assert OwnLinks(subs, s) + [] == OwnLinks(subs, s);
  }

  lemma TopicOfNew(subs: seq<Sub>, n: Sub, t: Topic)
    ensures TopicLinks(subs + [n], t) == if t == n.topic then TopicLinks(subs, t) + [n.ofTopic] else TopicLinks(subs, t)
  {
    assert [n][1..] == [];
    TopicLinksConcat(subs, [n], t);
    assert TopicLinks([n], t) == if t == n.topic then [n.ofTopic] else [];
    hide TopicLinks;
    assert TopicLinks(subs, t) + [] == TopicLinks(subs, t);
  }

  lemma {:induction false} OwnFrom(subs: seq<Sub>, x: S.Index<Socket>, s: Socket, j: nat, k: nat) returns (k': nat)
    requires |x.subs| == |subs| && x.outcome == S.Fine && k <= |subs| && j == |OwnLinks(subs[..k], s)|
    requires forall i :: 0 <= i < |subs| ==> x.subs[i].owner == subs[i].socket
    ensures k <= k' <= |subs| && j <= |OwnLinks(subs, s)| && |OwnLinks(subs[..k'], s)| == j
    ensures j < |OwnLinks(subs, s)| ==> k' < |subs| && subs[k'].socket == s && OwnLinks(subs, s)[j] == subs[k'].ofSocket
    ensures j < |OwnLinks(subs, s)| ==> S.SweepFrom(x, s, k) == S.SweepFrom(x, s, k')
    ensures j == |OwnLinks(subs, s)| ==> S.SweepFrom(x, s, k) == x
    decreases |subs| - k
  {
    k' := k;
    if k == |subs| {
      assert subs[..k] == subs;
    } else {
      OwnLinksAt(subs, k, s);
      hide OwnLinks;
      if subs[k].socket != s {
        k' := OwnFrom(subs, x, s, j, k + 1);
      }
    }
  }

  lemma OwnLinksAt(subs: seq<Sub>, k: nat, s: Socket)
    requires k < |subs|
    ensures var here := if subs[k].socket == s then [subs[k].ofSocket] else [];
            && OwnLinks(subs, s) == OwnLinks(subs[..k], s) + here + OwnLinks(subs[k + 1..], s)
            && OwnLinks(subs[..k + 1], s) == OwnLinks(subs[..k], s) + here
            && OwnLinks(Without(subs, k), s) == OwnLinks(subs[..k], s) + OwnLinks(subs[k + 1..], s)
  {
    assert [subs[k]][1..] == [];
    assert subs[..k + 1] == subs[..k] + [subs[k]] && subs == subs[..k + 1] + subs[k + 1..];
    OwnLinksConcat(subs[..k], [subs[k]], s);
    OwnLinksConcat(subs[..k + 1], subs[k + 1..], s);
    OwnLinksConcat(subs[..k], subs[k + 1..], s);
  }

  lemma TopicLinksAt(subs: seq<Sub>, k: nat, t: Topic)
    requires k < |subs|
    ensures var here := if subs[k].topic == t then [subs[k].ofTopic] else [];
            && TopicLinks(subs, t) == TopicLinks(subs[..k], t) + here + TopicLinks(subs[k + 1..], t)
            && TopicLinks(Without(subs, k), t) == TopicLinks(subs[..k], t) + TopicLinks(subs[k + 1..], t)
  {
    assert [subs[k]][1..] == [];
    assert subs[..k + 1] == subs[..k] + [subs[k]] && subs == subs[..k + 1] + subs[k + 1..];
    TopicLinksConcat(subs[..k], [subs[k]], t);
    TopicLinksConcat(subs[..k + 1], subs[k + 1..], t);
    TopicLinksConcat(subs[..k], subs[k + 1..], t);
  }

  /** Without subscription k each list is without its node and the others are as they were. */
  lemma OwnWithout(subs: seq<Sub>, k: nat, s: Socket)
    requires k < |subs|
    ensures OwnLinks(Without(subs, k), s)
         == if s == subs[k].socket then Cut(OwnLinks(subs, s), |OwnLinks(subs[..k], s)|) else OwnLinks(subs, s)
  {
    OwnLinksAt(subs, k, s);
    hide OwnLinks, Cut;
    CutMiddle(OwnLinks(subs[..k], s), subs[k].ofSocket, OwnLinks(subs[k + 1..], s));
    NothingBetween(OwnLinks(subs[..k], s), OwnLinks(subs[k + 1..], s));
  }

  lemma CutMiddle<X>(a: seq<X>, x: X, c: seq<X>)
    ensures Cut(a + [x] + c, |a|) == a + c
  {
  }

  lemma NothingBetween<X>(a: seq<X>, c: seq<X>)
    ensures a + [] + c == a + c
  {
  }

  lemma TopicWithout(subs: seq<Sub>, k: nat, t: Topic)
    requires k < |subs|
    ensures TopicLinks(Without(subs, k), t)
         == if t == subs[k].topic then Cut(TopicLinks(subs, t), |TopicLinks(subs[..k], t)|) else TopicLinks(subs, t)
  {
    TopicLinksAt(subs, k, t);
    hide TopicLinks, Cut;
    CutMiddle(TopicLinks(subs[..k], t), subs[k].ofTopic, TopicLinks(subs[k + 1..], t));
    NothingBetween(TopicLinks(subs[..k], t), TopicLinks(subs[k + 1..], t));
  }

  ghost function Cut<X>(s: seq<X>, k: nat): seq<X> {
    if k < |s| then Without(s, k) else s
  }

  /** Cutting nodes from two of the lists leaves no cell that was not there. */
  twostate lemma FewerCells(lists: set<List<Sub?>>, new l: List<Sub?>, new j: nat, new l': List<Sub?>, new i: nat)
    requires forall m :: m in lists ==>
               m.links == if m == l then Cut(old(m.links), j) else if m == l' then Cut(old(m.links), i)
                          else old(m.links)
    ensures Cells(lists) <= old(Cells(lists))
  {
  }

  /** What is left of an owner or of a topic after place k shows in the length of the list. */
  lemma OwnerLeft(subs: seq<Sub>, k: nat)
    requires k < |subs|
    ensures var s := subs[k].socket;
            S.HasOwner(View(subs[k + 1..]), s) <==> |OwnLinks(subs[..k], s)| + 1 < |OwnLinks(subs, s)|
  {
    OwnLinksAt(subs, k, subs[k].socket);
    HasOwnerLinks(subs[k + 1..], subs[k].socket);
    hide OwnLinks, View;
  }

  lemma TopicLeft(subs: seq<Sub>, k: nat)
    requires k < |subs| && forall m :: m in subs && m.topic.name == subs[k].topic.name ==> m.topic == subs[k].topic
    ensures var t := subs[k].topic;
            && (S.HasTopic(View(subs[k + 1..]), t.name) <==> |TopicLinks(subs[..k], t)| + 1 < |TopicLinks(subs, t)|)
            && (S.HasTopic(View(Without(subs, k)), t.name) <==> TopicLinks(Without(subs, k), t) != [])
  {
    TopicLinksAt(subs, k, subs[k].topic);
    HasTopicLinks(subs[k + 1..], subs[k].topic);
    HasTopicLinks(Without(subs, k), subs[k].topic);
    hide TopicLinks, View;
  }

  lemma {:induction false} HasOwnerLinks(subs: seq<Sub>, s: Socket)
    ensures S.HasOwner(View(subs), s) <==> OwnLinks(subs, s) != []
  {
    if subs != [] {
      HasOwnerLinks(subs[1..], s);
      hide View;
      assert View(subs)[1..] == View(subs[1..]);
    }
  }

  /** Where the names of topics are all different. */
  lemma {:induction false} HasTopicLinks(subs: seq<Sub>, t: Topic)
    requires forall n :: n in subs && n.topic.name == t.name ==> n.topic == t
    ensures S.HasTopic(View(subs), t.name) <==> TopicLinks(subs, t) != []
  {
    if subs != [] {
      HasTopicLinks(subs[1..], t);
      hide View;
      assert View(subs)[1..] == View(subs[1..]);
    }
  }
}
