/** The subscription index of `nc_parse_and_apply`: a subscription is on the list of its
    socket and on the list of its topic.  Both lists are in order of creation, so the index
    is one sequence and a list is the part of it with one owner or one topic.

    `loose` tails are tails that name a cell of a freed subscription: an append through one
    is undefined, and so is the removal of a topic, whose `prev` is never set. */
module Subscriptions {
  import opened MsgPack

  datatype Sub<O> = Sub(owner: O, topic: Bytes, visited: bool)

  datatype Outcome = Fine | Undefined

  datatype Index<O(==)> = Index(
    subs: seq<Sub<O>>,        // in order of creation
    topics: seq<Bytes>,       // the listed topics
    looseOwners: set<O>,
    looseTopics: set<Bytes>,
    subscribed: seq<Bytes>,   // the topics whose updates are asked for
    outcome: Outcome)

  // ----- The three phases

  function Unmark<O(==)>(x: Index<O>, s: O): Index<O> {
    x.(subs := Marked(x.subs, s, []))
  }

  /** The subscriptions of `s` visited if their topic is in `ts`, the others as they are. */
  function Marked<O(==)>(subs: seq<Sub<O>>, s: O, ts: seq<Bytes>): (r: seq<Sub<O>>)
    ensures |r| == |subs|
    ensures forall k :: 0 <= k < |r| ==>
              r[k] == if subs[k].owner == s then subs[k].(visited := subs[k].topic in ts) else subs[k]
  {
    seq(|subs|, k requires 0 <= k < |subs| =>
      if subs[k].owner == s then subs[k].(visited := subs[k].topic in ts) else subs[k])
  }

  /** The subscriptions of `s` to `t` visited. */
  function Touched<O(==)>(subs: seq<Sub<O>>, s: O, t: Bytes): (r: seq<Sub<O>>)
    ensures |r| == |subs|
    ensures forall k :: 0 <= k < |r| ==>
              r[k] == if subs[k].owner == s && subs[k].topic == t then subs[k].(visited := true) else subs[k]
  {
    seq(|subs|, k requires 0 <= k < |subs| =>
      if subs[k].owner == s && subs[k].topic == t then subs[k].(visited := true) else subs[k])
  }

  function Touch<O(==)>(x: Index<O>, s: O, t: Bytes): Index<O> {
    x.(subs := Touched(x.subs, s, t))
  }

  /** Have a topic listed, and ask for its updates if it was not. */
  function List<O(==)>(x: Index<O>, t: Bytes): Index<O> {
    if t in x.topics then x else x.(topics := x.topics + [t], subscribed := x.subscribed + [t])
  }

  function Append<O(==)>(x: Index<O>, s: O, t: Bytes): Index<O> {
    x.(subs := x.subs + [Sub(s, t, true)])
  }

  function Undefine<O(==)>(x: Index<O>): Index<O> {
    x.(outcome := Undefined)
  }

  /** Name a topic.  The search runs to the end of the list in any case, so a subscription is
      added even if there was one. */
  function Use<O(==)>(x: Index<O>, s: O, t: Bytes): Index<O> {
    if x.outcome != Fine then x
    else
      var y := List(Touch(x, s, t), t);
      if s in x.looseOwners || t in x.looseTopics then Undefine(y) else Append(y, s, t)
  }

  function UseAll<O(==)>(x: Index<O>, s: O, ts: seq<Bytes>): Index<O>
    decreases |ts|
  {
    if ts == [] then x else UseAll(Use(x, s, ts[0]), s, ts[1..])
  }

  predicate HasOwner<O(==)>(subs: seq<Sub<O>>, s: O) {
    subs != [] && (subs[0].owner == s || HasOwner(subs[1..], s))
  }

  predicate HasTopic<O(==)>(subs: seq<Sub<O>>, t: Bytes) {
    subs != [] && (subs[0].topic == t || HasTopic(subs[1..], t))
  }

  /** Take out subscription k.  A tail becomes loose if it was the last one on that list, and
      there is no defined way to go on if its topic has none left. */
  function Remove<O(==)>(x: Index<O>, k: nat): Index<O>
    requires k < |x.subs|
  {
    var sub, after := x.subs[k], x.subs[k + 1..];
    Index(x.subs[..k] + after,
          x.topics,
          if HasOwner(after, sub.owner) then x.looseOwners else x.looseOwners + {sub.owner},
          if HasTopic(after, sub.topic) then x.looseTopics else x.looseTopics + {sub.topic},
          x.subscribed,
          if HasTopic(x.subs[..k] + after, sub.topic) then x.outcome else Undefined)
  }

  /** Sweep the list of `s` from place k of the index on. */
  function SweepFrom<O(==)>(x: Index<O>, s: O, k: nat): Index<O>
    requires k <= |x.subs|
    decreases |x.subs| - k
  {
    if k == |x.subs| || x.outcome != Fine then x
    else if x.subs[k].owner == s && !x.subs[k].visited then SweepFrom(Remove(x, k), s, k)
    else SweepFrom(x, s, k + 1)
  }

  function Settle<O(==)>(x: Index<O>, s: O): Index<O> {
    SweepFrom(x, s, 0)
  }

  /** All of it, for the topics of a reply to `s`. */
  function Reindex<O(==)>(x: Index<O>, s: O, ts: seq<Bytes>): Index<O> {
    Settle(UseAll(Unmark(x, s), s, ts), s)
  }

  lemma {:induction false} HasTopicConcat<O>(a: seq<Sub<O>>, b: seq<Sub<O>>, t: Bytes)
    ensures HasTopic(a + b, t) <==> HasTopic(a, t) || HasTopic(b, t)
  {
    if a == [] {
      assert a + b == b;
    } else {
      assert (a + b)[1..] == a[1..] + b;
      HasTopicConcat(a[1..], b, t);
    }
  }

  lemma {:induction false} HasOwnerConcat<O>(a: seq<Sub<O>>, b: seq<Sub<O>>, s: O)
    ensures HasOwner(a + b, s) <==> HasOwner(a, s) || HasOwner(b, s)
  {
    if a == [] {
      assert a + b == b;
    } else {
      assert (a + b)[1..] == a[1..] + b;
      HasOwnerConcat(a[1..], b, s);
    }
  }

  // ----- The invariant

  ghost predicate NoRepeats(ts: seq<Bytes>) {
    forall j, k :: 0 <= j < k < |ts| ==> ts[j] != ts[k]
  }

  /** A topic is listed exactly if it has a subscription, no topic is listed twice, and updates
      are asked for of the listed topics, once each, and of no others. */
  ghost predicate Consistent<O>(x: Index<O>) {
    && (forall t :: t in x.topics <==> HasTopic(x.subs, t))
    && NoRepeats(x.topics)
    && x.subscribed == x.topics
  }

  lemma {:induction false} TouchedTopics<O>(subs: seq<Sub<O>>, s: O, u: Bytes, t: Bytes)
    ensures HasTopic(Touched(subs, s, u), t) <==> HasTopic(subs, t)
  {
    if subs != [] {
      assert Touched(subs, s, u)[1..] == Touched(subs[1..], s, u);
      TouchedTopics(subs[1..], s, u, t);
    }
  }

  /** Naming a topic keeps the invariant whether or not the reply turns out well later on. */
  lemma UseConsistent<O>(x: Index<O>, s: O, t: Bytes)
    requires Consistent(x) && Use(x, s, t).outcome == Fine
    ensures Consistent(Use(x, s, t))
  {
    var y := Use(x, s, t);
    forall u
      ensures u in y.topics <==> HasTopic(y.subs, u)
    {
      if x.outcome == Fine {
        TouchedTopics(x.subs, s, t, u);
        HasTopicConcat(Touched(x.subs, s, t), [Sub(s, t, true)], u);
        assert [Sub(s, t, true)][1..] == [];
      }
    }
  }

  /** So does taking a subscription out, as long as it is defined. */
  lemma RemoveConsistent<O>(x: Index<O>, k: nat)
    requires Consistent(x) && k < |x.subs| && Remove(x, k).outcome == Fine
    ensures Consistent(Remove(x, k))
  {
    var y := Remove(x, k);
    forall t
      ensures t in y.topics <==> HasTopic(y.subs, t)
    {
      RemoveTopics(x.subs, k, t);
    }
  }

  lemma RemoveTopics<O>(subs: seq<Sub<O>>, k: nat, t: Bytes)
    requires k < |subs|
    ensures HasTopic(subs, t) <==> HasTopic(subs[..k] + subs[k + 1..], t) || subs[k].topic == t
  {
    assert subs == subs[..k] + ([subs[k]] + subs[k + 1..]);
    HasTopicConcat(subs[..k], [subs[k]] + subs[k + 1..], t);
    HasTopicConcat(subs[..k], subs[k + 1..], t);
    assert ([subs[k]] + subs[k + 1..])[1..] == subs[k + 1..];
  }

  lemma {:induction false} SweepConsistent<O>(x: Index<O>, s: O, k: nat)
    requires Consistent(x) && k <= |x.subs| && SweepFrom(x, s, k).outcome == Fine
    ensures Consistent(SweepFrom(x, s, k))
    decreases |x.subs| - k
  {
    if k < |x.subs| && x.outcome == Fine {
      if x.subs[k].owner == s && !x.subs[k].visited {
        if Remove(x, k).outcome == Fine {
          RemoveConsistent(x, k);
        }
        SweepConsistent(Remove(x, k), s, k);
      } else {
        SweepConsistent(x, s, k + 1);
      }
    }
  }

  // ----- Naming topics, in closed form

  /** The subscriptions of `s` to one of `ts` visited besides those that are. */
  function TouchedAll<O(==)>(subs: seq<Sub<O>>, s: O, ts: seq<Bytes>): (r: seq<Sub<O>>)
    ensures |r| == |subs|
    ensures forall k :: 0 <= k < |r| ==>
              r[k] == if subs[k].owner == s && subs[k].topic in ts then subs[k].(visited := true) else subs[k]
  {
    seq(|subs|, k requires 0 <= k < |subs| =>
      if subs[k].owner == s && subs[k].topic in ts then subs[k].(visited := true) else subs[k])
  }

  /** One new subscription for each topic of the reply. */
  function Added<O>(s: O, ts: seq<Bytes>): (r: seq<Sub<O>>)
    ensures |r| == |ts| && forall k :: 0 <= k < |r| ==> r[k] == Sub(s, ts[k], true)
  {
    seq(|ts|, k requires 0 <= k < |ts| => Sub(s, ts[k], true))
  }

  lemma {:induction false} UseAllExactly<O>(x: Index<O>, s: O, ts: seq<Bytes>)
    requires x.outcome == Fine
    ensures var y := UseAll(x, s, ts);
            && (y.outcome == Fine <==> ts == [] || (s !in x.looseOwners && forall t :: t in ts ==> t !in x.looseTopics))
            && (y.outcome == Fine ==>
                  && y.subs == TouchedAll(x.subs, s, ts) + Added(s, ts)
                  && y.looseOwners == x.looseOwners && y.looseTopics == x.looseTopics)
    decreases |ts|
  {
    hide TouchedAll, Added, Touched;
    if ts == [] {
      TouchNone(x.subs, s);
    } else {
      var y := Use(x, s, ts[0]);
      assert ts == [ts[0]] + ts[1..];
      if y.outcome == Fine {
        UseAllExactly(y, s, ts[1..]);
        TouchMore(x.subs, s, ts);
      } else {
        UndefinedStays(y, s, ts[1..]);
      }
    }
  }

  lemma TouchNone<O>(subs: seq<Sub<O>>, s: O)
    ensures TouchedAll(subs, s, []) + Added(s, []) == subs
  {
  }

  lemma TouchMore<O>(subs: seq<Sub<O>>, s: O, ts: seq<Bytes>)
    requires ts != []
    ensures var next := Touched(subs, s, ts[0]) + [Sub(s, ts[0], true)];
            TouchedAll(next, s, ts[1..]) + Added(s, ts[1..]) == TouchedAll(subs, s, ts) + Added(s, ts)
  {
    TouchOne(subs, s, ts);
    AddOne(s, ts);
    hide TouchedAll, Added, Touched;
    var one := [Sub(s, ts[0], true)];
    assert TouchedAll(subs, s, ts) + one + Added(s, ts[1..]) == TouchedAll(subs, s, ts) + (one + Added(s, ts[1..]));
  }

  lemma AddOne<O>(s: O, ts: seq<Bytes>)
    requires ts != []
    ensures Added(s, ts) == [Sub(s, ts[0], true)] + Added(s, ts[1..])
  {
  }

  lemma TouchOne<O>(subs: seq<Sub<O>>, s: O, ts: seq<Bytes>)
    requires ts != []
    ensures TouchedAll(Touched(subs, s, ts[0]) + [Sub(s, ts[0], true)], s, ts[1..])
         == TouchedAll(subs, s, ts) + [Sub(s, ts[0], true)]
  {
    forall t
      ensures t in ts <==> t == ts[0] || t in ts[1..]
    {
      assert ts == [ts[0]] + ts[1..];
    }
  }

  lemma {:induction false} UndefinedStays<O>(x: Index<O>, s: O, ts: seq<Bytes>)
    requires x.outcome != Fine
    ensures UseAll(x, s, ts) == x
    decreases |ts|
  {
    if ts != [] {
      UndefinedStays(Use(x, s, ts[0]), s, ts[1..]);
    }
  }

  // ----- The sweep, in closed form

  predicate Dropped<O(==)>(sub: Sub<O>, s: O) {
    sub.owner == s && !sub.visited
  }

  /** What the sweep of `s` leaves. */
  function Kept<O(==)>(subs: seq<Sub<O>>, s: O): seq<Sub<O>> {
    if subs == [] then []
    else if Dropped(subs[0], s) then Kept(subs[1..], s)
    else [subs[0]] + Kept(subs[1..], s)
  }

  /** Each topic that loses a subscription in `subs` has one in `left`. */
  predicate TopicsSurvive<O(==)>(subs: seq<Sub<O>>, s: O, left: seq<Sub<O>>) {
    subs == [] || ((Dropped(subs[0], s) ==> HasTopic(left, subs[0].topic)) && TopicsSurvive(subs[1..], s, left))
  }

  /** The last subscription of `s` is dropped. */
  predicate LosesLast<O(==)>(subs: seq<Sub<O>>, s: O) {
    subs != []
    && ((Dropped(subs[0], s) && !HasOwner(subs[1..], s)) || LosesLast(subs[1..], s))
  }

  /** The last subscription to `t` is dropped. */
  predicate TopicLosesLast<O(==)>(subs: seq<Sub<O>>, s: O, t: Bytes) {
    subs != []
    && ((Dropped(subs[0], s) && subs[0].topic == t && !HasTopic(subs[1..], t)) || TopicLosesLast(subs[1..], s, t))
  }

  /** From place k on: the sweep leaves `Kept`, it is defined exactly if every topic it takes
      from keeps a subscription, and it loosens exactly the tails whose last one goes. */
  lemma {:induction false} SweepExactly<O>(x: Index<O>, s: O, k: nat)
    requires k <= |x.subs| && x.outcome == Fine
    ensures var y, tail := SweepFrom(x, s, k), x.subs[k..];
            var left := x.subs[..k] + Kept(tail, s);
            && (y.outcome == Fine <==> TopicsSurvive(tail, s, left))
            && (y.outcome == Fine ==>
                  && y.subs == left && y.topics == x.topics && y.subscribed == x.subscribed
                  && (forall o :: o in y.looseOwners <==> o in x.looseOwners || (o == s && LosesLast(tail, s)))
                  && forall t :: t in y.looseTopics <==> t in x.looseTopics || TopicLosesLast(tail, s, t))
    decreases |x.subs| - k
  {
    hide HasTopic, HasOwner, Dropped;
    var tail := x.subs[k..];
    if k < |x.subs| {
      OwnDropped(x.subs[k], s);
      var sub, after := x.subs[k], x.subs[k + 1..];
      assert tail == [sub] + after && tail[1..] == after;
      if Dropped(sub, s) {
        var y := Remove(x, k);
        RemoveAt(x, k);
        SurvivesIfKept(x.subs[..k], after, s, sub.topic);
        assert SweepFrom(x, s, k) == SweepFrom(y, s, k);
        if y.outcome == Fine {
          SweepExactly(y, s, k);
        } else {
          UndefinedSweep(y, s, k);
        }
      } else {
        assert x.subs[..k + 1] + Kept(after, s) == x.subs[..k] + ([sub] + Kept(after, s));
        assert SweepFrom(x, s, k) == SweepFrom(x, s, k + 1);
        SweepExactly(x, s, k + 1);
      }
    } else {
      assert x.subs[..k] + [] == x.subs;
    }
  }

  lemma OwnDropped<O>(sub: Sub<O>, s: O)
    ensures Dropped(sub, s) <==> sub.owner == s && !sub.visited
  {
  }

  lemma RemoveAt<O>(x: Index<O>, k: nat)
    requires k < |x.subs|
    ensures Remove(x, k).subs[..k] == x.subs[..k] && Remove(x, k).subs[k..] == x.subs[k + 1..]
    ensures |Remove(x, k).subs| == |x.subs| - 1
  {
  }

  lemma UndefinedSweep<O>(x: Index<O>, s: O, k: nat)
    requires k <= |x.subs| && x.outcome != Fine
    ensures SweepFrom(x, s, k) == x
  {
  }

  /** A topic with a subscription in `head + tail` has one left after the sweep of `tail`, or
      loses its last one to it; and if it has one left it had one before. */
  lemma {:induction false} SurvivesIfKept<O>(head: seq<Sub<O>>, tail: seq<Sub<O>>, s: O, t: Bytes)
    ensures HasTopic(head + Kept(tail, s), t) ==> HasTopic(head + tail, t)
    ensures HasTopic(head + tail, t) && TopicsSurvive(tail, s, head + Kept(tail, s)) ==>
              HasTopic(head + Kept(tail, s), t)
  {
    HasTopicConcat(head, tail, t);
    HasTopicConcat(head, Kept(tail, s), t);
    KeptTopic(tail, s, t);
    if HasTopic(tail, t) && !HasTopic(Kept(tail, s), t) && TopicsSurvive(tail, s, head + Kept(tail, s)) {
      SurvivorOf(tail, s, t, head + Kept(tail, s));
    }
  }

  lemma {:induction false} KeptTopic<O>(subs: seq<Sub<O>>, s: O, t: Bytes)
    ensures HasTopic(Kept(subs, s), t) ==> HasTopic(subs, t)
  {
    if subs != [] {
      KeptTopic(subs[1..], s, t);
      if !Dropped(subs[0], s) {
        assert Kept(subs, s)[1..] == Kept(subs[1..], s);
      }
    }
  }

  lemma {:induction false} SurvivorOf<O>(subs: seq<Sub<O>>, s: O, t: Bytes, left: seq<Sub<O>>)
    requires HasTopic(subs, t) && !HasTopic(Kept(subs, s), t) && TopicsSurvive(subs, s, left)
    ensures HasTopic(left, t)
  {
    if !Dropped(subs[0], s) {
      assert Kept(subs, s)[1..] == Kept(subs[1..], s);
    }
    if subs[0].topic != t {
      SurvivorOf(subs[1..], s, t, left);
    }
  }

  // ----- A whole reply

  /** The index before the sweep, cut where the old subscriptions end. */
  lemma {:induction false} SweepParts<O>(was: seq<Sub<O>>, s: O, ts: seq<Bytes>)
    ensures Kept(Marked(was, s, ts) + Added(s, ts), s) == Kept(Marked(was, s, ts), s) + Added(s, ts)
    ensures LosesLast(Marked(was, s, ts) + Added(s, ts), s) <==> ts == [] && HasOwner(was, s)
  {
    hide HasOwner;
    var added := Added(s, ts);
    if was == [] {
      NothingDropped(added, s);
      assert Marked(was, s, ts) + added == added;
      NoOwner(s);
    } else {
      SweepParts(was[1..], s, ts);
      MarkedHead(was, s, ts);
      var rest := Marked(was[1..], s, ts);
      assert (Marked(was, s, ts) + added)[1..] == rest + added;
      HasOwnerConcat(rest, added, s);
      MarkedOwner(was[1..], s, ts);
      AddedOwner(s, ts);
      OwnerHead(was, s);
      assert [Marked(was, s, ts)[0]] + (Kept(rest, s) + added) == [Marked(was, s, ts)[0]] + Kept(rest, s) + added;
    }
  }

  lemma NoOwner<O>(s: O)
    ensures !HasOwner([], s)
  {
  }

  lemma OwnerHead<O>(subs: seq<Sub<O>>, s: O)
    requires subs != []
    ensures HasOwner(subs, s) <==> subs[0].owner == s || HasOwner(subs[1..], s)
  {
  }

  lemma MarkedHead<O>(subs: seq<Sub<O>>, s: O, ts: seq<Bytes>)
    requires subs != []
    ensures Marked(subs, s, ts) == [Marked(subs, s, ts)[0]] + Marked(subs[1..], s, ts)
  {
  }

  lemma {:induction false} MarkedOwner<O>(subs: seq<Sub<O>>, s: O, ts: seq<Bytes>)
    ensures HasOwner(Marked(subs, s, ts), s) <==> HasOwner(subs, s)
  {
    if subs != [] {
      MarkedHead(subs, s, ts);
      MarkedOwner(subs[1..], s, ts);
    }
  }

  lemma AddedOwner<O>(s: O, ts: seq<Bytes>)
    ensures HasOwner(Added(s, ts), s) <==> ts != []
  {
  }

  lemma {:induction false} NothingDropped<O>(subs: seq<Sub<O>>, s: O)
    requires forall k :: 0 <= k < |subs| ==> subs[k].visited
    ensures Kept(subs, s) == subs && !LosesLast(subs, s)
    ensures forall left :: TopicsSurvive(subs, s, left)
    ensures forall t :: !TopicLosesLast(subs, s, t)
  {
    if subs != [] {
      NothingDropped(subs[1..], s);
    }
  }

  lemma {:induction false} TopicParts<O>(was: seq<Sub<O>>, s: O, ts: seq<Bytes>, t: Bytes)
    ensures TopicLosesLast(Marked(was, s, ts) + Added(s, ts), s, t)
            <==> t !in ts && GivesUpLast(was, s, t)
  {
    hide HasTopic;
    var added := Added(s, ts);
    if was == [] {
      NothingDropped(added, s);
      assert Marked(was, s, ts) + added == added;
    } else {
      TopicParts(was[1..], s, ts, t);
      MarkedHead(was, s, ts);
      var rest := Marked(was[1..], s, ts);
      assert (Marked(was, s, ts) + added)[1..] == rest + added;
      HasTopicConcat(rest, added, t);
      MarkedTopic(was[1..], s, ts, t);
      AddedTopic(s, ts, t);
    }
  }

  /** The last subscription to `t` belongs to `s`. */
  predicate GivesUpLast<O(==)>(subs: seq<Sub<O>>, s: O, t: Bytes) {
    subs != []
    && ((subs[0].owner == s && subs[0].topic == t && !HasTopic(subs[1..], t)) || GivesUpLast(subs[1..], s, t))
  }

  lemma {:induction false} MarkedTopic<O>(subs: seq<Sub<O>>, s: O, ts: seq<Bytes>, t: Bytes)
    ensures HasTopic(Marked(subs, s, ts), t) <==> HasTopic(subs, t)
  {
    if subs != [] {
      MarkedHead(subs, s, ts);
      MarkedTopic(subs[1..], s, ts, t);
    }
  }

  lemma {:induction false} AddedTopic<O>(s: O, ts: seq<Bytes>, t: Bytes)
    ensures HasTopic(Added(s, ts), t) <==> t in ts
  {
    if ts != [] {
      AddOne(s, ts);
      AddedTopic(s, ts[1..], t);
      assert ts == [ts[0]] + ts[1..];
    }
  }

  /** Someone other than `s` has a subscription to each topic that `s` gives up. */
  predicate OthersHold<O(==)>(subs: seq<Sub<O>>, s: O, ts: seq<Bytes>, all: seq<Sub<O>>) {
    subs == []
    || ((subs[0].owner == s && subs[0].topic !in ts ==> HeldByOther(all, s, subs[0].topic))
        && OthersHold(subs[1..], s, ts, all))
  }

  predicate HeldByOther<O(==)>(subs: seq<Sub<O>>, s: O, t: Bytes) {
    subs != [] && ((subs[0].owner != s && subs[0].topic == t) || HeldByOther(subs[1..], s, t))
  }

  lemma {:induction false} SurviveIfHeld<O>(
      part: seq<Sub<O>>, s: O, ts: seq<Bytes>, all: seq<Sub<O>>)
    ensures TopicsSurvive(Marked(part, s, ts) + Added(s, ts), s, Kept(Marked(all, s, ts), s) + Added(s, ts))
            <==> OthersHold(part, s, ts, all)
  {
    var added := Added(s, ts);
    if part == [] {
      NothingDropped(added, s);
      assert Marked(part, s, ts) + added == added;
      assert TopicsSurvive(added, s, Kept(Marked(all, s, ts), s) + added);
    } else {
      hide HasTopic, HeldByOther, Kept;
      SurviveIfHeld(part[1..], s, ts, all);
      MarkedHead(part, s, ts);
      assert (Marked(part, s, ts) + added)[1..] == Marked(part[1..], s, ts) + added;
      var t := part[0].topic;
      HasTopicConcat(Kept(Marked(all, s, ts), s), added, t);
      AddedTopic(s, ts, t);
      if t !in ts {
        KeptIfHeld(all, s, ts, t);
      }
    }
  }

  lemma {:induction false} KeptIfHeld<O>(subs: seq<Sub<O>>, s: O, ts: seq<Bytes>, t: Bytes)
    requires t !in ts
    ensures HasTopic(Kept(Marked(subs, s, ts), s), t) <==> HeldByOther(subs, s, t)
  {
    if subs != [] {
      MarkedHead(subs, s, ts);
      KeptIfHeld(subs[1..], s, ts, t);
      var m := Marked(subs, s, ts);
      assert m[1..] == Marked(subs[1..], s, ts);
      if !Dropped(m[0], s) {
        assert Kept(m, s)[1..] == Kept(m[1..], s);
      }
    }
  }

  /** Applying a reply's topics for `s`: exactly when it is defined, and then what is left of
      the old subscriptions, what is added, and which tails are loose afterwards. */
  lemma ReindexExactly<O>(x: Index<O>, s: O, ts: seq<Bytes>)
    requires x.outcome == Fine
    ensures var y := Reindex(x, s, ts);
            && (y.outcome == Fine <==>
                  && (ts == [] || (s !in x.looseOwners && forall t :: t in ts ==> t !in x.looseTopics))
                  && OthersHold(x.subs, s, ts, x.subs))
            && (y.outcome == Fine ==>
                  && y.subs == Kept(Marked(x.subs, s, ts), s) + Added(s, ts)
                  && (forall o :: o in y.looseOwners <==>
                        o in x.looseOwners || (o == s && ts == [] && HasOwner(x.subs, s)))
                  && (forall t :: t in y.looseTopics <==>
                        t in x.looseTopics || (t !in ts && GivesUpLast(x.subs, s, t))))
  {
    hide Kept, Dropped, LosesLast, TopicLosesLast, TopicsSurvive, OthersHold, HasOwner, GivesUpLast, UseAll,
         SweepFrom, Marked, Added, TouchedAll;
    var u := Unmark(x, s);
    UseAllExactly(u, s, ts);
    var v := UseAll(u, s, ts);
    if v.outcome == Fine {
      MarkTouched(x.subs, s, ts);
      SweepParts(x.subs, s, ts);
      SurviveIfHeld(x.subs, s, ts, x.subs);
      assert v.subs[0..] == v.subs;
      SweepExactly(v, s, 0);
      assert [] + Kept(v.subs, s) == Kept(v.subs, s);
      forall t
        ensures TopicLosesLast(v.subs, s, t) <==> t !in ts && GivesUpLast(x.subs, s, t)
      {
        TopicParts(x.subs, s, ts, t);
      }
    } else {
      UndefinedSweep(v, s, 0);
    }
  }

  lemma MarkTouched<O>(subs: seq<Sub<O>>, s: O, ts: seq<Bytes>)
    ensures TouchedAll(Marked(subs, s, []), s, ts) == Marked(subs, s, ts)
  {
  }

  lemma UnmarkConsistent<O>(x: Index<O>, s: O)
    requires Consistent(x)
    ensures Consistent(Unmark(x, s))
  {
    hide HasTopic;
    forall t
      ensures HasTopic(Marked(x.subs, s, []), t) <==> HasTopic(x.subs, t)
    {
      MarkedTopic(x.subs, s, [], t);
    }
  }

  /** The invariant holds after every defined application. */
  lemma ReindexConsistent<O>(x: Index<O>, s: O, ts: seq<Bytes>)
    requires Consistent(x) && Reindex(x, s, ts).outcome == Fine
    ensures Consistent(Reindex(x, s, ts))
  {
    hide SweepFrom, HasTopic, UseAll, Consistent;
    var u := Unmark(x, s);
    UnmarkConsistent(x, s);
    SweepKeepsUndefined(UseAll(u, s, ts), s, 0);
    UseAllConsistent(u, s, ts);
    SweepConsistent(UseAll(u, s, ts), s, 0);
  }

  lemma SweepKeepsUndefined<O>(x: Index<O>, s: O, k: nat)
    requires k <= |x.subs|
    ensures SweepFrom(x, s, k).outcome == Fine ==> x.outcome == Fine
  {
  }

  lemma {:induction false} UseAllConsistent<O>(x: Index<O>, s: O, ts: seq<Bytes>)
    requires Consistent(x) && UseAll(x, s, ts).outcome == Fine
    ensures Consistent(UseAll(x, s, ts))
    decreases |ts|
  {
    hide Consistent;
    if ts != [] {
      var y := Use(x, s, ts[0]);
      if y.outcome != Fine {
        UndefinedStays(y, s, ts[1..]);
      }
      UseConsistent(x, s, ts[0]);
      UseAllConsistent(y, s, ts[1..]);
    }
  }

  // ----- What the updates socket gets to hear

  /** The topics that the socket with this number is subscribed to after they were asked for one
      after the other: number 0 is never asked, and a call that returns less than 0 has failed. */
  function Heard(asked: seq<Bytes>, updates: int, rcs: nat -> int): set<Bytes> {
    set k: nat | k < |asked| && updates != 0 && rcs(k) >= 0 :: asked[k]
  }

  /** Updates come in for exactly the listed topics if and only if there are none, or the socket
      is not number 0 and all the calls have gone well. */
  lemma HeardExactly<O>(x: Index<O>, updates: int, rcs: nat -> int)
    requires Consistent(x)
    ensures Heard(x.subscribed, updates, rcs) == (set t | t in x.topics) <==>
            x.topics == [] || (updates != 0 && forall k: nat :: k < |x.topics| ==> rcs(k) >= 0)
  {
    var heard, listed := Heard(x.subscribed, updates, rcs), set t | t in x.topics;
    forall k: nat | k < |x.topics|
      ensures x.topics[k] in listed && (x.topics[k] in heard <==> updates != 0 && rcs(k) >= 0)
    {
    }
    if x.topics != [] && heard == listed {
      assert x.topics[0] in heard;
    }
    hide HasTopic;
  }

  // ----- Duplicates

  function Count<O(==)>(subs: seq<Sub<O>>, s: O, t: Bytes): nat {
    if subs == [] then 0
    else (if subs[0].owner == s && subs[0].topic == t then 1 else 0) + Count(subs[1..], s, t)
  }

  function Occurrences(ts: seq<Bytes>, t: Bytes): nat {
    if ts == [] then 0 else (if ts[0] == t then 1 else 0) + Occurrences(ts[1..], t)
  }

  lemma {:induction false} CountConcat<O>(a: seq<Sub<O>>, b: seq<Sub<O>>, s: O, t: Bytes)
    ensures Count(a + b, s, t) == Count(a, s, t) + Count(b, s, t)
  {
    if a == [] {
      assert a + b == b;
    } else {
      assert (a + b)[1..] == a[1..] + b;
      CountConcat(a[1..], b, s, t);
    }
  }

  /** How often `s` is subscribed to a topic after a reply: every application adds one for
      each time the topic is named, on top of what was there.  So a socket ends up with one
      subscription to a named topic exactly if it had none and the reply names it once. */
  lemma DuplicatesExactly<O>(x: Index<O>, s: O, ts: seq<Bytes>, t: Bytes)
    requires x.outcome == Fine && Reindex(x, s, ts).outcome == Fine
    ensures Count(Reindex(x, s, ts).subs, s, t)
         == if t in ts then Count(x.subs, s, t) + Occurrences(ts, t) else 0
  {
    ReindexExactly(x, s, ts);
    CountConcat(Kept(Marked(x.subs, s, ts), s), Added(s, ts), s, t);
    CountKept(x.subs, s, ts, t);
    CountAdded(s, ts, t);
  }

  lemma {:induction false} CountKept<O>(subs: seq<Sub<O>>, s: O, ts: seq<Bytes>, t: Bytes)
    ensures Count(Kept(Marked(subs, s, ts), s), s, t) == if t in ts then Count(subs, s, t) else 0
  {
    if subs != [] {
      MarkedHead(subs, s, ts);
      CountKept(subs[1..], s, ts, t);
      var m := Marked(subs, s, ts);
      assert m[1..] == Marked(subs[1..], s, ts);
      if !Dropped(m[0], s) {
        assert Kept(m, s)[1..] == Kept(m[1..], s);
      }
    }
  }

  lemma {:induction false} CountAdded<O>(s: O, ts: seq<Bytes>, t: Bytes)
    ensures Count(Added(s, ts), s, t) == Occurrences(ts, t)
    ensures Occurrences(ts, t) > 0 <==> t in ts
  {
    if ts != [] {
      AddOne(s, ts);
      CountAdded(s, ts[1..], t);
      assert ts == [ts[0]] + ts[1..];
    }
  }

  /** The same reply twice: the second time it changes nothing at the service but leaves the
      socket subscribed twice. */
  lemma SameReplySubscribesTwice<O>(s: O, t: Bytes)
    ensures var once := Reindex(Index([], [], {}, {}, [], Fine), s, [t]);
            var twice := Reindex(once, s, [t]);
            && once.outcome == Fine && twice.outcome == Fine
            && Count(once.subs, s, t) == 1 && Count(twice.subs, s, t) == 2
  {
    var none: Index<O> := Index([], [], {}, {}, [], Fine);
    var once := Reindex(none, s, [t]);
    ReindexExactly(none, s, [t]);
    DuplicatesExactly(none, s, [t], t);
    assert Kept(Marked(none.subs, s, [t]), s) == [];
    assert once.subs == [Sub(s, t, true)];
    ReindexExactly(once, s, [t]);
    DuplicatesExactly(once, s, [t], t);
  }

  /** Giving up a topic that nobody else holds has no defined outcome. */
  lemma LastSubscriberUndefined<O>(s: O, t: Bytes)
    ensures Reindex(Index([Sub(s, t, true)], [t], {}, {}, [t], Fine), s, []).outcome == Undefined
  {
    var x := Index([Sub(s, t, true)], [t], {}, {}, [t], Fine);
    assert x.subs[1..] == [];
    assert !HeldByOther(x.subs[1..], s, t);
    assert !HeldByOther(x.subs, s, t);
    assert !OthersHold(x.subs, s, [], x.subs);
    ReindexExactly(x, s, []);
  }
}
