/** The subscription index over runs of replies from any sockets: exactly which runs stay defined. */
module IndexRuns {
  import opened Wrappers
  import opened MsgPack
  import opened Holdings
  import S = Subscriptions

  /** A reply to `owner` that does this to its topics. */
  datatype Act<O> = Act(owner: O, naming: Naming)

  function IndexAfter<O(==)>(acts: seq<Act<O>>): S.Index<O> {
    if acts == [] then S.Index([], [], {}, {}, [], S.Fine)
    else
      var n := |acts| - 1;
      Rename(IndexAfter(acts[..n]), acts[n].owner, acts[n].naming)
  }

  /** The topics that it names. */
  function TopicsOf(naming: Naming): seq<Bytes> {
    if naming.Nothing? then [] else naming.topics
  }

  // ----- What a reply asks of the index

  /** It gives up all that its socket holds. */
  predicate LoosensOwner<O(==)>(x: S.Index<O>, a: Act<O>) {
    a.naming == All([]) && S.HasOwner(x.subs, a.owner)
  }

  /** It gives up the last subscription to `t`. */
  predicate LoosensTopic<O(==)>(x: S.Index<O>, a: Act<O>, t: Bytes) {
    a.naming.All? && t !in a.naming.topics && S.GivesUpLast(x.subs, a.owner, t)
  }

  /** It gives up a topic that no other socket holds. */
  predicate Abandons<O(==)>(x: S.Index<O>, a: Act<O>) {
    a.naming.All? && !S.OthersHold(x.subs, a.owner, a.naming.topics, x.subs)
  }

  /** A tail that it appends through is loose. */
  ghost predicate AppendsLoosely<O>(x: S.Index<O>, a: Act<O>) {
    TopicsOf(a.naming) != []
    && (a.owner in x.looseOwners || exists t :: t in TopicsOf(a.naming) && t in x.looseTopics)
  }

  /** The tails that are loose in `y` are those of `x` and those the reply loosens. */
  ghost predicate Loosened<O(!new)>(x: S.Index<O>, a: Act<O>, y: S.Index<O>) {
    && (forall o :: o in y.looseOwners <==> o in x.looseOwners || (o == a.owner && LoosensOwner(x, a)))
    && (forall t :: t in y.looseTopics <==> t in x.looseTopics || LoosensTopic(x, a, t))
  }

  lemma RenameExactly<O(!new)>(x: S.Index<O>, a: Act<O>)
    requires x.outcome == S.Fine
    ensures var y := Rename(x, a.owner, a.naming);
            && (y.outcome == S.Fine <==> !AppendsLoosely(x, a) && !Abandons(x, a))
            && (y.outcome == S.Fine ==> Loosened(x, a, y))
  {
    hide S.HasOwner, S.GivesUpLast, S.OthersHold, S.UseAll, S.Reindex;
    match a.naming
    case Nothing =>
    case Started(ts) => S.UseAllExactly(S.Unmark(x, a.owner), a.owner, ts);
    case All(ts) => S.ReindexExactly(x, a.owner, ts);
  }

  // ----- Whole runs

  ghost predicate OwnerLooseBy<O>(acts: seq<Act<O>>, n: nat, o: O)
    requires n <= |acts|
  {
    exists m: nat :: m < n && OwnerLoosensAt(acts, m, o)
  }

  predicate OwnerLoosensAt<O(==)>(acts: seq<Act<O>>, m: nat, o: O)
    requires m < |acts|
  {
    acts[m].owner == o && LoosensOwner(IndexAfter(acts[..m]), acts[m])
  }

  ghost predicate TopicLooseBy<O>(acts: seq<Act<O>>, n: nat, t: Bytes)
    requires n <= |acts|
  {
    exists m: nat :: m < n && TopicLoosensAt(acts, m, t)
  }

  predicate TopicLoosensAt<O(==)>(acts: seq<Act<O>>, m: nat, t: Bytes)
    requires m < |acts|
  {
    LoosensTopic(IndexAfter(acts[..m]), acts[m], t)
  }

  /** Reply n gives up a topic nobody else holds, or names a topic after its socket gave up all
      it held, or one of which the last subscription was given up. */
  ghost predicate BreaksAt<O>(acts: seq<Act<O>>, n: nat)
    requires n < |acts|
  {
    || Abandons(IndexAfter(acts[..n]), acts[n])
    || (TopicsOf(acts[n].naming) != [] && OwnerLooseBy(acts, n, acts[n].owner))
    || exists t :: t in TopicsOf(acts[n].naming) && TopicLooseBy(acts, n, t)
  }

  ghost predicate Unbroken<O>(acts: seq<Act<O>>, n: nat)
    requires n <= |acts|
  {
    forall k: nat :: k < n ==> !BreaksAt(acts, k)
  }

  /** The loose tails are those that some reply has loosened. */
  ghost predicate LooseKnown<O(!new)>(acts: seq<Act<O>>, n: nat)
    requires n <= |acts|
  {
    var x := IndexAfter(acts[..n]);
    && (forall o :: o in x.looseOwners <==> OwnerLooseBy(acts, n, o))
    && (forall t :: t in x.looseTopics <==> TopicLooseBy(acts, n, t))
  }

  lemma {:induction false} RunUpTo<O(!new)>(acts: seq<Act<O>>, n: nat)
    requires n <= |acts|
    ensures IndexAfter(acts[..n]).outcome == S.Fine <==> Unbroken(acts, n)
    ensures IndexAfter(acts[..n]).outcome == S.Fine ==> LooseKnown(acts, n)
  {
    hide LooseKnown, Unbroken, Rename;
    if n == 0 {
      NothingYet(acts);
    } else {
      var m := n - 1;
      RunUpTo(acts, m);
      UnbrokenMore(acts, m);
      assert acts[..n][..m] == acts[..m];
      var x := IndexAfter(acts[..m]);
      if x.outcome == S.Fine {
        RenameExactly(x, acts[m]);
        BreaksAsLoose(acts, m);
        if IndexAfter(acts[..n]).outcome == S.Fine {
          LooseMore(acts, m);
        }
      } else {
        UndefinedRename(x, acts[m].owner, acts[m].naming);
      }
    }
  }

  lemma NothingYet<O(!new)>(acts: seq<Act<O>>)
    ensures IndexAfter(acts[..0]).outcome == S.Fine && Unbroken(acts, 0) && LooseKnown(acts, 0)
  {
    assert acts[..0] == [];
  }

  lemma UnbrokenMore<O>(acts: seq<Act<O>>, m: nat)
    requires m < |acts|
    ensures Unbroken(acts, m + 1) <==> Unbroken(acts, m) && !BreaksAt(acts, m)
  {
    hide BreaksAt;
  }

  lemma BreaksAsLoose<O(!new)>(acts: seq<Act<O>>, m: nat)
    requires m < |acts| && LooseKnown(acts, m)
    ensures var x := IndexAfter(acts[..m]); BreaksAt(acts, m) <==> AppendsLoosely(x, acts[m]) || Abandons(x, acts[m])
  {
    hide Abandons, OwnerLooseBy, TopicLooseBy, TopicsOf;
  }

  lemma LooseMore<O(!new)>(acts: seq<Act<O>>, m: nat)
    requires m < |acts| && LooseKnown(acts, m)
    requires Loosened(IndexAfter(acts[..m]), acts[m], IndexAfter(acts[..m + 1]))
    ensures LooseKnown(acts, m + 1)
  {
    hide LoosensOwner, LoosensTopic, Rename, OwnerLooseBy, TopicLooseBy;
    var x, y := IndexAfter(acts[..m]), IndexAfter(acts[..m + 1]);
    forall o
      ensures o in y.looseOwners <==> OwnerLooseBy(acts, m + 1, o)
    {
      OwnerLooseMore(acts, m, o);
      assert o in x.looseOwners <==> OwnerLooseBy(acts, m, o);
    }
    forall t
      ensures t in y.looseTopics <==> TopicLooseBy(acts, m + 1, t)
    {
      TopicLooseMore(acts, m, t);
      assert t in x.looseTopics <==> TopicLooseBy(acts, m, t);
    }
  }

  lemma OwnerLooseMore<O>(acts: seq<Act<O>>, m: nat, o: O)
    requires m < |acts|
    ensures OwnerLooseBy(acts, m + 1, o) <==> OwnerLooseBy(acts, m, o) || OwnerLoosensAt(acts, m, o)
  {
    hide OwnerLoosensAt;
    if OwnerLooseBy(acts, m + 1, o) {
      var k: nat :| k < m + 1 && OwnerLoosensAt(acts, k, o);
      assert k == m || k < m;
    }
  }

  lemma TopicLooseMore<O>(acts: seq<Act<O>>, m: nat, t: Bytes)
    requires m < |acts|
    ensures TopicLooseBy(acts, m + 1, t) <==> TopicLooseBy(acts, m, t) || TopicLoosensAt(acts, m, t)
  {
    hide TopicLoosensAt;
    if TopicLooseBy(acts, m + 1, t) {
      var k: nat :| k < m + 1 && TopicLoosensAt(acts, k, t);
      assert k == m || k < m;
    }
  }

  /** Over every run of replies, from whatever sockets, the index stays defined -- if and only if
      no reply gives up a topic that no other socket holds, none names a topic after its own
      socket had given up all it held, and none names a topic of which the last subscription
      had been given up. */
  lemma DefinedExactly<O(!new)>(acts: seq<Act<O>>)
    ensures IndexAfter(acts).outcome == S.Fine <==> Unbroken(acts, |acts|)
  {
    assert acts[..|acts|] == acts;
    RunUpTo(acts, |acts|);
  }

  // ----- Runs of the worker

  /** The replies of a run that are taken. */
  function Acts(id0: nat, deeds: seq<Deed>): seq<Act<nat>>
    requires id0 < TWO31
  {
    if deeds == [] then []
    else
      var n := |deeds| - 1;
      var w, d := WorldOf(id0, deeds[..n]), deeds[n];
      Acts(id0, deeds[..n])
      + if d.event.Replied? && Taker(w, d.event.id).Some? then [Act(Taker(w, d.event.id).value, d.naming)] else []
  }

  lemma {:induction false} IndexOfRun(id0: nat, deeds: seq<Deed>)
    requires id0 < TWO31
    ensures IndexOf(id0, deeds) == IndexAfter(Acts(id0, deeds))
  {
    hide WorldOf, Rename, Taker;
    if deeds != [] {
      var n := |deeds| - 1;
      var w, d := WorldOf(id0, deeds[..n]), deeds[n];
      IndexOfRun(id0, deeds[..n]);
      var front := Acts(id0, deeds[..n]);
      if d.event.Replied? && Taker(w, d.event.id).Some? {
        var a := Act(Taker(w, d.event.id).value, d.naming);
        assert (front + [a])[..|front|] == front;
      } else {
        assert front + [] == front;
      }
    }
  }

  /** So a run of the worker keeps its index defined exactly if its replies do. */
  lemma RunDefined(id0: nat, deeds: seq<Deed>)
    requires id0 < TWO31
    ensures var acts := Acts(id0, deeds); IndexOf(id0, deeds).outcome == S.Fine <==> Unbroken(acts, |acts|)
  {
    IndexOfRun(id0, deeds);
    hide IndexOf, Acts, Unbroken;
    DefinedExactly(Acts(id0, deeds));
  }
}
