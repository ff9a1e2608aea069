/** Who holds the subscriptions: the worker's list and its index together over runs of any
    events, and what is left behind when a socket is closed. */
module Holdings {
  import opened Wrappers
  import opened MsgPack
  import opened Requests
  import opened RequestRuns
  import opened Registry
  import Effects
  import Reply
  import E = Endpoints
  import S = Subscriptions

  /** What the walk of a reply does to the topics of its socket, if no read leaves the buffer. */
  datatype Naming =
    | Nothing                      // it ends before it gets to them
    | Started(topics: seq<Bytes>)  // it is turned down after these
    | All(topics: seq<Bytes>)      // it goes through

  /** An event, and what the reply names if it is one. */
  datatype Deed = Deed(event: Event, naming: Naming)

  function Rename<O(==)>(x: S.Index<O>, s: O, naming: Naming): S.Index<O> {
    match naming
    case Nothing => x
    case Started(ts) => S.UseAll(S.Unmark(x, s), s, ts)
    case All(ts) => S.Reindex(x, s, ts)
  }

  /** What the walk of these bytes names, if it leaves the endpoints with that outcome. */
  function NamingOf(c: Reply.Context, b: Bytes, outcome: E.Outcome): Naming
    requires IsBuffer(b)
  {
    var h := Effects.ShapeOf(c, b);
    if outcome != E.Fine || h.progress.InOptions? || h.progress.InAddresses? then Nothing
    else if h.progress.InTopics? then Started(Effects.Names(h.topics))
    else All(Effects.Names(h.topics))
  }

  /** Every reply that is accepted or turned down is one of the three. */
  lemma WalkNames<O>(x: Effects.Host<O>, s: O, c: Reply.Context, b: Bytes, rcs: nat -> int)
    requires IsBuffer(b) && Effects.Alive(x) && !Reply.ReplyWalk(c, b).stop.Strayed?
    ensures var y := Effects.DoAll(x, s, Reply.ReplyWalk(c, b).steps, rcs);
            y.index == Rename(x.index, s, NamingOf(c, b, y.endpoints.outcome))
  {
    hide Reply.ReplyWalk, Effects.ShapeOf, Effects.DoAll, Effects.Wanteds, Effects.Settings, Effects.Names,
         E.UseAll, E.Settle, E.Unmark, S.UseAll, S.Settle, S.Unmark;
    Effects.WalkHasShape(c, b);
    if Reply.ReplyWalk(c, b).stop.Reached? {
      Effects.Applied(x, s, c, b, rcs);
    } else {
      Effects.TurnedDown(x, s, c, b, rcs);
    }
  }

  // ----- Runs

  function Events(deeds: seq<Deed>): (r: seq<Event>)
    ensures |r| == |deeds| && forall k :: 0 <= k < |r| ==> r[k] == deeds[k].event
  {
    seq(|deeds|, k requires 0 <= k < |deeds| => deeds[k].event)
  }

  function Uids(peers: seq<Peer>): (r: seq<nat>)
    ensures |r| == |peers| && forall k :: 0 <= k < |r| ==> r[k] == peers[k].uid
  {
    seq(|peers|, k requires 0 <= k < |peers| => peers[k].uid)
  }

  function WorldOf(id0: nat, deeds: seq<Deed>): World
    requires id0 < TWO31
  {
    WorldAfter(id0, Events(deeds))
  }

  /** The socket that takes a reply with this id, if any does. */
  function Taker(w: World, id: nat): Option<nat> {
    var k := FindId(w.peers, id);
    if Takes(w.peers, id, k) then Some(w.peers[k].uid) else None
  }

  /** Only a reply that is taken touches the index. */
  function Indexed(w: World, x: S.Index<nat>, d: Deed): S.Index<nat> {
    if d.event.Replied? && Taker(w, d.event.id).Some? then Rename(x, Taker(w, d.event.id).value, d.naming) else x
  }

  const NO_SUBS: S.Index<nat> := S.Index([], [], {}, {}, [], S.Fine)

  function IndexOf(id0: nat, deeds: seq<Deed>): S.Index<nat>
    requires id0 < TWO31
  {
    if deeds == [] then NO_SUBS
    else
      var n := |deeds| - 1;
      Indexed(WorldOf(id0, deeds[..n]), IndexOf(id0, deeds[..n]), deeds[n])
  }

  /** The sockets of which the last reply that got to the topics named some, or that had some
      before a reply that was turned down there. */
  function Holders(id0: nat, deeds: seq<Deed>): set<nat>
    requires id0 < TWO31
  {
    if deeds == [] then {}
    else
      var n := |deeds| - 1;
      HoldersAfter(WorldOf(id0, deeds[..n]), Holders(id0, deeds[..n]), deeds[n])
  }

  function HoldersAfter(w: World, held: set<nat>, d: Deed): set<nat> {
    if !d.event.Replied? || Taker(w, d.event.id).None? then held
    else
      var s := Taker(w, d.event.id).value;
      match d.naming
      case Nothing => held
      case Started(ts) => if ts == [] then held else held + {s}
      case All(ts) => if ts == [] then held - {s} else held + {s}
  }

  /** Every subscription belongs to a listed socket. */
  ghost predicate Owned(w: World, x: S.Index<nat>) {
    forall o :: S.HasOwner(x.subs, o) ==> o in Uids(w.peers)
  }

  /** Deed n closes a socket that has a subscription. */
  predicate ClosesHolder(id0: nat, deeds: seq<Deed>, n: nat)
    requires id0 < TWO31 && n < |deeds|
  {
    var peers := WorldOf(id0, deeds[..n]).peers;
    && deeds[n].event.Closed?
    && FindNo(peers, deeds[n].event.no) < |peers|
    && peers[FindNo(peers, deeds[n].event.no)].uid in Holders(id0, deeds[..n])
  }

  // ----- One close

  /** After a close every subscription belongs to a listed socket if and only if those of all
      other sockets did before and the closed one had none. */
  lemma CloseExactly(w: World, x: S.Index<nat>, no: int)
    requires FindNo(w.peers, no) < |w.peers|
    requires forall j, k :: 0 <= j < k < |w.peers| ==> w.peers[j].uid != w.peers[k].uid
    ensures var u := w.peers[FindNo(w.peers, no)].uid;
            Owned(Close(w, no), x) <==>
            !S.HasOwner(x.subs, u) && forall o :: S.HasOwner(x.subs, o) && o != u ==> o in Uids(w.peers)
  {
    hide S.HasOwner, FindNo, Uids;
    var k := FindNo(w.peers, no);
    UidsWithout(w.peers, k);
    assert Close(w, no).peers == w.peers[..k] + w.peers[k + 1..];
    hide Close;
    var u := w.peers[k].uid;
    if !S.HasOwner(x.subs, u) && forall o :: S.HasOwner(x.subs, o) && o != u ==> o in Uids(w.peers) {
      forall o | S.HasOwner(x.subs, o)
        ensures o in Uids(Close(w, no).peers)
      {
        assert o in Uids(w.peers);
      }
    }
  }

  lemma UidsWithout(peers: seq<Peer>, k: nat)
    requires k < |peers|
    requires forall i, j :: 0 <= i < j < |peers| ==> peers[i].uid != peers[j].uid
    ensures forall o :: o in Uids(peers[..k] + peers[k + 1..]) <==> o in Uids(peers) && o != peers[k].uid
  {
    var rest := peers[..k] + peers[k + 1..];
    forall o | o in Uids(peers) && o != peers[k].uid
      ensures o in Uids(rest)
    {
      var j :| 0 <= j < |peers| && peers[j].uid == o;
      assert rest[if j < k then j else j - 1] == peers[j];
    }
    forall o | o in Uids(rest)
      ensures o in Uids(peers) && o != peers[k].uid
    {
      var j :| 0 <= j < |rest| && rest[j].uid == o;
      assert rest[j] == peers[if j < k then j else j + 1];
    }
  }

  // ----- Who owns what after a reply

  /** A reply changes only its own socket's holding: none is left if it names none, and some
      are there if it names any. */
  lemma RenameOwners<O>(x: S.Index<O>, s: O, naming: Naming, o: O)
    requires x.outcome == S.Fine && Rename(x, s, naming).outcome == S.Fine
    ensures S.HasOwner(Rename(x, s, naming).subs, o) <==>
            if o != s || naming.Nothing? then S.HasOwner(x.subs, o)
            else naming.topics != [] || (naming.Started? && S.HasOwner(x.subs, s))
  {
    hide S.HasOwner, S.UseAll, S.Reindex, S.Kept, S.Marked, S.Added, S.TouchedAll;
    if !naming.Nothing? {
      var ts := naming.topics;
      var marked := S.Marked(x.subs, s, ts);
      OwnersAdded(s, ts, o);
      OwnersMarked(x.subs, s, ts, o);
      S.HasOwnerConcat(marked, S.Added(s, ts), o);
      S.HasOwnerConcat(S.Kept(marked, s), S.Added(s, ts), o);
      if naming.All? {
        S.ReindexExactly(x, s, ts);
      } else {
        S.UseAllExactly(S.Unmark(x, s), s, ts);
        S.MarkTouched(x.subs, s, ts);
      }
    }
  }

  lemma {:induction false} OwnersAdded<O>(s: O, ts: seq<Bytes>, o: O)
    ensures S.HasOwner(S.Added(s, ts), o) <==> o == s && ts != []
  {
    if ts != [] {
      S.AddOne(s, ts);
      OwnersAdded(s, ts[1..], o);
    }
  }

  /** Marking moves no subscription, and a sweep takes the socket's own if none is named. */
  lemma {:induction false} OwnersMarked<O>(subs: seq<S.Sub<O>>, s: O, ts: seq<Bytes>, o: O)
    ensures S.HasOwner(S.Marked(subs, s, ts), o) <==> S.HasOwner(subs, o)
    ensures var left := S.Kept(S.Marked(subs, s, ts), s);
            && (o != s ==> (S.HasOwner(left, o) <==> S.HasOwner(subs, o)))
            && (S.HasOwner(left, s) ==> ts != [])
  {
    if subs != [] {
      OwnersMarked(subs[1..], s, ts, o);
      S.MarkedHead(subs, s, ts);
      var m := S.Marked(subs, s, ts);
      assert m[1..] == S.Marked(subs[1..], s, ts);
      if !S.Dropped(m[0], s) {
        assert S.Kept(m, s)[1..] == S.Kept(m[1..], s);
      }
    }
  }

  lemma UndefinedRename<O>(x: S.Index<O>, s: O, naming: Naming)
    requires x.outcome != S.Fine
    ensures Rename(x, s, naming).outcome != S.Fine
  {
    hide S.Marked;
    match naming
    case Nothing =>
    case Started(ts) => S.UndefinedStays(S.Unmark(x, s), s, ts);
    case All(ts) => S.UndefinedStays(S.Unmark(x, s), s, ts);
  }

  /** The holders are those with a subscription, as long as nothing undefined has happened. */
  lemma {:induction false} HoldersExactly(id0: nat, deeds: seq<Deed>, o: nat)
    requires id0 < TWO31 && IndexOf(id0, deeds).outcome == S.Fine
    ensures S.HasOwner(IndexOf(id0, deeds).subs, o) <==> o in Holders(id0, deeds)
  {
    hide WorldOf, S.HasOwner, Rename, Taker;
    if deeds != [] {
      var n := |deeds| - 1;
      var w, x, d := WorldOf(id0, deeds[..n]), IndexOf(id0, deeds[..n]), deeds[n];
      FineBefore(id0, deeds, n);
      HoldersExactly(id0, deeds[..n], o);
      if d.event.Replied? && Taker(w, d.event.id).Some? {
        RenameOwners(x, Taker(w, d.event.id).value, d.naming, o);
      }
    } else {
      S.NoOwner(o);
    }
  }

  lemma {:induction false} FineBefore(id0: nat, deeds: seq<Deed>, n: nat)
    requires id0 < TWO31 && n <= |deeds| && IndexOf(id0, deeds).outcome == S.Fine
    ensures IndexOf(id0, deeds[..n]).outcome == S.Fine
    decreases |deeds| - n
  {
    hide WorldOf, Rename, Taker;
    if n < |deeds| {
      FineBefore(id0, deeds, n + 1);
      assert deeds[..n + 1][..n] == deeds[..n];
      var w, x, d := WorldOf(id0, deeds[..n]), IndexOf(id0, deeds[..n]), deeds[n];
      if d.event.Replied? && Taker(w, d.event.id).Some? && x.outcome != S.Fine {
        UndefinedRename(x, Taker(w, d.event.id).value, d.naming);
      }
    } else {
      assert deeds[..n] == deeds;
    }
  }

  // ----- Who is listed after an event

  lemma EventLists(w: World, e: Event, o: nat)
    requires forall j, k :: 0 <= j < k < |w.peers| ==> w.peers[j].uid != w.peers[k].uid
    ensures var w', closes := Next(Run(w, []), e).world, e.Closed? && FindNo(w.peers, e.no) < |w.peers|;
            && (closes ==>
                  && w' == Close(w, e.no)
                  && (o in Uids(w'.peers) <==> o in Uids(w.peers) && o != w.peers[FindNo(w.peers, e.no)].uid))
            && (!closes && o in Uids(w.peers) ==> o in Uids(w'.peers))
            && (o < w.born && o in Uids(w'.peers) ==> o in Uids(w.peers))
            && w.born <= w'.born
  {
    hide FindNo, TimersFrom, Configure, Requests.Reply, Uids;
    match e
    case Configured(no, url, id, retry, now) => ConfigureLists(w, no, url, id, retry, now);
    case Closed(no) =>
      if FindNo(w.peers, no) < |w.peers| {
        UidsWithout(w.peers, FindNo(w.peers, no));
      }
    case TimersRan(now, sends) => TimersList(w, 0, now, now + MAX_POLL, sends);
    case Replied(id, ok, now) => ReplyLists(w, id, ok, now);
    case Updated(uids) => assert Uids(Restarted(w.peers, uids)) == Uids(w.peers);
  }

  lemma ConfigureLists(w: World, no: int, url: Bytes, id: nat, retry: nat, now: nat)
    ensures var w' := Configure(w, no, url, id, retry, now).world;
            && w.born <= w'.born
            && (Uids(w'.peers) == Uids(w.peers) || Uids(w'.peers) == Uids(w.peers) + [w.born])
  {
    hide FindNo;
  }

  lemma ReplyLists(w: World, id: nat, ok: bool, now: nat)
    ensures var w' := Requests.Reply(w, id, ok, now).world; Uids(w'.peers) == Uids(w.peers) && w'.born == w.born
  {
    hide FindId;
  }

  lemma {:induction false} TimersList(w: World, k: nat, now: nat, wake: nat, sends: nat -> Sending)
    requires k <= |w.peers|
    ensures var w' := TimersFrom(w, k, now, wake, sends).world; Uids(w'.peers) == Uids(w.peers) && w'.born == w.born
    decreases |w.peers| - k
  {
    if k < |w.peers| {
      var t := TimerTurn(w.peers[k], w.nextId, w.issued, now, wake, sends(w.issued));
      assert Uids(AfterTurn(w, k, t).peers) == Uids(w.peers);
      if t.goOn {
        TimersList(AfterTurn(w, k, t), k + 1, now, t.wake, sends);
      }
    }
  }

  // ----- Whole runs

  lemma WorldNext(id0: nat, deeds: seq<Deed>, n: nat)
    requires id0 < TWO31 && n < |deeds|
    ensures WorldOf(id0, deeds[..n + 1]) == Next(Run(WorldOf(id0, deeds[..n]), []), deeds[n].event).world
    ensures var peers := WorldOf(id0, deeds[..n]).peers;
            && (forall j, k :: 0 <= j < k < |peers| ==> peers[j].uid != peers[k].uid)
            && forall k :: 0 <= k < |peers| ==> peers[k].uid < WorldOf(id0, deeds[..n]).born
  {
    var events := Events(deeds[..n]);
    assert Events(deeds[..n + 1])[..n] == events;
    StartGood(id0);
    PlayGood(Start(id0), id0, events);
    PlayIsWorldAfter(id0, events);
    hide Next, Play;
  }

  lemma IndexNext(id0: nat, deeds: seq<Deed>, n: nat)
    requires id0 < TWO31 && n < |deeds|
    ensures IndexOf(id0, deeds[..n + 1]) == Indexed(WorldOf(id0, deeds[..n]), IndexOf(id0, deeds[..n]), deeds[n])
  {
    hide WorldOf, Indexed;
    assert deeds[..n + 1][..n] == deeds[..n];
  }

  ghost predicate OwnedAfter(id0: nat, deeds: seq<Deed>, n: nat)
    requires id0 < TWO31 && n <= |deeds|
  {
    Owned(WorldOf(id0, deeds[..n]), IndexOf(id0, deeds[..n]))
  }

  lemma DeedOwned(id0: nat, deeds: seq<Deed>, n: nat)
    requires id0 < TWO31 && n < |deeds| && IndexOf(id0, deeds).outcome == S.Fine
    requires OwnedAfter(id0, deeds, n)
    ensures OwnedAfter(id0, deeds, n + 1) <==> !ClosesHolder(id0, deeds, n)
  {
    var w, x, d := WorldOf(id0, deeds[..n]), IndexOf(id0, deeds[..n]), deeds[n];
    FineBefore(id0, deeds, n);
    FineBefore(id0, deeds, n + 1);
    WorldNext(id0, deeds, n);
    IndexNext(id0, deeds, n);
    hide WorldOf, IndexOf, S.HasOwner, Rename, FindNo, FindId, Next, Uids;
    if d.event.Closed? && FindNo(w.peers, d.event.no) < |w.peers| {
      var u := w.peers[FindNo(w.peers, d.event.no)].uid;
      EventLists(w, d.event, u);
      HoldersExactly(id0, deeds[..n], u);
      CloseExactly(w, x, d.event.no);
    } else {
      forall o | S.HasOwner(Indexed(w, x, d).subs, o)
        ensures o in Uids(WorldOf(id0, deeds[..n + 1]).peers)
      {
        EventLists(w, d.event, o);
        if d.event.Replied? && Taker(w, d.event.id).Some? {
          RenameOwners(x, Taker(w, d.event.id).value, d.naming, o);
          TakerListed(w, d.event.id);
        }
      }
    }
  }

  lemma TakerListed(w: World, id: nat)
    ensures Taker(w, id).Some? ==> Taker(w, id).value in Uids(w.peers)
  {
    hide FindId;
    if Taker(w, id).Some? {
      assert Uids(w.peers)[FindId(w.peers, id)] == Taker(w, id).value;
    }
  }

  lemma NothingOwned(id0: nat, deeds: seq<Deed>)
    requires id0 < TWO31
    ensures OwnedAfter(id0, deeds, 0)
  {
    assert deeds[..0] == [];
  }

  /** The index is in order at every moment of every run, as long as nothing in it is undefined. */
  lemma {:induction false} RunConsistent(id0: nat, deeds: seq<Deed>)
    requires id0 < TWO31 && IndexOf(id0, deeds).outcome == S.Fine
    ensures S.Consistent(IndexOf(id0, deeds))
  {
    hide WorldOf, S.HasTopic, Rename, Taker;
    if deeds != [] {
      var n := |deeds| - 1;
      var w, x, d := WorldOf(id0, deeds[..n]), IndexOf(id0, deeds[..n]), deeds[n];
      FineBefore(id0, deeds, n);
      RunConsistent(id0, deeds[..n]);
      hide S.Consistent;
      if d.event.Replied? && Taker(w, d.event.id).Some? {
        RenameConsistent(x, Taker(w, d.event.id).value, d.naming);
      }
    } else {
      NothingHeld();
    }
  }

  lemma NothingHeld()
    ensures S.Consistent(NO_SUBS)
  {
  }

  lemma RenameConsistent<O>(x: S.Index<O>, s: O, naming: Naming)
    requires S.Consistent(x) && Rename(x, s, naming).outcome == S.Fine
    ensures S.Consistent(Rename(x, s, naming))
  {
    hide S.Consistent, S.Reindex, S.UseAll, S.Unmark;
    match naming
    case Nothing =>
    case Started(ts) =>
      S.UnmarkConsistent(x, s);
      S.UseAllConsistent(S.Unmark(x, s), s, ts);
    case All(ts) => S.ReindexConsistent(x, s, ts);
  }

  /** At every moment of a run every subscription belongs to a listed socket -- if and only if
      no socket is closed of which the last reply that got so far named a topic. */
  lemma {:induction false} OwnedExactly(id0: nat, deeds: seq<Deed>)
    requires id0 < TWO31 && IndexOf(id0, deeds).outcome == S.Fine
    ensures (forall n :: 0 <= n <= |deeds| ==> OwnedAfter(id0, deeds, n)) <==>
            (forall n :: 0 <= n < |deeds| ==> !ClosesHolder(id0, deeds, n))
  {
    hide OwnedAfter, ClosesHolder, IndexOf;
    NothingOwned(id0, deeds);
    if forall n :: 0 <= n <= |deeds| ==> OwnedAfter(id0, deeds, n) {
      forall n | 0 <= n < |deeds|
        ensures !ClosesHolder(id0, deeds, n)
      {
        DeedOwned(id0, deeds, n);
      }
    }
    if forall n :: 0 <= n < |deeds| ==> !ClosesHolder(id0, deeds, n) {
      OwnedUpTo(id0, deeds, |deeds|);
    }
  }

  lemma {:induction false} OwnedUpTo(id0: nat, deeds: seq<Deed>, n: nat)
    requires id0 < TWO31 && n <= |deeds| && IndexOf(id0, deeds).outcome == S.Fine
    requires forall m :: 0 <= m < n ==> !ClosesHolder(id0, deeds, m)
    ensures forall m :: 0 <= m <= n ==> OwnedAfter(id0, deeds, m)
  {
    hide OwnedAfter, ClosesHolder, IndexOf;
    NothingOwned(id0, deeds);
    if n > 0 {
      OwnedUpTo(id0, deeds, n - 1);
      DeedOwned(id0, deeds, n - 1);
    }
  }

  /** The shortest such run: configure, ask, a reply with a topic, close. */
  lemma CloseLeaves(id0: nat, no: int, url: Bytes, id: nat, now: nat, topic: Bytes)
    requires id0 < TWO31
    ensures var deeds := [Deed(Configured(no, url, id, now, now), Nothing),
                          Deed(TimersRan(now, _ => Accepted), Nothing),
                          Deed(Replied(id0, true, now), All([topic])), Deed(Closed(no), Nothing)];
            && IndexOf(id0, deeds).outcome == S.Fine && WorldOf(id0, deeds).peers == []
            && IndexOf(id0, deeds).subs == [S.Sub(0, topic, true)]
            && !Owned(WorldOf(id0, deeds), IndexOf(id0, deeds))
  {
    var deeds := [Deed(Configured(no, url, id, now, now), Nothing), Deed(TimersRan(now, _ => Accepted), Nothing),
                  Deed(Replied(id0, true, now), All([topic])), Deed(Closed(no), Nothing)];
    FourWorlds(id0, deeds, no, url, id, now);
    FourIndices(id0, deeds, topic);
    assert deeds[..4] == deeds;
    var subs := IndexOf(id0, deeds).subs;
    assert subs[0].owner == 0;
    assert S.HasOwner(subs, 0);
  }

  lemma FourWorlds(id0: nat, deeds: seq<Deed>, no: int, url: Bytes, id: nat, now: nat)
    requires id0 < TWO31 && |deeds| == 4 && deeds[0].event == Configured(no, url, id, now, now)
    requires deeds[1].event == TimersRan(now, _ => Accepted) && deeds[2].event == Replied(id0, true, now)
    requires deeds[3].event == Closed(no)
    ensures Taker(WorldOf(id0, deeds[..2]), id0) == Some(0)
    ensures WorldOf(id0, deeds[..4]).peers == []
  {
    assert deeds[..0] == [] && Events([]) == [];
    WorldNext(id0, deeds, 0);
    WorldNext(id0, deeds, 1);
    WorldNext(id0, deeds, 2);
    WorldNext(id0, deeds, 3);
    assert WorldOf(id0, deeds[..0]) == World([], true, id0, 0, 0);
    hide WorldOf;
    assert WorldOf(id0, deeds[..1]) == World([Peer(no, url, Starting, id, now, 0, None, now)], true, id0, 0, 1);
    hide Configure, Close, TimersFrom, Requests.Reply;
    OneAsks(WorldOf(id0, deeds[..1]), now);
    OneSleeps(WorldOf(id0, deeds[..2]), id0, now);
    OneLeaves(WorldOf(id0, deeds[..3]), no);
  }

  lemma OneAsks(w: World, now: nat)
    requires |w.peers| == 1 && w.peers[0].phase == Starting
    ensures var w' := Next(Run(w, []), TimersRan(now, _ => Accepted)).world;
            && |w'.peers| == 1 && w'.peers[0].phase == RequestSent && w'.peers[0].requestId == w.nextId
            && w'.peers[0].uid == w.peers[0].uid && w'.peers[0].no == w.peers[0].no
  {
    var t := TimerTurn(w.peers[0], w.nextId, w.issued, now, now + MAX_POLL, Accepted);
    assert TimersFrom(AfterTurn(w, 0, t), 1, now, t.wake, _ => Accepted).world == AfterTurn(w, 0, t);
  }

  lemma OneSleeps(w: World, id: nat, now: nat)
    requires |w.peers| == 1
    ensures var w' := Next(Run(w, []), Replied(id, true, now)).world; |w'.peers| == 1 && w'.peers[0].no == w.peers[0].no
  {
  }

  lemma OneLeaves(w: World, no: int)
    requires |w.peers| == 1 && w.peers[0].no == no
    ensures Next(Run(w, []), Closed(no)).world.peers == []
  {
  }

  lemma FourIndices(id0: nat, deeds: seq<Deed>, topic: Bytes)
    requires id0 < TWO31 && |deeds| == 4 && !deeds[0].event.Replied? && !deeds[1].event.Replied?
    requires deeds[2].event.Replied? && Taker(WorldOf(id0, deeds[..2]), deeds[2].event.id) == Some(0)
    requires deeds[2].naming == All([topic]) && !deeds[3].event.Replied?
    ensures IndexOf(id0, deeds[..4]).outcome == S.Fine && IndexOf(id0, deeds[..4]).subs == [S.Sub(0, topic, true)]
  {
    assert deeds[..0] == [];
    IndexNext(id0, deeds, 0);
    IndexNext(id0, deeds, 1);
    IndexNext(id0, deeds, 2);
    IndexNext(id0, deeds, 3);
    S.ReindexExactly(NO_SUBS, 0, [topic]);
    hide IndexOf, WorldOf, S.Reindex, Taker;
    assert S.Kept(S.Marked(NO_SUBS.subs, 0, [topic]), 0) == [];
  }

  // ----- Left for good

  lemma {:induction false} CountOther<O>(subs: seq<S.Sub<O>>, s: O, ts: seq<Bytes>, o: O, t: Bytes)
    requires o != s
    ensures S.Count(S.Marked(subs, s, ts), o, t) == S.Count(subs, o, t)
    ensures S.Count(S.Kept(S.Marked(subs, s, ts), s), o, t) == S.Count(subs, o, t)
  {
    if subs != [] {
      CountOther(subs[1..], s, ts, o, t);
      S.MarkedHead(subs, s, ts);
      var m := S.Marked(subs, s, ts);
      assert m[1..] == S.Marked(subs[1..], s, ts);
      if !S.Dropped(m[0], s) {
        assert S.Kept(m, s)[1..] == S.Kept(m[1..], s);
      }
    }
  }

  lemma {:induction false} NoneAdded<O>(s: O, ts: seq<Bytes>, o: O, t: Bytes)
    requires o != s
    ensures S.Count(S.Added(s, ts), o, t) == 0
  {
    if ts != [] {
      S.AddOne(s, ts);
      NoneAdded(s, ts[1..], o, t);
    }
  }

  lemma RenameCounts<O>(x: S.Index<O>, s: O, naming: Naming, o: O, t: Bytes)
    requires o != s && x.outcome == S.Fine && Rename(x, s, naming).outcome == S.Fine
    ensures S.Count(Rename(x, s, naming).subs, o, t) == S.Count(x.subs, o, t)
  {
    hide S.Count, S.UseAll, S.Reindex, S.Kept, S.Marked, S.Added, S.TouchedAll;
    if !naming.Nothing? {
      var ts := naming.topics;
      var marked := S.Marked(x.subs, s, ts);
      NoneAdded(s, ts, o, t);
      CountOther(x.subs, s, ts, o, t);
      S.CountConcat(marked, S.Added(s, ts), o, t);
      S.CountConcat(S.Kept(marked, s), S.Added(s, ts), o, t);
      if naming.All? {
        S.ReindexExactly(x, s, ts);
      } else {
        S.UseAllExactly(S.Unmark(x, s), s, ts);
        S.MarkTouched(x.subs, s, ts);
      }
    }
  }

  /** The subscriptions of a socket that is not listed any more stay as they are, whatever
      happens. */
  lemma {:induction false} LeftForGood(id0: nat, deeds: seq<Deed>, m: nat, o: nat, t: Bytes)
    requires id0 < TWO31 && m <= |deeds| && IndexOf(id0, deeds).outcome == S.Fine
    requires o < WorldOf(id0, deeds[..m]).born && o !in Uids(WorldOf(id0, deeds[..m]).peers)
    ensures S.Count(IndexOf(id0, deeds).subs, o, t) == S.Count(IndexOf(id0, deeds[..m]).subs, o, t)
    decreases |deeds| - m
  {
    hide WorldOf, IndexOf, S.Count, Rename, Next, Uids, Taker;
    if m == |deeds| {
      assert deeds[..m] == deeds;
    } else {
      var w, x, d := WorldOf(id0, deeds[..m]), IndexOf(id0, deeds[..m]), deeds[m];
      FineBefore(id0, deeds, m);
      FineBefore(id0, deeds, m + 1);
      WorldNext(id0, deeds, m);
      IndexNext(id0, deeds, m);
      EventLists(w, d.event, o);
      if d.event.Replied? && Taker(w, d.event.id).Some? {
        TakerListed(w, d.event.id);
        RenameCounts(x, Taker(w, d.event.id).value, d.naming, o, t);
      }
      LeftForGood(id0, deeds, m + 1, o, t);
    }
  }
}
