/** Which sockets are configured: the worker's list against a simple ordered map from socket
    number to URL, over runs of any events. */
module Registry {
  import opened MsgPack
  import opened Requests
  import opened RequestRuns

  datatype Entry = Entry(no: int, url: Bytes)

  /** What should be configured, in order of configuration: a number keeps its first URL until
      it is closed. */
  type Registered = seq<Entry>

  function FindEntry(reg: Registered, no: int): (k: nat)
    ensures k <= |reg| && (k < |reg| ==> reg[k].no == no)
    ensures forall j :: 0 <= j < k ==> reg[j].no != no
  {
    if reg == [] || reg[0].no == no then 0 else 1 + FindEntry(reg[1..], no)
  }

  function Register(reg: Registered, e: Event): Registered {
    match e
    case Configured(no, url, _, _, _) =>
      if FindEntry(reg, no) < |reg| then reg else reg + [Entry(no, url)]
    case Closed(no) =>
      var k := FindEntry(reg, no);
      if k < |reg| then reg[..k] + reg[k + 1..] else reg
    case _ => reg
  }

  function RegisterAll(events: seq<Event>): Registered {
    if events == [] then []
    else
      var n := |events| - 1;
      Register(RegisterAll(events[..n]), events[n])
  }

  /** What the worker lists after these events. */
  function Entries(peers: seq<Peer>): (r: Registered)
    ensures |r| == |peers| && forall k :: 0 <= k < |r| ==> r[k] == Entry(peers[k].no, peers[k].url)
  {
    seq(|peers|, k requires 0 <= k < |peers| => Entry(peers[k].no, peers[k].url))
  }

  function WorldAfter(id0: nat, events: seq<Event>): World
    requires id0 < TWO31
  {
    if events == [] then Start(id0).world
    else
      var n := |events| - 1;
      Next(Run(WorldAfter(id0, events[..n]), []), events[n]).world
  }

  // ----- When the list's tail comes loose, and what is lost by it

  /** Event n closes the socket that is last on the list. */
  predicate ClosesLast(events: seq<Event>, n: nat)
    requires n < |events|
  {
    var reg := RegisterAll(events[..n]);
    events[n].Closed? && FindEntry(reg, events[n].no) + 1 == |reg|
  }

  /** Event n configures a socket that is not configured. */
  predicate ConfiguresNew(events: seq<Event>, n: nat)
    requires n < |events|
  {
    var reg := RegisterAll(events[..n]);
    events[n].Configured? && FindEntry(reg, events[n].no) == |reg|
  }

  /** A socket is configured for the first time some time after the last one listed was closed. */
  ghost predicate Loses(events: seq<Event>) {
    exists m, n :: 0 <= m < n < |events| && ClosesLast(events, m) && ConfiguresNew(events, n)
  }

  lemma {:induction false} PlayIsWorldAfter(id0: nat, events: seq<Event>)
    requires id0 < TWO31
    ensures Play(Start(id0), events).world == WorldAfter(id0, events)
  {
    if events != [] {
      var n := |events| - 1;
      PlaySplits(Start(id0), events[..n], events[n]);
      assert events == events[..n] + [events[n]];
      PlayIsWorldAfter(id0, events[..n]);
      NotesDoNotMatter(Play(Start(id0), events[..n]), events[n]);
    }
  }

  lemma {:induction false} PlaySplits(r: Run, events: seq<Event>, e: Event)
    ensures Play(r, events + [e]) == Next(Play(r, events), e)
    decreases |events|
  {
    hide Next;
    if events != [] {
      assert (events + [e])[1..] == events[1..] + [e];
      PlaySplits(Next(r, events[0]), events[1..], e);
    } else {
      assert ([] + [e])[1..] == [];
      assert Play(r, [e]) == Play(Next(r, e), [e][1..]);
    }
  }

  lemma NotesDoNotMatter(r: Run, e: Event)
    ensures Next(r, e).world == Next(Run(r.world, []), e).world
  {
    hide Configure, Close, TimersFrom, Reply, Update;
  }

  lemma FindSame(peers: seq<Peer>, no: int)
    ensures FindNo(peers, no) == FindEntry(Entries(peers), no)
  {
    assert forall j :: 0 <= j < |peers| ==> Entries(peers)[j].no == peers[j].no;
  }

  /** One event, from a list that is right: it stays right unless the event adds a socket through
      a loose tail, and the tail comes loose exactly when the last listed socket is closed. */
  lemma EventRegisters(w: World, e: Event)
    ensures var reg, w' := Entries(w.peers), Next(Run(w, []), e).world;
            var added := e.Configured? && FindEntry(reg, e.no) == |reg|;
            && Entries(w'.peers) == (if added && !w.attached then reg else Register(reg, e))
            && (w'.attached <==> w.attached && !(e.Closed? && FindEntry(reg, e.no) + 1 == |reg|))
  {
    hide Configure, Close, TimersFrom, FindNo, FindEntry;
    match e
    case Configured(no, url, id, retry, now) => ConfigureRegisters(w, no, url, id, retry, now);
    case Closed(no) => CloseRegisters(w, no);
    case TimersRan(now, sends) => TimersRegister(w, 0, now, now + MAX_POLL, sends);
    case _ =>
  }

  lemma ConfigureRegisters(w: World, no: int, url: Bytes, id: nat, retry: nat, now: nat)
    ensures var reg, w' := Entries(w.peers), Configure(w, no, url, id, retry, now).world;
            var e := Configured(no, url, id, retry, now);
            && Entries(w'.peers) == (if FindEntry(reg, no) == |reg| && !w.attached then reg else Register(reg, e))
            && w'.attached == w.attached
  {
    FindSame(w.peers, no);
    hide FindNo, FindEntry;
  }

  lemma CloseRegisters(w: World, no: int)
    ensures var reg, w' := Entries(w.peers), Close(w, no);
            && Entries(w'.peers) == Register(reg, Closed(no))
            && (w'.attached <==> w.attached && FindEntry(reg, no) + 1 != |reg|)
  {
    FindSame(w.peers, no);
    hide FindNo, FindEntry, Entries;
    var k := FindNo(w.peers, no);
    if k < |w.peers| {
      EntriesWithout(w.peers, k);
    }
  }

  lemma EntriesWithout(peers: seq<Peer>, k: nat)
    requires k < |peers|
    ensures Entries(peers[..k] + peers[k + 1..]) == Entries(peers)[..k] + Entries(peers)[k + 1..]
  {
    hide Entries;
  }

  lemma {:induction false} TimersRegister(w: World, k: nat, now: nat, wake: nat, sends: nat -> Sending)
    requires k <= |w.peers|
    ensures var w' := TimersFrom(w, k, now, wake, sends).world;
            Entries(w'.peers) == Entries(w.peers) && w'.attached == w.attached
    decreases |w.peers| - k
  {
    if k < |w.peers| {
      var t := TimerTurn(w.peers[k], w.nextId, w.issued, now, wake, sends(w.issued));
      assert Entries(AfterTurn(w, k, t).peers) == Entries(w.peers);
      if t.goOn {
        TimersRegister(AfterTurn(w, k, t), k + 1, now, t.wake, sends);
      }
    }
  }

  /** The list is right after each of the first n events. */
  ghost predicate RightUpTo(id0: nat, events: seq<Event>, n: nat)
    requires id0 < TWO31 && n <= |events|
  {
    forall k :: 0 <= k <= n ==> Right(id0, events[..k])
  }

  ghost predicate Right(id0: nat, events: seq<Event>)
    requires id0 < TWO31
  {
    Entries(WorldAfter(id0, events).peers) == RegisterAll(events)
  }

  lemma StepOf(id0: nat, events: seq<Event>, n: nat)
    requires id0 < TWO31 && n < |events| && Right(id0, events[..n])
    ensures var w, w' := WorldAfter(id0, events[..n]), WorldAfter(id0, events[..n + 1]);
            && (Right(id0, events[..n + 1]) <==> w.attached || !ConfiguresNew(events, n))
            && (w'.attached <==> w.attached && !ClosesLast(events, n))
  {
    var w, e := WorldAfter(id0, events[..n]), events[n];
    assert events[..n + 1][..n] == events[..n];
    hide Next, Register;
    EventRegisters(w, e);
    if ConfiguresNew(events, n) {
      assert Register(RegisterAll(events[..n]), e) == RegisterAll(events[..n]) + [Entry(e.no, e.url)] by {
        RegisterNew(RegisterAll(events[..n]), e);
      }
    }
  }

  lemma RegisterNew(reg: Registered, e: Event)
    requires e.Configured? && FindEntry(reg, e.no) == |reg|
    ensures Register(reg, e) == reg + [Entry(e.no, e.url)]
  {
  }

  /** While the list is right, its tail is loose exactly if the last socket was closed before. */
  lemma {:induction false} LooseSince(id0: nat, events: seq<Event>, n: nat)
    requires id0 < TWO31 && n <= |events| && RightUpTo(id0, events, n)
    ensures WorldAfter(id0, events[..n]).attached <==> !exists m :: 0 <= m < n && ClosesLast(events, m)
  {
    hide WorldAfter, Right, ClosesLast;
    if n > 0 {
      LooseSince(id0, events, n - 1);
      StepOf(id0, events, n - 1);
    } else {
      StartAttached(id0, events);
    }
  }

  lemma StartAttached(id0: nat, events: seq<Event>)
    requires id0 < TWO31
    ensures WorldAfter(id0, events[..0]).attached && Right(id0, events[..0])
  {
    assert events[..0] == [];
  }

  /** At every moment of a run the worker lists exactly the sockets configured and not since
      closed, each once with its first URL -- if and only if no socket is configured anew
      after the last one on the list was closed.  Sockets configured after that go on a
      chain that is not reachable from the list. */
  lemma ListIsRegistry(id0: nat, events: seq<Event>)
    requires id0 < TWO31
    ensures RightUpTo(id0, events, |events|) <==> !Loses(events)
  {
    hide WorldAfter, Right, ClosesLast, ConfiguresNew;
    if RightUpTo(id0, events, |events|) && Loses(events) {
      var m, n :| 0 <= m < n < |events| && ClosesLast(events, m) && ConfiguresNew(events, n);
      assert RightUpTo(id0, events, n);
      LooseSince(id0, events, n);
      assert Right(id0, events[..n + 1]);
      StepOf(id0, events, n);
    }
    if !Loses(events) {
      RightWhileKept(id0, events, |events|);
    }
  }

  lemma {:induction false} RightWhileKept(id0: nat, events: seq<Event>, n: nat)
    requires id0 < TWO31 && n <= |events| && !Loses(events)
    ensures RightUpTo(id0, events, n)
  {
    hide WorldAfter, Right, ClosesLast, ConfiguresNew;
    if n == 0 {
      StartAttached(id0, events);
    } else {
      RightWhileKept(id0, events, n - 1);
      LooseSince(id0, events, n - 1);
      StepOf(id0, events, n - 1);
    }
  }

  /** The shortest such run: configure, close, configure. */
  lemma LostSocket(id0: nat, no: int, url: Bytes, no': int, url': Bytes, id: nat, retry: nat, now: nat)
    requires id0 < TWO31
    ensures var a, b, c := Configured(no, url, id, retry, now), Closed(no), Configured(no', url', id, retry, now);
            && RegisterAll([a, b, c]) == [Entry(no', url')]
            && WorldAfter(id0, [a, b, c]).peers == []
  {
    var a, b, c := Configured(no, url, id, retry, now), Closed(no), Configured(no', url', id, retry, now);
    assert [a, b, c][..2] == [a, b] && [a, b][..1] == [a] && [a][..0] == [];
    assert RegisterAll([a]) == [Entry(no, url)];
    assert RegisterAll([a, b]) == [];
    assert WorldAfter(id0, []) == Start(id0).world;
    var w := WorldAfter(id0, [a]);
    assert |w.peers| == 1 && w.peers[0].no == no;
    var w2 := WorldAfter(id0, [a, b]);
    assert w2.peers == [] && !w2.attached;
  }
}
