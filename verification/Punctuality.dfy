/** When the worker asks again, to the millisecond: after a reply, after a request socket that was
    busy, after a request that got no answer, and after a command or an update. */
module Punctuality {
  import opened Wrappers
  import opened MsgPack
  import opened Requests
  import opened RequestRuns

  // ----- What a pass does for one socket

  /** A request of this socket was handed to the request socket, whatever became of it. */
  predicate IsTry(n: Note, uid: nat) {
    n.uid == uid && (n.Sent? || n.Deferred? || n.Cut?)
  }

  ghost predicate TriedIn(notes: seq<Note>, uid: nat) {
    exists k :: 0 <= k < |notes| && IsTry(notes[k], uid)
  }

  ghost predicate Silent(notes: seq<Note>, uid: nat) {
    forall k :: 0 <= k < |notes| ==> notes[k].uid != uid
  }

  /** The notes about a socket say how its request was sent and until when it waits. */
  ghost predicate Accounts(p: Peer, notes: seq<Note>, now: nat, sends: nat -> Sending) {
    forall k :: 0 <= k < |notes| && notes[k].uid == p.uid ==> AccountsFor(p, notes[k], now, sends)
  }

  predicate AccountsFor(p: Peer, n: Note, now: nat, sends: nat -> Sending) {
    match n
    case Sent(_, i) => sends(i) == Accepted && p.phase == RequestSent && p.retryTime == now + 1000 && p.issue == Some(i)
    case Deferred(_, i) => sends(i) == Busy && p.phase == Sleeping && p.retryTime == now + 100 && p.issue == Some(i)
    case Cut(_, i) => sends(i) == Interrupted && p.phase == Starting && p.issue == Some(i)
    case _ => true
  }

  predicate Due(p: Peer, now: nat) {
    p.phase == Starting || p.retryTime <= now
  }

  ghost predicate OwnUids(peers: seq<Peer>) {
    forall j, k :: 0 <= j < k < |peers| ==> peers[j].uid != peers[k].uid
  }

  lemma NotesJoin(p: Peer, a: seq<Note>, b: seq<Note>, now: nat, sends: nat -> Sending)
    ensures TriedIn(a, p.uid) || TriedIn(b, p.uid) ==> TriedIn(a + b, p.uid)
    ensures Silent(a, p.uid) && Silent(b, p.uid) ==> Silent(a + b, p.uid)
    ensures Accounts(p, a, now, sends) && Accounts(p, b, now, sends) ==> Accounts(p, a + b, now, sends)
    ensures Silent(b, p.uid) ==> Accounts(p, b, now, sends)
  {
    hide IsTry, AccountsFor;
    var all := a + b;
    if TriedIn(a, p.uid) {
      var k :| 0 <= k < |a| && IsTry(a[k], p.uid);
      assert IsTry(all[k], p.uid);
    }
    if TriedIn(b, p.uid) {
      var k :| 0 <= k < |b| && IsTry(b[k], p.uid);
      assert all[|a| + k] == b[k];
    }
  }

  /** What a pass, or the part of it that is left, is for a socket: nothing if it is past its turn or
      not due, a try if it is and the pass is not cut short, and a state that its notes tell. */
  ghost predicate Passes(p: Peer, q: Peer, ahead: bool, now: nat, sends: nat -> Sending, notes: seq<Note>,
                         complete: bool)
  {
    && q.uid == p.uid && q.no == p.no
    && (!ahead || !Due(p, now) ==> q == p && Silent(notes, p.uid))
    && (ahead && Due(p, now) && complete ==> TriedIn(notes, p.uid))
    && (ahead ==> Accounts(q, notes, now, sends))
  }

  lemma TurnFor(p: Peer, nextId: nat, issued: nat, now: nat, wake: nat, sends: nat -> Sending)
    ensures var t := TimerTurn(p, nextId, issued, now, wake, sends(issued));
            && (forall k :: 0 <= k < |t.notes| ==> t.notes[k].uid == p.uid)
            && Passes(p, t.peer, true, now, sends, t.notes, true)
  {
    var t := TimerTurn(p, nextId, issued, now, wake, sends(issued));
    if Due(p, now) {
      assert IsTry(t.notes[|t.notes| - 1], p.uid);
    }
  }

  lemma OwnTurn(p: Peer, q: Peer, now: nat, sends: nat -> Sending, a: seq<Note>, b: seq<Note>, complete: bool)
    requires Passes(p, q, true, now, sends, a, true) && Silent(b, p.uid)
    ensures Passes(p, q, true, now, sends, a + b, complete)
  {
    NotesJoin(q, a, b, now, sends);
    hide Accounts, TriedIn, Silent, Due;
  }

  lemma OtherTurn(p: Peer, q: Peer, ahead: bool, now: nat, sends: nat -> Sending, a: seq<Note>, b: seq<Note>,
                  complete: bool)
    requires Silent(a, p.uid) && Passes(p, q, ahead, now, sends, b, complete)
    ensures Passes(p, q, ahead, now, sends, a + b, complete)
  {
    NotesJoin(q, a, b, now, sends);
    NotesJoin(q, a, [], now, sends);
    SilentAccounts(q, a, now, sends);
    hide Accounts, TriedIn, Silent, Due;
  }

  lemma SilentAccounts(p: Peer, notes: seq<Note>, now: nat, sends: nat -> Sending)
    requires Silent(notes, p.uid)
    ensures Accounts(p, notes, now, sends)
  {
    hide AccountsFor;
  }

  /** A turn that ends the pass, and the socket in place j. */
  lemma LastTurn(p: Peer, k: nat, j: nat, now: nat, sends: nat -> Sending, notes: seq<Note>)
    requires j != k && Silent(notes, p.uid)
    ensures Passes(p, p, j >= k, now, sends, notes, false)
  {
    SilentAccounts(p, notes, now, sends);
    hide Accounts, TriedIn, Silent, Due;
  }

  lemma ElsewhereSilent(peers: seq<Peer>, k: nat, j: nat, notes: seq<Note>)
    requires k < |peers| && j < |peers| && j != k && OwnUids(peers)
    requires forall i :: 0 <= i < |notes| ==> notes[i].uid == peers[k].uid
    ensures Silent(notes, peers[j].uid)
  {
    assert peers[j].uid != peers[k].uid;
  }

  lemma StillOwn(peers: seq<Peer>, k: nat, p: Peer)
    requires k < |peers| && OwnUids(peers) && p.uid == peers[k].uid
    ensures OwnUids(peers[k := p])
  {
    var all := peers[k := p];
    forall i, j | 0 <= i < j < |all|
      ensures all[i].uid != all[j].uid
    {
      assert peers[i].uid != peers[j].uid;
    }
  }

  /** From socket k on, for the socket in place j: left alone if it is not due, tried if it is and
      the pass is not cut short, and in the state that its notes tell. */
  lemma {:induction false} PassFor(w: World, k: nat, now: nat, wake: nat, sends: nat -> Sending, j: nat)
    requires k <= |w.peers| && j < |w.peers| && OwnUids(w.peers)
    ensures var pass := TimersFrom(w, k, now, wake, sends);
            Passes(w.peers[j], pass.world.peers[j], j >= k, now, sends, pass.notes, pass.complete)
    decreases |w.peers| - k
  {
    hide Passes, OwnUids, Silent, TimerTurn, Due;
    if k == |w.peers| {
      NothingLeft(w.peers[j], now, sends);
    } else {
      var t := TimerTurn(w.peers[k], w.nextId, w.issued, now, wake, sends(w.issued));
      TurnFor(w.peers[k], w.nextId, w.issued, now, wake, sends);
      if j != k {
        ElsewhereSilent(w.peers, k, j, t.notes);
      }
      var w' := AfterTurn(w, k, t);
      if t.goOn {
        StillOwn(w.peers, k, t.peer);
        PassFor(w', k + 1, now, t.wake, sends, j);
        var rest := TimersFrom(w', k + 1, now, t.wake, sends);
        if j == k {
          BehindIt(t.peer, rest.world.peers[j], now, sends, rest.notes, rest.complete);
          OwnTurn(w.peers[k], t.peer, now, sends, t.notes, rest.notes, rest.complete);
        } else {
          OtherTurn(w.peers[j], rest.world.peers[j], j > k, now, sends, t.notes, rest.notes, rest.complete);
        }
      } else if j != k {
        LastTurn(w.peers[j], k, j, now, sends, t.notes);
      } else {
        CutTurn(w.peers[k], t.peer, now, sends, t.notes);
      }
    }
  }

  lemma NothingLeft(p: Peer, now: nat, sends: nat -> Sending)
    ensures Passes(p, p, false, now, sends, [], true)
  {
  }

  lemma BehindIt(p: Peer, q: Peer, now: nat, sends: nat -> Sending, notes: seq<Note>, complete: bool)
    requires Passes(p, q, false, now, sends, notes, complete)
    ensures q == p && Silent(notes, p.uid)
  {
  }

  lemma CutTurn(p: Peer, q: Peer, now: nat, sends: nat -> Sending, notes: seq<Note>)
    requires Passes(p, q, true, now, sends, notes, true)
    ensures Passes(p, q, true, now, sends, notes, false)
  {
  }

  // ----- What leaves a socket alone

  /** The event does not concern this socket in the state it is in. */
  predicate Leaves(e: Event, p: Peer) {
    match e
    case Configured(no, _, _, _, _) => no != p.no
    case Closed(no) => no != p.no
    case Updated(uids) => p.uid !in uids
    case TimersRan(now, _) => !Due(p, now)
    case Replied(id, _, _) => p.phase != RequestSent || id != p.requestId
  }

  /** `after` is `before` and notes about other sockets. */
  ghost predicate NoWord(before: seq<Note>, after: seq<Note>, uid: nat) {
    before <= after && Silent(after[|before|..], uid)
  }

  lemma GoodUids(r: Run, id0: nat)
    requires Good(r, id0)
    ensures OwnUids(r.world.peers)
    ensures forall k :: 0 <= k < |r.world.peers| ==> r.world.peers[k].uid < r.world.born
  {
    hide IdOf, Recorded, History;
    forall j, k | 0 <= j < k < |r.world.peers|
      ensures r.world.peers[j].uid != r.world.peers[k].uid
    {
      assert Separate(r.world.peers[j], r.world.peers[k]);
    }
    forall k | 0 <= k < |r.world.peers|
      ensures r.world.peers[k].uid < r.world.born
    {
      assert Sound(r.world, id0, r.world.peers[k]);
    }
  }

  lemma NoneBut(notes: seq<Note>, more: seq<Note>, uid: nat)
    requires Silent(more, uid)
    ensures NoWord(notes, notes + more, uid)
  {
    assert (notes + more)[|notes|..] == more;
  }

  lemma EventLeaves(r: Run, id0: nat, e: Event, p: Peer)
    requires Good(r, id0) && p in r.world.peers && Leaves(e, p)
    ensures p in Next(r, e).world.peers && NoWord(r.notes, Next(r, e).notes, p.uid)
  {
    GoodUids(r, id0);
    hide Good, NoWord;
    var j :| 0 <= j < |r.world.peers| && r.world.peers[j] == p;
    match e
    case Configured(no, url, id, retry, now) =>
      ConfigureLeaves(r.world, no, url, id, retry, now, j);
      NoneBut(r.notes, Configure(r.world, no, url, id, retry, now).notes, p.uid);
    case Closed(no) =>
      CloseLeaves(r.world, no, j);
      assert r.notes + [] == r.notes;
      NoneBut(r.notes, [], p.uid);
    case TimersRan(now, sends) =>
      PassFor(r.world, 0, now, now + MAX_POLL, sends, j);
      NoneBut(r.notes, Timers(r.world, now, sends).notes, p.uid);
    case Replied(id, ok, now) =>
      ReplyLeaves(r.world, id, ok, now, j);
      NoneBut(r.notes, Requests.Reply(r.world, id, ok, now).notes, p.uid);
    case Updated(uids) =>
      UpdateLeaves(r.world, uids, j);
      NoneBut(r.notes, Update(r.world, uids).notes, p.uid);
  }

  lemma ConfigureLeaves(w: World, no: int, url: Bytes, id: nat, retry: nat, now: nat, j: nat)
    requires j < |w.peers| && no != w.peers[j].no && w.peers[j].uid < w.born && OwnUids(w.peers)
    ensures var s := Configure(w, no, url, id, retry, now);
            w.peers[j] in s.world.peers && Silent(s.notes, w.peers[j].uid)
  {
    hide FindNo;
    var s := Configure(w, no, url, id, retry, now);
    assert s.world.peers[j] == w.peers[j];
    var k := FindNo(w.peers, no);
    assert k < |w.peers| && j != k ==> w.peers[j].uid != w.peers[k].uid;
  }

  lemma CloseLeaves(w: World, no: int, j: nat)
    requires j < |w.peers| && no != w.peers[j].no
    ensures w.peers[j] in Close(w, no).peers
  {
    hide FindNo;
    var k := FindNo(w.peers, no);
    if k < |w.peers| {
      assert Close(w, no).peers[if j < k then j else j - 1] == w.peers[j];
    }
  }

  lemma ReplyLeaves(w: World, id: nat, ok: bool, now: nat, j: nat)
    requires j < |w.peers| && OwnUids(w.peers)
    requires w.peers[j].phase != RequestSent || id != w.peers[j].requestId
    ensures var s := Requests.Reply(w, id, ok, now);
            w.peers[j] in s.world.peers && Silent(s.notes, w.peers[j].uid)
  {
    hide FindId;
    var k := FindId(w.peers, id);
    var s := Requests.Reply(w, id, ok, now);
    assert s.world.peers[j] == w.peers[j];
    assert k < |w.peers| && j != k ==> w.peers[j].uid != w.peers[k].uid;
  }

  lemma UpdateLeaves(w: World, uids: set<nat>, j: nat)
    requires j < |w.peers| && w.peers[j].uid !in uids
    ensures w.peers[j] in Update(w, uids).world.peers && Silent(Update(w, uids).notes, w.peers[j].uid)
  {
    assert Restarted(w.peers, uids)[j] == w.peers[j];
    ResetsNamed(w.peers, uids);
  }

  lemma {:induction false} ResetsNamed(peers: seq<Peer>, uids: set<nat>)
    ensures forall k :: 0 <= k < |Resets(peers, uids)| ==> Resets(peers, uids)[k].uid in uids
  {
    if peers != [] {
      ResetsNamed(peers[1..], uids);
    }
  }

  lemma {:induction false} EventsLeave(r: Run, id0: nat, events: seq<Event>, p: Peer)
    requires Good(r, id0) && p in r.world.peers && forall k :: 0 <= k < |events| ==> Leaves(events[k], p)
    ensures p in Play(r, events).world.peers && NoWord(r.notes, Play(r, events).notes, p.uid)
    ensures Good(Play(r, events), id0)
    decreases |events|
  {
    hide Good, Next, Leaves, NoWord;
    if events == [] {
      assert r.notes + [] == r.notes;
      NoneBut(r.notes, [], p.uid);
    } else {
      EventLeaves(r, id0, events[0], p);
      NextGood(r, id0, events[0]);
      EventsLeave(Next(r, events[0]), id0, events[1..], p);
      NoWordTwice(r.notes, Next(r, events[0]).notes, Play(r, events).notes, p.uid);
    }
  }

  lemma NoWordTwice(a: seq<Note>, b: seq<Note>, c: seq<Note>, uid: nat)
    requires NoWord(a, b, uid) && NoWord(b, c, uid)
    ensures NoWord(a, c, uid)
  {
    assert c[|a|..] == b[|a|..] + c[|b|..];
  }

  // ----- When it asks again

  /** After events that leave it alone: no pass tries it before it is due, and each that is not
      cut short does from then on. */
  lemma TriedWhenDue(r: Run, id0: nat, events: seq<Event>, p: Peer, now: nat, sends: nat -> Sending)
    requires Good(r, id0) && p in r.world.peers && forall k :: 0 <= k < |events| ==> Leaves(events[k], p)
    ensures var r' := Play(r, events);
            var pass := Timers(r'.world, now, sends);
            && NoWord(r.notes, r'.notes, p.uid)
            && (!Due(p, now) ==> Silent(pass.notes, p.uid))
            && (Due(p, now) && pass.complete ==> TriedIn(pass.notes, p.uid))
  {
    hide Good, Leaves, NoWord;
    EventsLeave(r, id0, events, p);
    var r' := Play(r, events);
    GoodUids(r', id0);
    hide Play, TimersFrom;
    var j :| 0 <= j < |r'.world.peers| && r'.world.peers[j] == p;
    PassFor(r'.world, 0, now, now + MAX_POLL, sends, j);
  }

  /** No command and no update that concerns the socket, and no pass at `until` or later. */
  predicate Spares(e: Event, no: int, uid: nat, until: nat) {
    match e
    case Configured(n, _, _, _, _) => n != no
    case Closed(n) => n != no
    case Updated(uids) => uid !in uids
    case TimersRan(now, _) => now < until
    case Replied(_, _, _) => true
  }

  ghost predicate AllSpare(events: seq<Event>, no: int, uid: nat, until: nat) {
    forall k :: 0 <= k < |events| ==> Spares(events[k], no, uid, until)
  }

  /** Whether a pass at `now` tries the socket, if it asks again at `until`: none before that, and
      from then on each that is not cut short. */
  ghost predicate AsksAt(w: World, uid: nat, until: nat, now: nat, sends: nat -> Sending) {
    var pass := Timers(w, now, sends);
    && (now < until ==> Silent(pass.notes, uid))
    && (now >= until && pass.complete ==> TriedIn(pass.notes, uid))
  }

  /** A reply that was accepted at `t` is asked for again after five minutes and one that was
      turned down after a tenth of a second: not before, and by the first pass that is not cut
      short from then on, whatever happens to other sockets meanwhile. */
  lemma AfterReply(id0: nat, before: seq<Event>, id: nat, ok: bool, t: nat, events: seq<Event>, now: nat,
                   sends: nat -> Sending)
    requires id0 < TWO31
    requires var peers := Play(Start(id0), before).world.peers;
             Takes(peers, id, FindId(peers, id))
    requires var p := Play(Start(id0), before).world.peers[FindId(Play(Start(id0), before).world.peers, id)];
             AllSpare(events, p.no, p.uid, t + if ok then 300_000 else 100)
    ensures var r := Play(Start(id0), before);
            var p := r.world.peers[FindId(r.world.peers, id)];
            var r' := Play(Next(r, Replied(id, ok, t)), events);
            AsksAt(r'.world, p.uid, t + if ok then 300_000 else 100, now, sends)
  {
    StartGood(id0);
    PlayGood(Start(id0), id0, before);
    var r := Play(Start(id0), before);
    NextGood(r, id0, Replied(id, ok, t));
    hide Good, Play, FindId, TimersFrom;
    var k := FindId(r.world.peers, id);
    var r1 := Next(r, Replied(id, ok, t));
    var q := r1.world.peers[k];
    assert q.uid == r.world.peers[k].uid && q.no == r.world.peers[k].no;
    assert q.phase == Sleeping && q.retryTime == t + if ok then 300_000 else 100;
    TriedWhenDue(r1, id0, events, q, now, sends);
  }

  /** In the pass at `t`, of the run that starts with `before`, the request of socket `uid` met
      with this. */
  ghost predicate Met(id0: nat, before: seq<Event>, t: nat, sends: nat -> Sending, n: Note)
    requires id0 < TWO31
  {
    n in Timers(Play(Start(id0), before).world, t, sends).notes
  }

  /** The socket in place j in a pass, after it. */
  lemma InPass(id0: nat, before: seq<Event>, t: nat, sends: nat -> Sending, j: nat, n: Note) returns (q: Peer)
    requires id0 < TWO31 && Met(id0, before, t, sends, n)
    requires j < |Play(Start(id0), before).world.peers| && Play(Start(id0), before).world.peers[j].uid == n.uid
    ensures var r := Next(Play(Start(id0), before), TimersRan(t, sends));
            Good(r, id0) && q in r.world.peers && AccountsFor(q, n, t, sends)
    ensures q.uid == n.uid && q.no == Play(Start(id0), before).world.peers[j].no
  {
    StartGood(id0);
    PlayGood(Start(id0), id0, before);
    var r := Play(Start(id0), before);
    NextGood(r, id0, TimersRan(t, sends));
    GoodUids(r, id0);
    hide Good, Play, TimersFrom, AccountsFor;
    PassFor(r.world, 0, t, t + MAX_POLL, sends, j);
    q := Timers(r.world, t, sends).world.peers[j];
  }

  /** A request that the request socket was too busy for at `t` is sent again after a tenth of a
      second, and not before. */
  lemma AfterBusy(id0: nat, before: seq<Event>, t: nat, sends: nat -> Sending, j: nat, issue: nat,
                  events: seq<Event>, now: nat, later: nat -> Sending)
    requires id0 < TWO31 && j < |Play(Start(id0), before).world.peers|
    requires var p := Play(Start(id0), before).world.peers[j];
             Met(id0, before, t, sends, Deferred(p.uid, issue)) && AllSpare(events, p.no, p.uid, t + 100)
    ensures var p := Play(Start(id0), before).world.peers[j];
            var r' := Play(Next(Play(Start(id0), before), TimersRan(t, sends)), events);
            && sends(issue) == Busy
            && AsksAt(r'.world, p.uid, t + 100, now, later)
  {
    var p := Play(Start(id0), before).world.peers[j];
    hide Good, Play, TimersFrom, Met;
    var q := InPass(id0, before, t, sends, j, Deferred(p.uid, issue));
    TriedWhenDue(Next(Play(Start(id0), before), TimersRan(t, sends)), id0, events, q, now, later);
  }

  /** A request that was sent at `t` and has had no reply is given up after a second and sent
      again, and not before. */
  lemma AfterSending(id0: nat, before: seq<Event>, t: nat, sends: nat -> Sending, j: nat, issue: nat,
                     events: seq<Event>, now: nat, later: nat -> Sending)
    requires id0 < TWO31 && j < |Play(Start(id0), before).world.peers|
    requires var p := Play(Start(id0), before).world.peers[j];
             Met(id0, before, t, sends, Sent(p.uid, issue)) && AllSpare(events, p.no, p.uid, t + 1000)
    requires forall k :: 0 <= k < |events| && events[k].Replied? ==> events[k].id != IdOf(id0, issue)
    ensures var p := Play(Start(id0), before).world.peers[j];
            var r' := Play(Next(Play(Start(id0), before), TimersRan(t, sends)), events);
            && sends(issue) == Accepted
            && AsksAt(r'.world, p.uid, t + 1000, now, later)
  {
    var p := Play(Start(id0), before).world.peers[j];
    hide Play, TimersFrom, Met, IdOf;
    var q := InPass(id0, before, t, sends, j, Sent(p.uid, issue));
    var r := Next(Play(Start(id0), before), TimersRan(t, sends));
    IdOfIssue(r, id0, q, issue);
    TriedWhenDue(r, id0, events, q, now, later);
  }

  lemma IdOfIssue(r: Run, id0: nat, q: Peer, issue: nat)
    requires Good(r, id0) && q in r.world.peers && q.issue == Some(issue)
    ensures q.requestId == IdOf(id0, issue)
  {
    hide IdOf, Recorded, History;
    var k :| 0 <= k < |r.world.peers| && r.world.peers[k] == q;
    assert Sound(r.world, id0, r.world.peers[k]);
  }

  /** The event sets a socket to start: it is configured, for the first time or again, or named by
      an update. */
  predicate Starts(w: World, e: Event, no: int, uid: nat) {
    match e
    case Configured(n, _, _, _, _) =>
      n == no && if FindNo(w.peers, no) < |w.peers| then w.peers[FindNo(w.peers, no)].uid == uid
                 else w.attached && uid == w.born
    case Updated(uids) => uid in uids && exists k :: 0 <= k < |w.peers| && w.peers[k].uid == uid && w.peers[k].no == no
    case _ => false
  }

  /** A socket that a command or an update has set to start is tried by the next pass that is not
      cut short, whatever it was waiting for. */
  lemma AfterStart(id0: nat, before: seq<Event>, e: Event, no: int, uid: nat, events: seq<Event>, now: nat,
                   sends: nat -> Sending)
    requires id0 < TWO31 && Starts(Play(Start(id0), before).world, e, no, uid)
    requires AllSpare(events, no, uid, 0)
    ensures var r' := Play(Next(Play(Start(id0), before), e), events);
            AsksAt(r'.world, uid, 0, now, sends)
  {
    StartGood(id0);
    PlayGood(Start(id0), id0, before);
    var r := Play(Start(id0), before);
    NextGood(r, id0, e);
    hide Good, Play, FindNo, TimersFrom;
    var q := StartedBy(r, e, no, uid);
    forall k | 0 <= k < |events|
      ensures Leaves(events[k], q)
    {
      assert Spares(events[k], no, uid, 0);
    }
    TriedWhenDue(Next(r, e), id0, events, q, now, sends);
  }

  lemma StartedBy(r: Run, e: Event, no: int, uid: nat) returns (q: Peer)
    requires Starts(r.world, e, no, uid)
    ensures q in Next(r, e).world.peers && q.uid == uid && q.no == no && q.phase == Starting
  {
    hide FindNo;
    var w := r.world;
    match e
    case Configured(n, url, id, retry, now) =>
      var k := FindNo(w.peers, n);
      q := Configure(w, n, url, id, retry, now).world.peers[k];
    case Updated(uids) =>
      var k :| 0 <= k < |w.peers| && w.peers[k].uid == uid && w.peers[k].no == no;
      q := Restarted(w.peers, uids)[k];
  }
}
