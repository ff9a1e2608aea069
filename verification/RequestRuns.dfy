/** Whole runs of the worker: every order of commands, timer passes, replies and updates. */
module RequestRuns {
  import opened Wrappers
  import opened MsgPack
  import opened Requests

  datatype Event =
    | Configured(no: int, url: Bytes, id: nat, retry: nat, now: nat)
    | Closed(no: int)
    | TimersRan(now: nat, sends: nat -> Sending)
    | Replied(id: nat, ok: bool, now: nat)
    | Updated(uids: set<nat>)

  /** The worker and the record of what happened so far. */
  datatype Run = Run(world: World, notes: seq<Note>)

  function Next(r: Run, e: Event): Run {
    match e
    case Configured(no, url, id, retry, now) =>
      var s := Configure(r.world, no, url, id, retry, now);
      Run(s.world, r.notes + s.notes)
    case Closed(no) => Run(Close(r.world, no), r.notes)
    case TimersRan(now, sends) =>
      var p := Timers(r.world, now, sends);
      Run(p.world, r.notes + p.notes)
    case Replied(id, ok, now) =>
      var s := Reply(r.world, id, ok, now);
      Run(s.world, r.notes + s.notes)
    case Updated(uids) =>
      var s := Update(r.world, uids);
      Run(s.world, r.notes + s.notes)
  }

  function Play(r: Run, events: seq<Event>): Run
    decreases |events|
  {
    if events == [] then r else Play(Next(r, events[0]), events[1..])
  }

  /** The worker as `nc_worker_start` leaves it: no sockets, and any 31-bit number as id. */
  function Start(id0: nat): Run
    requires id0 < TWO31
  {
    Run(World([], true, id0, 0, 0), [])
  }

  /** The id that request number k carries. */
  function IdOf(id0: nat, k: nat): (id: nat)
    ensures id < TWO31
  {
    (id0 + k) % TWO31
  }

  /** The last thing that happened to a socket. */
  function Latest(notes: seq<Note>, uid: nat): Option<Note> {
    if notes == [] then None
    else
      var n := |notes| - 1;
      if notes[n].uid == uid then Some(notes[n]) else Latest(notes[..n], uid)
  }

  // ----- What every step keeps

  /** Names and requests belong to one socket each, ids are those of the requests, and sockets
      without a request are at the end of the list, waiting for their first. */
  ghost predicate Orderly(w: World, id0: nat) {
    && w.nextId == IdOf(id0, w.issued)
    && (forall k :: 0 <= k < |w.peers| ==> Sound(w, id0, w.peers[k]))
    && (forall j, k :: 0 <= j < k < |w.peers| ==> Separate(w.peers[j], w.peers[k]))
  }

  ghost predicate Sound(w: World, id0: nat, p: Peer) {
    && p.uid < w.born
    && (p.issue.Some? ==> p.issue.value < w.issued && p.requestId == IdOf(id0, p.issue.value))
    && (p.issue.None? ==> p.phase == Starting)
  }

  ghost predicate Separate(p: Peer, q: Peer) {
    && p.uid != q.uid && p.no != q.no
    && (p.issue.Some? ==> p.issue != q.issue)
    && (p.issue.None? ==> q.issue.None?)
  }

  /** The record agrees with the phase: a request is open exactly if the last thing that
      happened is that it was sent, and then no reply to it was applied. */
  ghost predicate Recorded(r: Run, p: Peer) {
    var last := Latest(r.notes, p.uid);
    && (p.phase == RequestSent <==> last.Some? && last.value.Sent?)
    && (p.phase == RequestSent ==> p.issue == Some(last.value.issue) && !AppliedIn(r.notes, last.value.issue))
  }

  predicate AppliedIn(notes: seq<Note>, issue: nat) {
    exists k :: 0 <= k < |notes| && notes[k].Applied? && notes[k].issue == issue
  }

  ghost predicate History(r: Run) {
    && (forall k :: 0 <= k < |r.notes| ==> r.notes[k].uid < r.world.born)
    && (forall k :: 0 <= k < |r.notes| && r.notes[k].Applied? ==> r.notes[k].issue < r.world.issued)
    && (forall j, k :: 0 <= j < k < |r.notes| && r.notes[j].Applied? && r.notes[k].Applied? ==>
          r.notes[j].issue != r.notes[k].issue)
  }

  ghost predicate Good(r: Run, id0: nat) {
    && Orderly(r.world, id0)
    && History(r)
    && (forall k :: 0 <= k < |r.world.peers| ==> Recorded(r, r.world.peers[k]))
  }

  // ----- The record grows

  lemma {:induction false} LatestOther(notes: seq<Note>, more: seq<Note>, uid: nat)
    requires forall k :: 0 <= k < |more| ==> more[k].uid != uid
    ensures Latest(notes + more, uid) == Latest(notes, uid)
    decreases |more|
  {
    if more == [] {
      assert notes + more == notes;
    } else {
      var n := |more| - 1;
      assert (notes + more)[..|notes + more| - 1] == notes + more[..n];
      LatestOther(notes, more[..n], uid);
    }
  }

  lemma LatestAdded(notes: seq<Note>, more: seq<Note>)
    requires more != []
    ensures Latest(notes + more, more[|more| - 1].uid) == Some(more[|more| - 1])
  {
  }

  /** A step that changes one socket and adds to the record notes about that socket only. */
  ghost predicate OneChange(r: Run, k: nat, q: Peer, more: seq<Note>) {
    && k < |r.world.peers|
    && var p := r.world.peers[k];
    && q.uid == p.uid
    && (forall i :: 0 <= i < |more| ==> more[i].uid == p.uid)
    && (forall i :: 0 <= i < |more| && more[i].Applied? ==>
          |more| == 1 && p.phase == RequestSent && p.issue == Some(more[i].issue))
    && (if more == [] then q.phase == p.phase && q.issue == p.issue
        else
          var last := more[|more| - 1];
          && (q.phase == RequestSent <==> last.Sent?)
          && (last.Sent? ==> q.issue == Some(last.issue) && last.issue == r.world.issued))
  }

  lemma ChangeGood(r: Run, id0: nat, k: nat, q: Peer, more: seq<Note>, w: World)
    requires Good(r, id0) && OneChange(r, k, q, more)
    requires w.peers == r.world.peers[k := q] && w.born == r.world.born && w.issued >= r.world.issued
    requires Orderly(w, id0)
    ensures Good(Run(w, r.notes + more), id0)
  {
    HistoryGrows(r, id0, k, q, more, w);
    forall j | 0 <= j < |w.peers|
      ensures Recorded(Run(w, r.notes + more), w.peers[j])
    {
      if j == k {
        RecordedHere(r, id0, k, q, more, w);
      } else {
        RecordedElsewhere(r, id0, k, j, q, more, w);
      }
    }
  }

  lemma HistoryGrows(r: Run, id0: nat, k: nat, q: Peer, more: seq<Note>, w: World)
    requires Good(r, id0) && OneChange(r, k, q, more) && w.born == r.world.born && w.issued >= r.world.issued
    ensures History(Run(w, r.notes + more))
  {
    hide Latest;
    var p := r.world.peers[k];
    assert Recorded(r, p) && Sound(r.world, id0, p);
    hide Separate;
    var notes := r.notes + more;
    forall j, i | 0 <= j < i < |notes| && notes[j].Applied? && notes[i].Applied?
      ensures notes[j].issue != notes[i].issue
    {
      if i >= |r.notes| {
        assert notes[i] == more[i - |r.notes|];
        assert j < |r.notes| && notes[j] == r.notes[j];
      }
    }
    forall i | 0 <= i < |notes|
      ensures notes[i].uid < w.born && (notes[i].Applied? ==> notes[i].issue < w.issued)
    {
      if i >= |r.notes| {
        assert notes[i] == more[i - |r.notes|];
      }
    }
  }

  lemma RecordedHere(r: Run, id0: nat, k: nat, q: Peer, more: seq<Note>, w: World)
    requires Good(r, id0) && OneChange(r, k, q, more)
    ensures Recorded(Run(w, r.notes + more), q)
  {
    assert Recorded(r, r.world.peers[k]);
    if more == [] {
      assert r.notes + more == r.notes;
    } else {
      LatestAdded(r.notes, more);
      hide Latest, Orderly;
      var notes := r.notes + more;
      assert forall i {:trigger notes[i]} :: |r.notes| <= i < |notes| ==> notes[i] == more[i - |r.notes|];
    }
  }

  lemma RecordedElsewhere(r: Run, id0: nat, k: nat, j: nat, q: Peer, more: seq<Note>, w: World)
    requires Good(r, id0) && OneChange(r, k, q, more) && j < |r.world.peers| && j != k
    ensures Recorded(Run(w, r.notes + more), r.world.peers[j])
  {
    var p, o := r.world.peers[k], r.world.peers[j];
    assert Recorded(r, o) && Recorded(r, p) && Sound(r.world, id0, o) && Sound(r.world, id0, p);
    assert if j < k then Separate(o, p) else Separate(p, o);
    LatestOther(r.notes, more, o.uid);
    hide Latest, Orderly, History;
    var notes := r.notes + more;
    if o.phase == RequestSent {
      forall i | 0 <= i < |notes| && notes[i].Applied?
        ensures notes[i].issue != o.issue.value
      {
        if i >= |r.notes| {
          assert notes[i] == more[i - |r.notes|];
        }
      }
    }
  }

  // ----- Steps that change one socket

  /** Neither name nor request changes. */
  lemma SameRequest(w: World, id0: nat, k: nat, q: Peer)
    requires Orderly(w, id0) && k < |w.peers|
    requires var p := w.peers[k];
             && q.uid == p.uid && q.no == p.no && q.issue == p.issue && q.requestId == p.requestId
             && (p.issue.None? ==> q.phase == Starting)
    ensures Orderly(w.(peers := w.peers[k := q]), id0)
  {
    var w' := w.(peers := w.peers[k := q]);
    assert Sound(w, id0, w.peers[k]);
    forall i | 0 <= i < |w.peers|
      ensures Sound(w', id0, w'.peers[i])
    {
      assert Sound(w, id0, w.peers[i]);
    }
    forall i, j | 0 <= i < j < |w.peers|
      ensures Separate(w'.peers[i], w'.peers[j])
    {
      assert Separate(w.peers[i], w.peers[j]);
    }
  }

  /** The next request is issued to a socket before which all have had one. */
  lemma NewRequest(w: World, id0: nat, k: nat, q: Peer)
    requires Orderly(w, id0) && k < |w.peers|
    requires forall j :: 0 <= j < k ==> w.peers[j].issue.Some?
    requires var p := w.peers[k];
             q.uid == p.uid && q.no == p.no && q.issue == Some(w.issued) && q.requestId == w.nextId
    ensures Orderly(w.(peers := w.peers[k := q], nextId := NextId(w.nextId), issued := w.issued + 1), id0)
  {
    var w' := w.(peers := w.peers[k := q], nextId := NextId(w.nextId), issued := w.issued + 1);
    assert NextId(IdOf(id0, w.issued)) == IdOf(id0, w.issued + 1);
    hide IdOf;
    assert Sound(w, id0, w.peers[k]);
    forall i | 0 <= i < |w.peers|
      ensures Sound(w', id0, w'.peers[i])
    {
      assert Sound(w, id0, w.peers[i]);
    }
    forall i, j | 0 <= i < j < |w.peers|
      ensures Separate(w'.peers[i], w'.peers[j])
    {
      assert Separate(w.peers[i], w.peers[j]);
      assert Sound(w, id0, w.peers[i]) && Sound(w, id0, w.peers[j]);
    }
  }

  // ----- Every event

  lemma ConfigureGood(r: Run, id0: nat, no: int, url: Bytes, id: nat, retry: nat, now: nat)
    requires Good(r, id0)
    ensures Good(Next(r, Configured(no, url, id, retry, now)), id0)
  {
    var w := r.world;
    var k := FindNo(w.peers, no);
    hide Latest, AppliedIn;
    if k < |w.peers| {
      var q := w.peers[k].(phase := Starting);
      assert Sound(w, id0, w.peers[k]);
      SameRequest(w, id0, k, q);
      hide Orderly, Recorded, History;
      ChangeGood(r, id0, k, q, [Reset(q.uid)], w.(peers := w.peers[k := q]));
    } else {
      NewcomerGood(r, id0, Peer(no, url, Starting, id, retry, w.born, None, now));
    }
  }

  lemma NewcomerGood(r: Run, id0: nat, p: Peer)
    requires Good(r, id0) && p.uid == r.world.born && p.issue == None && p.phase == Starting
    requires forall k :: 0 <= k < |r.world.peers| ==> r.world.peers[k].no != p.no
    ensures var w := r.world;
            Good(Run(w.(peers := if w.attached then w.peers + [p] else w.peers, born := w.born + 1),
                     r.notes + [Born(p.uid)]), id0)
  {
    var w := r.world;
    var peers := if w.attached then w.peers + [p] else w.peers;
    var w' := w.(peers := peers, born := w.born + 1);
    var notes := r.notes + [Born(p.uid)];
    forall k | 0 <= k < |peers|
      ensures Sound(w', id0, peers[k]) && Recorded(Run(w', notes), peers[k])
    {
      if k < |w.peers| {
        assert Sound(w, id0, w.peers[k]) && Recorded(r, w.peers[k]);
        LatestOther(r.notes, [Born(p.uid)], peers[k].uid);
      } else {
        LatestAdded(r.notes, [Born(p.uid)]);
      }
    }
    hide Latest, Recorded;
    forall j, k | 0 <= j < k < |peers|
      ensures Separate(peers[j], peers[k])
    {
      assert Sound(w, id0, w.peers[j]);
      if k < |w.peers| {
        assert Separate(w.peers[j], w.peers[k]);
      }
    }
  }

  lemma CloseGood(r: Run, id0: nat, no: int)
    requires Good(r, id0)
    ensures Good(Next(r, Closed(no)), id0)
  {
    hide Latest;
    var w, k := r.world, FindNo(r.world.peers, no);
    var w' := Close(w, no);
    if k < |w.peers| {
      forall j | 0 <= j < |w'.peers|
        ensures Sound(w', id0, w'.peers[j]) && Recorded(Run(w', r.notes), w'.peers[j])
      {
        var i := if j < k then j else j + 1;
        assert Sound(w, id0, w.peers[i]) && Recorded(r, w.peers[i]);
      }
      forall i, j | 0 <= i < j < |w'.peers|
        ensures Separate(w'.peers[i], w'.peers[j])
      {
        assert Separate(w.peers[if i < k then i else i + 1], w.peers[if j < k then j else j + 1]);
      }
    }
  }

  lemma ReplyGood(r: Run, id0: nat, id: nat, ok: bool, now: nat)
    requires Good(r, id0)
    ensures Good(Next(r, Replied(id, ok, now)), id0)
  {
    hide Latest, AppliedIn;
    var w := r.world;
    var k := FindId(w.peers, id);
    if Takes(w.peers, id, k) {
      var p := w.peers[k];
      assert Sound(w, id0, p) && Recorded(r, p);
      var q := p.(phase := Sleeping, retryTime := now + if ok then REQUEST_AGAIN_TIME else ERROR_RETRY_TIME);
      SameRequest(w, id0, k, q);
      hide Orderly, Recorded, History;
      ChangeGood(r, id0, k, q, [Applied(p.uid, p.issue.value)], w.(peers := w.peers[k := q]));
    } else {
      assert r.notes + [] == r.notes;
    }
  }

  lemma UpdateGood(r: Run, id0: nat, uids: set<nat>)
    requires Good(r, id0)
    ensures Good(Next(r, Updated(uids)), id0)
  {
    hide Latest, AppliedIn;
    var w, more := r.world, Resets(r.world.peers, uids);
    var w' := w.(peers := Restarted(w.peers, uids));
    ResetsExactly(w.peers, uids);
    forall k | 0 <= k < |w.peers|
      ensures Sound(w', id0, w'.peers[k]) && Recorded(Run(w', r.notes + more), w'.peers[k])
    {
      var p := w.peers[k];
      assert Sound(w, id0, p) && Recorded(r, p);
      AppliedOrReset(r.notes, more);
      if p.uid in uids {
        assert Reset(p.uid) in more;
        LatestReset(r.notes, more, p.uid);
      } else {
        LatestOther(r.notes, more, p.uid);
      }
    }
    forall i, j | 0 <= i < j < |w.peers|
      ensures Separate(w'.peers[i], w'.peers[j])
    {
      assert Separate(w.peers[i], w.peers[j]);
    }
    ResetHistory(r, id0, more, w');
  }

  lemma ResetHistory(r: Run, id0: nat, more: seq<Note>, w: World)
    requires Good(r, id0) && w.born == r.world.born && w.issued == r.world.issued
    requires forall n :: n in more ==> n.Reset? && exists k :: 0 <= k < |r.world.peers| && r.world.peers[k].uid == n.uid
    ensures History(Run(w, r.notes + more))
  {
    hide Latest, Recorded, Separate;
    var notes := r.notes + more;
    forall i | 0 <= i < |notes|
      ensures notes[i].uid < w.born && (i >= |r.notes| ==> notes[i].Reset?)
    {
      if i >= |r.notes| {
        assert notes[i] == more[i - |r.notes|] && notes[i] in more;
        var k :| 0 <= k < |r.world.peers| && r.world.peers[k].uid == notes[i].uid;
        assert Sound(r.world, id0, r.world.peers[k]);
      }
    }
  }

  lemma {:induction false} ResetsExactly(peers: seq<Peer>, uids: set<nat>)
    ensures forall n :: n in Resets(peers, uids) <==>
              n.Reset? && n.uid in uids && exists k :: 0 <= k < |peers| && peers[k].uid == n.uid
  {
    if peers != [] {
      ResetsExactly(peers[1..], uids);
      forall n: Note | n.Reset? && n.uid in uids && exists k :: 0 <= k < |peers| && peers[k].uid == n.uid
        ensures n in Resets(peers, uids)
      {
        var k :| 0 <= k < |peers| && peers[k].uid == n.uid;
        assert k > 0 ==> peers[1..][k - 1].uid == n.uid;
      }
    }
  }

  lemma AppliedOrReset(notes: seq<Note>, more: seq<Note>)
    requires forall n :: n in more ==> n.Reset?
    ensures forall issue :: AppliedIn(notes + more, issue) <==> AppliedIn(notes, issue)
  {
    forall issue
      ensures AppliedIn(notes + more, issue) <==> AppliedIn(notes, issue)
    {
      if AppliedIn(notes, issue) {
        var k :| 0 <= k < |notes| && notes[k].Applied? && notes[k].issue == issue;
        assert (notes + more)[k] == notes[k];
      }
      if AppliedIn(notes + more, issue) {
        var k :| 0 <= k < |notes + more| && (notes + more)[k].Applied? && (notes + more)[k].issue == issue;
        assert k >= |notes| ==> (notes + more)[k] in more;
      }
    }
  }

  lemma {:induction false} LatestReset(notes: seq<Note>, more: seq<Note>, uid: nat)
    requires Reset(uid) in more && forall n :: n in more ==> n.Reset?
    ensures Latest(notes + more, uid) == Some(Reset(uid))
    decreases |more|
  {
    var n := |more| - 1;
    assert (notes + more)[..|notes + more| - 1] == notes + more[..n];
    assert more[n] in more;
    if more[n].uid != uid {
      assert more == more[..n] + [more[n]];
      LatestReset(notes, more[..n], uid);
    }
  }

  /** One turn of the timer loop, given that all sockets before it have had a request. */
  lemma TurnGood(r: Run, id0: nat, k: nat, now: nat, wake: nat, outcome: Sending)
    requires Good(r, id0) && k < |r.world.peers|
    requires forall j :: 0 <= j < k ==> r.world.peers[j].issue.Some?
    ensures var w := r.world;
            var t := TimerTurn(w.peers[k], w.nextId, w.issued, now, wake, outcome);
            && Good(Run(AfterTurn(w, k, t), r.notes + t.notes), id0)
            && forall j :: 0 <= j <= k ==> AfterTurn(w, k, t).peers[j].issue.Some?
  {
    hide Latest, AppliedIn, IdOf;
    var w := r.world;
    var t := TimerTurn(w.peers[k], w.nextId, w.issued, now, wake, outcome);
    assert Sound(w, id0, w.peers[k]) && Recorded(r, w.peers[k]);
    if t.sent {
      NewRequest(w, id0, k, t.peer);
    } else {
      SameRequest(w, id0, k, t.peer);
    }
    hide Orderly, Recorded, History;
    ChangeGood(r, id0, k, t.peer, t.notes, AfterTurn(w, k, t));
  }

  lemma {:induction false} TimersGood(r: Run, id0: nat, k: nat, now: nat, wake: nat, sends: nat -> Sending)
    requires Good(r, id0) && k <= |r.world.peers|
    requires forall j :: 0 <= j < k ==> r.world.peers[j].issue.Some?
    ensures var p := TimersFrom(r.world, k, now, wake, sends);
            Good(Run(p.world, r.notes + p.notes), id0)
    decreases |r.world.peers| - k
  {
    hide Good, TimerTurn;
    var w := r.world;
    if k == |w.peers| {
      assert r.notes + [] == r.notes;
    } else {
      var t := TimerTurn(w.peers[k], w.nextId, w.issued, now, wake, sends(w.issued));
      TurnGood(r, id0, k, now, wake, sends(w.issued));
      if t.goOn {
        var r' := Run(AfterTurn(w, k, t), r.notes + t.notes);
        TimersGood(r', id0, k + 1, now, t.wake, sends);
        var rest := TimersFrom(r'.world, k + 1, now, t.wake, sends);
        assert r.notes + t.notes + rest.notes == r.notes + (t.notes + rest.notes);
      }
    }
  }

  // ----- Runs

  lemma NextGood(r: Run, id0: nat, e: Event)
    requires Good(r, id0)
    ensures Good(Next(r, e), id0)
  {
    hide Good, Configure, Close, TimersFrom, Reply, Update;
    match e
    case Configured(no, url, id, retry, now) => ConfigureGood(r, id0, no, url, id, retry, now);
    case Closed(no) => CloseGood(r, id0, no);
    case TimersRan(now, sends) => TimersGood(r, id0, 0, now, now + MAX_POLL, sends);
    case Replied(id, ok, now) => ReplyGood(r, id0, id, ok, now);
    case Updated(uids) => UpdateGood(r, id0, uids);
  }

  /** Every state of every run is good. */
  lemma {:induction false} PlayGood(r: Run, id0: nat, events: seq<Event>)
    requires Good(r, id0)
    ensures Good(Play(r, events), id0)
    decreases |events|
  {
    hide Good, Next;
    if events != [] {
      NextGood(r, id0, events[0]);
      PlayGood(Next(r, events[0]), id0, events[1..]);
    }
  }

  lemma StartGood(id0: nat)
    requires id0 < TWO31
    ensures Good(Start(id0), id0)
  {
  }

  /** No more than 2^31 requests ago: ids have not come round since. */
  predicate Recent(w: World, issue: nat) {
    issue < w.issued && w.issued - issue <= TWO31
  }

  ghost predicate AllRecent(w: World) {
    forall k :: 0 <= k < |w.peers| && w.peers[k].issue.Some? ==> Recent(w, w.peers[k].issue.value)
  }

  lemma SameIdSameIssue(id0: nat, issued: nat, j: nat, k: nat)
    requires j < issued && k < issued && issued - j <= TWO31 && issued - k <= TWO31
    ensures IdOf(id0, j) == IdOf(id0, k) <==> j == k
  {
  }

  /** Whichever events came before, as long as ids have not come round: a reply to request
      number `issue` is taken by a socket only if that request is the newest the socket
      made, the last thing that happened to the socket is that it was sent -- no
      configure, update or timeout came since -- and no reply to it was applied. */
  lemma TakenIsFresh(id0: nat, events: seq<Event>, issue: nat, k: nat)
    requires id0 < TWO31
    requires var w := Play(Start(id0), events).world;
             AllRecent(w) && Recent(w, issue) && Takes(w.peers, IdOf(id0, issue), k)
    ensures var r := Play(Start(id0), events);
            && r.world.peers[k].issue == Some(issue)
            && Latest(r.notes, r.world.peers[k].uid) == Some(Sent(r.world.peers[k].uid, issue))
            && !AppliedIn(r.notes, issue)
  {
    StartGood(id0);
    PlayGood(Start(id0), id0, events);
    var r := Play(Start(id0), events);
    var p := r.world.peers[k];
    assert Recorded(r, p) && Sound(r.world, id0, p);
    hide IdOf, Play;
    SameIdSameIssue(id0, r.world.issued, p.issue.value, issue);
    LatestNames(r.notes, p.uid);
  }

  lemma {:induction false} LatestNames(notes: seq<Note>, uid: nat)
    ensures Latest(notes, uid).Some? ==> Latest(notes, uid).value.uid == uid
  {
    if notes != [] {
      LatestNames(notes[..|notes| - 1], uid);
    }
  }

  /** And conversely: no other socket on the list, in particular none whose id is whatever its
      memory held, stands in the way of the reply to an open request. */
  lemma OpenIsTaken(id0: nat, events: seq<Event>, k: nat)
    requires id0 < TWO31
    requires var w := Play(Start(id0), events).world;
             AllRecent(w) && k < |w.peers| && w.peers[k].phase == RequestSent
    ensures var w := Play(Start(id0), events).world;
            w.peers[k].issue.Some? && Takes(w.peers, IdOf(id0, w.peers[k].issue.value), k)
  {
    StartGood(id0);
    PlayGood(Start(id0), id0, events);
    var r := Play(Start(id0), events);
    var w := r.world;
    var p := w.peers[k];
    assert Recorded(r, p) && Sound(w, id0, p);
    hide IdOf, Play;
    var id := IdOf(id0, p.issue.value);
    forall j | 0 <= j < k
      ensures w.peers[j].requestId != id
    {
      var q := w.peers[j];
      assert Separate(q, p) && Sound(w, id0, q);
      SameIdSameIssue(id0, w.issued, q.issue.value, p.issue.value);
    }
  }

  /** Each request has at most one reply applied, over the whole run. */
  lemma AppliedOnce(id0: nat, events: seq<Event>, j: nat, k: nat)
    requires id0 < TWO31
    requires j < k < |Play(Start(id0), events).notes|
    requires Play(Start(id0), events).notes[j].Applied? && Play(Start(id0), events).notes[k].Applied?
    ensures Play(Start(id0), events).notes[j].issue != Play(Start(id0), events).notes[k].issue
  {
    StartGood(id0);
    PlayGood(Start(id0), id0, events);
    hide Play;
  }
}
