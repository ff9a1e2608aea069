/** The worker's list of sockets in memory, and the commands, timers and answers that act on
    it, each proved to be the step of the Requests module it stands for. */
module SocketTable {
  import opened Wrappers
  import opened MsgPack
  import opened IntrusiveList
  import opened Records
  import opened Requests

  type SocketLink = Link<Socket?>

  ghost function PeerOf(s: Socket): Peer
    reads s`state, s`requestId, s`retryTime, s`issue, s`lastTry
  {
    Peer(s.no, s.url, s.state, s.requestId, s.retryTime, s.uid, s.issue, s.lastTry)
  }

  ghost function Peers(socks: seq<Socket>): (r: seq<Peer>)
    reads socks`state, socks`requestId, socks`retryTime, socks`issue, socks`lastTry
    ensures |r| == |socks| && forall k :: 0 <= k < |r| ==> r[k] == PeerOf(socks[k])
  {
    if socks == [] then []
    else
      var n := |socks| - 1;
      Peers(socks[..n]) + [PeerOf(socks[n])]
  }

  twostate lemma OneChanged(socks: seq<Socket>, new k: nat)
    requires k < |socks| && NoRepeats(socks)
    requires forall j :: 0 <= j < |socks| && j != k ==> PeerOf(socks[j]) == old(PeerOf(socks[j]))
    ensures Peers(socks) == old(Peers(socks))[k := PeerOf(socks[k])]
  {
    hide Peers;
  }

  class Table {
    const list: List<Socket?>
    ghost var socks: seq<Socket>  // the listed sockets, in order
    var nextId: nat
    var issued: nat               // requests so far; not in the C struct
    ghost var born: nat

    ghost predicate Valid()
      reads this, list, list.links`next, list.links`prev, list.links`home, list.links`item, list.TailNode()`home
    {
      list.Valid() && Listed() && NoRepeats(socks)
    }

    ghost predicate Listed()
      reads this, list, list.links`item
    {
      |socks| == |list.links| && forall k :: 0 <= k < |socks| ==> list.links[k].item == socks[k]
    }

    ghost function View(): (w: World)
      reads this, list, socks`state, socks`requestId, socks`retryTime, socks`issue, socks`lastTry
      ensures |w.peers| == |socks|
    {
      World(Peers(socks), list.Attached(), nextId, issued, born)
    }

    constructor (start: nat)
      ensures Valid() && fresh(list) && View() == World([], true, start, 0, 0) && socks == []
    {
      list := new List<Socket?>();
      socks, nextId, issued, born := [], start, 0, 0;
    }

    lemma AtNode(k: nat)
      requires Valid() && k < |socks|
      ensures k < |list.links| && list.links[k].item == socks[k] && list.links[k].next == list.NodeAt(k + 1)
      ensures View().peers[k] == PeerOf(socks[k]) && View().nextId == nextId && View().issued == issued
    {
      list.WalksOn(k);
    }

    lemma Neighbours(k: nat)
      requires Valid() && k < |list.links|
      ensures list.links[k].prev.NextOf? ==> list.links[k].prev.link in list.links
      ensures list.links[k].next != null ==> list.links[k].next in list.links
      ensures |list.links| == |socks|
    {
      list.WalksOn(k);
    }

    /** `nc_list_find` */
    method FindSocket(no: int) returns (item: Link?<Socket?>, ghost k: nat)
      requires Valid()
      ensures k == FindNo(View().peers, no)
      ensures FindNo(View().peers, no) <= |list.links| && item == list.NodeAt(FindNo(View().peers, no))
      ensures k <= |socks| && (item != null <==> k < |socks|) && (item != null ==> item == list.links[k])
    {
      hide NoRepeats, List.Attached, Peers;
      item, k := list.head, 0;
      list.Walks();
      ghost var peers := Peers(socks);
      while item != null
        invariant k <= |socks| == |list.links| && item == list.NodeAt(k)
        invariant FindNo(peers, no) == k + FindNo(peers[k..], no)
        decreases |socks| - k
      {
        AtNode(k);
        if item.item.no == no { return; }
        item := item.next;
        k := k + 1;
      }
    }

    /** The socket whose request has this id. */
    method FindRequest(id: nat) returns (item: Link?<Socket?>, ghost k: nat)
      requires Valid()
      ensures k == FindId(View().peers, id)
      ensures FindId(View().peers, id) <= |list.links| && item == list.NodeAt(FindId(View().peers, id))
      ensures k <= |socks| && (item != null <==> k < |socks|) && (item != null ==> item == list.links[k])
    {
      hide NoRepeats, List.Attached, Peers;
      item, k := list.head, 0;
      list.Walks();
      ghost var peers := Peers(socks);
      while item != null
        invariant k <= |socks| == |list.links| && item == list.NodeAt(k)
        invariant FindId(peers, id) == k + FindId(peers[k..], id)
        decreases |socks| - k
      {
        AtNode(k);
        if item.item.requestId == id { return; }
        item := item.next;
        k := k + 1;
      }
    }

    twostate lemma StillValid()
      requires old(Valid()) && unchanged(this) && unchanged(list) && unchanged(old(list.links))
      requires unchanged(old(list.TailNode()))
      ensures Valid()
    {
    }

    twostate lemma Untouched()
      requires old(Valid()) && unchanged(this) && unchanged(list) && unchanged(old(list.links))
      requires unchanged(old(list.TailNode())) && unchanged(old(socks))
      ensures Valid() && View() == old(View())
    {
      hide Peers;
      assert Peers(socks) == old(Peers(socks));
    }

    /** Put a listed socket in a phase until a time. */
    method Park(item: SocketLink, ghost k: nat, phase: Phase, retry: nat)
      requires Valid() && k < |socks| && list.links[k] == item && item.item == socks[k]
      modifies item.item`state, item.item`retryTime
      ensures Valid()
      ensures View() == old(View().(peers := View().peers[k := View().peers[k].(phase := phase, retryTime := retry)]))
    {
      item.item.state, item.item.retryTime := phase, retry;
      OneChanged(socks, k);
    }

    /** `nc_list_add`: through a tail that does not name the end of the list the socket goes
        on a chain that nobody walks. */
    method Enlist(s: Socket)
      requires Valid() && s !in socks
      modifies this`socks, this`born, list, list.TailNode()`next
      ensures Valid() && socks == if old(list.Attached()) then old(socks) + [s] else old(socks)
      ensures View() == old(View().(peers := if list.Attached() then Peers(socks) + [PeerOf(s)] else Peers(socks),
                                    born := born + 1))
    {
      hide Valid, View, Peers, List.Attached, PeerOf;
      var n := new Link<Socket?>(s);
      Untouched();
      Thread(s, n);
    }

    method Thread(s: Socket, n: SocketLink)
      requires Valid() && s !in socks && n.item == s && n.home == null && n !in list.TailNode()
      modifies this`socks, this`born, list, list.TailNode()`next, n`next, n`prev, n`home
      ensures Valid() && socks == if old(list.Attached()) then old(socks) + [s] else old(socks)
      ensures View() == old(View().(peers := if list.Attached() then Peers(socks) + [PeerOf(s)] else Peers(socks),
                                    born := born + 1))
    {
      hide List.Valid, NoRepeats, List.Attached, Peers;
      ghost var attached := list.Attached();
      list.Append(n);
      if attached {
        NoneNew(socks, s);
        OneMorePeer(socks, s);
        socks := socks + [s];
      }
      born := born + 1;
    }

    /** `nc_list_rm` */
    method Delist(item: SocketLink, ghost k: nat)
      requires Valid() && k < |socks| && list.links[k] == item
      modifies this`socks, list`head, list`links, list.links`next, list.links`prev, list.links`home
      ensures Valid() && socks == old(Without(socks, k))
      ensures View() == old(View()).(peers := old(Peers(socks))[..k] + old(Peers(socks))[k + 1..],
                                     attached := old(list.Attached()) && k + 1 < |old(socks)|)
    {
      hide List.Valid, NoRepeats, List.Attached, Peers, Without, Listed, View;
      AtNode(k);
      Neighbours(k);
      list.Remove(item, k);
      socks := Without(socks, k);
      Delisted(k);
    }

    twostate lemma Delisted(new k: nat)
      requires old(Listed() && NoRepeats(socks)) && k < |old(socks)| && nextId == old(nextId) && issued == old(issued)
      requires socks == Without(old(socks), k) && list.links == Without(old(list.links), k) && born == old(born)
      requires forall n :: n in old(list.links) ==> n.item == old(n.item)
      requires forall s :: s in old(socks) ==> PeerOf(s) == old(PeerOf(s))
      requires list.Attached() == (old(list.Attached()) && k + 1 < |old(socks)|)
      ensures Listed() && NoRepeats(socks)
      ensures View() == old(View()).(peers := old(Peers(socks))[..k] + old(Peers(socks))[k + 1..],
                                     attached := old(list.Attached()) && k + 1 < |old(socks)|)
    {
      hide List.Attached, Without, NoRepeats, Peers;
      WithoutKeeps(old(socks), k);
      StillListed(k);
      hide Listed;
      FewerPeers(old(socks), k);
      assert Peers(old(socks)) == old(Peers(socks));
    }

    twostate lemma StillListed(new k: nat)
      requires old(Listed()) && k < |old(socks)|
      requires socks == Without(old(socks), k) && list.links == Without(old(list.links), k)
      requires forall n :: n in old(list.links) ==> n.item == old(n.item)
      ensures Listed()
    {
      WithoutAt(old(socks), k);
      WithoutAt(old(list.links), k);
      hide Without;
    }

    // ----- Timers

    /** `nc_process_timers`: `sends(n)` is how the send of request number n goes and `later` what
        the clock shows at the end. */
    method ProcessTimers(now: nat, sends: nat -> Sending, later: nat) returns (timeout: nat)
      requires Valid()
      modifies this`nextId, this`issued
      modifies socks`state, socks`requestId, socks`retryTime, socks`issue, socks`lastTry
      ensures Valid() && View() == old(Timers(View(), now, sends)).world
      ensures timeout == Timeout(old(Timers(View(), now, sends)), later)
    {
      hide List.Valid, NoRepeats, View, List.Attached, TimersFrom, TimerTurn, PeerOf, AfterTurn;
      ghost var pass := Timers(View(), now, sends);
      var wake: nat := now + MAX_POLL;
      list.Walks();
      var item := list.head;
      ghost var k := 0;
      while item != null
        invariant Valid() && k <= |socks| == |list.links| && item == list.NodeAt(k)
        invariant Same(pass, TimersFrom(View(), k, now, wake, sends))
        decreases |socks| - k
      {
        AtNode(k);
        OneTurn(View(), k, now, wake, sends);
        var goOn;
        wake, goOn := TimerStep(item.item, k, now, wake, sends);
        if !goOn {
          return 0;
        }
        item := item.next;
        k := k + 1;
      }
      LastTurn(View(), now, wake, sends);
      return if wake > later then wake - later else 0;
    }

    method TimerStep(s: Socket, ghost k: nat, now: nat, next: nat, sends: nat -> Sending)
      returns (wake: nat, goOn: bool)
      requires Valid() && k < |socks| && s == socks[k]
      modifies this`nextId, this`issued, s`state, s`requestId, s`retryTime, s`issue, s`lastTry
      ensures Valid()
      ensures var t := old(TimerTurn(PeerOf(s), nextId, issued, now, next, sends(issued)));
              View() == old(AfterTurn(View(), k, t)) && wake == t.wake && goOn == t.goOn
    {
      hide NoRepeats, Peers, List.Attached, TimerTurn;
      wake, goOn := TurnSocket(s, now, next, sends);
      Others(k);
      OneChanged(socks, k);
    }

    twostate lemma Others(new k: nat)
      requires NoRepeats(old(socks)) && k < |old(socks)|
      requires forall s :: s in old(socks) && s != old(socks)[k] ==> PeerOf(s) == old(PeerOf(s))
      ensures forall j :: 0 <= j < |old(socks)| && j != k ==> PeerOf(old(socks)[j]) == old(PeerOf(socks[j]))
    {
      var s := old(socks);
      forall j | 0 <= j < |s| && j != k
        ensures s[j] != s[k]
      {
      }
    }

    method TurnSocket(s: Socket, now: nat, next: nat, sends: nat -> Sending) returns (wake: nat, goOn: bool)
      modifies this`nextId, this`issued, s`state, s`requestId, s`retryTime, s`issue, s`lastTry
      ensures var t := old(TimerTurn(PeerOf(s), nextId, issued, now, next, sends(issued)));
              && PeerOf(s) == t.peer && wake == t.wake && goOn == t.goOn
              && nextId == (if t.sent then NextId(old(nextId)) else old(nextId))
              && issued == if t.sent then old(issued) + 1 else old(issued)
    {
      wake := next;
      if s.state != Starting && s.retryTime <= now {
        s.state := Starting;
      } else {
        wake := Min(wake, s.retryTime);
      }
      goOn := true;
      if s.state == Starting {
        s.requestId := nextId;
        nextId := nextId + 1;
        if nextId == TWO31 {
          nextId := 0;
        }
        s.issue, s.lastTry := Some(issued), now;
        var outcome := sends(issued);
        issued := issued + 1;
        match outcome {
          case Interrupted =>
            goOn := false;
          case Busy =>
            s.retryTime := now + ERROR_RETRY_TIME;
            s.state := Sleeping;
            wake := Min(wake, s.retryTime);
          case Accepted =>
            s.state := RequestSent;
            s.retryTime := now + REQUEST_WAIT_TIME;
            wake := Min(wake, s.retryTime);
        }
      }
    }
  }

  /** Two passes that differ at most in their notes. */
  predicate Same(a: Pass, b: Pass) {
    a.world == b.world && a.wake == b.wake && a.complete == b.complete
  }

  lemma OneTurn(w: World, k: nat, now: nat, wake: nat, sends: nat -> Sending)
    requires k < |w.peers|
    ensures var t := TimerTurn(w.peers[k], w.nextId, w.issued, now, wake, sends(w.issued));
            var from := TimersFrom(w, k, now, wake, sends);
            && (t.goOn ==> Same(from, TimersFrom(AfterTurn(w, k, t), k + 1, now, t.wake, sends)))
            && (!t.goOn ==> Same(from, Pass(AfterTurn(w, k, t), t.wake, false, [])))
  {
  }

  lemma LastTurn(w: World, now: nat, wake: nat, sends: nat -> Sending)
    ensures TimersFrom(w, |w.peers|, now, wake, sends) == Pass(w, wake, true, [])
  {
  }

  lemma OneMorePeer(socks: seq<Socket>, s: Socket)
    ensures Peers(socks + [s]) == Peers(socks) + [PeerOf(s)]
  {
    assert (socks + [s])[..|socks|] == socks;
  }

  lemma FewerPeers(socks: seq<Socket>, k: nat)
    requires k < |socks|
    ensures Peers(Without(socks, k)) == Peers(socks)[..k] + Peers(socks)[k + 1..]
  {
    hide Peers;
    var peers, fewer := Peers(socks), Peers(Without(socks, k));
    assert |fewer| == |peers| - 1;
    forall j | 0 <= j < |fewer|
      ensures fewer[j] == (peers[..k] + peers[k + 1..])[j]
    {
      assert Without(socks, k)[j] == socks[if j < k then j else j + 1];
    }
  }
}
