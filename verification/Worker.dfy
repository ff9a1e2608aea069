/** The worker: its table of sockets and its subscription index together, and what each of its
    four event sources does to them. */
module Workers {
  import opened Wrappers
  import opened MsgPack
  import opened IntrusiveList
  import opened Records
  import opened SocketTable
  import opened SubscriptionIndex
  import opened Effects
  import opened Apply
  import Reply
  import EndpointList
  import Requests
  import E = Endpoints
  import S = Subscriptions

  // ----- Message ids

  const ENDPOINT_BIT := TWO31

  function Be32Bytes(n: nat): (r: Bytes)
    requires n < TWO32
    ensures |r| == 4
  {
    [n / 0x100_0000, n / TWO16 % 0x100, n / 0x100 % 0x100, n % 0x100]
  }

  const RESOLVE: Bytes := [0x52, 0x45, 0x53, 0x4F, 0x4C, 0x56, 0x45, 0x20]  // "RESOLVE "

  /** The request of a socket: a channel id for the transport, the request id with its high
      bit set, and the question. */
  function RequestBytes(id: nat, url: Bytes, protocol: Bytes): Bytes
    requires id < TWO31
  {
    [0, 0, 0, 0] + Be32Bytes(id + ENDPOINT_BIT) + RESOLVE + url + [0x20] + protocol
  }

  /** The request id of a reply, if it is one for this endpoint. */
  function ReplyId(buf: Bytes): (r: Option<nat>)
    ensures r.Some? ==> r.value < TWO31 && |buf| >= 5
  {
    if |buf| < 5 || Be32(buf, 0) < ENDPOINT_BIT then None
    else Some(Be32(buf, 0) - ENDPOINT_BIT)
  }

  lemma Be32RoundTrip(n: nat, rest: Bytes)
    requires n < TWO32
    ensures Be32(Be32Bytes(n) + rest, 0) == n
  {
    var a, b, c := n / 0x100, n / 0x100 / 0x100, n / 0x100 / 0x100 / 0x100;
    var d, e, f := n % 0x100, a % 0x100, b % 0x100;
    ByTwoBytes(b, 0x100 * e + d);
    ByThreeBytes(c, TWO16 * f + (0x100 * e + d));
    assert n == TWO16 * b + (0x100 * e + d) == 0x100_0000 * c + (TWO16 * f + (0x100 * e + d));
    var all := Be32Bytes(n) + rest;
    assert all[0] == c && all[1] == f && all[2] == e && all[3] == d;
    hide Be32Bytes;
  }

  /** A non-empty answer under the id of a request is looked up under that very id. */
  lemma ReplyAnswersRequest(id: nat, url: Bytes, protocol: Bytes, answer: Bytes)
    requires id < TWO31 && answer != []
    ensures ReplyId(RequestBytes(id, url, protocol)[4..8] + answer) == Some(id)
  {
    var n := id + ENDPOINT_BIT;
    assert RequestBytes(id, url, protocol)[4..8] == Be32Bytes(n);
    Be32RoundTrip(n, answer);
  }

  /** So requests that carry the same id bytes have the same id. */
  lemma RequestsDiffer(id: nat, url: Bytes, protocol: Bytes, id': nat, url': Bytes, protocol': Bytes)
    requires id < TWO31 && id' < TWO31
    requires RequestBytes(id, url, protocol)[4..8] == RequestBytes(id', url', protocol')[4..8]
    ensures id == id'
  {
    ReplyAnswersRequest(id, url, protocol, [0]);
    ReplyAnswersRequest(id', url', protocol', [0]);
    hide RequestBytes, ReplyId;
  }

  /** A message without the high bit, or too short for an answer, is no reply for this endpoint. */
  lemma NotForUs(buf: Bytes)
    ensures ReplyId(buf).None? <==> |buf| < 5 || buf[0] < 0x80
  {
    if |buf| >= 5 {
      TopBit(buf[0], buf[1], buf[2], buf[3]);
    }
  }

  lemma TopBit(a: Byte, b: Byte, c: Byte, d: Byte)
    ensures 0x100_0000 * (a as int) + TWO16 * (b as int) + 0x100 * (c as int) + d < TWO31 <==> a < 0x80
  {
  }

  /** Where the first space is, from `i` on. */
  function SpaceFrom(b: Bytes, i: nat): (j: nat)
    requires i <= |b|
    ensures i <= j <= |b|
    decreases |b| - i
  {
    if i == |b| || b[i] == 0x20 then i else SpaceFrom(b, i + 1)
  }

  lemma {:induction false} SpaceIs(b: Bytes, i: nat, j: nat)
    requires i <= j < |b| && 0x20 !in b[i..j] && b[j] == 0x20
    ensures SpaceFrom(b, i) == j
    decreases j - i
  {
    if i < j {
      assert b[i] == b[i..j][0] && b[i + 1..j] == b[i..j][1..];
      SpaceIs(b, i + 1, j);
    }
  }

  /** What the service is asked: the words of a request between its spaces. */
  function WordsOf(request: Bytes): Option<(Bytes, Bytes, Bytes)> {
    if |request| < 8 then None
    else
      var a := SpaceFrom(request, 8);
      if a == |request| then None
      else
        var b := SpaceFrom(request, a + 1);
        if b == |request| then None else Some((request[8..a], request[a + 1..b], request[b + 1..]))
  }

  /** A request begins with four zeros for the transport to strip, then come four bytes of the
      id, whose first has its high bit set, and three words that can be read back: RESOLVE, the
      URL and the protocol.  (A URL that `nc_configure` takes has no space.) */
  lemma RequestExactly(id: nat, url: Bytes, protocol: Bytes)
    requires id < TWO31 && 0x20 !in url
    ensures var r := RequestBytes(id, url, protocol);
            && |r| >= 8 && r[0..4] == [0, 0, 0, 0] && r[4] >= 0x80
            && WordsOf(r) == Some(([0x52, 0x45, 0x53, 0x4F, 0x4C, 0x56, 0x45], url, protocol))
  {
    var r := RequestBytes(id, url, protocol);
    RequestPlaces(id, url, protocol);
    hide RequestBytes, SpaceFrom;
    SpaceIs(r, 8, 15);
    SpaceIs(r, 16, 16 + |url|);
  }

  lemma RequestPlaces(id: nat, url: Bytes, protocol: Bytes)
    requires id < TWO31
    ensures var r := RequestBytes(id, url, protocol);
            && |r| == 17 + |url| + |protocol| && r[0..4] == [0, 0, 0, 0] && r[4] >= 0x80
            && r[8..15] == [0x52, 0x45, 0x53, 0x4F, 0x4C, 0x56, 0x45] && r[15] == 0x20 && r[16..16 + |url|] == url
            && r[16 + |url|] == 0x20 && r[17 + |url|..] == protocol
  {
    HighByte(id);
    hide Be32Bytes;
  }

  lemma HighByte(id: nat)
    requires id < TWO31
    ensures Be32Bytes(id + ENDPOINT_BIT)[0] >= 0x80
  {
  }

  /** Socket k in another phase until another time. */
  function Parked(w: Requests.World, k: nat, phase: Requests.Phase, retry: nat): Requests.World {
    if k < |w.peers| then w.(peers := w.peers[k := w.peers[k].(phase := phase, retryTime := retry)]) else w
  }

  lemma ParkedTwice(w: Requests.World, k: nat, phase: Requests.Phase, retry: nat, retry': nat)
    ensures Parked(Parked(w, k, phase, retry), k, phase, retry') == Parked(w, k, phase, retry')
  {
  }

  /** When a socket asks again after a reply. */
  function RetryAfter(walk: Reply.Walk, clock: nat): nat {
    clock + if walk.stop.Reached? then Requests.REQUEST_AGAIN_TIME else Requests.ERROR_RETRY_TIME
  }

  /** The index stays in order as long as nothing in it is undefined, and the endpoint list in
      step with what nanomsg has open as long as no open returns an id a second time. */
  ghost predicate StaysInOrder(x: Host<Socket>, y: Host<Socket>, rcs: nat -> int) {
    && (y.index.outcome == S.Fine && S.Consistent(x.index) ==> S.Consistent(y.index))
    && (y.endpoints.outcome != E.Undefined && E.FreshOpens(y.endpoints.calls, rcs) && E.Tracks(x.endpoints, rcs) ==>
          E.Tracks(y.endpoints, rcs))
  }

  lemma WalkKeepsOrder(x: Host<Socket>, s: Socket, steps: seq<Reply.Step>, rcs: nat -> int)
    ensures StaysInOrder(x, DoAll(x, s, steps, rcs), rcs)
  {
    hide DoAll, S.Consistent, E.FreshOpens, E.Tracks;
    var y := DoAll(x, s, steps, rcs);
    if y.index.outcome == S.Fine && S.Consistent(x.index) {
      StepsKeepIndex(x, s, steps, rcs);
    }
    if y.endpoints.outcome != E.Undefined && E.FreshOpens(y.endpoints.calls, rcs) && E.Tracks(x.endpoints, rcs) {
      StepsKeepTracks(x, s, steps, rcs);
    }
  }

  /** The endpoints and the options of a new socket. */
  const NEW_HOST: (E.Table, seq<Reply.Step>) := (E.Table([], true, [], E.Fine), [])

  // ----- The worker

  class Worker {
    const table: Table
    const index: Index
    const symbols: seq<Reply.Symbol>
    var lost: bool  // a read has left its buffer: what comes after that has no meaning

    /** What holds between any two events. */
    ghost predicate Valid()
      reads *
    {
      && table.Valid() && index.Valid() && Together()
      && forall s :: s in table.socks ==> s in index.sockets
    }

    /** Names of sockets are never reused, and sockets share nothing of their endpoint lists. */
    ghost predicate Together()
      reads *
    {
      && (forall s :: s in index.sockets ==> s.uid < table.born && s.endpoints.Valid())
      && (forall s, s' :: s in index.sockets && s' in index.sockets && s != s' ==>
            s.uid != s'.uid && s.endpoints.Footprint() !! s'.endpoints.Footprint())
    }

    /** Nothing has gone wrong so far. */
    ghost predicate Running()
      reads *
    {
      !lost && index.outcome == S.Fine && forall s :: s in index.sockets ==> s.endpoints.outcome == E.Fine
    }

    /** The endpoints and the options of all sockets there have been. */
    ghost function All(): map<Socket, (E.Table, seq<Reply.Step>)>
      reads *
    {
      map s | s in index.sockets :: (s.endpoints.View(), s.options)
    }

    /** Of all but `s`. */
    ghost function Rest(s: Socket?): map<Socket, (E.Table, seq<Reply.Step>)>
      reads *
    {
      map t | t in index.sockets && t != s :: (t.endpoints.View(), t.options)
    }

    /** The index is in order, and each endpoint list in step with what nanomsg has open, where
        `results(uid)(k)` is what call number k on the socket of that name returns. */
    ghost predicate InOrder(results: nat -> nat -> int)
      reads *
    {
      S.Consistent(index.State()) && forall s :: s in index.sockets ==> E.Tracks(s.endpoints.View(), results(s.uid))
    }

    /** Order is kept, whatever nanomsg returns. */
    twostate predicate OrderKept()
      reads *
    {
      forall results :: old(InOrder(results)) ==> InOrder(results)
    }

    constructor (symbols: seq<Reply.Symbol>, start: nat)
      ensures Valid() && Running() && table.View() == Requests.World([], true, start, 0, 0)
      ensures index.State() == S.Index([], [], {}, {}, [], S.Fine)
      ensures All() == map[] && forall results :: InOrder(results)
    {
      hide Table.Valid, Table.View, Index.Valid, Index.State, Index.Footprint, Together, Running;
      var t := new Table(start);
      label Listed:
      var x := new Index();
      t.Untouched@Listed();
      x.AllAllocated();
      label Made:
      this.symbols, table, index, lost := symbols, t, x, false;
      new;
      index.Untouched@Made();
      table.Untouched@Made();
      Empty();
    }

    lemma Empty()
      requires table.Valid() && index.Valid() && table.socks == [] && index.sockets == {}
      requires index.State() == S.Index([], [], {}, {}, [], S.Fine) && !lost
      ensures Valid() && Running()
      ensures All() == map[] && forall results :: InOrder(results)
    {
    }

    /** Order is kept if `rcs` is what calls on `s` return and no open there gives an id twice,
        unless something is undefined. */
    twostate predicate OrderKeptBy(s: Socket, rcs: nat -> int)
      reads *
    {
      index.outcome == S.Fine && s.endpoints.outcome != E.Undefined && E.FreshOpens(s.endpoints.calls, rcs) ==>
        forall results :: old(InOrder(results)) && results(s.uid) == rcs ==> InOrder(results)
    }

    /** Nothing about the endpoints of a socket has changed. */
    twostate predicate Kept(s: Socket)
      reads *
    {
      unchanged(s.endpoints, s.endpoints.list) && unchanged(old(s.endpoints.Footprint())) && unchanged(s`options)
    }

    twostate predicate AllKept()
      reads *
    {
      && index.sockets == old(index.sockets) && index.outcome == old(index.outcome)
      && forall s :: s in old(index.sockets) ==> Kept(s)
    }

    /** Where the endpoints are as they were. */
    twostate lemma StillTogether()
      requires old(Together()) && AllKept() && table.born >= old(table.born)
      ensures Together() && (old(Running()) && lost == old(lost) ==> Running())
      ensures All() == old(All())
    {
      hide *;
      TogetherStays();
      AllStays();
    }

    twostate lemma TogetherStays()
      requires old(Together()) && AllKept() && table.born >= old(table.born)
      ensures Together() && (old(Running()) && lost == old(lost) ==> Running())
    {
    }

    twostate lemma AllStays()
      requires AllKept()
      ensures All() == old(All())
    {
    }

    /** Order is a matter of the index and the endpoints. */
    twostate lemma SameOrder()
      requires index.State() == old(index.State()) && All() == old(All())
      ensures OrderKept()
    {
      hide S.Consistent, E.Tracks, Index.State;
      forall results | old(InOrder(results))
        ensures InOrder(results)
      {
        forall s | s in index.sockets
          ensures E.Tracks(s.endpoints.View(), results(s.uid))
        {
          assert s in All() && s in old(All());
        }
      }
    }

    /** The index and the table have no part in common. */
    lemma Disjoint()
      ensures table !in index.Footprint()
      ensures forall s: Socket :: s !in index.Footprint()
      ensures forall n: SocketLink :: n !in index.Footprint()
      ensures forall l: List<Socket?> :: l !in index.Footprint()
      ensures forall o :: o in index.Footprint() ==> allocated(o)
    {
      index.NoSockets();
      index.AllAllocated();
    }

    /** The worker itself is no part of what it works on. */
    lemma NoPart(s: Socket)
      ensures this !in index.Footprint() && this !in s.endpoints.Footprint()
    {
    }

    lemma Listed(k: nat)
      requires Valid() && k < |table.socks|
      ensures k < |table.list.links| && table.list.links[k].item == table.socks[k] && table.socks[k] in index.sockets
      ensures table.View().peers[k] == PeerOf(table.socks[k])
    {
      table.AtNode(k);
    }

    // ----- Commands

    method FindSocket(no: int) returns (item: Link?<Socket?>, ghost k: nat)
      requires Valid()
      ensures k == Requests.FindNo(table.View().peers, no)
      ensures k <= |table.socks| && (item != null <==> k < |table.socks|) &&
              (item != null ==> item == table.list.links[k])
      ensures Valid() && (old(Running()) ==> Running())
      ensures table.View() == old(table.View()) && index.State() == old(index.State()) && All() == old(All())
    {
      hide Table.Valid, Table.View, Index.Valid, Index.State, Index.Footprint, Together, Running;
      Disjoint();
      label Start:
      item, k := table.FindSocket(no);
      table.Untouched@Start();
      index.Untouched@Start();
      StillTogether@Start();
    }

    method Park(item: SocketLink, ghost k: nat, phase: Requests.Phase, retry: nat)
      requires Valid() && k < |table.socks| && table.list.links[k] == item && item.item == table.socks[k]
      modifies item.item`state, item.item`retryTime
      ensures Valid() && index.State() == old(index.State()) && (old(Running()) ==> Running())
      ensures table.View() == Parked(old(table.View()), k, phase, retry)
      ensures index.sockets == old(index.sockets) && All() == old(All())
      ensures forall s :: s in index.sockets ==> Hosted(index, s) == old(Hosted(index, s))
    {
      hide Table.Valid, Table.View, Index.Valid, Index.State, Index.Footprint, Together,
           EndpointList.SocketEndpoints.View;
      Disjoint();
      table.Park(item, k, phase, retry);
      index.Untouched();
      StillTogether();
    }

    twostate lemma RestKept(s: Socket?)
      requires index.sockets == old(index.sockets)
      requires forall t :: t in index.sockets ==> Hosted(index, t) == old(Hosted(index, t))
      ensures Rest(s) == old(Rest(s))
    {
      hide Index.State, EndpointList.SocketEndpoints.View;
    }

    lemma EndpointsAllocated()
      ensures forall s, o :: s in index.sockets && o in s.endpoints.Footprint() ==> allocated(o)
    {
    }

    /** A socket as it is before it has been listed. */
    ghost predicate Unlisted(s: Socket)
      reads *
    {
      s !in table.socks && s.uid == table.born && NotYetIn(s)
    }

    /** A socket that has been listed and is not in the index. */
    ghost predicate Awaiting(s: Socket)
      reads *
    {
      s.uid < table.born && NotYetIn(s) && forall t :: t in index.sockets ==> t.uid != s.uid
    }

    ghost predicate NotYetIn(s: Socket)
      reads *
    {
      && s !in index.sockets && s.subs !in index.Lists()
      && s.subs.Valid() && s.subs.Attached() && s.subs.links == []
      && s.endpoints.Valid() && s.endpoints.View() == E.Table([], true, [], E.Fine) && s.options == []
      && (forall t :: t in index.sockets ==> t.endpoints.Footprint() !! s.endpoints.Footprint())
    }

    method Create(no: int, url: Bytes, protocol: Bytes, protoid: int, id: nat, retry: nat, ghost now: nat)
      returns (s: Socket)
      requires Valid()
      ensures Valid() && fresh(s) && Unlisted(s)
      ensures PeerOf(s) == Requests.Peer(no, url, Requests.Starting, id, retry, table.born, None, now)
      ensures table.View() == old(table.View()) && index.State() == old(index.State())
      ensures (old(Running()) ==> Running()) && All() == old(All())
      ensures s.url == url && s.protocol == protocol && s.protoid == protoid
    {
      hide Table.Valid, Table.View, Index.Valid, Index.State, Index.Footprint, Together, Running,
           List.Valid, List.Attached, EndpointList.SocketEndpoints.View;
      Disjoint();
      EndpointsAllocated();
      label Start:
      s := new Socket(no, url, protocol, protoid, id, retry, table.born, now);
      table.Untouched@Start();
      index.Untouched@Start();
      StillTogether@Start();
    }

    method Enroll(s: Socket)
      requires Valid() && Unlisted(s)
      modifies table`socks, table`born, table.list, table.list.TailNode()`next, index`sockets
      ensures Valid() && index.State() == old(index.State()) && (old(Running()) ==> Running())
      ensures table.View()
           == old(table.View().(peers := if table.list.Attached() then table.View().peers + [PeerOf(s)]
                                         else table.View().peers,
                                born := table.born + 1))
      ensures All() == old(All())[s := NEW_HOST]
    {
      hide Table.Valid, Index.Valid, Index.State, Index.Footprint, Together, Running, Peers, List.Attached,
           AllKept, Unlisted;
      EnlistBeside(s);
      RegisterBeside(s);
    }

    method EnlistBeside(s: Socket)
      requires table.Valid() && index.Valid() && Together() && Unlisted(s)
      modifies table`socks, table`born, table.list, table.list.TailNode()`next
      ensures table.Valid() &&
              table.socks == if old(table.list.Attached()) then old(table.socks) + [s] else old(table.socks)
      ensures table.View()
           == old(table.View().(peers := if table.list.Attached() then table.View().peers + [PeerOf(s)]
                                         else table.View().peers,
                                born := table.born + 1))
      ensures index.Valid() && index.State() == old(index.State()) && index.sockets == old(index.sockets)
      ensures Together() && Awaiting(s) && (old(Running()) ==> Running()) && All() == old(All())
    {
      hide Table.Valid, Index.Valid, Index.State, Index.Footprint, Peers, List.Valid, List.Attached,
           NoRepeats, Together, Running, Awaiting, NotYetIn;
      Disjoint();
      table.Enlist(s);
      index.Untouched();
      StillTogether();
      StillAwaiting(s);
    }

    twostate lemma StillAwaiting(s: Socket)
      requires old(Together()) && old(Unlisted(s)) && AllKept() && Kept(s) && table.born == old(table.born) + 1
      requires unchanged(index) && unchanged(s.subs) && unchanged(old(s.subs.TailNode()))
      ensures Awaiting(s)
    {
    }

    ghost method RegisterBeside(s: Socket)
      requires table.Valid() && index.Valid() && Together() && Awaiting(s)
      modifies index`sockets
      ensures index.Valid() && index.sockets == old(index.sockets) + {s} && index.State() == old(index.State())
      ensures table.Valid() && table.View() == old(table.View())
      ensures Together() && (old(Running()) ==> Running()) && All() == old(All())[s := NEW_HOST]
    {
      hide Table.Valid, Table.View, Index.Valid, Index.State, Index.Footprint, List.Valid, List.Attached,
           Together, Running;
      index.Register(s);
      Registered(s);
      OneMore(s);
    }

    twostate lemma OneMore(s: Socket)
      requires old(Awaiting(s)) && index.sockets == old(index.sockets) + {s}
      requires Kept(s) && forall t :: t in old(index.sockets) ==> Kept(t)
      ensures All() == old(All())[s := NEW_HOST]
    {
    }

    twostate lemma Registered(s: Socket)
      requires old(Together()) && old(Awaiting(s)) && index.outcome == old(index.outcome) && lost == old(lost)
      requires index.sockets == old(index.sockets) + {s} && table.born == old(table.born)
      requires Kept(s) && forall t :: t in old(index.sockets) ==> Kept(t)
      ensures Together() && (old(Running()) ==> Running())
    {
    }

    /** `nc_process_configure`: a new socket starts with the id and the time its memory held. */
    method Configure(no: int, url: Bytes, protocol: Bytes, protoid: int, id: nat, retry: nat, ghost now: nat)
      returns (ghost added: Socket?)
      requires Valid()
      modifies table`socks, table`born, table.list, table.list.TailNode()`next,
               table.socks`state, table.socks`retryTime, index`sockets
      ensures Valid() && table.View() == old(Requests.Configure(table.View(), no, url, id, retry, now)).world
      ensures index.State() == old(index.State()) && (old(Running()) ==> Running())
      ensures added == null <==> old(Requests.FindNo(table.View().peers, no) < |table.View().peers|)
      ensures added != null ==> fresh(added) && added.uid == old(table.born)
      ensures added != null ==> added.url == url && added.protocol == protocol && added.protoid == protoid
      ensures All() == if added == null then old(All()) else old(All())[added := NEW_HOST]
      ensures OrderKept()
    {
      hide Valid, Running, Index.State, Table.Valid, Peers, Unlisted, List.Attached, All, OrderKept, NEW_HOST;
      var item, k := FindSocket(no);
      if item != null {
        Listed(k);
        Park(item, k, Requests.Starting, item.item.retryTime);
        added := null;
        SameOrder();
      } else {
        var s := Create(no, url, protocol, protoid, id, retry, now);
        added := s;
        NewName(s);
        Enroll(s);
        NewOrder(s);
      }
    }

    lemma NewName(s: Socket)
      requires Unlisted(s)
      ensures s.uid == table.born
    {
    }

    twostate lemma NewOrder(new s: Socket)
      requires index.State() == old(index.State()) && All() == old(All())[s := NEW_HOST]
      ensures OrderKept()
    {
      hide S.Consistent, Index.State, EndpointList.SocketEndpoints.View, E.Tracks;
      forall results | old(InOrder(results))
        ensures InOrder(results)
      {
        forall t | t in index.sockets
          ensures E.Tracks(t.endpoints.View(), results(t.uid))
        {
          assert t in All();
          NewTracks(results(t.uid));
          assert t != s ==> t in old(All());
        }
      }
    }

    lemma NewTracks(rcs: nat -> int)
      ensures E.Tracks(NEW_HOST.0, rcs)
    {
    }

    /** `nc_process_close`: the socket leaves the list and nothing else. */
    method Close(no: int)
      requires Valid()
      modifies table`socks, table.list`head, table.list`links
      modifies table.list.links`next, table.list.links`prev, table.list.links`home
      ensures Valid() && table.View() == old(Requests.Close(table.View(), no))
      ensures index.State() == old(index.State()) && index.sockets == old(index.sockets) &&
              (old(Running()) ==> Running())
      ensures All() == old(All()) && OrderKept()
    {
      hide Valid, Running, Index.State, Table.Valid, Table.View, Requests.FindNo, Without, All, OrderKept;
      var item, k := FindSocket(no);
      if item != null {
        Delist(item, k);
      }
      SameOrder();
    }

    method Delist(item: SocketLink, ghost k: nat)
      requires Valid() && k < |table.socks| && table.list.links[k] == item
      modifies table`socks, table.list`head, table.list`links
      modifies table.list.links`next, table.list.links`prev, table.list.links`home
      ensures Valid() && index.State() == old(index.State()) && (old(Running()) ==> Running())
      ensures All() == old(All())
      ensures var was := old(table.View());
              table.View() == was.(peers := was.peers[..k] + was.peers[k + 1..],
                                   attached := was.attached && k + 1 < |was.peers|)
    {
      hide Table.Valid, Index.Valid, Index.State, Index.Footprint, Together, Running, List.Attached, Peers,
           NoRepeats;
      Disjoint();
      table.Delist(item, k);
      index.Untouched();
      StillTogether();
    }

    // ----- Timers

    /** `nc_process_timers` */
    method ProcessTimers(now: nat, sends: nat -> Requests.Sending, later: nat) returns (timeout: nat)
      requires Valid()
      modifies table`nextId, table`issued
      modifies table.socks`state, table.socks`requestId, table.socks`retryTime, table.socks`issue, table.socks`lastTry
      ensures Valid() && table.View() == old(Requests.Timers(table.View(), now, sends)).world
      ensures timeout == Requests.Timeout(old(Requests.Timers(table.View(), now, sends)), later)
      ensures index.State() == old(index.State()) && (old(Running()) ==> Running())
      ensures All() == old(All()) && OrderKept()
    {
      hide Table.Valid, Table.View, Index.Valid, Index.State, Index.Footprint, Together, Running,
           Requests.Timers, All, OrderKept;
      Disjoint();
      timeout := table.ProcessTimers(now, sends, later);
      index.Untouched();
      StillTogether();
      SameOrder();
    }

    // ----- Updates

    /** The sockets that an update concerns. */
    ghost function ConcernedIds(msg: Bytes): set<nat>
      reads *
    {
      set s | s in index.sockets && Concerned(index.State().subs, msg, s) :: s.uid
    }

    /** `nc_process_updates` for one message. */
    method ProcessUpdate(msg: Bytes)
      requires Valid()
      modifies (set n | n in index.subs :: n.socket)`state
      ensures Valid() && table.View() == old(Requests.Update(table.View(), ConcernedIds(msg))).world
      ensures index.State() == old(index.State()) && (old(Running()) ==> Running())
      ensures All() == old(All()) && OrderKept()
    {
      hide Table.Valid, Index.Valid, Index.State, Index.Footprint, Together, Running, Concerned, Peers,
           ConcernedIds, Requests.Update, All, OrderKept;
      ghost var ids := ConcernedIds(msg);
      index.Dispatch(msg);
      table.StillValid();
      StillTogether();
      Restarted(msg, ids);
      SameOrder();
    }

    twostate lemma Restarted(new msg: Bytes, new ids: set<nat>)
      requires old(Together()) && ids == old(ConcernedIds(msg)) && unchanged(table) && unchanged(table.list)
      requires index.State() == old(index.State()) && index.sockets == old(index.sockets)
      requires forall s :: s in table.socks ==> s in index.sockets
      requires forall s :: s in index.sockets ==>
                 s.state == if Concerned(index.State().subs, msg, s) then Requests.Starting else old(s.state)
      requires forall s :: s in table.socks ==> PeerOf(s) == old(PeerOf(s)).(phase := s.state)
      ensures table.View() == old(Requests.Update(table.View(), ids)).world
    {
      hide Peers, Concerned, Index.State;
    }

    // ----- Replies

    method FindRequest(id: nat) returns (item: Link?<Socket?>, ghost k: nat)
      requires Valid()
      ensures k == Requests.FindId(table.View().peers, id)
      ensures k <= |table.socks| && (item != null <==> k < |table.socks|) &&
              (item != null ==> item == table.list.links[k])
      ensures Valid() && (old(Running()) ==> Running())
      ensures table.View() == old(table.View()) && index.State() == old(index.State()) && All() == old(All())
    {
      hide Table.Valid, Table.View, Index.Valid, Index.State, Index.Footprint, Together, Running;
      Disjoint();
      label Start:
      item, k := table.FindRequest(id);
      table.Untouched@Start();
      index.Untouched@Start();
      StillTogether@Start();
    }

    /** What the walk of a reply to `s` depends on. */
    function ContextOf(s: Socket, stale: int): Reply.Context {
      Reply.Context(symbols, s.protocol, s.protoid, stale)
    }

    /** A reply to the newest request of `s`, which is sleeping by now.  If a read leaves the
        buffer the contract tells what has been done by then, and the worker is lost. */
    method Answer(s: Socket, body: Bytes, stale: int, rcs: nat -> int) returns (stop: Reply.Stop)
      requires Valid() && Running() && s in table.socks && IsBuffer(body)
      modifies s`options, s.endpoints.Footprint(), index.Footprint(), this`lost
      ensures Valid() && table.View() == old(table.View()) && index.sockets == old(index.sockets)
      ensures unchanged(table) && unchanged(table.list) && unchanged(old(table.list.links))
      ensures Hosted(index, s) == DoAll(old(Hosted(index, s)), s, Reply.ReplyWalk(ContextOf(s, stale), body).steps, rcs)
      ensures Alive(Hosted(index, s)) ==>
                && stop == Reply.ReplyWalk(ContextOf(s, stale), body).stop
                && (Running() <==> !stop.Strayed?)
      ensures StaysInOrder(old(Hosted(index, s)), Hosted(index, s), rcs)
      ensures Rest(s) == old(Rest(s))
    {
      hide Table.Valid, Table.View, Index.Valid, Index.State, Index.Footprint,
           EndpointList.SocketEndpoints.Valid, EndpointList.SocketEndpoints.View, DoAll, Reply.ReplyWalk,
           Together, Kept, StaysInOrder, Rest, Running;
      EndpointsBeside(s);
      WalkKeepsOrder(Hosted(index, s), s, Reply.ReplyWalk(ContextOf(s, stale), body).steps, rcs);
      AllRunning(s);
      stop := ApplyBeside(s, body, stale, rcs);
      Answered(s);
      label Applied:
      Note(stop.Strayed?);
      RestKept@Applied(s);
    }

    lemma AllRunning(s: Socket)
      requires Running() && s in index.sockets
      ensures Alive(Hosted(index, s))
    {
      hide Index.State, EndpointList.SocketEndpoints.View;
    }

    /** The worker is lost once a read has left its buffer. */
    method Note(strayed: bool)
      requires Valid()
      modifies this`lost
      ensures Valid() && table.View() == old(table.View()) && index.State() == old(index.State())
      ensures unchanged(table) && unchanged(table.list) && unchanged(old(table.list.links))
      ensures index.sockets == old(index.sockets) && All() == old(All())
      ensures forall s :: s in index.sockets ==> Hosted(index, s) == old(Hosted(index, s))
      ensures Running() <==> old(Running()) && !strayed
    {
      hide Table.Valid, Table.View, Index.Valid, Index.State, Index.Footprint, Together, Running;
      Disjoint();
      NoParts();
      label Start:
      lost := lost || strayed;
      table.Untouched@Start();
      index.Untouched@Start();
      StillTogether@Start();
      Noted(strayed);
      HostsStay();
    }

    lemma NoParts()
      ensures this !in index.Footprint() && forall s: Socket :: this !in s.endpoints.Footprint()
    {
      forall s: Socket
        ensures this !in s.endpoints.Footprint()
      {
        NoPart(s);
      }
      NoFootprint();
    }

    lemma NoFootprint()
      ensures this !in index.Footprint()
    {
    }

    twostate lemma Noted(strayed: bool)
      requires AllKept() && lost == (old(lost) || strayed)
      ensures Running() <==> old(Running()) && !strayed
    {
    }

    twostate lemma HostsStay()
      requires index.sockets == old(index.sockets) && index.State() == old(index.State()) && All() == old(All())
      ensures forall s :: s in index.sockets ==> Hosted(index, s) == old(Hosted(index, s))
    {
      hide Index.State, EndpointList.SocketEndpoints.View;
      forall s | s in index.sockets
        ensures Hosted(index, s) == old(Hosted(index, s))
      {
        assert All()[s] == old(All()[s]);
      }
    }

    method ApplyBeside(s: Socket, body: Bytes, stale: int, rcs: nat -> int) returns (stop: Reply.Stop)
      requires table.Valid() && index.Valid() && s in index.sockets && s.endpoints.Valid() && Alive(Hosted(index, s))
      requires IsBuffer(body) && forall t :: t in index.sockets && t != s ==> Outside(t.endpoints.Footprint(), s)
      modifies s`options, s.endpoints.Footprint(), index.Footprint()
      ensures table.Valid() && table.View() == old(table.View()) && index.Valid() && index.sockets == old(index.sockets)
      ensures s.endpoints.Valid() && s.endpoints.Grew()
      ensures Hosted(index, s) == DoAll(old(Hosted(index, s)), s, Reply.ReplyWalk(ContextOf(s, stale), body).steps, rcs)
      ensures Alive(Hosted(index, s)) ==> stop == Reply.ReplyWalk(ContextOf(s, stale), body).stop
      ensures forall t :: t in old(index.sockets) && t != s ==> Kept(t)
      ensures lost == old(lost)
      ensures unchanged(table) && unchanged(table.list) && unchanged(old(table.list.links))
    {
      hide Table.Valid, Table.View, Index.Valid, Index.State, Index.Footprint,
           EndpointList.SocketEndpoints.Valid, EndpointList.SocketEndpoints.View, DoAll, Reply.ReplyWalk;
      Disjoint();
      EndpointsAllocated();
      NoPart(s);
      stop := ParseAndApply(ContextOf(s, stale), body, index, s, rcs);
      table.StillValid();
    }

    /** No part of what a reply to `s` may change. */
    ghost predicate Outside(os: set<object>, s: Socket)
      reads *
    {
      forall o :: o in os ==> o !in index.Footprint() && o !in s.endpoints.Footprint() && o != s
    }

    lemma EndpointsBeside(s: Socket)
      requires Together() && s in index.sockets
      ensures s.endpoints.Valid() && forall t :: t in index.sockets && t != s ==> Outside(t.endpoints.Footprint(), s)
    {
      forall t | t in index.sockets
        ensures t != s ==> Outside(t.endpoints.Footprint(), s)
      {
        index.Beside(t);
        hide Index.Footprint;
      }
    }

    twostate lemma Answered(s: Socket)
      requires old(Together()) && s in old(index.sockets) && index.sockets == old(index.sockets) &&
               table.born == old(table.born) && lost == old(lost)
      requires s.endpoints.Valid() && s.endpoints.Grew()
      requires forall t :: t in old(index.sockets) && t != s ==> Kept(t)
      ensures Together()
      ensures old(Running()) && index.outcome == S.Fine && s.endpoints.outcome == E.Fine ==> Running()
      ensures Rest(s) == old(Rest(s))
    {
      hide EndpointList.SocketEndpoints.Valid, EndpointList.SocketEndpoints.View;
    }

    /** One message of `nc_process_responses`: a reply is taken by the socket whose newest
        request it answers if that one is still waiting, and by nobody otherwise.  `clock` is
        the time when it has been applied.  A reply in which a read leaves the buffer loses
        the worker; the contract then tells what has been done by that time. */
    method ProcessResponse(buf: Bytes, clock: nat, stale: int, rcs: nat -> int) returns (taken: Socket?)
      requires Valid() && Running() && IsBuffer(buf)
      modifies table.socks`state, table.socks`retryTime, table.socks`options
      modifies set s, o | s in table.socks && o in s.endpoints.Footprint() :: o
      modifies index.Footprint(), this`lost
      ensures Valid()
      ensures taken == old(TakerOf(buf)) && Rest(taken) == old(Rest(taken))
      ensures |buf| < 5 || buf[0] < 0x80 ==> taken == null
      ensures taken == null ==>
                && Running() && table.View() == old(table.View()) && index.State() == old(index.State())
                && OrderKept()
      ensures taken != null ==> OrderKeptBy(taken, rcs)
      ensures taken != null ==>
                var walk := Reply.ReplyWalk(ContextOf(taken, stale), buf[4..]);
                && Hosted(index, taken) == DoAll(old(Hosted(index, taken)), taken, walk.steps, rcs)
                && StaysInOrder(old(Hosted(index, taken)), Hosted(index, taken), rcs)
                && (Alive(Hosted(index, taken)) ==>
                      && (Running() <==> !walk.stop.Strayed?)
                      && (!walk.stop.Strayed? ==>
                            table.View() ==
                            old(Requests.Reply(table.View(), ReplyId(buf).value, walk.stop.Reached?, clock)).world))
    {
      hide Valid, Running, Table.Valid, Table.View, Index.State, DoAll, Reply.ReplyWalk, Requests.FindId, Rest, All,
           StaysInOrder, OrderKept, OrderKeptBy;
      var id := ReplyId(buf);
      NotForUs(buf);
      if id.None? {
        SameOrder();
        return null;
      }
      var item, k := FindRequest(id.value);
      SameOrder();
      SameRest();
      if item == null { return null; }
      Listed(k);
      if item.item.state != Requests.RequestSent { return null; }
      taken := item.item;
      WalkKeepsOrder(Hosted(index, taken), taken, Reply.ReplyWalk(ContextOf(taken, stale), buf[4..]).steps, rcs);
      TakeReply(taken, item, k, buf[4..], clock, stale, rcs);
      ReplyOrder(taken, rcs);
    }

    twostate lemma SameRest()
      requires All() == old(All())
      ensures Rest(null) == old(Rest(null))
    {
      hide EndpointList.SocketEndpoints.View;
      assert All() == Rest(null) && old(All() == Rest(null));
    }

    twostate lemma ReplyOrder(s: Socket, new rcs: nat -> int)
      requires s in index.sockets && s in old(index.sockets) && index.sockets == old(index.sockets)
      requires StaysInOrder(old(Hosted(index, s)), Hosted(index, s), rcs) && Rest(s) == old(Rest(s))
      ensures OrderKeptBy(s, rcs)
    {
      hide S.Consistent, Index.State, EndpointList.SocketEndpoints.View, E.Tracks, E.FreshOpens;
      if index.outcome == S.Fine && s.endpoints.outcome != E.Undefined && E.FreshOpens(s.endpoints.calls, rcs) {
        forall results | old(InOrder(results)) && results(s.uid) == rcs
          ensures InOrder(results)
        {
          forall t | t in index.sockets
            ensures E.Tracks(t.endpoints.View(), results(t.uid))
          {
            assert t != s ==> t in Rest(s) && t in old(Rest(s));
          }
        }
      }
    }

    method TakeReply(s: Socket, item: SocketLink, ghost k: nat, body: Bytes, clock: nat, stale: int, rcs: nat -> int)
      requires Valid() && Running() && IsBuffer(body)
      requires k < |table.socks| && table.list.links[k] == item && item.item == s == table.socks[k]
      modifies s`state, s`retryTime, s`options, s.endpoints.Footprint(), index.Footprint(), this`lost
      ensures Valid() && index.sockets == old(index.sockets) && s in index.sockets
      ensures Hosted(index, s) == DoAll(old(Hosted(index, s)), s, Reply.ReplyWalk(ContextOf(s, stale), body).steps, rcs)
      ensures Alive(Hosted(index, s)) ==>
                var walk := Reply.ReplyWalk(ContextOf(s, stale), body);
                && (Running() <==> !walk.stop.Strayed?)
                && (!walk.stop.Strayed? ==>
                      table.View() == Parked(old(table.View()), k, Requests.Sleeping, RetryAfter(walk, clock)))
      ensures Rest(s) == old(Rest(s))
    {
      hide Valid, Running, Table.Valid, Table.View, Index.State, DoAll, Reply.ReplyWalk,
           EndpointList.SocketEndpoints.View, Hosted, Parked, Rest;
      ParkedTwice(table.View(), k, Requests.Sleeping, s.retryTime,
                  RetryAfter(Reply.ReplyWalk(ContextOf(s, stale), body), clock));
      var stop := AnswerAsleep(s, item, k, body, stale, rcs);
      if stop.Strayed? { return; }
      label Answered:
      Park(item, k, Requests.Sleeping,
           clock + if stop.Reached? then Requests.REQUEST_AGAIN_TIME else Requests.ERROR_RETRY_TIME);
      RestKept@Answered(s);
    }

    method AnswerAsleep(s: Socket, item: SocketLink, ghost k: nat, body: Bytes, stale: int, rcs: nat -> int)
      returns (stop: Reply.Stop)
      requires Valid() && Running() && IsBuffer(body)
      requires k < |table.socks| && table.list.links[k] == item && item.item == s == table.socks[k]
      modifies s`state, s`options, s`retryTime, s.endpoints.Footprint(), index.Footprint(), this`lost
      ensures Valid() && s in index.sockets && index.sockets == old(index.sockets)
      ensures k < |table.socks| && k < |table.list.links| && table.list.links[k] == item &&
              item.item == s == table.socks[k]
      ensures Hosted(index, s) == DoAll(old(Hosted(index, s)), s, Reply.ReplyWalk(ContextOf(s, stale), body).steps, rcs)
      ensures Alive(Hosted(index, s)) ==>
                stop == Reply.ReplyWalk(ContextOf(s, stale), body).stop && (Running() <==> !stop.Strayed?)
      ensures table.View() == Parked(old(table.View()), k, Requests.Sleeping, old(s.retryTime))
      ensures Rest(s) == old(Rest(s))
    {
      hide Valid, Running, Table.Valid, Table.View, Index.State, DoAll, Reply.ReplyWalk,
           EndpointList.SocketEndpoints.View, Hosted, Parked, Alive, Rest, StaysInOrder;
      Listed(k);
      Park(item, k, Requests.Sleeping, s.retryTime);
      RestKept(s);
      stop := Answer(s, body, stale, rcs);
    }

    /** The socket that takes a reply. */
    ghost function TakerOf(buf: Bytes): Socket?
      reads *
    {
      var peers := table.View().peers;
      var id := ReplyId(buf);
      if id.None? then null
      else
        var k := Requests.FindId(peers, id.value);
        if Requests.Takes(peers, id.value, k) then table.socks[k] else null
    }
  }
}
