/** The request side of the worker: its sockets, the commands that add and remove them, and
    the timers, replies and updates that drive the request each of them has open.

    A `Peer` is a configured socket on the worker's list.  Its last three fields record for
    the theorems what the C struct does not: a name that is never reused, the number of
    its newest request, and when that was tried. */
module Requests {
  import opened Wrappers
  import opened MsgPack

  const ERROR_RETRY_TIME := 100
  const REQUEST_WAIT_TIME := 1000
  const REQUEST_AGAIN_TIME := 5 * 60 * 1000
  const MAX_POLL := 60000

  datatype Phase = Starting | RequestSent | Sleeping

  datatype Peer = Peer(
    no: int, url: Bytes,
    phase: Phase, requestId: nat, retryTime: nat,
    uid: nat, issue: Option<nat>, lastTry: nat)

  /** The worker: the listed sockets, whether the list's tail still names its end, the next
      request id, and how many ids and sockets there have been. */
  datatype World = World(peers: seq<Peer>, attached: bool, nextId: nat, issued: nat, born: nat)

  /** What `nn_send` did with a request. */
  datatype Sending = Accepted | Busy | Interrupted

  /** What happened to a socket, for the record. */
  datatype Note =
    | Born(uid: nat)               // configured for the first time
    | Reset(uid: nat)              // configured again, or named by an update
    | Expired(uid: nat)            // its time was up
    | Sent(uid: nat, issue: nat)
    | Deferred(uid: nat, issue: nat)   // the request socket was busy
    | Cut(uid: nat, issue: nat)        // the send was interrupted
    | Applied(uid: nat, issue: nat)

  datatype Step = Step(world: World, notes: seq<Note>)

  // ----- Commands

  /** `nc_list_find`, or the length of the list. */
  function FindNo(peers: seq<Peer>, no: int): (k: nat)
    ensures k <= |peers| && (k < |peers| ==> peers[k].no == no)
    ensures forall j :: 0 <= j < k ==> peers[j].no != no
  {
    if peers == [] || peers[0].no == no then 0 else 1 + FindNo(peers[1..], no)
  }

  /** `nc_process_configure`.  A new socket starts with whatever id and time its memory held;
      through a tail that does not name the end it goes on a chain nobody walks. */
  function Configure(w: World, no: int, url: Bytes, id: nat, retry: nat, now: nat): Step {
    var k := FindNo(w.peers, no);
    if k < |w.peers| then
      Step(w.(peers := w.peers[k := w.peers[k].(phase := Starting)]), [Reset(w.peers[k].uid)])
    else
      var p := Peer(no, url, Starting, id, retry, w.born, None, now);
      Step(w.(peers := if w.attached then w.peers + [p] else w.peers, born := w.born + 1), [Born(w.born)])
  }

  /** `nc_process_close` */
  function Close(w: World, no: int): World {
    var k := FindNo(w.peers, no);
    if k == |w.peers| then w
    else w.(peers := w.peers[..k] + w.peers[k + 1..], attached := w.attached && k + 1 < |w.peers|)
  }

  // ----- Timers

  function Min(a: nat, b: nat): nat {
    if a > b then b else a
  }

  function NextId(id: nat): nat {
    if id + 1 == TWO31 then 0 else id + 1
  }

  /** One turn of the timer loop: the socket after it, the earliest time to wake up, and
      whether the loop goes on. */
  datatype Turn = Turn(peer: Peer, wake: nat, sent: bool, goOn: bool, notes: seq<Note>)

  function TimerTurn(p: Peer, nextId: nat, issued: nat, now: nat, wake: nat, outcome: Sending): Turn {
    var expired := p.phase != Starting && p.retryTime <= now;
    var wake := if expired then wake else Min(wake, p.retryTime);
    var notes := if expired then [Expired(p.uid)] else [];
    if p.phase != Starting && !expired then Turn(p, wake, false, true, [])
    else
      var q := p.(phase := Starting, requestId := nextId, issue := Some(issued), lastTry := now);
      match outcome
      case Interrupted => Turn(q, wake, true, false, notes + [Cut(p.uid, issued)])
      case Busy =>
        var r := q.(phase := Sleeping, retryTime := now + ERROR_RETRY_TIME);
        Turn(r, Min(wake, r.retryTime), true, true, notes + [Deferred(p.uid, issued)])
      case Accepted =>
        var r := q.(phase := RequestSent, retryTime := now + REQUEST_WAIT_TIME);
        Turn(r, Min(wake, r.retryTime), true, true, notes + [Sent(p.uid, issued)])
  }

  /** The worker after the timer turn of socket k. */
  function AfterTurn(w: World, k: nat, t: Turn): World
    requires k < |w.peers|
  {
    w.(peers := w.peers[k := t.peer],
       nextId := if t.sent then NextId(w.nextId) else w.nextId,
       issued := if t.sent then w.issued + 1 else w.issued)
  }

  /** What the timer loop has done by the time it stops. */
  datatype Pass = Pass(world: World, wake: nat, complete: bool, notes: seq<Note>)

  /** The timer loop from socket k on; `sends(n)` is how the send of request number n goes. */
  function TimersFrom(w: World, k: nat, now: nat, wake: nat, sends: nat -> Sending): (r: Pass)
    requires k <= |w.peers|
    ensures |r.world.peers| == |w.peers|
    decreases |w.peers| - k
  {
    if k == |w.peers| then Pass(w, wake, true, [])
    else
      var t := TimerTurn(w.peers[k], w.nextId, w.issued, now, wake, sends(w.issued));
      if !t.goOn then Pass(AfterTurn(w, k, t), t.wake, false, t.notes)
      else
        var rest := TimersFrom(AfterTurn(w, k, t), k + 1, now, t.wake, sends);
        rest.(notes := t.notes + rest.notes)
  }

  /** `nc_process_timers` */
  function Timers(w: World, now: nat, sends: nat -> Sending): Pass {
    TimersFrom(w, 0, now, now + MAX_POLL, sends)
  }

  /** What it returns when the clock shows `later` at its end. */
  function Timeout(p: Pass, later: nat): nat {
    if p.complete && p.wake > later then p.wake - later else 0
  }

  // ----- Replies and updates

  /** First socket whose request has this id, or the length of the list. */
  function FindId(peers: seq<Peer>, id: nat): (k: nat)
    ensures k <= |peers| && (k < |peers| ==> peers[k].requestId == id)
    ensures forall j :: 0 <= j < k ==> peers[j].requestId != id
  {
    if peers == [] || peers[0].requestId == id then 0 else 1 + FindId(peers[1..], id)
  }

  /** A reply with this id is taken by socket k. */
  predicate Takes(peers: seq<Peer>, id: nat, k: nat) {
    k < |peers| && k == FindId(peers, id) && peers[k].phase == RequestSent
  }

  /** `nc_process_responses` for one reply; `ok` is what `nc_parse_and_apply` returned. */
  function Reply(w: World, id: nat, ok: bool, now: nat): Step {
    var k := FindId(w.peers, id);
    if !Takes(w.peers, id, k) then Step(w, [])
    else
      var p := w.peers[k];
      var q := p.(phase := Sleeping, retryTime := now + if ok then REQUEST_AGAIN_TIME else ERROR_RETRY_TIME);
      Step(w.(peers := w.peers[k := q]), [Applied(p.uid, if p.issue.Some? then p.issue.value else 0)])
  }

  /** `nc_process_updates` for one message that concerns the sockets `uids`. */
  function Update(w: World, uids: set<nat>): Step {
    Step(w.(peers := Restarted(w.peers, uids)), Resets(w.peers, uids))
  }

  function Restarted(peers: seq<Peer>, uids: set<nat>): (r: seq<Peer>)
    ensures |r| == |peers|
    ensures forall k :: 0 <= k < |r| ==> r[k] == if peers[k].uid in uids then peers[k].(phase := Starting) else peers[k]
  {
    seq(|peers|, k requires 0 <= k < |peers| => if peers[k].uid in uids then peers[k].(phase := Starting) else peers[k])
  }

  function Resets(peers: seq<Peer>, uids: set<nat>): (r: seq<Note>)
    ensures forall n :: n in r ==> n.Reset?
  {
    if peers == [] then []
    else (if peers[0].uid in uids then [Reset(peers[0].uid)] else []) + Resets(peers[1..], uids)
  }
}
