/** The worker as a whole over runs of any inputs: its list of sockets, the endpoint list of every
    socket there has been, and the subscription index, with replies as bytes. */
module WholeRuns {
  import opened Wrappers
  import opened MsgPack
  import opened Requests
  import opened RequestRuns
  import opened Effects
  import Holdings
  import Reply
  import E = Endpoints
  import S = Subscriptions

  /** An event; for a reply, what its walk depends on besides the state, and its bytes. */
  datatype Input =
    | Other(event: Event)
    | Told(id: nat, now: nat, context: Reply.Context, body: Bytes)

  /** `tables` has the endpoints of each socket by name; `lost` is a worker in which a read has
      left the buffer. */
  datatype Whole = Whole(world: World, tables: map<nat, E.Table>, index: S.Index<nat>, lost: bool)

  const NEW_TABLE: E.Table := E.Table([], true, [], E.Fine)

  /** The host of socket `s`, with the options set from here on. */
  function HostOf(w: Whole, s: nat): Host<nat>
    requires s in w.tables
  {
    Host([], w.tables[s], w.index)
  }

  /** `results(s)(k)` is what nanomsg call number k on socket `s` returns. */
  function After(w: Whole, i: Input, results: nat -> nat -> int): Whole {
    if w.lost then w
    else
      match i
      case Other(e) =>
        w.(world := Next(Run(w.world, []), e).world,
           tables := if e.Configured? && FindNo(w.world.peers, e.no) == |w.world.peers|
                     then w.tables[w.world.born := NEW_TABLE] else w.tables)
      case Told(id, now, context, body) =>
        var s := Holdings.Taker(w.world, id);
        if s.None? || s.value !in w.tables || !IsBuffer(body) then w
        else Answered(w, s.value, id, now, Reply.ReplyWalk(context, body), results(s.value))
  }

  function Answered(w: Whole, s: nat, id: nat, now: nat, walk: Reply.Walk, rcs: nat -> int): Whole
    requires s in w.tables
  {
    var y := DoAll(HostOf(w, s), s, walk.steps, rcs);
    Whole(Next(Run(w.world, []), Replied(id, walk.stop.Reached?, now)).world,
          w.tables[s := y.endpoints], y.index, walk.stop.Strayed?)
  }

  function AfterAll(id0: nat, inputs: seq<Input>, results: nat -> nat -> int): Whole
    requires id0 < TWO31
  {
    if inputs == [] then Whole(Start(id0).world, map[], Holdings.NO_SUBS, false)
    else
      var n := |inputs| - 1;
      After(AfterAll(id0, inputs[..n], results), inputs[n], results)
  }

  /** The index is in order as long as nothing in it is undefined, and every endpoint list in step
      with what nanomsg has open as long as nothing in it is undefined and no open on its
      socket has given an id twice. */
  ghost predicate InOrder(w: Whole, results: nat -> nat -> int) {
    && (w.index.outcome == S.Fine ==> S.Consistent(w.index))
    && (forall s :: s in w.tables ==> TableInOrder(w.tables[s], results(s)))
  }

  ghost predicate TableInOrder(t: E.Table, rcs: nat -> int) {
    t.outcome != E.Undefined && E.FreshOpens(t.calls, rcs) ==> E.Tracks(t, rcs)
  }

  lemma NewInOrder(rcs: nat -> int)
    ensures TableInOrder(NEW_TABLE, rcs)
  {
  }

  lemma WalkInOrder(x: Host<nat>, s: nat, steps: seq<Reply.Step>, rcs: nat -> int)
    requires TableInOrder(x.endpoints, rcs) && (x.index.outcome == S.Fine ==> S.Consistent(x.index))
    ensures var y := DoAll(x, s, steps, rcs);
            TableInOrder(y.endpoints, rcs) && (y.index.outcome == S.Fine ==> S.Consistent(y.index))
  {
    hide DoAll, S.Consistent, E.Tracks, E.FreshOpens;
    var y := DoAll(x, s, steps, rcs);
    UndefinedIndexStays(x, s, steps, rcs);
    UndefinedEndpointsStay(x, s, steps, rcs);
    StepsOnlyCall(x, s, steps, rcs);
    if y.index.outcome == S.Fine {
      StepsKeepIndex(x, s, steps, rcs);
    }
    if y.endpoints.outcome != E.Undefined && E.FreshOpens(y.endpoints.calls, rcs) {
      E.FreshBefore(x.endpoints.calls, y.endpoints.calls, rcs);
      StepsKeepTracks(x, s, steps, rcs);
    }
  }

  lemma InputInOrder(w: Whole, i: Input, results: nat -> nat -> int)
    requires InOrder(w, results)
    ensures InOrder(After(w, i, results), results)
  {
    hide DoAll, S.Consistent, TableInOrder, Next, FindNo, Reply.ReplyWalk, Holdings.Taker;
    if !w.lost {
      match i
      case Other(e) => NewInOrder(results(w.world.born));
      case Told(id, now, context, body) =>
        var s := Holdings.Taker(w.world, id);
        if s.Some? && s.value in w.tables && IsBuffer(body) {
          WalkInOrder(HostOf(w, s.value), s.value, Reply.ReplyWalk(context, body).steps, results(s.value));
        }
    }
  }

  /** In every reachable state. */
  lemma {:induction false} RunInOrder(id0: nat, inputs: seq<Input>, results: nat -> nat -> int)
    requires id0 < TWO31
    ensures InOrder(AfterAll(id0, inputs, results), results)
  {
    hide InOrder, After;
    if inputs == [] {
      StartInOrder(id0, results);
    } else {
      var n := |inputs| - 1;
      RunInOrder(id0, inputs[..n], results);
      InputInOrder(AfterAll(id0, inputs[..n], results), inputs[n], results);
    }
  }

  lemma StartInOrder(id0: nat, results: nat -> nat -> int)
    requires id0 < TWO31
    ensures InOrder(AfterAll(id0, [], results), results)
  {
    Holdings.NothingHeld();
  }

  // ----- Every socket has its table

  /** Every name there has been has its endpoint list, and every listed socket is one of them. */
  ghost predicate AllTabled(w: Whole) {
    && (forall s: nat :: s in w.tables <==> s < w.world.born)
    && (forall s :: s in Holdings.Uids(w.world.peers) ==> s < w.world.born)
  }

  lemma InputTabled(w: Whole, i: Input, results: nat -> nat -> int)
    requires AllTabled(w)
    ensures AllTabled(After(w, i, results))
  {
    hide DoAll, FindNo, Reply.ReplyWalk;
    if !w.lost {
      match i
      case Other(e) => EventNames(w.world, e);
      case Told(id, now, context, body) =>
        EventNames(w.world, Replied(id, true, now));
        EventNames(w.world, Replied(id, false, now));
        hide Next, Holdings.Uids, Holdings.Taker;
    }
  }

  /** A new socket takes the next name, and nothing else is named. */
  lemma EventNames(w: World, e: Event)
    requires forall s :: s in Holdings.Uids(w.peers) ==> s < w.born
    ensures var w' := Next(Run(w, []), e).world;
            && w'.born == (if e.Configured? && FindNo(w.peers, e.no) == |w.peers| then w.born + 1 else w.born)
            && forall s :: s in Holdings.Uids(w'.peers) ==> s < w'.born
  {
    hide FindNo, TimersFrom, FindId;
    var w' := Next(Run(w, []), e).world;
    match e
    case Closed(no) => CloseNames(w, no);
    case TimersRan(now, sends) => Holdings.TimersList(w, 0, now, now + MAX_POLL, sends);
    case Configured(no, url, id, retry, now) => ConfigureNames(w, no, url, id, retry, now);
    case Replied(id, ok, now) => Holdings.ReplyLists(w, id, ok, now);
    case Updated(uids) => assert Holdings.Uids(Restarted(w.peers, uids)) == Holdings.Uids(w.peers);
  }

  lemma CloseNames(w: World, no: int)
    ensures forall s :: s in Holdings.Uids(Close(w, no).peers) ==> s in Holdings.Uids(w.peers)
  {
    hide FindNo;
    var k := FindNo(w.peers, no);
    if k < |w.peers| {
      var rest := w.peers[..k] + w.peers[k + 1..];
      forall s | s in Holdings.Uids(rest)
        ensures s in Holdings.Uids(w.peers)
      {
        var j :| 0 <= j < |rest| && rest[j].uid == s;
        assert Holdings.Uids(w.peers)[if j < k then j else j + 1] == s;
      }
    }
  }

  lemma ConfigureNames(w: World, no: int, url: Bytes, id: nat, retry: nat, now: nat)
    requires forall s :: s in Holdings.Uids(w.peers) ==> s < w.born
    ensures var w' := Configure(w, no, url, id, retry, now).world;
            && w'.born == (if FindNo(w.peers, no) == |w.peers| then w.born + 1 else w.born)
            && forall s :: s in Holdings.Uids(w'.peers) ==> s < w'.born
  {
    hide FindNo;
    var w' := Configure(w, no, url, id, retry, now).world;
    if FindNo(w.peers, no) == |w.peers| && w.attached {
      assert Holdings.Uids(w'.peers) == Holdings.Uids(w.peers) + [w.born];
    } else {
      assert Holdings.Uids(w'.peers) == Holdings.Uids(w.peers);
    }
  }

  /** So a reply that is taken always finds the endpoints of its socket. */
  lemma {:induction false} RunTabled(id0: nat, inputs: seq<Input>, results: nat -> nat -> int)
    requires id0 < TWO31
    ensures AllTabled(AfterAll(id0, inputs, results))
  {
    hide AllTabled, After;
    if inputs == [] {
      StartTabled(id0, results);
    } else {
      var n := |inputs| - 1;
      RunTabled(id0, inputs[..n], results);
      InputTabled(AfterAll(id0, inputs[..n], results), inputs[n], results);
    }
  }

  lemma StartTabled(id0: nat, results: nat -> nat -> int)
    requires id0 < TWO31
    ensures AllTabled(AfterAll(id0, [], results))
  {
  }
}
