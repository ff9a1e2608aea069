/** What a reply does to a socket: the steps of its walk, carried out one after the other on
    the socket's options, its endpoints and the subscription index. */
module Effects {
  import opened Wrappers
  import opened MsgPack
  import opened Wire
  import opened Reply
  import opened ReplyForm
  import E = Endpoints
  import S = Subscriptions

  /** `options` are the `nn_setsockopt` calls made on the socket. */
  datatype Host<O(==)> = Host(options: seq<Step>, endpoints: E.Table, index: S.Index<O>)

  /** Nothing has gone wrong so far. */
  predicate Alive<O(==)>(x: Host<O>) {
    x.endpoints.outcome == E.Fine && x.index.outcome == S.Fine
  }

  /** One step for socket `s`; `rcs(k)` is what nanomsg call number k returns. */
  function Do<O(==)>(x: Host<O>, s: O, step: Step, rcs: nat -> int): Host<O> {
    if !Alive(x) then x
    else
      match step
      case SetOption(_, _, _) => x.(options := x.options + [step])
      case Unmark => x.(endpoints := E.Unmark(x.endpoints))
      case Address(kind, addr) =>
        x.(endpoints := E.Use(x.endpoints, E.Wanted(kind, addr), rcs(|x.endpoints.calls|)))
      case Settle => x.(endpoints := E.Settle(x.endpoints))
      case UnmarkTopics => x.(index := S.Unmark(x.index, s))
      case Topic(name) => x.(index := S.Use(x.index, s, name))
      case SettleTopics => x.(index := S.Settle(x.index, s))
  }

  function DoAll<O(==)>(x: Host<O>, s: O, steps: seq<Step>, rcs: nat -> int): Host<O>
    decreases |steps|
  {
    if steps == [] then x else DoAll(Do(x, s, steps[0], rcs), s, steps[1..], rcs)
  }

  lemma {:induction false} DoBoth<O>(x: Host<O>, s: O, a: seq<Step>, b: seq<Step>, rcs: nat -> int)
    ensures DoAll(x, s, a + b, rcs) == DoAll(DoAll(x, s, a, rcs), s, b, rcs)
    decreases |a|
  {
    if a == [] {
      assert a + b == b;
    } else {
      assert (a + b)[1..] == a[1..] + b;
      hide Do;
      DoBoth(Do(x, s, a[0], rcs), s, a[1..], b, rcs);
    }
  }

  lemma DoOne<O>(x: Host<O>, s: O, step: Step, rcs: nat -> int)
    ensures DoAll(x, s, [step], rcs) == Do(x, s, step, rcs)
  {
    hide Do;
    assert DoAll(Do(x, s, step, rcs), s, [step][1..], rcs) == Do(x, s, step, rcs);
  }

  lemma {:induction false} DeadStays<O>(x: Host<O>, s: O, steps: seq<Step>, rcs: nat -> int)
    requires !Alive(x)
    ensures DoAll(x, s, steps, rcs) == x
    decreases |steps|
  {
    if steps != [] {
      DeadStays(Do(x, s, steps[0], rcs), s, steps[1..], rcs);
    }
  }

  // ----- The phases of a walk

  predicate AllSettings(steps: seq<Step>) {
    forall t :: t in steps ==> t.SetOption?
  }

  predicate AllAddresses(steps: seq<Step>) {
    forall t :: t in steps ==> t.SetOption? || t.Address?
  }

  predicate AllTopics(steps: seq<Step>) {
    forall t :: t in steps ==> t.Topic?
  }

  function Settings(steps: seq<Step>): seq<Step> {
    if steps == [] then []
    else (if steps[0].SetOption? then [steps[0]] else []) + Settings(steps[1..])
  }

  function Wanteds(steps: seq<Step>): seq<E.Wanted> {
    if steps == [] then []
    else (if steps[0].Address? then [E.Wanted(steps[0].kind, steps[0].addr)] else []) + Wanteds(steps[1..])
  }

  function Names(steps: seq<Step>): seq<Bytes> {
    if steps == [] then []
    else (if steps[0].Topic? then [steps[0].name] else []) + Names(steps[1..])
  }

  lemma {:induction false} DoSettings<O>(x: Host<O>, s: O, steps: seq<Step>, rcs: nat -> int)
    requires AllSettings(steps) && Alive(x)
    ensures DoAll(x, s, steps, rcs) == x.(options := x.options + steps)
    decreases |steps|
  {
    if steps == [] {
      assert x.options + [] == x.options;
    } else {
      assert steps[0] in steps && AllSettings(steps[1..]);
      assert x.options + steps == x.options + [steps[0]] + steps[1..];
      hide AllSettings;
      DoSettings(x.(options := x.options + [steps[0]]), s, steps[1..], rcs);
    }
  }

  lemma {:induction false} OnlySettings(steps: seq<Step>)
    requires AllSettings(steps)
    ensures Settings(steps) == steps && Wanteds(steps) == [] && Names(steps) == []
  {
    if steps != [] {
      assert steps == [steps[0]] + steps[1..];
      OnlySettings(steps[1..]);
    }
  }

  /** Options and addresses do not touch the index, and the addresses act on the endpoints as
      if there were no options between them. */
  lemma {:induction false} DoAddresses<O>(x: Host<O>, s: O, steps: seq<Step>, rcs: nat -> int)
    requires AllAddresses(steps) && x.index.outcome == S.Fine
    ensures var y := DoAll(x, s, steps, rcs);
            && y.index == x.index
            && y.endpoints == E.UseAll(x.endpoints, Wanteds(steps), rcs)
            && (y.endpoints.outcome == E.Fine ==> y.options == x.options + Settings(steps))
    decreases |steps|
  {
    hide E.Use;
    if steps == [] {
      assert x.options + [] == x.options;
    } else {
      assert steps == [steps[0]] + steps[1..];
      if Alive(x) {
        DoAddresses(Do(x, s, steps[0], rcs), s, steps[1..], rcs);
        assert x.options + Settings(steps)
            == x.options + (if steps[0].SetOption? then [steps[0]] else []) + Settings(steps[1..]);
        WantedsRest(steps);
      } else {
        DeadStays(x, s, steps, rcs);
        EndpointsStay(x.endpoints, Wanteds(steps), rcs);
      }
    }
  }

  lemma WantedsRest(steps: seq<Step>)
    requires steps != []
    ensures steps[0].Address? ==>
              Wanteds(steps)[0] == E.Wanted(steps[0].kind, steps[0].addr) && Wanteds(steps)[1..] == Wanteds(steps[1..])
    ensures !steps[0].Address? ==> Wanteds(steps) == Wanteds(steps[1..])
  {
  }

  lemma {:induction false} EndpointsStay(t: E.Table, ws: seq<E.Wanted>, rcs: nat -> int)
    requires t.outcome != E.Fine
    ensures E.UseAll(t, ws, rcs) == t
    decreases |ws|
  {
    if ws != [] {
      EndpointsStay(E.Use(t, ws[0], rcs(|t.calls|)), ws[1..], rcs);
    }
  }

  lemma {:induction false} DoTopics<O>(x: Host<O>, s: O, steps: seq<Step>, rcs: nat -> int)
    requires AllTopics(steps) && x.endpoints.outcome == E.Fine
    ensures DoAll(x, s, steps, rcs) == x.(index := S.UseAll(x.index, s, Names(steps)))
    decreases |steps|
  {
    hide S.Use;
    if steps != [] {
      assert steps == [steps[0]] + steps[1..];
      if Alive(x) {
        assert Names(steps) == [steps[0].name] + Names(steps[1..]);
        DoTopics(Do(x, s, steps[0], rcs), s, steps[1..], rcs);
      } else {
        DeadStays(x, s, steps, rcs);
        S.UndefinedStays(x.index, s, Names(steps));
      }
    }
  }

  /** A whole reply's worth of steps. */
  lemma DoReply<O>(x: Host<O>, s: O, options: seq<Step>, addresses: seq<Step>, topics: seq<Step>, rcs: nat -> int)
    requires Alive(x) && AllSettings(options) && AllAddresses(addresses) && AllTopics(topics)
    ensures var all := options + ([Unmark] + addresses + [Settle, UnmarkTopics] + (topics + [SettleTopics]));
            var y := DoAll(x, s, all, rcs);
            && y.endpoints == E.Reconcile(x.endpoints, Wanteds(addresses), rcs)
            && y.index == (if y.endpoints.outcome == E.Fine then S.Reindex(x.index, s, Names(topics)) else x.index)
            && (y.endpoints.outcome == E.Fine ==> y.options == x.options + options + Settings(addresses))
  {
    hide DoAll, AllSettings, AllAddresses, AllTopics, Settings, Wanteds, Names, E.Use, E.UseAll, E.Settle,
         S.UseAll, S.Settle;
    DoBoth(x, s, options, [Unmark] + addresses + [Settle, UnmarkTopics] + (topics + [SettleTopics]), rcs);
    DoSettings(x, s, options, rcs);
    var x1 := x.(options := x.options + options);
    DoBoth(x1, s, [Unmark] + addresses + [Settle, UnmarkTopics], topics + [SettleTopics], rcs);
    DoAddressPhase(x1, s, addresses, rcs);
    var x2 := DoAll(x1, s, [Unmark] + addresses + [Settle, UnmarkTopics], rcs);
    DoBoth(x2, s, topics, [SettleTopics], rcs);
    if x2.endpoints.outcome == E.Fine {
      DoTopics(x2, s, topics, rcs);
      var x3 := x2.(index := S.UseAll(x2.index, s, Names(topics)));
      DoOne(x3, s, SettleTopics, rcs);
      SettleUndefined(x3.index, s);
    } else {
      DeadStays(x2, s, topics, rcs);
      DeadStays(x2, s, [SettleTopics], rcs);
    }
  }

  lemma SettleUndefined<O>(x: S.Index<O>, s: O)
    ensures x.outcome != S.Fine ==> S.Settle(x, s) == x
  {
  }

  lemma DoAddressPhase<O>(x: Host<O>, s: O, addresses: seq<Step>, rcs: nat -> int)
    requires Alive(x) && AllAddresses(addresses)
    ensures var y := DoAll(x, s, [Unmark] + addresses + [Settle, UnmarkTopics], rcs);
            && y.endpoints == E.Reconcile(x.endpoints, Wanteds(addresses), rcs)
            && y.index == (if y.endpoints.outcome == E.Fine then S.Unmark(x.index, s) else x.index)
            && (y.endpoints.outcome == E.Fine ==> y.options == x.options + Settings(addresses))
  {
    hide DoAll, AllAddresses, Settings, Wanteds, E.Use, E.UseAll, E.Settle;
    DoBoth(x, s, [Unmark] + addresses, [Settle, UnmarkTopics], rcs);
    DoBoth(x, s, [Unmark], addresses, rcs);
    DoOne(x, s, Unmark, rcs);
    var x1 := Do(x, s, Unmark, rcs);
    DoAddresses(x1, s, addresses, rcs);
    var x2 := DoAll(x1, s, addresses, rcs);
    assert [Settle, UnmarkTopics] == [Settle] + [UnmarkTopics];
    DoBoth(x2, s, [Settle], [UnmarkTopics], rcs);
    DoOne(x2, s, Settle, rcs);
    DoOne(Do(x2, s, Settle, rcs), s, UnmarkTopics, rcs);
    SettleDead(x2.endpoints);
  }

  lemma SettleDead(t: E.Table)
    ensures t.outcome != E.Fine ==> E.Settle(t) == t
  {
  }

  // ----- The shape of a walk

  lemma {:induction false} ElementsAreSettings(b: Bytes, i: nat, level: int, id: int, n: int)
    requires i <= |b|
    ensures AllSettings(ElementsAt(b, i, level, id, n).steps)
    decreases n
  {
    hide ElementAt;
    if n > 0 {
      var e := ElementAt(b, i);
      if !e.Wild? {
        ElementsAreSettings(b, if e.Hit? then e.next else i, level, id, n - 1);
      }
    }
  }

  lemma OptionIsSettings(b: Bytes, i: nat, level: int, id: int)
    requires i <= |b|
    ensures AllSettings(OptionAt(b, i, level, id).steps)
  {
    hide ElementAt, ArrayAt, ElementsAt;
    var list := ArrayAt(b, i);
    if list.Hit? {
      ElementsAreSettings(b, list.next, level, id, list.value);
    }
  }

  lemma {:induction false} SocketOptionsAreSettings(c: Context, b: Bytes, i: nat, n: int, optid: int)
    requires i <= |b| && IsBuffer(b)
    ensures AllSettings(SocketOptionsAt(c, b, i, n, optid).steps)
    decreases n
  {
    hide StringAt, SkipAt, OptionAt, SocketLevel, SymbolValue;
    if n > 0 && StringAt(b, i).Hit? {
      var Hit(name, j) := StringAt(b, i);
      match SymbolValue(c.symbols, name)
      case Some(id) =>
        OptionIsSettings(b, j, SocketLevel(c, name), id);
        var value := OptionAt(b, j, SocketLevel(c, name), id);
        if value.stop.Reached? {
          SocketOptionsAreSettings(c, b, value.stop.next, n - 1, id);
        }
      case None =>
        if SkipAt(b, j).Past? {
          SocketOptionsAreSettings(c, b, SkipAt(b, j).next, n - 1, optid);
        }
    }
  }

  lemma {:induction false} EndpointOptionsAreSettings(c: Context, b: Bytes, i: nat, n: int, optid: int,
                                                      transport: Symbol)
    requires i <= |b| && IsBuffer(b)
    ensures AllSettings(EndpointOptionsAt(c, b, i, n, optid, transport).steps)
    decreases n
  {
    hide StringAt, SkipAt, OptionAt, EndpointLevel, SymbolValue;
    if n > 0 && StringAt(b, i).Hit? {
      var Hit(name, j) := StringAt(b, i);
      var known := SymbolValue(c.symbols, name);
      var id := if known.Some? then known.value else optid;
      var from := if known.Some? then Past(j) else SkipAt(b, j);
      var level := EndpointLevel(c, b, j - |name|, |name|, transport);
      if from.Past? && level.Hit? {
        OptionIsSettings(b, from.next, level.value, id);
        var value := OptionAt(b, from.next, level.value, id);
        if value.stop.Reached? {
          EndpointOptionsAreSettings(c, b, value.stop.next, n - 1, id, transport);
        }
      }
    }
  }

  lemma {:induction false} AddressesAreAddresses(c: Context, b: Bytes, i: nat, k: nat, n: int, optid: int)
    requires i <= |b| && IsBuffer(b)
    ensures AllAddresses(AddressesAt(c, b, i, k, n, optid).steps)
    decreases n - k
  {
    hide FrontAt, DrainAt, TupleOptionsAt;
    if k < n && FrontAt(c, b, i).Hit? {
      var Hit(f, j) := FrontAt(c, b, i);
      if f.transport.Some? {
        TupleOptionsAreSettings(c, b, f, optid);
        var options := TupleOptionsAt(c, b, f, optid);
        if options.stop.Reached? {
          AddressesAreAddresses(c, b, options.stop.next, k + 1, n, options.stop.optid);
        }
      } else if k >= f.tuple {
        AddressesAreAddresses(c, b, j, k + 1, n, optid);
      }
    }
  }

  lemma TupleOptionsAreSettings(c: Context, b: Bytes, f: Front, optid: int)
    requires f.next <= |b| && IsBuffer(b) && f.transport.Some?
    ensures AllSettings(TupleOptionsAt(c, b, f, optid).steps)
  {
    hide EndpointOptionsAt, MapAt;
    if f.tuple > 2 && MapAt(b, f.next).Hit? {
      var Hit(n, j) := MapAt(b, f.next);
      EndpointOptionsAreSettings(c, b, j, n, optid, f.transport.value);
    }
  }

  lemma {:induction false} TopicsAreTopics(b: Bytes, i: nat, n: int, optid: int)
    requires i <= |b|
    ensures AllTopics(TopicsAt(b, i, n, optid).steps)
    decreases n
  {
    hide StringAt;
    if n > 0 && StringAt(b, i).Hit? {
      TopicsAreTopics(b, StringAt(b, i).next, n - 1, optid);
    }
  }

  /** How far a walk got. */
  datatype Progress =
    | InOptions                 // not to the address array
    | InAddresses               // not to the end of the address array
    | InTopics                  // not to the end of the topics
    | Done

  /** A walk in its phases. */
  datatype Shape = Shape(options: seq<Step>, addresses: seq<Step>, topics: seq<Step>, progress: Progress)

  function StepsOf(h: Shape): seq<Step> {
    match h.progress
    case InOptions => h.options
    case InAddresses => h.options + ([Unmark] + h.addresses)
    case InTopics => h.options + ([Unmark] + h.addresses + [Settle, UnmarkTopics] + h.topics)
    case Done => h.options + ([Unmark] + h.addresses + [Settle, UnmarkTopics] + (h.topics + [SettleTopics]))
  }

  function ShapeOf(c: Context, b: Bytes): Shape
    requires IsBuffer(b)
  {
    var nothing := Shape([], [], [], InOptions);
    var start := OpeningAt(b);
    if !start.Hit? || !MapAt(b, start.next).Hit? then nothing
    else
      var Hit(n, j) := MapAt(b, start.next);
      var options := SocketOptionsAt(c, b, j, n, c.stale);
      if !options.stop.Reached? || !ArrayAt(b, options.stop.next).Hit? then nothing.(options := options.steps)
      else
        var Hit(m, k) := ArrayAt(b, options.stop.next);
        var addresses := AddressesAt(c, b, k, 0, m, options.stop.optid);
        if !addresses.stop.Reached? then Shape(options.steps, addresses.steps, [], InAddresses)
        else TopicShape(b, Shape(options.steps, addresses.steps, [], InTopics), addresses.stop, start.value)
  }

  function TopicShape(b: Bytes, h: Shape, at: Stop, length: int): Shape
    requires at.Reached? && at.next <= |b|
  {
    if length <= 3 then h.(progress := Done)
    else if !ArrayAt(b, at.next).Hit? then h
    else
      var Hit(n, j) := ArrayAt(b, at.next);
      var topics := TopicsAt(b, j, n, at.optid);
      h.(topics := topics.steps, progress := if topics.stop.Reached? then Done else InTopics)
  }

  /** Every walk has the shape of its phases, and `nc_parse_and_apply` returns 1 exactly if it
      got through all of them. */
  lemma WalkHasShape(c: Context, b: Bytes)
    requires IsBuffer(b)
    ensures var h := ShapeOf(c, b);
            && ReplyWalk(c, b).steps == StepsOf(h)
            && (ReplyWalk(c, b).stop.Reached? <==> h.progress == Done)
            && AllSettings(h.options) && AllAddresses(h.addresses) && AllTopics(h.topics)
  {
    hide ArrayAt, MapAt, SocketOptionsAt, OpeningAt, AddressesAt, TopicsAt;
    var start := OpeningAt(b);
    if start.Hit? && MapAt(b, start.next).Hit? {
      var Hit(n, j) := MapAt(b, start.next);
      SocketOptionsAreSettings(c, b, j, n, c.stale);
      var options := SocketOptionsAt(c, b, j, n, c.stale);
      if options.stop.Reached? {
        AddressPartHasShape(c, b, options.stop, start.value);
      }
    }
  }

  lemma AddressPartHasShape(c: Context, b: Bytes, at: Stop, length: int)
    requires at.Reached? && at.next <= |b| && IsBuffer(b)
    ensures ArrayAt(b, at.next).Hit? ==>
              var Hit(m, k) := ArrayAt(b, at.next);
              var addresses := AddressesAt(c, b, k, 0, m, at.optid);
              && AllAddresses(addresses.steps)
              && (addresses.stop.Reached? ==>
                    var h := TopicShape(b, Shape([], addresses.steps, [], InTopics), addresses.stop, length);
                    var w := TopicPart(b, addresses.stop, length);
                    && AllTopics(h.topics)
                    && w.steps == h.topics + (if h.progress == Done then [SettleTopics] else [])
                    && (w.stop.Reached? <==> h.progress == Done))
  {
    hide ArrayAt, AddressesAt, TopicsAt;
    if ArrayAt(b, at.next).Hit? {
      var Hit(m, k) := ArrayAt(b, at.next);
      AddressesAreAddresses(c, b, k, 0, m, at.optid);
      var addresses := AddressesAt(c, b, k, 0, m, at.optid);
      if addresses.stop.Reached? && length > 3 && ArrayAt(b, addresses.stop.next).Hit? {
        var Hit(n, j) := ArrayAt(b, addresses.stop.next);
        TopicsAreTopics(b, j, n, addresses.stop.optid);
      }
    }
  }

  // ----- What a reply does

  /** Every reply that `nc_parse_and_apply` accepts, well-formed or not: the endpoints are
      reconciled with the addresses it names and the index with its topics, unless the first
      of the two ends the run. */
  lemma Applied<O>(x: Host<O>, s: O, c: Context, b: Bytes, rcs: nat -> int)
    requires IsBuffer(b) && Alive(x) && ReplyWalk(c, b).stop.Reached?
    ensures var h, y := ShapeOf(c, b), DoAll(x, s, ReplyWalk(c, b).steps, rcs);
            && y.endpoints == E.Reconcile(x.endpoints, Wanteds(h.addresses), rcs)
            && y.index == (if y.endpoints.outcome == E.Fine then S.Reindex(x.index, s, Names(h.topics)) else x.index)
            && (y.endpoints.outcome == E.Fine ==> y.options == x.options + h.options + Settings(h.addresses))
  {
    hide ReplyWalk, ShapeOf, DoAll, AllSettings, AllAddresses, AllTopics;
    WalkHasShape(c, b);
    var h := ShapeOf(c, b);
    DoReply(x, s, h.options, h.addresses, h.topics, rcs);
  }

  /** What a walk has done that did not get through, by how far it got. */
  ghost predicate DoneInPart<O>(x: Host<O>, s: O, h: Shape, rcs: nat -> int, y: Host<O>) {
    var ws := Wanteds(h.addresses);
    match h.progress
    case InOptions => y == x.(options := x.options + h.options)
    case InAddresses =>
      && y.endpoints == E.UseAll(E.Unmark(x.endpoints), ws, rcs) && y.index == x.index
      && (y.endpoints.outcome == E.Fine ==> y.options == x.options + h.options + Settings(h.addresses))
    case _ =>
      && y.endpoints == E.Reconcile(x.endpoints, ws, rcs)
      && (y.endpoints.outcome == E.Fine ==> y.options == x.options + h.options + Settings(h.addresses))
      && y.index == if y.endpoints.outcome != E.Fine then x.index
                    else S.UseAll(S.Unmark(x.index, s), s, Names(h.topics))
  }

  /** Every reply that it turns down, wherever it stops.  Nothing is torn down unless the whole
      address array was read, and no subscription is torn down at all. */
  lemma TurnedDown<O>(x: Host<O>, s: O, c: Context, b: Bytes, rcs: nat -> int)
    requires IsBuffer(b) && Alive(x) && ReplyWalk(c, b).stop.Rejected?
    ensures DoneInPart(x, s, ShapeOf(c, b), rcs, DoAll(x, s, ReplyWalk(c, b).steps, rcs))
  {
    hide *;
    NotThrough(x, s, c, b, rcs);
  }

  /** Every reply in which a read leaves the buffer: what has been done by then.  The program has
      no meaning from there on. */
  lemma LeftBuffer<O>(x: Host<O>, s: O, c: Context, b: Bytes, rcs: nat -> int)
    requires IsBuffer(b) && Alive(x) && ReplyWalk(c, b).stop.Strayed?
    ensures DoneInPart(x, s, ShapeOf(c, b), rcs, DoAll(x, s, ReplyWalk(c, b).steps, rcs))
  {
    hide *;
    NotThrough(x, s, c, b, rcs);
  }

  lemma NotThrough<O>(x: Host<O>, s: O, c: Context, b: Bytes, rcs: nat -> int)
    requires IsBuffer(b) && Alive(x) && !ReplyWalk(c, b).stop.Reached?
    ensures DoneInPart(x, s, ShapeOf(c, b), rcs, DoAll(x, s, ReplyWalk(c, b).steps, rcs))
  {
    hide ReplyWalk, ShapeOf, DoAll, AllSettings, AllAddresses, AllTopics, Wanteds, Settings, Names,
         E.UseAll, E.Settle, S.UseAll;
    WalkHasShape(c, b);
    var h := ShapeOf(c, b);
    DoSettings(x, s, h.options, rcs);
    var x1 := x.(options := x.options + h.options);
    if h.progress == InAddresses {
      DoBoth(x, s, h.options, [Unmark] + h.addresses, rcs);
      DoBoth(x1, s, [Unmark], h.addresses, rcs);
      DoOne(x1, s, Unmark, rcs);
      DoAddresses(Do(x1, s, Unmark, rcs), s, h.addresses, rcs);
    } else if h.progress == InTopics {
      DoBoth(x, s, h.options, [Unmark] + h.addresses + [Settle, UnmarkTopics] + h.topics, rcs);
      DoBoth(x1, s, [Unmark] + h.addresses + [Settle, UnmarkTopics], h.topics, rcs);
      DoAddressPhase(x1, s, h.addresses, rcs);
      var x2 := DoAll(x1, s, [Unmark] + h.addresses + [Settle, UnmarkTopics], rcs);
      if x2.endpoints.outcome == E.Fine {
        DoTopics(x2, s, h.topics, rcs);
      } else {
        DeadStays(x2, s, h.topics, rcs);
      }
    }
  }

  /** Visiting opens and never shuts down, and keeps what is listed. */
  lemma {:induction false} VisitingOnlyOpens(t: E.Table, ws: seq<E.Wanted>, rcs: nat -> int)
    ensures var u := E.UseAll(t, ws, rcs);
            && t.calls <= u.calls
            && (forall k :: |t.calls| <= k < |u.calls| ==> !u.calls[k].Shutdown?)
            && |t.eps| <= |u.eps|
            && (forall k :: 0 <= k < |t.eps| ==> u.eps[k].addr == t.eps[k].addr && u.eps[k].eid == t.eps[k].eid)
    decreases |ws|
  {
    if ws != [] {
      VisitingOnlyOpens(E.Use(t, ws[0], rcs(|t.calls|)), ws[1..], rcs);
    }
  }

  /** In particular: a reply that is turned down in its address array shuts nothing down. */
  lemma NothingShutDownEarly<O>(x: Host<O>, s: O, c: Context, b: Bytes, rcs: nat -> int)
    requires IsBuffer(b) && Alive(x) && ShapeOf(c, b).progress in {InOptions, InAddresses}
    requires ReplyWalk(c, b).stop.Rejected?
    ensures var y := DoAll(x, s, ReplyWalk(c, b).steps, rcs);
            && y.index == x.index && x.endpoints.calls <= y.endpoints.calls
            && (forall k :: |x.endpoints.calls| <= k < |y.endpoints.calls| ==> !y.endpoints.calls[k].Shutdown?)
            && |x.endpoints.eps| <= |y.endpoints.eps|
            && (forall k :: 0 <= k < |x.endpoints.eps| ==>
                  && y.endpoints.eps[k].addr == x.endpoints.eps[k].addr
                  && y.endpoints.eps[k].eid == x.endpoints.eps[k].eid)
  {
    WalkHasShape(c, b);
    TurnedDown(x, s, c, b, rcs);
    VisitingOnlyOpens(E.Unmark(x.endpoints), Wanteds(ShapeOf(c, b).addresses), rcs);
    hide ReplyWalk, ShapeOf, DoAll, Wanteds, E.UseAll;
  }

  // ----- What every walk keeps

  /** Whatever bytes a reply consists of and wherever its walk stops: the index stays in order. */
  lemma {:induction false} StepsKeepIndex<O>(x: Host<O>, s: O, steps: seq<Step>, rcs: nat -> int)
    requires S.Consistent(x.index) && DoAll(x, s, steps, rcs).index.outcome == S.Fine
    ensures S.Consistent(DoAll(x, s, steps, rcs).index)
    decreases |steps|
  {
    hide S.Consistent, Do;
    if steps != [] {
      var y := Do(x, s, steps[0], rcs);
      UndefinedIndexStays(y, s, steps[1..], rcs);
      StepKeepsIndex(x, s, steps[0], rcs);
      StepsKeepIndex(y, s, steps[1..], rcs);
    }
  }

  lemma StepKeepsIndex<O>(x: Host<O>, s: O, step: Step, rcs: nat -> int)
    requires S.Consistent(x.index) && Do(x, s, step, rcs).index.outcome == S.Fine
    ensures S.Consistent(Do(x, s, step, rcs).index)
  {
    hide S.Consistent, E.Use, E.Settle, S.Use, S.SweepFrom, E.Unmark, S.Unmark;
    match step
    case UnmarkTopics => S.UnmarkConsistent(x.index, s);
    case Topic(name) => if Alive(x) { S.UseConsistent(x.index, s, name); }
    case SettleTopics => if Alive(x) { S.SweepConsistent(x.index, s, 0); }
    case _ =>
  }

  lemma UndefinedIndexStays<O>(x: Host<O>, s: O, steps: seq<Step>, rcs: nat -> int)
    ensures x.index.outcome != S.Fine ==> DoAll(x, s, steps, rcs) == x
  {
    hide DoAll;
    if x.index.outcome != S.Fine {
      DeadStays(x, s, steps, rcs);
    }
  }

  /** Whatever bytes a reply consists of and wherever its walk stops, even at a failed
      assertion: the endpoint list stays in step with what nanomsg has open. */
  lemma {:induction false} StepsKeepTracks<O>(x: Host<O>, s: O, steps: seq<Step>, rcs: nat -> int)
    requires var y := DoAll(x, s, steps, rcs);
             E.Tracks(x.endpoints, rcs) && y.endpoints.outcome != E.Undefined && E.FreshOpens(y.endpoints.calls, rcs)
    ensures E.Tracks(DoAll(x, s, steps, rcs).endpoints, rcs)
    decreases |steps|
  {
    hide E.Tracks, E.FreshOpens, Do;
    if steps != [] {
      var y := Do(x, s, steps[0], rcs);
      UndefinedEndpointsStay(y, s, steps[1..], rcs);
      StepsOnlyCall(y, s, steps[1..], rcs);
      E.FreshBefore(y.endpoints.calls, DoAll(x, s, steps, rcs).endpoints.calls, rcs);
      StepKeepsTracks(x, s, steps[0], rcs);
      StepsKeepTracks(y, s, steps[1..], rcs);
    }
  }

  lemma StepKeepsTracks<O>(x: Host<O>, s: O, step: Step, rcs: nat -> int)
    requires var y := Do(x, s, step, rcs);
             E.Tracks(x.endpoints, rcs) && y.endpoints.outcome != E.Undefined && E.FreshOpens(y.endpoints.calls, rcs)
    ensures E.Tracks(Do(x, s, step, rcs).endpoints, rcs)
  {
    hide E.Tracks, E.FreshOpens, E.Settle, S.Use, S.SweepFrom, E.Unmark, S.Unmark;
    match step
    case Unmark => E.UnmarkTracks(x.endpoints, rcs);
    case Address(kind, addr) =>
      if Alive(x) {
        E.UseTracks(x.endpoints, E.Wanted(kind, addr), rcs);
      }
    case Settle => E.SettleTracks(x.endpoints, rcs);
    case _ =>
  }

  lemma UndefinedEndpointsStay<O>(x: Host<O>, s: O, steps: seq<Step>, rcs: nat -> int)
    ensures x.endpoints.outcome != E.Fine ==> DoAll(x, s, steps, rcs) == x
  {
    hide DoAll;
    if x.endpoints.outcome != E.Fine {
      DeadStays(x, s, steps, rcs);
    }
  }

  /** Calls are made one after the other and never taken back. */
  lemma {:induction false} StepsOnlyCall<O>(x: Host<O>, s: O, steps: seq<Step>, rcs: nat -> int)
    ensures x.endpoints.calls <= DoAll(x, s, steps, rcs).endpoints.calls
    decreases |steps|
  {
    hide E.Find, E.Swept, S.Use, S.SweepFrom;
    if steps != [] {
      StepsOnlyCall(Do(x, s, steps[0], rcs), s, steps[1..], rcs);
    }
  }

  // ----- Well-formed replies

  /** The addresses of a reply whose transport is known. */
  function AddressesOf(c: Context, k: nat, ws: seq<Wire>): seq<E.Wanted>
    requires AddressesOk(c, k, ws)
    decreases ws
  {
    if ws == [] then []
    else
      var addr := ws[0].items[1].data;
      (if TransportIn(c, addr).Some? then [E.Wanted(KindOf(ws[0]), addr)] else []) + AddressesOf(c, k + 1, ws[1..])
  }

  function TopicsOf(ws: seq<Wire>): seq<Bytes>
    requires AllStrings(ws)
  {
    if ws == [] then [] else [ws[0].data] + TopicsOf(ws[1..])
  }

  lemma {:induction false} ElementStepsSet(ws: seq<Wire>, level: int, id: int)
    requires ValidAll(ws) && AllElements(ws)
    ensures AllSettings(ElementSteps(ws, level, id))
  {
    if ws != [] {
      ElementStepsSet(ws[1..], level, id);
    }
  }

  lemma {:induction false} SocketStepsSet(c: Context, items: seq<Wire>)
    requires ValidAll(items) && SocketOptionsOk(c, items)
    ensures AllSettings(SocketOptionSteps(c, items))
    decreases |items|
  {
    hide ElementSteps;
    if |items| >= 2 {
      ValidPair(items);
      if items[1].Array? && SymbolValue(c.symbols, items[0].data).Some? {
        ElementStepsSet(items[1].items, SocketLevel(c, items[0].data), SymbolValue(c.symbols, items[0].data).value);
      }
      SocketStepsSet(c, items[2..]);
    }
  }

  lemma {:induction false} EndpointStepsSet(c: Context, items: seq<Wire>, t: Symbol)
    requires ValidAll(items) && EndpointOptionsOk(c, items, t)
    ensures AllSettings(EndpointOptionSteps(c, items, t))
    decreases |items|
  {
    hide ElementSteps;
    if |items| >= 2 {
      ValidPair(items);
      if items[1].Array? {
        var name := items[0].data;
        ElementStepsSet(items[1].items, EndpointLevelOf(c, name, t), SymbolValue(c.symbols, name).value);
      }
      EndpointStepsSet(c, items[2..], t);
    }
  }

  lemma {:induction false} PartsConcat(a: seq<Step>, b: seq<Step>)
    ensures Wanteds(a + b) == Wanteds(a) + Wanteds(b) && Settings(a + b) == Settings(a) + Settings(b)
  {
    if a == [] {
      assert a + b == b;
    } else {
      assert (a + b)[1..] == a[1..] + b && (a + b)[0] == a[0];
      PartsConcat(a[1..], b);
      HeadOfParts(a);
      HeadOfParts(a + b);
      hide Wanteds, Settings;
    }
  }

  /** What the first step adds. */
  lemma HeadOfParts(steps: seq<Step>)
    requires steps != []
    ensures Wanteds(steps)
         == (if steps[0].Address? then [E.Wanted(steps[0].kind, steps[0].addr)] else []) + Wanteds(steps[1..])
    ensures Settings(steps) == (if steps[0].SetOption? then [steps[0]] else []) + Settings(steps[1..])
  {
  }

  lemma {:induction false} AddressStepsDo(c: Context, k: nat, ws: seq<Wire>)
    requires AddressesOk(c, k, ws)
    ensures AllAddresses(AddressListSteps(c, k, ws))
    ensures Wanteds(AddressListSteps(c, k, ws)) == AddressesOf(c, k, ws)
    decreases |ws|
  {
    hide Valid, KindOf, TransportIn;
    if ws != [] {
      OneAddress(c, k, ws[0]);
      AddressStepsDo(c, k + 1, ws[1..]);
      PartsConcat(AddressSteps(c, k, ws[0]), AddressListSteps(c, k + 1, ws[1..]));
      hide AddressOk, AddressSteps;
    }
  }

  lemma OneAddress(c: Context, k: nat, w: Wire)
    requires AddressOk(c, k, w)
    ensures AllAddresses(AddressSteps(c, k, w))
    ensures var addr := w.items[1].data;
            Wanteds(AddressSteps(c, k, w)) == if TransportIn(c, addr).Some? then [E.Wanted(KindOf(w), addr)] else []
  {
    match TransportIn(c, w.items[1].data)
    case None =>
    case Some(t) =>
      var address := Address(KindOf(w), w.items[1].data);
      assert Wanteds([address]) == [E.Wanted(KindOf(w), w.items[1].data)] by {
        assert [address][1..] == [];
      }
      hide KindOf, TransportIn, Valid;
      if |w.items| == 3 {
        ThirdItem(w);
        var steps := EndpointOptionSteps(c, w.items[2].items, t);
        EndpointStepsSet(c, w.items[2].items, t);
        OnlySettings(steps);
        PartsConcat(steps, [address]);
      }
  }

  lemma {:induction false} TopicStepsDo(ws: seq<Wire>)
    requires AllStrings(ws)
    ensures AllTopics(TopicSteps(ws)) && Names(TopicSteps(ws)) == TopicsOf(ws)
  {
    if ws != [] {
      TopicStepsDo(ws[1..]);
      assert TopicSteps(ws)[1..] == TopicSteps(ws[1..]);
    }
  }

  /** Every well-formed reply in every encoding, end to end: the socket's options are set, its
      endpoints are reconciled with the reply's addresses and the index with its topics. */
  lemma ReplyDoes<O>(x: Host<O>, s: O, c: Context, b: Bytes, w: Wire, rcs: nat -> int)
    requires IsBuffer(b) && Alive(x) && IsReply(c, w) && At(b, 0, Encode(w))
    ensures ReplyWalk(c, b).stop.Reached?
    ensures Asked(x, s, c, w, rcs, DoAll(x, s, ReplyWalk(c, b).steps, rcs))
  {
    ReplyRead(c, b, w);
    hide *;
    DoReplySteps(x, s, c, w, rcs);
  }

  /** The addresses and the topics a well-formed reply names. */
  function ReplyAddresses(c: Context, w: Wire): seq<E.Wanted>
    requires IsReply(c, w)
  {
    AddressesOf(c, 0, w.items[2].items)
  }

  function ReplyTopics(c: Context, w: Wire): seq<Bytes>
    requires IsReply(c, w)
  {
    if |w.items| > 3 then TopicsOf(w.items[3].items) else []
  }

  /** `y` is what the well-formed reply `w` asks to make of `x`. */
  ghost predicate Asked<O>(x: Host<O>, s: O, c: Context, w: Wire, rcs: nat -> int, y: Host<O>)
    requires IsReply(c, w)
  {
    && y.endpoints == E.Reconcile(x.endpoints, ReplyAddresses(c, w), rcs)
    && y.index == (if y.endpoints.outcome == E.Fine then S.Reindex(x.index, s, ReplyTopics(c, w)) else x.index)
    && (y.endpoints.outcome == E.Fine ==> y.options == x.options + Settings(ReplySteps(c, w)))
  }

  lemma DoReplySteps<O>(x: Host<O>, s: O, c: Context, w: Wire, rcs: nat -> int)
    requires Alive(x) && IsReply(c, w)
    ensures Asked(x, s, c, w, rcs, DoAll(x, s, ReplySteps(c, w), rcs))
  {
    hide *;
    var options, addresses, topics := ReplyPhases(c, w);
    DoReply(x, s, options, addresses, topics, rcs);
    AskedFor(x, s, c, w, rcs, DoAll(x, s, ReplySteps(c, w), rcs), options, addresses);
  }

  lemma AskedFor<O>(x: Host<O>, s: O, c: Context, w: Wire, rcs: nat -> int, y: Host<O>,
                    options: seq<Step>, addresses: seq<Step>)
    requires IsReply(c, w) && Settings(ReplySteps(c, w)) == options + Settings(addresses)
    requires y.endpoints == E.Reconcile(x.endpoints, ReplyAddresses(c, w), rcs)
    requires y.index == if y.endpoints.outcome == E.Fine then S.Reindex(x.index, s, ReplyTopics(c, w)) else x.index
    requires y.endpoints.outcome == E.Fine ==> y.options == x.options + options + Settings(addresses)
    ensures Asked(x, s, c, w, rcs, y)
  {
    assert x.options + options + Settings(addresses) == x.options + (options + Settings(addresses));
  }

  lemma ReplyPhases(c: Context, w: Wire) returns (options: seq<Step>, addresses: seq<Step>, topics: seq<Step>)
    requires IsReply(c, w)
    ensures AllSettings(options) && AllAddresses(addresses) && AllTopics(topics)
    ensures ReplySteps(c, w) == options + ([Unmark] + addresses + [Settle, UnmarkTopics] + (topics + [SettleTopics]))
    ensures Wanteds(addresses) == ReplyAddresses(c, w) && Names(topics) == ReplyTopics(c, w)
    ensures Settings(ReplySteps(c, w)) == options + Settings(addresses)
  {
    ReplyIs(c, w);
    hide SocketOptionsOk, AddressesOk, SocketOptionSteps, AddressListSteps, AddressesOf, AllStrings,
         TopicSteps, TopicsOf, AllSettings, AllAddresses, AllTopics, IsReply, ReplySteps, Settings;
    options, addresses := SocketOptionSteps(c, w.items[1].items), AddressListSteps(c, 0, w.items[2].items);
    topics := if |w.items| > 3 then TopicSteps(w.items[3].items) else [];
    SocketStepsSet(c, w.items[1].items);
    AddressStepsDo(c, 0, w.items[2].items);
    NoTopics();
    if |w.items| > 3 {
      TopicStepsDo(w.items[3].items);
    }
    ReplySettings(options, addresses, topics);
  }

  lemma NoTopics()
    ensures AllTopics([]) && Names([]) == []
  {
  }

  lemma ReplyIs(c: Context, w: Wire)
    requires IsReply(c, w)
    ensures |w.items| >= 3 && w.Array? && w.items[1].Map? && w.items[2].Array?
    ensures ValidAll(w.items[1].items) && SocketOptionsOk(c, w.items[1].items)
    ensures AddressesOk(c, 0, w.items[2].items)
    ensures |w.items| > 3 ==> w.items[3].Array? && AllStrings(w.items[3].items)
    ensures ReplySteps(c, w)
         == SocketOptionSteps(c, w.items[1].items)
            + ([Unmark] + AddressListSteps(c, 0, w.items[2].items) + [Settle, UnmarkTopics]
               + ((if |w.items| > 3 then TopicSteps(w.items[3].items) else []) + [SettleTopics]))
  {
    ReplyParts(w);
  }

  lemma ReplySettings(options: seq<Step>, addresses: seq<Step>, topics: seq<Step>)
    requires AllSettings(options) && AllTopics(topics)
    ensures Settings(options + ([Unmark] + addresses + [Settle, UnmarkTopics] + (topics + [SettleTopics])))
         == options + Settings(addresses)
  {
    hide AllSettings, AllTopics, Settings, Wanteds;
    OnlySettings(options);
    NoSettings(topics);
    PartsConcat(options, [Unmark] + addresses + [Settle, UnmarkTopics] + (topics + [SettleTopics]));
    PartsConcat([Unmark] + addresses + [Settle, UnmarkTopics], topics + [SettleTopics]);
    PartsConcat([Unmark] + addresses, [Settle, UnmarkTopics]);
    PartsConcat([Unmark], addresses);
    PartsConcat(topics, [SettleTopics]);
    PartsConcat([Settle], [UnmarkTopics]);
    assert [Settle, UnmarkTopics] == [Settle] + [UnmarkTopics];
    Single(Unmark);
    Single(Settle);
    Single(UnmarkTopics);
    Single(SettleTopics);
  }

  lemma Single(step: Step)
    requires !step.SetOption?
    ensures Settings([step]) == []
  {
    assert [step][1..] == [];
  }

  lemma {:induction false} NoSettings(steps: seq<Step>)
    requires AllTopics(steps)
    ensures Settings(steps) == []
  {
    if steps != [] {
      assert steps[0] in steps;
      NoSettings(steps[1..]);
    }
  }
}
