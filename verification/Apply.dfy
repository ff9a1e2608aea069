/** `nc_parse_and_apply` in memory: it reads the reply once and carries out its steps on the
    socket, its endpoint list and the subscription index as it goes.  Each loop is proved to
    be the part of `ReplyWalk` it stands for. */
module Apply {
  import opened Wrappers
  import opened MsgPack
  import opened Reply
  import opened Records
  import opened SubscriptionIndex
  import opened Effects
  import E = Endpoints
  import EndpointList
  import IntrusiveList
  import ListFamily
  import S = Subscriptions

  /** What is left of a walk when `done` has been done. */
  lemma ThenThen(a: seq<Step>, b: seq<Step>, w: Walk)
    ensures Then(a, Then(b, w)) == Then(a + b, w)
  {
    assert a + b + w.steps == a + (b + w.steps);
  }

  lemma ThenNothing(w: Walk)
    ensures Then([], w) == w
  {
    assert [] + w.steps == w.steps;
  }

  // ----- Options

  /** `nc_parse_and_set_option` */
  method SetOptionFrom(s: Socket, b: Bytes, pos: nat, level: int, id: int) returns (stop: Stop)
    requires pos <= |b|
    modifies s`options
    ensures Walk(s.options, stop) == Then(old(s.options), OptionAt(b, pos, level, id))
  {
    hide IntAt, StringAt, ArrayAt;
    var found := SetElement(s, b, pos, level, id);
    match found
    case Hit(_, next) => return Reached(next, id);
    case Wild => return Strayed;
    case Miss =>
      var list := ParseArray(b, pos);
      if !list.Hit? { return Rejected; }
      stop := SetElements(s, b, list.next, level, id, list.value);
  }

  method SetElement(s: Socket, b: Bytes, pos: nat, level: int, id: int) returns (r: Read<OptionValue>)
    requires pos <= |b|
    modifies s`options
    ensures r == ElementAt(b, pos)
    ensures s.options == if r.Hit? then old(s.options) + [SetOption(level, id, r.value)] else old(s.options)
  {
    hide IntAt, StringAt;
    var number := ParseInt(b, pos);
    if number.Hit? {
      s.options := s.options + [SetOption(level, id, IntValue(number.value))];
      return Hit(IntValue(number.value), number.next);
    }
    var text := ParseString(b, pos);
    match text
    case Hit(value, next) =>
      s.options := s.options + [SetOption(level, id, TextValue(value))];
      return Hit(TextValue(value), next);
    case Miss => return Miss;
    case Wild => return Wild;
  }

  method SetElements(s: Socket, b: Bytes, pos: nat, level: int, id: int, n: int) returns (stop: Stop)
    requires pos <= |b|
    modifies s`options
    ensures Walk(s.options, stop) == Then(old(s.options), ElementsAt(b, pos, level, id, n))
  {
    hide ElementAt, Then;
    ghost var walk := Then(s.options, ElementsAt(b, pos, level, id, n));
    var i: nat, j := pos, 0;
    while j < n
      invariant i <= |b|
      invariant walk == Then(s.options, ElementsAt(b, i, level, id, n - j))
    {
      ghost var before := s.options;
      var found := SetElement(s, b, i, level, id);
      match found {
        case Hit(value, next) =>
          ThenThen(before, [SetOption(level, id, value)], ElementsAt(b, next, level, id, n - j - 1));
          i := next;
        case Wild =>
          Ends(s.options, Strayed);
          return Strayed;
        case Miss =>
      }
      j := j + 1;
    }
    Ends(s.options, Reached(i, id));
    return Reached(i, id);
  }

  /** The socket options of a reply. */
  method SetSocketOptions(c: Context, s: Socket, b: Bytes, pos: nat, n: int, stale: int) returns (stop: Stop)
    requires pos <= |b| && IsBuffer(b)
    modifies s`options
    ensures Walk(s.options, stop) == Then(old(s.options), SocketOptionsAt(c, b, pos, n, stale))
  {
    hide StringAt, SkipAt, OptionAt, SymbolValue, SocketLevel, Then;
    ghost var walk := Then(s.options, SocketOptionsAt(c, b, pos, n, stale));
    var i: nat, j, optid := pos, 0, stale;
    while j < n
      invariant i <= |b|
      invariant walk == Then(s.options, SocketOptionsAt(c, b, i, n - j, optid))
    {
      Ends(s.options, Rejected);
      Ends(s.options, Strayed);
      var name := ParseString(b, i);
      if name.Miss? { return Rejected; }
      if name.Wild? { return Strayed; }
      var known := FindSymbol(c.symbols, name.value);
      match known {
        case None =>
          var skipped, _, _ := SkipValue(b, name.next);
          match skipped {
            case Refused => return Rejected;
            case Lost => return Strayed;
            case Past(k) => i := k;
          }
        case Some(id) =>
          ghost var before := s.options;
          var level := SocketLevel(c, name.value);
          stop := SetOptionFrom(s, b, name.next, level, id);
          Continues(before, OptionAt(b, name.next, level, id), s.options, stop);
          if !stop.Reached? { return; }
          ThenThen(before, OptionAt(b, name.next, level, id).steps, SocketOptionsAt(c, b, stop.next, n - j - 1, id));
          i, optid := stop.next, id;
      }
      j := j + 1;
    }
    Ends(s.options, Reached(i, optid));
    return Reached(i, optid);
  }

  method LevelOf(c: Context, b: Bytes, pos: nat, n: nat, transport: Symbol) returns (r: Read<int>)
    ensures r == EndpointLevel(c, b, pos, n, transport)
  {
    if |c.protocol| >= n { return Hit(SOL_SOCKET, pos); }
    var i: nat, prefix := pos, transport.name;
    while prefix != []
      invariant PrefixedInBuffer(b, pos, transport.name) == PrefixedInBuffer(b, i, prefix)
      decreases |prefix|
    {
      if i >= |b| { return Wild; }
      if b[i] != prefix[0] { return Hit(SOL_SOCKET, pos); }
      i, prefix := i + 1, prefix[1..];
    }
    if i >= |b| { return Wild; }
    return Hit(if b[i] == UNDERSCORE then transport.value else SOL_SOCKET, pos);
  }

  /** The options of one address. */
  method SetEndpointOptions(c: Context, s: Socket, b: Bytes, pos: nat, n: int, stale: int, transport: Symbol)
    returns (stop: Stop)
    requires pos <= |b| && IsBuffer(b)
    modifies s`options
    ensures Walk(s.options, stop) == Then(old(s.options), EndpointOptionsAt(c, b, pos, n, stale, transport))
  {
    hide StringAt, SkipAt, OptionAt, SymbolValue, EndpointLevel, Then;
    ghost var walk := Then(s.options, EndpointOptionsAt(c, b, pos, n, stale, transport));
    var i: nat, j, optid := pos, 0, stale;
    while j < n
      invariant i <= |b|
      invariant walk == Then(s.options, EndpointOptionsAt(c, b, i, n - j, optid, transport))
    {
      Ends(s.options, Rejected);
      Ends(s.options, Strayed);
      var name := ParseString(b, i);
      if name.Miss? { return Rejected; }
      if name.Wild? { return Strayed; }
      var known := FindSymbol(c.symbols, name.value);
      var from := name.next;
      match known {
        case Some(id) => optid := id;
        case None =>
          var skipped, _, _ := SkipValue(b, from);
          match skipped {
            case Refused => return Rejected;
            case Lost => return Strayed;
            case Past(k) => from := k;
          }
      }
      var level := LevelOf(c, b, name.next - |name.value|, |name.value|, transport);
      if !level.Hit? { return Strayed; }
      ghost var before := s.options;
      stop := SetOptionFrom(s, b, from, level.value, optid);
      Continues(before, OptionAt(b, from, level.value, optid), s.options, stop);
      if !stop.Reached? { return; }
      ThenThen(before, OptionAt(b, from, level.value, optid).steps,
               EndpointOptionsAt(c, b, stop.next, n - j - 1, optid, transport));
      i := stop.next;
      j := j + 1;
    }
    Ends(s.options, Reached(i, optid));
    return Reached(i, optid);
  }

  lemma Continues(before: seq<Step>, w: Walk, after: seq<Step>, stop: Stop)
    requires Walk(after, stop) == Then(before, w)
    ensures after == before + w.steps && stop == w.stop
  {
  }

  // ----- Addresses

  /** The socket as the steps of a reply see it, beside an index they leave alone. */
  ghost function Seen(s: Socket, index: S.Index<Socket>): Host<Socket>
    reads s, s.endpoints, s.endpoints.list, s.endpoints.list.links`item
  {
    Host(s.options, s.endpoints.View(), index)
  }

  /** One tuple of the address array. */
  function TupleAt(c: Context, b: Bytes, i: nat, k: nat, optid: int): (w: Walk)
    requires i <= |b| && IsBuffer(b)
    ensures w.stop.Reached? ==> i <= w.stop.next <= |b|
  {
    match FrontAt(c, b, i)
    case Miss => Walk([], Rejected)
    case Wild => Walk([], Strayed)
    case Hit(f, j) =>
      if !f.transport.Some? then Walk([], if k < f.tuple then DrainAt(b, j) else Reached(j, optid))
      else
        var options := TupleOptionsAt(c, b, f, optid);
        if options.stop.Reached? then Walk(options.steps + [Address(f.kind, f.addr)], options.stop) else options
  }

  lemma AddressesOne(c: Context, b: Bytes, i: nat, k: nat, n: int, optid: int)
    requires i <= |b| && IsBuffer(b) && k < n
    ensures var w := TupleAt(c, b, i, k, optid);
            AddressesAt(c, b, i, k, n, optid) ==
            if w.stop.Reached? then Then(w.steps, AddressesAt(c, b, w.stop.next, k + 1, n, w.stop.optid)) else w
  {
    hide FrontAt, DrainAt, TupleOptionsAt;
    var f := FrontAt(c, b, i);
    if f.Hit? && !f.value.transport.Some? && k >= f.value.tuple {
      ThenNothing(AddressesAt(c, b, f.next, k + 1, n, optid));
    }
  }

  method SetTupleOptions(c: Context, s: Socket, b: Bytes, f: Front, stale: int) returns (stop: Stop)
    requires f.next <= |b| && IsBuffer(b) && f.transport.Some?
    modifies s`options
    ensures Walk(s.options, stop) == Then(old(s.options), TupleOptionsAt(c, b, f, stale))
  {
    hide MapAt, EndpointOptionsAt;
    Ends(s.options, Rejected);
    Ends(s.options, Reached(f.next, stale));
    if f.tuple <= 2 { return Reached(f.next, stale); }
    var head := ParseMapping(b, f.next);
    if !head.Hit? { return Rejected; }
    stop := SetEndpointOptions(c, s, b, head.next, head.value, stale, f.transport.value);
  }

  /** One tuple: its options first, then the address itself. */
  method UseTuple(c: Context, s: Socket, b: Bytes, pos: nat, k: nat, stale: int, rcs: nat -> int,
                  ghost index: S.Index<Socket>)
    returns (stop: Stop)
    requires pos <= |b| && IsBuffer(b) && s.endpoints.Valid() && s.endpoints.outcome == E.Fine &&
             index.outcome == S.Fine
    modifies s`options, s.endpoints.Footprint()
    ensures s.endpoints.Valid() && s.endpoints.Grew()
    ensures Seen(s, index) == DoAll(old(Seen(s, index)), s, TupleAt(c, b, pos, k, stale).steps, rcs)
    ensures s.endpoints.outcome == E.Fine ==> stop == TupleAt(c, b, pos, k, stale).stop
  {
    hide FrontAt, DrainAt, TupleOptionsAt, DoAll, E.Use, EndpointList.SocketEndpoints.Valid,
         EndpointList.SocketEndpoints.View, Then;
    ghost var was := Seen(s, index);
    NothingDone(was, s, rcs);
    var front := ReadFront(c, b, pos);
    if !front.Hit? {
      return if front.Miss? then Rejected else Strayed;
    }
    var f := front.value;
    if !f.transport.Some? {
      stop := Reached(f.next, stale);
      if k < f.tuple {
        stop := Drain(b, f.next);
      }
      return;
    }
    ghost var options := TupleOptionsAt(c, b, f, stale);
    stop := SetTupleOptions(c, s, b, f, stale);
    Continues(was.options, options, s.options, stop);
    TupleDone(was, s, c, b, f, stale, rcs);
    if stop.Reached? {
      s.endpoints.UseAddress(E.Wanted(f.kind, f.addr), rcs(|s.endpoints.calls|));
    }
  }

  lemma TupleDone(x: Host<Socket>, s: Socket, c: Context, b: Bytes, f: Front, stale: int, rcs: nat -> int)
    requires f.next <= |b| && IsBuffer(b) && f.transport.Some? && Alive(x)
    ensures var steps := TupleOptionsAt(c, b, f, stale).steps;
            var y, w := x.(options := x.options + steps), E.Wanted(f.kind, f.addr);
            && DoAll(x, s, steps, rcs) == y
            && DoAll(x, s, steps + [Address(f.kind, f.addr)], rcs)
            == y.(endpoints := E.Use(y.endpoints, w, rcs(|y.endpoints.calls|)))
  {
    var steps := TupleOptionsAt(c, b, f, stale).steps;
    TupleOptionsAreSettings(c, b, f, stale);
    hide TupleOptionsAt, DoAll, AllSettings, E.Use;
    DoSettings(x, s, steps, rcs);
    DoBoth(x, s, steps, [Address(f.kind, f.addr)], rcs);
    DoOne(x.(options := x.options + steps), s, Address(f.kind, f.addr), rcs);
  }

  lemma NoAddress(c: Context, b: Bytes, i: nat, k: nat, n: int, optid: int)
    requires i <= |b| && IsBuffer(b) && k >= n
    ensures AddressesAt(c, b, i, k, n, optid) == Walk([], Reached(i, optid))
  {
  }

  /** One more part of a walk: `first`, and `rest` if it got that far. */
  lemma Onward(was: Host<Socket>, s: Socket, rcs: nat -> int, done: seq<Step>, first: Walk, rest: Walk, all: Walk)
    requires all == Then(done, if first.stop.Reached? then Then(first.steps, rest) else first)
    ensures var y := DoAll(DoAll(was, s, done, rcs), s, first.steps, rcs);
            && y == DoAll(was, s, done + first.steps, rcs)
            && (first.stop.Reached? ==> all == Then(done + first.steps, rest))
            && (!first.stop.Reached? ==> all.stop == first.stop)
            && (!first.stop.Reached? || !Alive(y) ==> y == DoAll(was, s, all.steps, rcs))
  {
    hide DoAll;
    DoBoth(was, s, done, first.steps, rcs);
    if first.stop.Reached? {
      ThenThen(done, first.steps, rest);
      DoBoth(was, s, done + first.steps, rest.steps, rcs);
      var y := DoAll(was, s, done + first.steps, rcs);
      if !Alive(y) {
        DeadStays(y, s, rest.steps, rcs);
      }
    }
  }

  lemma NothingDone(x: Host<Socket>, s: Socket, rcs: nat -> int)
    ensures DoAll(x, s, [], rcs) == x
  {
  }

  /** The address tuples of a reply. */
  method UseAddresses(c: Context, s: Socket, b: Bytes, pos: nat, n: int, stale: int, rcs: nat -> int,
                      ghost index: S.Index<Socket>)
    returns (stop: Stop)
    requires pos <= |b| && IsBuffer(b) && s.endpoints.Valid() && s.endpoints.outcome == E.Fine &&
             index.outcome == S.Fine
    modifies s`options, s.endpoints.Footprint()
    ensures s.endpoints.Valid() && s.endpoints.Grew()
    ensures Seen(s, index) == DoAll(old(Seen(s, index)), s, AddressesAt(c, b, pos, 0, n, stale).steps, rcs)
    ensures s.endpoints.outcome == E.Fine ==> stop == AddressesAt(c, b, pos, 0, n, stale).stop
  {
    hide AddressesAt, TupleAt, DoAll, EndpointList.SocketEndpoints.Valid, EndpointList.SocketEndpoints.View,
         EndpointList.SocketEndpoints.Footprint, Then;
    ghost var walk, was := AddressesAt(c, b, pos, 0, n, stale), Seen(s, index);
    ghost var done: seq<Step> := [];
    var i: nat, k: nat, optid := pos, 0, stale;
    ThenNothing(walk);
    NothingDone(was, s, rcs);
    while k < n
      invariant i <= |b| && s.endpoints.Valid() && s.endpoints.Grew() && s.endpoints.outcome == E.Fine
      invariant walk == Then(done, AddressesAt(c, b, i, k, n, optid))
      invariant Seen(s, index) == DoAll(was, s, done, rcs)
      decreases n - k
    {
      ghost var tuple := TupleAt(c, b, i, k, optid);
      ghost var rest := if tuple.stop.Reached? then AddressesAt(c, b, tuple.stop.next, k + 1, n, tuple.stop.optid)
                        else tuple;
      AddressesOne(c, b, i, k, n, optid);
      Onward(was, s, rcs, done, tuple, rest, walk);
      stop := UseTuple(c, s, b, i, k, optid, rcs, index);
      if s.endpoints.outcome != E.Fine || !stop.Reached? {
        return;
      }
      done := done + tuple.steps;
      i, k, optid := stop.next, k + 1, stop.optid;
    }
    NoAddress(c, b, i, k, n, optid);
    Ends(done, Reached(i, optid));
    return Reached(i, optid);
  }

  /** The address array with what comes before and after it. */
  function AddressPhase(c: Context, b: Bytes, i: nat, optid: int): (w: Walk)
    requires i <= |b| && IsBuffer(b)
    ensures w.stop.Reached? ==> i <= w.stop.next <= |b|
  {
    match ArrayAt(b, i)
    case Hit(n, j) =>
      var addresses := AddressesAt(c, b, j, 0, n, optid);
      Walk([Unmark] + addresses.steps + (if addresses.stop.Reached? then [Settle] else []), addresses.stop)
    case _ => Walk([], Rejected)
  }

  method ReconcileEndpoints(c: Context, s: Socket, b: Bytes, pos: nat, stale: int, rcs: nat -> int,
                            ghost index: S.Index<Socket>)
    returns (stop: Stop)
    requires pos <= |b| && IsBuffer(b) && s.endpoints.Valid() && s.endpoints.outcome == E.Fine &&
             index.outcome == S.Fine
    modifies s`options, s.endpoints.Footprint()
    ensures s.endpoints.Valid() && s.endpoints.Grew()
    ensures Seen(s, index) == DoAll(old(Seen(s, index)), s, AddressPhase(c, b, pos, stale).steps, rcs)
    ensures s.endpoints.outcome == E.Fine ==> stop == AddressPhase(c, b, pos, stale).stop
  {
    hide ArrayAt, AddressesAt, DoAll, E.Unmark, E.Settle, EndpointList.SocketEndpoints.Valid,
         EndpointList.SocketEndpoints.View;
    ghost var was := Seen(s, index);
    NothingDone(was, s, rcs);
    var count := ParseArray(b, pos);
    if !count.Hit? { return Rejected; }
    ghost var addresses := AddressesAt(c, b, count.next, 0, count.value, stale);
    PhaseDone(was, s, addresses.steps, rcs);
    s.endpoints.UnmarkAll();
    stop := UseAddresses(c, s, b, count.next, count.value, stale, rcs, index);
    if s.endpoints.outcome == E.Fine && stop.Reached? {
      var _ := s.endpoints.SettleAll();
    }
  }

  lemma PhaseDone(x: Host<Socket>, s: Socket, steps: seq<Step>, rcs: nat -> int)
    requires Alive(x)
    ensures var u := x.(endpoints := E.Unmark(x.endpoints));
            var y := DoAll(u, s, steps, rcs);
            && DoAll(x, s, [Unmark] + steps, rcs) == y
            && DoAll(x, s, [Unmark] + steps + [Settle], rcs)
            == (if Alive(y) then y.(endpoints := E.Settle(y.endpoints)) else y)
            && [Unmark] + steps + [] == [Unmark] + steps
  {
    hide DoAll;
    DoBoth(x, s, [Unmark], steps, rcs);
    DoOne(x, s, Unmark, rcs);
    DoBoth(x, s, [Unmark] + steps, [Settle], rcs);
    DoOne(DoAll(x, s, [Unmark] + steps, rcs), s, Settle, rcs);
  }

  // ----- Topics

  /** What has been done to `base` by now, the rest of it left alone. */
  ghost function With(base: Host<Socket>, x: Index): Host<Socket>
    reads x, x.Lists(), x.subs`visited
  {
    base.(index := x.State())
  }

  method UseTopics(x: Index, s: Socket, b: Bytes, pos: nat, n: int, optid: int, rcs: nat -> int,
                   ghost base: Host<Socket>)
    returns (stop: Stop)
    requires pos <= |b| && x.Valid() && s in x.sockets && x.outcome == S.Fine && base.endpoints.outcome == E.Fine
    modifies x.Footprint()
    ensures x.Valid() && x.sockets == old(x.sockets) && x.Grew()
    ensures With(base, x) == DoAll(old(With(base, x)), s, TopicsAt(b, pos, n, optid).steps, rcs)
    ensures x.outcome == S.Fine ==> stop == TopicsAt(b, pos, n, optid).stop
  {
    hide TopicsAt, DoAll, Index.State, Index.Footprint, Then, IntrusiveList.NoRepeats, ListFamily.AllValid,
         Index.Apart, Index.AllPlaced, Index.AllListed, Index.Lists, Index.Nodes, ListFamily.Tails,
         ListFamily.Cells, StringAt, S.Use;
    ghost var walk, was := TopicsAt(b, pos, n, optid), With(base, x);
    ghost var done: seq<Step> := [];
    var i: nat, j := pos, 0;
    ThenNothing(walk);
    NothingDone(was, s, rcs);
    while j < n
      invariant i <= |b| && x.Valid() && x.sockets == old(x.sockets) && x.Grew() && x.outcome == S.Fine
      invariant walk == Then(done, TopicsAt(b, i, n - j, optid))
      invariant With(base, x) == DoAll(was, s, done, rcs)
    {
      TopicsOne(b, i, n - j, optid);
      Ends(done, Rejected);
      Ends(done, Strayed);
      x.AllAllocated();
      label Reading:
      var topic := ParseString(b, i);
      x.Untouched@Reading();
      if !topic.Hit? {
        return if topic.Miss? then Rejected else Strayed;
      }
      ghost var one := Walk([Topic(topic.value)], Reached(topic.next, optid));
      Onward(was, s, rcs, done, one, TopicsAt(b, topic.next, n - j - 1, optid), walk);
      DoOne(With(base, x), s, Topic(topic.value), rcs);
      x.Parts();
      x.UseTopic(s, topic.value);
      if x.outcome != S.Fine {
        return Strayed;
      }
      done := done + one.steps;
      i, j := topic.next, j + 1;
    }
    NoTopic(b, i, n - j, optid);
    Ends(done, Reached(i, optid));
    return Reached(i, optid);
  }

  lemma TopicsOne(b: Bytes, i: nat, n: int, optid: int)
    requires i <= |b| && n > 0
    ensures TopicsAt(b, i, n, optid)
         == match StringAt(b, i)
            case Hit(topic, j) => Then([Topic(topic)], TopicsAt(b, j, n - 1, optid))
            case Miss => Walk([], Rejected)
            case Wild => Walk([], Strayed)
  {
  }

  lemma NoTopic(b: Bytes, i: nat, n: int, optid: int)
    requires i <= |b| && n <= 0
    ensures TopicsAt(b, i, n, optid) == Walk([], Reached(i, optid))
  {
  }

  /** What is done about the topics of a reply of this length. */
  method ReindexTopics(x: Index, s: Socket, b: Bytes, pos: nat, length: int, optid: int, rcs: nat -> int,
                       ghost base: Host<Socket>)
    returns (stop: Stop)
    requires pos <= |b| && x.Valid() && s in x.sockets && x.outcome == S.Fine && base.endpoints.outcome == E.Fine
    modifies x.Footprint()
    ensures x.Valid() && x.sockets == old(x.sockets) && x.Grew()
    ensures var part := TopicPart(b, Reached(pos, optid), length);
            && With(base, x) == DoAll(old(With(base, x)), s, [UnmarkTopics] + part.steps, rcs)
            && (x.outcome == S.Fine ==> stop == part.stop)
  {
    hide ArrayAt, TopicsAt, DoAll, Index.State, Index.Footprint, IntrusiveList.NoRepeats,
         ListFamily.AllValid, Index.Apart, Index.AllPlaced, Index.AllListed, Index.Lists, Index.Nodes,
         ListFamily.Tails, ListFamily.Cells;
    ghost var was := With(base, x);
    x.Parts();
    x.UnmarkOwn(s);
    stop := Reached(pos, optid);
    TopicPhase(was, s, [], rcs);
    NothingDone(With(base, x), s, rcs);
    if length > 3 {
      x.AllAllocated();
      label Reading:
      var count := ParseArray(b, pos);
      x.Untouched@Reading();
      if !count.Hit? { return Rejected; }
      TopicPhase(was, s, TopicsAt(b, count.next, count.value, optid).steps, rcs);
      stop := UseTopics(x, s, b, count.next, count.value, optid, rcs, base);
    }
    if x.outcome == S.Fine && stop.Reached? {
      x.Parts();
      x.SettleOwn(s);
    }
  }

  lemma TopicPhase(x: Host<Socket>, s: Socket, steps: seq<Step>, rcs: nat -> int)
    requires Alive(x)
    ensures var y := DoAll(x.(index := S.Unmark(x.index, s)), s, steps, rcs);
            && DoAll(x, s, [UnmarkTopics] + steps, rcs) == y
            && DoAll(x, s, [UnmarkTopics] + (steps + [SettleTopics]), rcs)
            == (if Alive(y) then y.(index := S.Settle(y.index, s)) else y)
            && [] + [SettleTopics] == [SettleTopics]
  {
    hide DoAll, S.Settle;
    DoBoth(x, s, [UnmarkTopics], steps, rcs);
    DoOne(x, s, UnmarkTopics, rcs);
    assert [UnmarkTopics] + (steps + [SettleTopics]) == [UnmarkTopics] + steps + [SettleTopics];
    DoBoth(x, s, [UnmarkTopics] + steps, [SettleTopics], rcs);
    DoOne(DoAll(x, s, [UnmarkTopics] + steps, rcs), s, SettleTopics, rcs);
  }

  // ----- The whole reply

  ghost function Hosted(x: Index, s: Socket): Host<Socket>
    reads x, x.Lists(), x.subs`visited, s, s.endpoints, s.endpoints.list, s.endpoints.list.links`item
  {
    Host(s.options, s.endpoints.View(), x.State())
  }

  /** The reply up to the end of its socket options. */
  function HeadAt(c: Context, b: Bytes): (w: Walk)
    requires IsBuffer(b)
    ensures w.stop.Reached? ==> w.stop.next <= |b| && OpeningAt(b).Hit?
  {
    var opening := OpeningAt(b);
    if !opening.Hit? || !MapAt(b, opening.next).Hit? then Walk([], Rejected)
    else
      var count := MapAt(b, opening.next);
      SocketOptionsAt(c, b, count.next, count.value, c.stale)
  }

  lemma WalkParts(c: Context, b: Bytes)
    requires IsBuffer(b)
    ensures var head := HeadAt(c, b);
            && (!head.stop.Reached? ==> ReplyWalk(c, b) == head)
            && (head.stop.Reached? ==>
                  var phase := AddressPhase(c, b, head.stop.next, head.stop.optid);
                  && (!phase.stop.Reached? ==> ReplyWalk(c, b) == Then(head.steps, phase))
                  && (phase.stop.Reached? ==>
                        var part := TopicPart(b, phase.stop, OpeningAt(b).value);
                        && ReplyWalk(c, b).steps == head.steps + phase.steps + ([UnmarkTopics] + part.steps)
                        && ReplyWalk(c, b).stop == part.stop))
  {
    hide MapAt, OpeningAt, ArrayAt, SocketOptionsAt, AddressesAt, TopicPart;
  }

  /** The walk carried out part by part. */
  lemma PartsDone(was: Host<Socket>, s: Socket, c: Context, b: Bytes, rcs: nat -> int)
    requires IsBuffer(b) && Alive(was)
    ensures var head, all := HeadAt(c, b), DoAll(was, s, ReplyWalk(c, b).steps, rcs);
            var after := was.(options := was.options + head.steps);
            && (!head.stop.Reached? ==> all == after && ReplyWalk(c, b).stop == head.stop)
            && (head.stop.Reached? ==>
                  var phase := AddressPhase(c, b, head.stop.next, head.stop.optid);
                  var y := DoAll(after, s, phase.steps, rcs);
                  && (!phase.stop.Reached? ==> ReplyWalk(c, b).stop == phase.stop)
                  && (!phase.stop.Reached? || !Alive(y) ==> all == y)
                  && (phase.stop.Reached? ==>
                        var part := TopicPart(b, phase.stop, OpeningAt(b).value);
                        && all == DoAll(y, s, [UnmarkTopics] + part.steps, rcs)
                        && ReplyWalk(c, b).stop == part.stop))
  {
    WalkParts(c, b);
    var head := HeadAt(c, b);
    HeadIsSettings(c, b);
    hide ReplyWalk, HeadAt, AddressPhase, TopicPart, DoAll, AllSettings;
    DoSettings(was, s, head.steps, rcs);
    var after := was.(options := was.options + head.steps);
    if head.stop.Reached? {
      var phase := AddressPhase(c, b, head.stop.next, head.stop.optid);
      DoBoth(was, s, head.steps, phase.steps, rcs);
      if phase.stop.Reached? {
        var more := [UnmarkTopics] + TopicPart(b, phase.stop, OpeningAt(b).value).steps;
        DoBoth(was, s, head.steps + phase.steps, more, rcs);
        var y := DoAll(after, s, phase.steps, rcs);
        if !Alive(y) {
          DeadStays(y, s, more, rcs);
        }
      }
    }
  }

  lemma HeadIsSettings(c: Context, b: Bytes)
    requires IsBuffer(b)
    ensures AllSettings(HeadAt(c, b).steps)
  {
    hide OpeningAt, MapAt, SocketOptionsAt;
    var opening := OpeningAt(b);
    if opening.Hit? && MapAt(b, opening.next).Hit? {
      var count := MapAt(b, opening.next);
      SocketOptionsAreSettings(c, b, count.next, count.value, c.stale);
    }
  }

  method ApplyHead(c: Context, s: Socket, b: Bytes) returns (stop: Stop, length: int)
    requires IsBuffer(b)
    modifies s`options
    ensures s.options == old(s.options) + HeadAt(c, b).steps && stop == HeadAt(c, b).stop
    ensures stop.Reached? ==> length == OpeningAt(b).value
  {
    hide OpeningAt, MapAt, SocketOptionsAt;
    var opening := ReadOpening(b);
    if !opening.Hit? { return Rejected, 0; }
    var count := ParseMapping(b, opening.next);
    if !count.Hit? { return Rejected, 0; }
    stop := SetSocketOptions(c, s, b, count.next, count.value, c.stale);
    length := opening.value;
  }

  /** `nc_parse_and_apply`: it returns 1 if it stops as `Reached`.  Whatever the bytes are, what
      it does to the socket, its endpoints and the index are the steps of the reply's walk,
      and both structures stay in order. */
  method ParseAndApply(c: Context, b: Bytes, x: Index, s: Socket, rcs: nat -> int) returns (stop: Stop)
    requires IsBuffer(b) && x.Valid() && s in x.sockets && s.endpoints.Valid() && Alive(Hosted(x, s))
    modifies s`options, s.endpoints.Footprint(), x.Footprint()
    ensures x.Valid() && x.sockets == old(x.sockets) && x.Grew()
    ensures s.endpoints.Valid() && s.endpoints.Grew()
    ensures Hosted(x, s) == DoAll(old(Hosted(x, s)), s, ReplyWalk(c, b).steps, rcs)
    ensures Alive(Hosted(x, s)) ==> stop == ReplyWalk(c, b).stop
  {
    hide ReplyWalk, HeadAt, AddressPhase, TopicPart, OpeningAt, DoAll, Index.Valid, Index.State,
         Index.Footprint, EndpointList.SocketEndpoints.Valid, EndpointList.SocketEndpoints.View,
         EndpointList.SocketEndpoints.Footprint;
    ghost var was := Hosted(x, s);
    PartsDone(was, s, c, b, rcs);
    var length;
    stop, length := HeadBeside(c, b, x, s);
    if !stop.Reached? {
      return;
    }
    var optid, next := stop.optid, stop.next;
    stop := EndpointsBeside(c, b, x, s, next, optid, rcs);
    if s.endpoints.outcome != E.Fine || !stop.Reached? {
      return;
    }
    optid, next := stop.optid, stop.next;
    stop := TopicsBeside(b, x, s, next, length, optid, rcs);
  }

  // Each part leaves what it does not work on as it was.

  method HeadBeside(c: Context, b: Bytes, x: Index, s: Socket) returns (stop: Stop, length: int)
    requires IsBuffer(b) && x.Valid() && s.endpoints.Valid()
    modifies s`options
    ensures x.Valid() && x.sockets == old(x.sockets) && x.Grew()
    ensures s.endpoints.Valid() && s.endpoints.Grew()
    ensures Hosted(x, s) == old(Hosted(x, s)).(options := old(s.options) + HeadAt(c, b).steps)
    ensures stop == HeadAt(c, b).stop
    ensures stop.Reached? ==> stop.next <= |b| && OpeningAt(b).Hit? && length == OpeningAt(b).value
    ensures s.endpoints.outcome == old(s.endpoints.outcome) && x.outcome == old(x.outcome)
  {
    hide HeadAt, OpeningAt, Index.Valid, Index.State, Index.Footprint, EndpointList.SocketEndpoints.View;
    x.AllAllocated();
    x.Beside(s);
    label Start:
    stop, length := ApplyHead(c, s, b);
    x.Untouched@Start();
  }

  method EndpointsBeside(c: Context, b: Bytes, x: Index, s: Socket, pos: nat, stale: int, rcs: nat -> int)
    returns (stop: Stop)
    requires pos <= |b| && IsBuffer(b) && x.Valid() && s.endpoints.Valid() && Alive(Hosted(x, s))
    modifies s`options, s.endpoints.Footprint()
    ensures x.Valid() && x.sockets == old(x.sockets) && x.Grew() && x.outcome == S.Fine
    ensures s.endpoints.Valid() && s.endpoints.Grew()
    ensures Hosted(x, s) == DoAll(old(Hosted(x, s)), s, AddressPhase(c, b, pos, stale).steps, rcs)
    ensures s.endpoints.outcome == E.Fine ==> stop == AddressPhase(c, b, pos, stale).stop
  {
    hide AddressPhase, DoAll, Index.Valid, Index.State, Index.Footprint, EndpointList.SocketEndpoints.View;
    x.AllAllocated();
    x.Beside(s);
    label Start:
    stop := ReconcileEndpoints(c, s, b, pos, stale, rcs, x.State());
    x.Untouched@Start();
  }

  method TopicsBeside(b: Bytes, x: Index, s: Socket, pos: nat, length: int, optid: int, rcs: nat -> int)
    returns (stop: Stop)
    requires pos <= |b| && x.Valid() && s in x.sockets && s.endpoints.Valid() && Alive(Hosted(x, s))
    modifies x.Footprint()
    ensures x.Valid() && x.sockets == old(x.sockets) && x.Grew()
    ensures s.endpoints.Valid() && s.endpoints.Grew()
    ensures var part := TopicPart(b, Reached(pos, optid), length);
            && Hosted(x, s) == DoAll(old(Hosted(x, s)), s, [UnmarkTopics] + part.steps, rcs)
            && (x.outcome == S.Fine ==> stop == part.stop)
  {
    hide TopicPart, DoAll, Index.Valid, Index.State, Index.Footprint;
    x.Beside(s);
    stop := ReindexTopics(x, s, b, pos, length, optid, rcs, Hosted(x, s));
  }

  lemma Ends(done: seq<Step>, stop: Stop)
    ensures Then(done, Walk([], stop)) == Walk(done, stop)
  {
    assert done + [] == done;
  }
}
