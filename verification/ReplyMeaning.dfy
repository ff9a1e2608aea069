/** What a well-formed reply means for nanomsg, said without the functions that read it: which calls
    bind and connect, and which option is set at which level to what. */
module ReplyMeaning {
  import opened Wrappers
  import opened MsgPack
  import opened Wire
  import opened Skipping
  import opened Reply
  import opened ReplyForm
  import opened Effects
  import E = Endpoints
  import S = Subscriptions

  // ----- Binds and connects

  /** Tuple i names its address first. */
  predicate FirstTuple(c: Context, ws: seq<Wire>, i: nat)
    requires AddressesOk(c, 0, ws)
  {
    i < |ws| && forall j :: 0 <= j < i ==> AddrAt(c, ws, j) != AddrAt(c, ws, i)
  }

  function AddrAt(c: Context, ws: seq<Wire>, i: nat): Bytes
    requires AddressesOk(c, 0, ws) && i < |ws|
  {
    TupleOk(c, 0, ws, i);
    ws[i].items[1].data
  }

  lemma {:induction false} TupleOk(c: Context, k: nat, ws: seq<Wire>, i: nat)
    requires AddressesOk(c, k, ws) && i < |ws|
    ensures AddressOk(c, k + i, ws[i])
    decreases |ws|
  {
    hide AddressOk;
    if i > 0 {
      TupleOk(c, k + 1, ws[1..], i - 1);
    }
  }

  /** What tuple i asks for, and where: an address of known transport is one of the reply's, and
      those before it are of tuples before it. */
  lemma {:induction false} TupleAddress(c: Context, k: nat, ws: seq<Wire>, i: nat) returns (j: nat)
    requires AddressesOk(c, k, ws) && i < |ws|
    ensures AddressOk(c, k + i, ws[i])
    ensures TransportIn(c, ws[i].items[1].data).Some? ==>
              var all := AddressesOf(c, k, ws);
              && j < |all| && all[j] == E.Wanted(KindOf(ws[i]), ws[i].items[1].data)
              && forall m :: 0 <= m < j ==> OfTuple(c, k, ws, i, all[m].addr)
    decreases |ws|
  {
    hide TransportIn, Valid, ColonFrom, IsInt, AsInt32, IntOf;
    j := 0;
    if i > 0 {
      var rest := ws[1..];
      var n := TupleAddress(c, k + 1, rest, i - 1);
      var head := if TransportIn(c, ws[0].items[1].data).Some? then 1 else 0;
      j := n + head;
      if TransportIn(c, ws[i].items[1].data).Some? {
        var all, more := AddressesOf(c, k, ws), AddressesOf(c, k + 1, rest);
        forall m | 0 <= m < j
          ensures OfTuple(c, k, ws, i, all[m].addr)
        {
          if m >= head {
            assert all[m] == more[m - head];
            OfTupleLater(c, k, ws, i, all[m].addr);
          } else {
            OfTupleHere(c, k, ws, i);
          }
        }
      }
    }
  }

  /** One of the first i tuples has this address. */
  ghost predicate OfTuple(c: Context, k: nat, ws: seq<Wire>, i: nat, addr: Bytes)
    requires AddressesOk(c, k, ws) && i <= |ws|
  {
    exists m: nat :: m < i && AddressIs(ws[m], addr)
  }

  predicate AddressIs(w: Wire, addr: Bytes) {
    w.Array? && |w.items| >= 2 && w.items[1].Str? && w.items[1].data == addr
  }

  lemma OfTupleLater(c: Context, k: nat, ws: seq<Wire>, i: nat, addr: Bytes)
    requires AddressesOk(c, k, ws) && 0 < i <= |ws| && OfTuple(c, k + 1, ws[1..], i - 1, addr)
    ensures OfTuple(c, k, ws, i, addr)
  {
    hide AddressIs, AddressOk;
    var m: nat :| m < i - 1 && AddressIs(ws[1..][m], addr);
    assert AddressIs(ws[m + 1], addr);
  }

  lemma OfTupleHere(c: Context, k: nat, ws: seq<Wire>, i: nat)
    requires AddressesOk(c, k, ws) && 0 < i <= |ws|
    ensures AddressOk(c, k, ws[0]) && OfTuple(c, k, ws, i, ws[0].items[1].data)
  {
    hide TransportIn, Valid;
    assert AddressIs(ws[0], ws[0].items[1].data);
  }

  lemma ZeroOrOne(w: Wire)
    requires Valid(w) && IsAddress(w)
    ensures Valid(w.items[0]) && IsInt(w.items[0]) && KindOf(w) == IntOf(w.items[0]) && IntOf(w.items[0]) in {0, 1}
  {
    var n := IntOf(w.items[0]);
    assert -TWO31 <= n < TWO32;
    hide IntOf;
  }

  /** End to end: of a well-formed reply that goes through, every address of known transport that
      was not listed is opened by a call of its own, by a bind if its first tuple starts with
      the int 0 and by a connect if it starts with 1. */
  lemma ReplyOpens<O>(x: Host<O>, s: O, c: Context, b: Bytes, w: Wire, rcs: nat -> int, i: nat)
    requires IsBuffer(b) && Alive(x) && IsReply(c, w) && At(b, 0, Encode(w))
    requires x.endpoints.attached && E.Distinct(x.endpoints.eps)
    requires DoAll(x, s, ReplyWalk(c, b).steps, rcs).endpoints.outcome == E.Fine
    requires FirstTuple(c, w.items[2].items, i)
    requires var addr := AddrAt(c, w.items[2].items, i);
             addr !in E.Addrs(x.endpoints.eps) && ColonFrom(addr, 0).Hit? && TransportIn(c, addr).Some?
    ensures var tuple, addr := w.items[2].items[i], AddrAt(c, w.items[2].items, i);
            && tuple.Array? && |tuple.items| >= 2 && Valid(tuple.items[0]) && IsInt(tuple.items[0])
            && IntOf(tuple.items[0]) in {0, 1}
            && CallMade(DoAll(x, s, ReplyWalk(c, b).steps, rcs).endpoints.calls, |x.endpoints.calls|,
                        if IntOf(tuple.items[0]) == 0 then E.Bind(addr) else E.Connect(addr))
  {
    ReplyDoes(x, s, c, b, w, rcs);
    hide DoAll, ReplyWalk, E.Reconcile, E.Addrs, E.Distinct, S.Reindex, AddressesOf, Settings, ReplySteps, Encode,
         TransportIn, ColonFrom, Valid, ReplyTopics;
    var ws := w.items[2].items;
    var j := TupleAddress(c, 0, ws, i);
    TupleOk(c, 0, ws, i);
    ZeroOrOne(ws[i]);
    FirstWanted(c, ws, i, j);
    E.OpensAsNamed(x.endpoints, AddressesOf(c, 0, ws), rcs);
    MadeIsCall(DoAll(x, s, ReplyWalk(c, b).steps, rcs).endpoints.calls, |x.endpoints.calls|, AddressesOf(c, 0, ws)[j]);
  }

  ghost predicate CallMade(calls: seq<E.Call>, m: nat, call: E.Call) {
    exists k: nat :: m <= k < |calls| && calls[k] == call
  }

  lemma MadeIsCall(calls: seq<E.Call>, m: nat, w: E.Wanted)
    requires E.MadeFor(calls, m, w)
    ensures CallMade(calls, m, if w.kind == 0 then E.Bind(w.addr) else E.Connect(w.addr))
  {
    var k: nat :| m <= k < |calls| && E.OpensFor(calls[k], w);
  }

  lemma FirstWanted(c: Context, ws: seq<Wire>, i: nat, j: nat)
    requires AddressesOk(c, 0, ws) && FirstTuple(c, ws, i)
    requires j < |AddressesOf(c, 0, ws)| && AddressesOf(c, 0, ws)[j].addr == AddrAt(c, ws, i)
    requires forall m :: 0 <= m < j ==> OfTuple(c, 0, ws, i, AddressesOf(c, 0, ws)[m].addr)
    ensures E.FirstNamed(AddressesOf(c, 0, ws), j)
  {
    hide AddressesOk, AddressesOf, OfTuple;
    var all := AddressesOf(c, 0, ws);
    forall m | 0 <= m < j
      ensures all[m].addr != all[j].addr
    {
      assert OfTuple(c, 0, ws, i, all[m].addr);
      NamedBefore(c, ws, i, all[m].addr);
    }
  }

  lemma NamedBefore(c: Context, ws: seq<Wire>, i: nat, addr: Bytes)
    requires AddressesOk(c, 0, ws) && FirstTuple(c, ws, i) && OfTuple(c, 0, ws, i, addr)
    ensures addr != AddrAt(c, ws, i)
  {
    hide AddressesOk;
    var n: nat :| n < i && AddressIs(ws[n], addr);
    assert AddrAt(c, ws, n) == addr;
  }

  // ----- Options

  /** The value of an int or a string as the call gets it. */
  predicate Carries(v: OptionValue, w: Wire)
    requires Valid(w) && IsElement(w)
  {
    if w.Str? then v == TextValue(w.data)
    else v.IntValue? && -TWO31 <= v.n < TWO31 && (v.n - IntOf(w)) % TWO32 == 0
  }

  /** One call of this level and option that carries the value. */
  predicate Sets(t: Step, level: int, id: int, w: Wire) {
    t.SetOption? && t.level == level && t.id == id && Valid(w) && IsElement(w) && Carries(t.value, w)
  }

  /** One call for a value, or one for each element of an array, in order. */
  ghost predicate SetsTo(steps: seq<Step>, level: int, id: int, w: Wire) {
    if w.Array? then |steps| == |w.items| && forall j :: 0 <= j < |steps| ==> Sets(steps[j], level, id, w.items[j])
    else |steps| == 1 && Sets(steps[0], level, id, w)
  }

  /** The name is the symbol, an underscore and more. */
  ghost predicate Begins(name: Bytes, symbol: Bytes) {
    exists rest :: name == symbol + [0x5F] + rest
  }

  /** What the pair of a name and a value asks for: nothing if there is no symbol of that name, and
      otherwise calls for the option of the first one, at this level. */
  ghost predicate PairMeans(c: Context, name: Bytes, value: Wire, level: int, steps: seq<Step>) {
    if forall k :: 0 <= k < |c.symbols| ==> c.symbols[k].name != name then steps == []
    else exists k :: IsFirst(c.symbols, name, k) && SetsTo(steps, level, c.symbols[k].value, value)
  }

  /** The pairs of a mapping of socket options, one after the other: an option whose name begins
      with the socket's protocol is set at the protocol's level and any other at level 0. */
  ghost predicate SocketMeans(c: Context, items: seq<Wire>, steps: seq<Step>)
    decreases |items|
  {
    if |items| < 2 then steps == []
    else
      items[0].Str?
      && exists n: nat :: n <= |steps|
           && PairMeans(c, items[0].data, items[1], if Begins(items[0].data, c.protocol) then c.protoid else 0,
                        steps[..n])
           && SocketMeans(c, items[2..], steps[n..])
  }

  /** The same for the options of an address: at its transport's level if the name begins with the
      transport's symbol and is longer than the name of the socket's protocol. */
  ghost predicate EndpointMeans(c: Context, items: seq<Wire>, t: Symbol, steps: seq<Step>)
    decreases |items|
  {
    if |items| < 2 then steps == []
    else
      items[0].Str?
      && exists n: nat :: n <= |steps|
           && PairMeans(c, items[0].data, items[1],
                        if Begins(items[0].data, t.name) && |items[0].data| > |c.protocol| then t.value else 0,
                        steps[..n])
           && EndpointMeans(c, items[2..], t, steps[n..])
  }

  lemma PrefixedExactly(name: Bytes, prefix: Bytes)
    ensures Prefixed(name, prefix) <==> Begins(name, prefix)
  {
    if Prefixed(name, prefix) {
      assert name == prefix + [0x5F] + name[|prefix| + 1..];
    }
    if Begins(name, prefix) {
      var rest :| name == prefix + [0x5F] + rest;
      assert name[..|prefix|] == prefix;
    }
  }

  lemma {:induction false} SymbolIsFirst(symbols: seq<Symbol>, name: Bytes) returns (k: int)
    ensures var v := SymbolValue(symbols, name);
            && (v.None? ==> forall j :: 0 <= j < |symbols| ==> symbols[j].name != name)
            && (v.Some? ==> IsFirst(symbols, name, k) && symbols[k].value == v.value)
  {
    k := 0;
    if symbols != [] && symbols[0].name != name {
      var i := SymbolIsFirst(symbols[1..], name);
      k := i + 1;
      assert forall j :: 0 < j < |symbols| ==> symbols[j] == symbols[1..][j - 1];
    }
  }

  lemma ElementCarried(w: Wire, level: int, id: int)
    requires Valid(w) && IsElement(w)
    ensures Sets(SetOption(level, id, ElementValue(w)), level, id, w)
  {
    hide IntOf;
  }

  lemma {:induction false} ElementsCarried(ws: seq<Wire>, level: int, id: int)
    requires ValidAll(ws) && AllElements(ws)
    ensures var steps := ElementSteps(ws, level, id);
            |steps| == |ws| && forall j :: 0 <= j < |steps| ==> Sets(steps[j], level, id, ws[j])
  {
    hide Sets, ElementValue, IsElement;
    if ws != [] {
      ElementCarried(ws[0], level, id);
      ElementsCarried(ws[1..], level, id);
    }
  }

  lemma OptionCarried(w: Wire, level: int, id: int)
    requires Valid(w) && IsOptionValue(w)
    ensures SetsTo(OptionSteps(w, level, id), level, id, w)
  {
    hide Sets, ElementValue;
    if w.Array? {
      hide IsElement;
      ElementsCarried(w.items, level, id);
    } else {
      ElementCarried(w, level, id);
    }
  }

  lemma {:induction false} SocketOptionsMean(c: Context, items: seq<Wire>)
    requires ValidAll(items) && SocketOptionsOk(c, items)
    ensures SocketMeans(c, items, SocketOptionSteps(c, items))
    decreases |items|
  {
    hide OptionSteps, SetsTo, IsFirst, Begins, Prefixed, IsOptionValue, SymbolValue, Straight, Valid;
    if |items| >= 2 {
      ValidPair(items);
      var name := items[0].data;
      var id := SymbolValue(c.symbols, name);
      var mine := if id.Some? then OptionSteps(items[1], SocketLevel(c, name), id.value) else [];
      var k := SymbolIsFirst(c.symbols, name);
      PrefixedExactly(name, c.protocol);
      if id.Some? {
        OptionCarried(items[1], SocketLevel(c, name), id.value);
      }
      SocketOptionsMean(c, items[2..]);
      var steps := SocketOptionSteps(c, items);
      assert steps[..|mine|] == mine && steps[|mine|..] == SocketOptionSteps(c, items[2..]);
    }
  }

  lemma {:induction false} EndpointOptionsMean(c: Context, items: seq<Wire>, t: Symbol)
    requires ValidAll(items) && EndpointOptionsOk(c, items, t)
    ensures EndpointMeans(c, items, t, EndpointOptionSteps(c, items, t))
    decreases |items|
  {
    hide OptionSteps, SetsTo, IsFirst, Begins, Prefixed, IsOptionValue, SymbolValue, Valid;
    if |items| >= 2 {
      ValidPair(items);
      var name := items[0].data;
      var id := SymbolValue(c.symbols, name);
      var mine := OptionSteps(items[1], EndpointLevelOf(c, name, t), id.value);
      var k := SymbolIsFirst(c.symbols, name);
      PrefixedExactly(name, t.name);
      OptionCarried(items[1], EndpointLevelOf(c, name, t), id.value);
      EndpointOptionsMean(c, items[2..], t);
      var steps := EndpointOptionSteps(c, items, t);
      assert steps[..|mine|] == mine && steps[|mine|..] == EndpointOptionSteps(c, items[2..], t);
    }
  }

  // ----- Transports

  /** The same letter, or the same in the other case. */
  predicate SameButCase(a: Byte, b: Byte) {
    a == b || (0x41 <= a <= 0x5A && b == a + 0x20) || (0x41 <= b <= 0x5A && a == b + 0x20)
  }

  /** The name is "NN_" and the transport. */
  predicate NamedAfter(name: Bytes, transport: Bytes) {
    && |name| == |transport| + 3 && name[0] == 0x4E && name[1] == 0x4E && name[2] == 0x5F
    && forall j :: 0 <= j < |transport| ==> SameButCase(name[j + 3], transport[j])
  }

  /** Symbol k is the first one named after the transport. */
  ghost predicate FirstNamedAfter(symbols: seq<Symbol>, transport: Bytes, k: int) {
    && 0 <= k < |symbols| && NamedAfter(symbols[k].name, transport)
    && forall j :: 0 <= j < k ==> !NamedAfter(symbols[j].name, transport)
  }

  ghost predicate NoneNamedAfter(symbols: seq<Symbol>, transport: Bytes) {
    forall k :: 0 <= k < |symbols| ==> !NamedAfter(symbols[k].name, transport)
  }

  lemma NamedAfterExactly(s: Symbol, transport: Bytes)
    ensures NamesTransport(s, transport) <==> NamedAfter(s.name, transport)
  {
    var name := s.name;
    if |name| == |transport| + 3 {
      assert name[..3] == [name[0], name[1], name[2]];
      assert name[..3] == NN <==> name[0] == 0x4E && name[1] == 0x4E && name[2] == 0x5F;
      forall j | 0 <= j < |transport|
        ensures Lower(name[3..][j]) == Lower(transport[j]) <==> SameButCase(name[j + 3], transport[j])
      {
      }
      if SameLetters(name[3..], transport) {
        assert forall j :: 0 <= j < |transport| ==> Lower(name[3..][j]) == Lower(transport[j]);
      }
    }
  }

  lemma {:induction false} TransportIsFirst(symbols: seq<Symbol>, transport: Bytes) returns (k: int)
    ensures var t := TransportOf(symbols, transport);
            && (t.None? ==> NoneNamedAfter(symbols, transport))
            && (t.Some? ==> FirstNamedAfter(symbols, transport, k) && symbols[k] == t.value)
  {
    hide NamedAfter, NamesTransport;
    k := 0;
    if symbols != [] {
      NamedAfterExactly(symbols[0], transport);
      if !NamesTransport(symbols[0], transport) {
        var i := TransportIsFirst(symbols[1..], transport);
        k := i + 1;
        assert forall j :: 0 < j < |symbols| ==> symbols[j] == symbols[1..][j - 1];
      }
    }
  }

  /** An address up to its first colon. */
  function BeforeColon(addr: Bytes): Bytes {
    if addr == [] || addr[0] == 0x3A then [] else [addr[0]] + BeforeColon(addr[1..])
  }

  lemma {:induction false} BeforeColonIs(addr: Bytes, i: nat)
    requires i <= |addr| && ColonFrom(addr, i).Hit?
    ensures addr[i..ColonFrom(addr, i).next] == BeforeColon(addr[i..])
    decreases |addr| - i
  {
    if addr[i] != COLON {
      BeforeColonIs(addr, i + 1);
      assert addr[i..][1..] == addr[i + 1..];
    }
  }

  // ----- All options of a reply

  /** The options of one address: those of its mapping if its transport is known. */
  ghost predicate TupleMeans(c: Context, w: Wire, steps: seq<Step>) {
    && w.Array? && |w.items| >= 2 && w.items[1].Str?
    && if |w.items| == 2 || NoneNamedAfter(c.symbols, BeforeColon(w.items[1].data)) then steps == []
       else
         && w.items[2].Map?
         && exists k :: FirstNamedAfter(c.symbols, BeforeColon(w.items[1].data), k) &&
                        EndpointMeans(c, w.items[2].items, c.symbols[k], steps)
  }

  ghost predicate TuplesMean(c: Context, ws: seq<Wire>, steps: seq<Step>)
    decreases |ws|
  {
    if ws == [] then steps == []
    else exists n: nat :: n <= |steps| && TupleMeans(c, ws[0], steps[..n]) && TuplesMean(c, ws[1..], steps[n..])
  }

  lemma TupleSettings(c: Context, k: nat, w: Wire)
    requires AddressOk(c, k, w)
    ensures TupleMeans(c, w, Settings(AddressSteps(c, k, w)))
  {
    hide Valid, EndpointMeans, FirstNamedAfter, NoneNamedAfter, EndpointOptionsOk, EndpointOptionSteps, KindOf,
         TransportOf, ColonFrom, AllSettings, Settings;
    var addr := w.items[1].data;
    BeforeColonIs(addr, 0);
    assert addr[0..] == addr;
    var m := TransportIsFirst(c.symbols, BeforeColon(addr));
    match TransportIn(c, addr)
    case None => NothingSet();
    case Some(t) =>
      var address := Address(KindOf(w), addr);
      Single(address);
      if |w.items| == 2 {
        assert AddressSteps(c, k, w) == [] + [address] == [address];
      } else {
        ThirdItem(w);
        var options := EndpointOptionSteps(c, w.items[2].items, t);
        EndpointOptionsMean(c, w.items[2].items, t);
        EndpointStepsSet(c, w.items[2].items, t);
        OnlySettings(options);
        PartsConcat(options, [address]);
        assert options + [] == options;
        KnownTransport(c, BeforeColon(addr), m);
      }
  }

  lemma NothingSet()
    ensures Settings([]) == []
  {
  }

  lemma KnownTransport(c: Context, transport: Bytes, k: int)
    requires FirstNamedAfter(c.symbols, transport, k)
    ensures !NoneNamedAfter(c.symbols, transport)
  {
    hide NamedAfter;
  }

  lemma {:induction false} TupleSettingsAll(c: Context, k: nat, ws: seq<Wire>)
    requires AddressesOk(c, k, ws)
    ensures TuplesMean(c, ws, Settings(AddressListSteps(c, k, ws)))
    decreases |ws|
  {
    hide TupleMeans, AddressOk, AddressSteps;
    if ws != [] {
      TupleSettings(c, k, ws[0]);
      TupleSettingsAll(c, k + 1, ws[1..]);
      var first, rest := AddressSteps(c, k, ws[0]), AddressListSteps(c, k + 1, ws[1..]);
      PartsConcat(first, rest);
      hide Settings;
      var all := Settings(first) + Settings(rest);
      assert all[..|Settings(first)|] == Settings(first) && all[|Settings(first)|..] == Settings(rest);
    }
  }

  /** The calls that set options are those before and after, in this order: what the socket options
      mean, and then what the options of each address mean. */
  ghost predicate SetAsMeant(c: Context, w: Wire, was: seq<Step>, now: seq<Step>)
    requires IsReply(c, w)
  {
    ReplyIs(c, w);
    exists a, b :: now == was + (a + b) && SocketMeans(c, w.items[1].items, a) && TuplesMean(c, w.items[2].items, b)
  }

  /** End to end: a well-formed reply, in every encoding, sets the options it names -- the socket's
      own at the level of its protocol or at that of the socket, those of an address at the level
      of its transport or at that of the socket -- and no others. */
  lemma ReplySets<O>(x: Host<O>, s: O, c: Context, b: Bytes, w: Wire, rcs: nat -> int)
    requires IsBuffer(b) && Alive(x) && IsReply(c, w) && At(b, 0, Encode(w))
    requires DoAll(x, s, ReplyWalk(c, b).steps, rcs).endpoints.outcome == E.Fine
    ensures SetAsMeant(c, w, x.options, DoAll(x, s, ReplyWalk(c, b).steps, rcs).options)
  {
    ReplyDoes(x, s, c, b, w, rcs);
    hide *;
    AskedOptions(x, s, c, w, rcs, DoAll(x, s, ReplyWalk(c, b).steps, rcs));
    SettingsMeant(c, w, x.options);
  }

  lemma AskedOptions<O>(x: Host<O>, s: O, c: Context, w: Wire, rcs: nat -> int, y: Host<O>)
    requires IsReply(c, w) && Asked(x, s, c, w, rcs, y) && y.endpoints.outcome == E.Fine
    ensures y.options == x.options + Settings(ReplySteps(c, w))
  {
    hide E.Reconcile, S.Reindex, Settings, ReplySteps, IsReply, ReplyAddresses, ReplyTopics;
  }

  lemma SettingsMeant(c: Context, w: Wire, was: seq<Step>)
    requires IsReply(c, w)
    ensures SetAsMeant(c, w, was, was + Settings(ReplySteps(c, w)))
  {
    ReplyIs(c, w);
    hide SocketOptionsOk, AddressesOk, SocketOptionSteps, AddressListSteps, AllStrings, TopicSteps, AllSettings,
         AllTopics, Settings, SocketMeans, TuplesMean, IsReply, ReplySteps;
    var options, addresses := SocketOptionSteps(c, w.items[1].items), AddressListSteps(c, 0, w.items[2].items);
    var topics := if |w.items| > 3 then TopicSteps(w.items[3].items) else [];
    SocketStepsSet(c, w.items[1].items);
    NoTopics();
    if |w.items| > 3 {
      TopicStepsDo(w.items[3].items);
    }
    ReplySettings(options, addresses, topics);
    SocketOptionsMean(c, w.items[1].items);
    TupleSettingsAll(c, 0, w.items[2].items);
  }
}
