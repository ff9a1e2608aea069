/** Replies as MessagePack values: what the documented reply structure asks for, and that
    `ReplyWalk` does exactly that on every encoding of a reply of the right form. */
module ReplyForm {
  import opened Wrappers
  import opened MsgPack
  import opened Wire
  import opened Skipping
  import opened Reply

  // ----- Option values

  predicate IsElement(w: Wire) {
    IsInt(w) || w.Str?
  }

  predicate AllElements(ws: seq<Wire>) {
    ws == [] || (IsElement(ws[0]) && AllElements(ws[1..]))
  }

  /** A value an option can take: an int, a string, or an array of these. */
  predicate IsOptionValue(w: Wire) {
    IsElement(w) || (w.Array? && AllElements(w.items))
  }

  function ElementValue(w: Wire): OptionValue
    requires Valid(w) && IsElement(w)
  {
    if w.Str? then TextValue(w.data) else IntValue(AsInt32(IntOf(w)))
  }

  function ElementSteps(ws: seq<Wire>, level: int, id: int): seq<Step>
    requires ValidAll(ws) && AllElements(ws)
  {
    if ws == [] then [] else [SetOption(level, id, ElementValue(ws[0]))] + ElementSteps(ws[1..], level, id)
  }

  /** One call for a single value, one per element for an array. */
  function OptionSteps(w: Wire, level: int, id: int): seq<Step>
    requires Valid(w) && IsOptionValue(w)
  {
    if w.Array? then ElementSteps(w.items, level, id) else [SetOption(level, id, ElementValue(w))]
  }

  lemma ReadElement(b: Bytes, i: nat, w: Wire)
    requires IsBuffer(b) && Valid(w) && At(b, i, Encode(w))
    ensures i + |Encode(w)| <= |b|
    ensures ElementAt(b, i) == if IsElement(w) then Hit(ElementValue(w), i + |Encode(w)|) else Miss
  {
    ReadEncoded(b, i, w);
    hide IntAt, StringAt, Encode, IsInt, IntOf;
  }

  /** The items of an array or a map as the array and the mapping reader leave them. */
  lemma ReadGroup(b: Bytes, i: nat, w: Wire)
    requires IsBuffer(b) && Valid(w) && At(b, i, Encode(w))
    ensures i + |Encode(w)| <= |b|
    ensures ArrayAt(b, i) == if w.Array? then Hit(|w.items|, i + |Lead(w)|) else Miss
    ensures MapAt(b, i) == if w.Map? then Hit(|w.items| / 2, i + |Lead(w)|) else Miss
    ensures w.Array? || w.Map? ==>
              && !IsElement(w)
              && ValidAll(w.items)
              && At(b, i + |Lead(w)|, EncodeAll(w.items))
              && |Encode(w)| == |Lead(w)| + |EncodeAll(w.items)|
  {
    hide *;
    ReadEncoded(b, i, w);
    AtFits(b, i, Encode(w));
    if w.Array? || w.Map? {
      GroupParts(w);
      AtSplit(b, i, Lead(w), EncodeAll(w.items));
    }
  }

  lemma AtFits(b: Bytes, i: nat, part: Bytes)
    requires At(b, i, part)
    ensures i + |part| <= |b|
  {
  }

  lemma GroupParts(w: Wire)
    requires Valid(w) && (w.Array? || w.Map?)
    ensures ValidNode(w) && !IsElement(w) && ValidAll(w.items) && Encode(w) == Lead(w) + EncodeAll(w.items)
  {
    hide Lead, EncodeAll;
  }

  /** An option value is taken in whole, with one call per element, exactly if it has the
      right form; an array with another element leaves the cursor inside the value. */
  lemma OptionExactly(b: Bytes, i: nat, w: Wire, level: int, id: int)
    requires IsBuffer(b) && Valid(w) && At(b, i, Encode(w))
    ensures i <= |b|
    ensures IsOptionValue(w) ==>
              OptionAt(b, i, level, id) == Walk(OptionSteps(w, level, id), Reached(i + |Encode(w)|, id))
    ensures !IsOptionValue(w) ==>
              var stop := OptionAt(b, i, level, id).stop;
              stop == Rejected || (stop.Reached? && stop.next < i + |Encode(w)|)
  {
    ReadElement(b, i, w);
    ReadGroup(b, i, w);
    hide ElementAt, ArrayAt, Encode, ElementsAt, ElementValue, IsElement, At;
    if w.Array? {
      ListOptionExactly(b, i, w, level, id);
      hide OptionAt, IsOptionValue, OptionSteps;
    }
  }

  lemma ListOptionExactly(b: Bytes, i: nat, w: Wire, level: int, id: int)
    requires IsBuffer(b) && Valid(w) && At(b, i, Encode(w)) && w.Array?
    requires i <= |b| && ElementAt(b, i) == Miss
    ensures IsOptionValue(w) ==>
              OptionAt(b, i, level, id) == Walk(OptionSteps(w, level, id), Reached(i + |Encode(w)|, id))
    ensures !IsOptionValue(w) ==>
              var stop := OptionAt(b, i, level, id).stop;
              stop.Reached? && stop.next < i + |Encode(w)|
  {
    hide *;
    ReadGroup(b, i, w);
    GroupParts(w);
    ListOption(b, i, w, level, id);
    ElementsExactly(b, i + |Lead(w)|, w.items, level, id);
  }

  lemma ListOption(b: Bytes, i: nat, w: Wire, level: int, id: int)
    requires i <= |b| && ElementAt(b, i) == Miss && ArrayAt(b, i).Hit?
    requires Valid(w) && w.Array? && ValidAll(w.items) && !IsElement(w)
    ensures OptionAt(b, i, level, id) == ElementsAt(b, ArrayAt(b, i).next, level, id, ArrayAt(b, i).value)
    ensures IsOptionValue(w) <==> AllElements(w.items)
    ensures IsOptionValue(w) ==> OptionSteps(w, level, id) == ElementSteps(w.items, level, id)
  {
    hide ElementAt, ArrayAt, ElementsAt, ElementSteps, IsElement, AllElements, Valid, ValidAll;
  }

  lemma {:induction false} ElementsExactly(b: Bytes, i: nat, ws: seq<Wire>, level: int, id: int)
    requires i <= |b| && IsBuffer(b) && ValidAll(ws) && At(b, i, EncodeAll(ws))
    ensures AllElements(ws) ==>
              ElementsAt(b, i, level, id, |ws|) == Walk(ElementSteps(ws, level, id), Reached(i + |EncodeAll(ws)|, id))
    ensures !AllElements(ws) ==>
              var stop := ElementsAt(b, i, level, id, |ws|).stop;
              stop.Reached? && stop.next < i + |EncodeAll(ws)|
    decreases |ws|
  {
    hide Encode, IsElement, ElementAt, ElementValue, Valid;
    if ws != [] {
      var w, rest := ws[0], ws[1..];
      AtSplit(b, i, Encode(w), EncodeAll(rest));
      hide At;
      ReadElement(b, i, w);
      if IsElement(w) {
        ElementsExactly(b, i + |Encode(w)|, rest, level, id);
      } else {
        StuckElement(b, i, level, id, |ws|);
      }
    }
  }

  /** Once at an element that is neither int nor string the loop stays there. */
  lemma {:induction false} StuckElement(b: Bytes, i: nat, level: int, id: int, n: nat)
    requires i <= |b| && ElementAt(b, i) == Miss
    ensures ElementsAt(b, i, level, id, n) == Walk([], Reached(i, id))
  {
    if n > 0 {
      StuckElement(b, i, level, id, n - 1);
    }
  }

  // ----- Option mappings

  lemma ValidPair(items: seq<Wire>)
    requires ValidAll(items) && |items| >= 2
    ensures Valid(items[0]) && Valid(items[1]) && ValidAll(items[2..])
    ensures EncodeAll(items) == Encode(items[0]) + (Encode(items[1]) + EncodeAll(items[2..]))
  {
    hide Valid, Encode;
    assert items[1..][1..] == items[2..];
    assert ValidAll(items[1..]);
  }

  lemma NoItems()
    ensures EncodeAll([]) == []
  {
  }

  lemma AtSplit3(b: Bytes, i: nat, p: Bytes, q: Bytes, r: Bytes)
    requires At(b, i, p + (q + r))
    ensures At(b, i, p) && At(b, i + |p|, q) && At(b, i + |p| + |q|, r)
    ensures i + |p| + |q| + |r| <= |b|
  {
    AtSplit(b, i, p, q + r);
    AtSplit(b, i + |p|, q, r);
  }

  /** A key, its value and the pairs after them. */
  lemma PairSplit(b: Bytes, i: nat, items: seq<Wire>)
    requires IsBuffer(b) && ValidAll(items) && At(b, i, EncodeAll(items)) && |items| >= 2
    ensures Valid(items[0]) && Valid(items[1]) && ValidAll(items[2..])
    ensures var j := i + |Encode(items[0])|; var k := j + |Encode(items[1])|;
            && At(b, i, Encode(items[0])) && At(b, j, Encode(items[1])) && At(b, k, EncodeAll(items[2..]))
            && i + |EncodeAll(items)| == k + |EncodeAll(items[2..])| <= |b|
  {
    hide Encode, Valid, ValidAll, EncodeAll;
    ValidPair(items);
    AtSplit3(b, i, Encode(items[0]), Encode(items[1]), EncodeAll(items[2..]));
  }

  /** Names are strings, values of known names are option values, and values of unknown names
      are ones the skipper can pass. */
  predicate SocketOptionsOk(c: Context, items: seq<Wire>) {
    |items| < 2
    || (&& items[0].Str?
        && (if SymbolValue(c.symbols, items[0].data).Some? then IsOptionValue(items[1]) else Straight(items[1]))
        && SocketOptionsOk(c, items[2..]))
  }

  /** The calls for the known names, in order; unknown names are dropped. */
  function SocketOptionSteps(c: Context, items: seq<Wire>): seq<Step>
    requires ValidAll(items) && SocketOptionsOk(c, items)
  {
    if |items| < 2 then []
    else
      ValidPair(items);
      var id := SymbolValue(c.symbols, items[0].data);
      (if id.Some? then OptionSteps(items[1], SocketLevel(c, items[0].data), id.value) else [])
      + SocketOptionSteps(c, items[2..])
  }

  lemma {:induction false} SocketOptionsRead(c: Context, b: Bytes, i: nat, items: seq<Wire>, optid: int)
    requires i <= |b| && IsBuffer(b) && ValidAll(items) && At(b, i, EncodeAll(items))
    requires |items| % 2 == 0 && SocketOptionsOk(c, items)
    ensures var w := SocketOptionsAt(c, b, i, |items| / 2, optid);
            && w.steps == SocketOptionSteps(c, items)
            && w.stop.Reached? && w.stop.next == i + |EncodeAll(items)|
    decreases |items|
  {
    hide EncodeAll, Encode, At, Valid, ValidAll, IsOptionValue, Straight, OptionSteps, StringAt, OptionAt,
         SkipAt, SymbolValue;
    if items != [] {
      PairSplit(b, i, items);
      var j := i + |Encode(items[0])|;
      var k := j + |Encode(items[1])|;
      ReadEncoded(b, i, items[0]);
      var id := SymbolValue(c.symbols, items[0].data);
      if id.Some? {
        OptionExactly(b, j, items[1], SocketLevel(c, items[0].data), id.value);
        SocketOptionsRead(c, b, k, items[2..], id.value);
      } else {
        SkipStraight(b, j, items[1]);
        SocketOptionsRead(c, b, k, items[2..], optid);
      }
    } else {
      NoItems();
    }
  }

  // ----- Endpoint options

  /** Level of an endpoint option by its name: the transport's if the name is prefixed by it
      -- and longer than the name of the socket's protocol. */
  function EndpointLevelOf(c: Context, name: Bytes, transport: Symbol): int {
    if |c.protocol| < |name| && Prefixed(name, transport.name) then transport.value else SOL_SOCKET
  }

  lemma {:induction false} PrefixedRead(b: Bytes, i: nat, name: Bytes, prefix: Bytes)
    requires At(b, i, name) && !(name <= prefix)
    ensures PrefixedInBuffer(b, i, prefix).Hit?
    ensures PrefixedInBuffer(b, i, prefix).value == Prefixed(name, prefix)
    decreases |prefix|
  {
    assert name != [];
    assert b[i] == b[i..i + |name|][0] == name[0];
    if prefix != [] && b[i] == prefix[0] {
      assert name == [name[0]] + name[1..] && prefix == [prefix[0]] + prefix[1..];
      assert At(b, i + 1, name[1..]) by {
        assert b[i + 1..i + |name|] == b[i..i + |name|][1..];
      }
      PrefixedRead(b, i + 1, name[1..], prefix[1..]);
      if |prefix| < |name| {
        assert name[..|prefix|] == prefix <==> name[1..][..|prefix| - 1] == prefix[1..] by {
          assert name[1..][..|prefix| - 1] == name[..|prefix|][1..];
          assert name[..|prefix|] == [name[0]] + name[..|prefix|][1..];
        }
      }
    } else if |prefix| < |name| && prefix != [] {
      assert name[..|prefix|][0] != prefix[0];
    }
  }

  /** Every name is known and is not itself a beginning of the transport's symbol. */
  predicate EndpointOptionsOk(c: Context, items: seq<Wire>, transport: Symbol) {
    |items| < 2
    || (&& items[0].Str? && !(items[0].data <= transport.name)
        && SymbolValue(c.symbols, items[0].data).Some?
        && IsOptionValue(items[1])
        && EndpointOptionsOk(c, items[2..], transport))
  }

  function EndpointOptionSteps(c: Context, items: seq<Wire>, transport: Symbol): seq<Step>
    requires ValidAll(items) && EndpointOptionsOk(c, items, transport)
  {
    if |items| < 2 then []
    else
      ValidPair(items);
      var name := items[0].data;
      OptionSteps(items[1], EndpointLevelOf(c, name, transport), SymbolValue(c.symbols, name).value)
      + EndpointOptionSteps(c, items[2..], transport)
  }

  lemma {:induction false} EndpointOptionsRead(
      c: Context, b: Bytes, i: nat, items: seq<Wire>, optid: int, transport: Symbol)
    requires i <= |b| && IsBuffer(b) && ValidAll(items) && At(b, i, EncodeAll(items))
    requires |items| % 2 == 0 && EndpointOptionsOk(c, items, transport)
    ensures var w := EndpointOptionsAt(c, b, i, |items| / 2, optid, transport);
            && w.steps == EndpointOptionSteps(c, items, transport)
            && w.stop.Reached? && w.stop.next == i + |EncodeAll(items)|
    decreases |items|
  {
    hide EncodeAll, Encode, At, Valid, ValidAll, IsOptionValue, OptionSteps, StringAt, OptionAt, SkipAt,
         SymbolValue, EndpointLevel, EndpointLevelOf;
    if items != [] {
      PairSplit(b, i, items);
      var j := i + |Encode(items[0])|;
      ReadEncoded(b, i, items[0]);
      var id := SymbolValue(c.symbols, items[0].data).value;
      EndpointLevelRead(c, b, i, items[0], transport);
      OptionExactly(b, j, items[1], EndpointLevelOf(c, items[0].data, transport), id);
      EndpointOptionsRead(c, b, j + |Encode(items[1])|, items[2..], id, transport);
    } else {
      NoItems();
    }
  }

  lemma EndpointLevelRead(c: Context, b: Bytes, i: nat, w: Wire, transport: Symbol)
    requires IsBuffer(b) && Valid(w) && w.Str? && At(b, i, Encode(w)) && !(w.data <= transport.name)
    ensures i + |Encode(w)| - |w.data| >= 0
    ensures EndpointLevel(c, b, i + |Encode(w)| - |w.data|, |w.data|, transport).Hit?
    ensures EndpointLevel(c, b, i + |Encode(w)| - |w.data|, |w.data|, transport).value
         == EndpointLevelOf(c, w.data, transport)
  {
    AtSplit(b, i, Lead(w), w.data);
    PrefixedRead(b, i + |Lead(w)|, w.data, transport.name);
    hide Lead, At, Prefixed, PrefixedInBuffer;
  }

  // ----- Addresses

  lemma {:induction false} ColonRead(b: Bytes, i: nat, addr: Bytes, k: nat)
    requires At(b, i, addr) && k <= |addr| && ColonFrom(addr, k).Hit?
    ensures ColonFrom(b, i + k).Hit? && ColonFrom(b, i + k).next == i + ColonFrom(addr, k).next
    decreases |addr| - k
  {
    assert addr[k] == b[i..i + |addr|][k] == b[i + k];
    if addr[k] != COLON {
      ColonRead(b, i, addr, k + 1);
    }
  }

  /** [kind, "transport:..."] with an optional third element. */
  predicate IsAddress(w: Wire)
    requires Valid(w)
  {
    && w.Array? && 2 <= |w.items| <= 3
    && IsInt(w.items[0]) && w.items[1].Str?
    && Valid(w.items[0])
    && AsInt32(IntOf(w.items[0])) in {0, 1}
    && ColonFrom(w.items[1].data, 0).Hit?
  }

  function KindOf(w: Wire): int
    requires Valid(w) && IsAddress(w)
  {
    AsInt32(IntOf(w.items[0]))
  }

  function TransportIn(c: Context, addr: Bytes): Option<Symbol>
    requires ColonFrom(addr, 0).Hit?
  {
    TransportOf(c.symbols, addr[..ColonFrom(addr, 0).next])
  }

  /** Address number `k`: its transport is known and its options are in order, or -- a slip
      in the guard of the skip loop -- it has no options and is not among the first two. */
  predicate AddressOk(c: Context, k: nat, w: Wire) {
    && Valid(w) && IsAddress(w)
    && (match TransportIn(c, w.items[1].data)
        case None => |w.items| == 2 && k >= 2
        case Some(t) => |w.items| == 2 || (w.items[2].Map? && EndpointOptionsOk(c, w.items[2].items, t)))
  }

  /** The tuple's options and then the address itself. */
  function AddressSteps(c: Context, k: nat, w: Wire): seq<Step>
    requires AddressOk(c, k, w)
  {
    match TransportIn(c, w.items[1].data)
    case None => []
    case Some(t) =>
      (if |w.items| == 2 then [] else ThirdItem(w); EndpointOptionSteps(c, w.items[2].items, t))
      + [Address(KindOf(w), w.items[1].data)]
  }

  lemma ThirdItem(w: Wire)
    requires Valid(w) && w.Array? && |w.items| == 3
    ensures Valid(w.items[2])
    ensures w.items[2].Map? ==> ValidAll(w.items[2].items) && |w.items[2].items| % 2 == 0
    ensures EncodeAll(w.items[2..]) == Encode(w.items[2])
  {
    ValidPair(w.items);
    NoItems();
    assert w.items[2..] == [w.items[2]] && w.items[2..][1..] == [];
  }

  lemma FrontRead(c: Context, b: Bytes, i: nat, w: Wire)
    requires IsBuffer(b) && Valid(w) && At(b, i, Encode(w)) && IsAddress(w)
    ensures i <= |b| && ValidAll(w.items) && Valid(w.items[1]) && ValidAll(w.items[2..])
    ensures var next := i + |Lead(w)| + |Encode(w.items[0])| + |Encode(w.items[1])|;
            && FrontAt(c, b, i)
               == Hit(Front(|w.items|, KindOf(w), w.items[1].data, TransportIn(c, w.items[1].data), next), next)
            && At(b, next, EncodeAll(w.items[2..]))
            && next + |EncodeAll(w.items[2..])| == i + |Encode(w)|
  {
    hide Encode, EncodeAll, IntAt, StringAt, ArrayAt, At, Lead, IsInt, ValidNode, IntOf, AsInt32, TransportOf;
    ReadGroup(b, i, w);
    var j := i + |Lead(w)|;
    PairSplit(b, j, w.items);
    var k := j + |Encode(w.items[0])|;
    ReadEncoded(b, j, w.items[0]);
    ReadEncoded(b, k, w.items[1]);
    AddressText(b, k, w.items[1]);
  }

  /** The text of an address and its transport name, in the buffer. */
  lemma AddressText(b: Bytes, k: nat, w: Wire)
    requires IsBuffer(b) && Valid(w) && w.Str? && At(b, k, Encode(w)) && ColonFrom(w.data, 0).Hit?
    ensures |w.data| <= |Encode(w)| && k + |Encode(w)| <= |b|
    ensures var start := k + |Encode(w)| - |w.data|;
            var colon := ColonFrom(b, start);
            && colon.Hit? && colon.next == start + ColonFrom(w.data, 0).next
            && b[start..colon.next] == w.data[..ColonFrom(w.data, 0).next]
  {
    AtSplit(b, k, Lead(w), w.data);
    hide Lead, ColonFrom, Encode, ValidNode;
    var start := k + |Lead(w)|;
    ColonRead(b, start, w.data, 0);
    var n := ColonFrom(w.data, 0).next;
    assert b[start..start + |w.data|][..n] == b[start..start + n];
  }

  /** One turn of the address loop. */
  lemma AddressRead(c: Context, b: Bytes, i: nat, k: nat, w: Wire, optid: int)
    requires IsBuffer(b) && AddressOk(c, k, w) && At(b, i, Encode(w))
    ensures i <= |b| && FrontAt(c, b, i).Hit?
    ensures var f := FrontAt(c, b, i).value;
            && f.transport == TransportIn(c, w.items[1].data)
            && f.tuple == |w.items|
            && (f.transport.None? ==> f.next == i + |Encode(w)| && f.tuple <= k && AddressSteps(c, k, w) == [])
            && (f.transport.Some? ==>
                  var o := TupleOptionsAt(c, b, f, optid);
                  && o.stop.Reached? && o.stop.next == i + |Encode(w)|
                  && o.steps + [Address(f.kind, f.addr)] == AddressSteps(c, k, w))
  {
    hide Encode, At, Lead, ValidNode, FrontAt, TransportOf, IsInt, IntOf, AsInt32, ColonFrom,
         EndpointOptionsOk, EndpointOptionsAt, MapAt, EndpointOptionSteps, KindOf, TransportIn, EncodeAll,
         ValidAll;
    FrontRead(c, b, i, w);
    var f := FrontAt(c, b, i).value;
    if |w.items| == 2 {
      NoItems();
      assert w.items[2..] == [];
    } else if f.transport.Some? {
      ThirdItem(w);
      var m := w.items[2];
      ReadGroup(b, f.next, m);
      EndpointOptionsRead(c, b, f.next + |Lead(m)|, m.items, optid, f.transport.value);
    }
  }

  /** An address whose transport is not in the table: the walk goes on at its end exactly if
      it has no options and at least two addresses came before it.  Otherwise the reply is
      turned down, or its options are left to be taken for the next address. */
  lemma UnknownTransport(c: Context, b: Bytes, i: nat, k: nat, w: Wire, optid: int)
    requires IsBuffer(b) && Valid(w) && IsAddress(w) && At(b, i, Encode(w))
    requires TransportIn(c, w.items[1].data).None?
    ensures i <= |b|
    ensures AddressesAt(c, b, i, k, k + 1, optid).steps == []
    ensures var stop := AddressesAt(c, b, i, k, k + 1, optid).stop;
            stop.Reached? && stop.next == i + |Encode(w)| <==> |w.items| == 2 && k >= 2
  {
    hide Encode, At, Lead, ValidNode, FrontAt, TransportOf, IsInt, IntOf, AsInt32, ColonFrom, EncodeAll,
         ValidAll, TransportIn, KindOf;
    FrontRead(c, b, i, w);
    if |w.items| == 2 {
      NoItems();
      assert w.items[2..] == [];
    } else {
      ThirdItem(w);
    }
  }

  predicate AddressesOk(c: Context, k: nat, ws: seq<Wire>)
    decreases ws
  {
    ws == [] || (AddressOk(c, k, ws[0]) && AddressesOk(c, k + 1, ws[1..]))
  }

  function AddressListSteps(c: Context, k: nat, ws: seq<Wire>): seq<Step>
    requires AddressesOk(c, k, ws)
    decreases ws
  {
    if ws == [] then [] else AddressSteps(c, k, ws[0]) + AddressListSteps(c, k + 1, ws[1..])
  }

  lemma {:induction false} AddressesRead(c: Context, b: Bytes, i: nat, k: nat, ws: seq<Wire>, optid: int)
    requires i <= |b| && IsBuffer(b) && ValidAll(ws) && At(b, i, EncodeAll(ws)) && AddressesOk(c, k, ws)
    ensures var w := AddressesAt(c, b, i, k, k + |ws|, optid);
            && w.steps == AddressListSteps(c, k, ws)
            && w.stop.Reached? && w.stop.next == i + |EncodeAll(ws)|
    decreases |ws|
  {
    hide Encode, At, FrontAt, TransportOf, TupleOptionsAt, AddressSteps, AddressOk, TransportIn, Valid;
    if ws != [] {
      AtSplit(b, i, Encode(ws[0]), EncodeAll(ws[1..]));
      AddressRead(c, b, i, k, ws[0], optid);
      var f := FrontAt(c, b, i).value;
      var j := i + |Encode(ws[0])|;
      if f.transport.Some? {
        var o := TupleOptionsAt(c, b, f, optid);
        AddressesRead(c, b, j, k + 1, ws[1..], o.stop.optid);
      } else {
        AddressesRead(c, b, j, k + 1, ws[1..], optid);
      }
    }
  }

  // ----- Topics and the whole reply

  predicate AllStrings(ws: seq<Wire>) {
    ws == [] || (ws[0].Str? && AllStrings(ws[1..]))
  }

  function TopicSteps(ws: seq<Wire>): seq<Step>
    requires AllStrings(ws)
  {
    if ws == [] then [] else [Topic(ws[0].data)] + TopicSteps(ws[1..])
  }

  lemma {:induction false} TopicsRead(b: Bytes, i: nat, ws: seq<Wire>, optid: int)
    requires i <= |b| && IsBuffer(b) && ValidAll(ws) && At(b, i, EncodeAll(ws)) && AllStrings(ws)
    ensures TopicsAt(b, i, |ws|, optid) == Walk(TopicSteps(ws), Reached(i + |EncodeAll(ws)|, optid))
    decreases |ws|
  {
    hide Encode, At, StringAt, Valid;
    if ws != [] {
      AtSplit(b, i, Encode(ws[0]), EncodeAll(ws[1..]));
      ReadEncoded(b, i, ws[0]);
      TopicsRead(b, i + |Encode(ws[0])|, ws[1..], optid);
    }
  }

  /** A success reply as documented in nc_parse_and_apply: [1, options, addresses, topics...].
      The topics may be missing; anything may follow them. */
  predicate IsReply(c: Context, w: Wire) {
    && Valid(w) && w.Array? && |w.items| >= 3
    && IsInt(w.items[0]) && Valid(w.items[0]) && IntOf(w.items[0]) == 1
    && w.items[1].Map? && SocketOptionsOk(c, w.items[1].items)
    && w.items[2].Array? && AddressesOk(c, 0, w.items[2].items)
    && (|w.items| > 3 ==> w.items[3].Array? && AllStrings(w.items[3].items))
  }

  lemma ReplyParts(w: Wire)
    requires Valid(w) && w.Array? && |w.items| >= 3
    ensures Valid(w.items[0]) && Valid(w.items[1]) && Valid(w.items[2])
    ensures |w.items| > 3 ==> Valid(w.items[3])
    ensures w.items[1].Map? ==> ValidAll(w.items[1].items) && |w.items[1].items| % 2 == 0
    ensures w.items[2].Array? ==> ValidAll(w.items[2].items)
  {
    ValidPair(w.items);
    assert w.items[2..][0] == w.items[2];
    if |w.items| > 3 {
      ValidPair(w.items[2..]);
    }
  }

  /** What the reply asks for, in order. */
  function ReplySteps(c: Context, w: Wire): seq<Step>
    requires IsReply(c, w)
  {
    ReplyParts(w);
    SocketOptionSteps(c, w.items[1].items)
    + ([Unmark] + AddressListSteps(c, 0, w.items[2].items) + [Settle, UnmarkTopics]
       + ((if |w.items| > 3 then TopicSteps(w.items[3].items) else []) + [SettleTopics]))
  }

  /** For every well-formed reply, in every encoding and whatever bytes come after it,
      `nc_parse_and_apply` returns 1 and takes exactly the steps the reply asks for. */
  lemma ReplyRead(c: Context, b: Bytes, w: Wire)
    requires IsBuffer(b) && IsReply(c, w) && At(b, 0, Encode(w))
    ensures ReplyWalk(c, b).steps == ReplySteps(c, w)
    ensures ReplyWalk(c, b).stop.Reached?
  {
    hide Encode, EncodeAll, Lead, At, IntAt, ArrayAt, MapAt, IntOf, AsInt32, IsInt, ValidNode, Valid,
         ValidAll, SocketOptionsAt, SocketOptionsOk, SocketOptionSteps, AddressesOk, AddressListSteps,
         AllStrings, TopicSteps, AddressPart;
    OpeningRead(b, w);
    ReplyParts(w);
    var j := OpeningAt(b).next;
    var m := w.items[1];
    ReadGroup(b, j, m);
    SocketOptionsRead(c, b, j + |Lead(m)|, m.items, c.stale);
    var o := SocketOptionsAt(c, b, j + |Lead(m)|, |m.items| / 2, c.stale);
    AddressPartRead(c, b, o.stop, w);
  }

  /** A reply is gone into if and only if it is an array of three or more that starts with
      an int 1 of 32 bits or fewer; the walk goes on behind that int. */
  lemma OpeningExactly(b: Bytes, w: Wire)
    requires IsBuffer(b) && Valid(w) && At(b, 0, Encode(w))
    ensures OpeningAt(b).Hit? <==>
            w.Array? && |w.items| >= 3 && IsInt(w.items[0]) && Valid(w.items[0]) && IntOf(w.items[0]) == 1
    ensures OpeningAt(b).Hit? ==>
              OpeningAt(b).value == |w.items| && OpeningAt(b).next == |Lead(w)| + |Encode(w.items[0])|
  {
    hide Encode, EncodeAll, Lead, At, IntAt, ArrayAt, IntOf, ValidNode;
    ReadGroup(b, 0, w);
    if w.Array? && |w.items| >= 3 {
      PairSplit(b, |Lead(w)|, w.items);
      ReadEncoded(b, |Lead(w)|, w.items[0]);
      if IsInt(w.items[0]) {
        OnlyOneIsOne(w.items[0]);
      }
    }
  }

  lemma OnlyOneIsOne(w: Wire)
    requires ValidNode(w) && IsInt(w)
    ensures AsInt32(IntOf(w)) == 1 <==> IntOf(w) == 1
  {
    assert IntOf(w) < TWO32;
    hide Be32, Be16, BeBytes;
  }

  /** The first two items. */
  lemma OpeningRead(b: Bytes, w: Wire)
    requires IsBuffer(b) && Valid(w) && w.Array? && |w.items| >= 3 && At(b, 0, Encode(w))
    requires IsInt(w.items[0]) && Valid(w.items[0]) && IntOf(w.items[0]) == 1
    ensures OpeningAt(b).Hit? && OpeningAt(b).value == |w.items|
    ensures ValidAll(w.items[2..]) && Valid(w.items[1])
    ensures var j := OpeningAt(b).next;
            && At(b, j, Encode(w.items[1]))
            && At(b, j + |Encode(w.items[1])|, EncodeAll(w.items[2..]))
  {
    hide Encode, EncodeAll, Lead, At, IntAt, ArrayAt, IntOf, ValidNode;
    ReadGroup(b, 0, w);
    PairSplit(b, |Lead(w)|, w.items);
    ReadEncoded(b, |Lead(w)|, w.items[0]);
  }

  lemma AddressPartRead(c: Context, b: Bytes, at: Stop, w: Wire)
    requires IsBuffer(b) && IsReply(c, w) && at.Reached? && ValidAll(w.items[2..])
    requires At(b, at.next, EncodeAll(w.items[2..]))
    ensures at.next <= |b|
    ensures AddressPart(c, b, at, |w.items|).stop.Reached?
    ensures AddressPart(c, b, at, |w.items|).steps
         == [Unmark] + AddressListSteps(c, 0, w.items[2].items) + [Settle, UnmarkTopics]
            + ((if |w.items| > 3 then TopicSteps(w.items[3].items) else []) + [SettleTopics])
  {
    hide Encode, EncodeAll, Lead, At, ArrayAt, IntOf, IsInt, ValidNode, Valid, ValidAll, SocketOptionsOk,
         AddressesAt, AddressesOk, AddressListSteps, AllStrings, TopicSteps, TopicPart;
    ReplyParts(w);
    var a := w.items[2];
    RestSplit(b, at.next, w.items[2..]);
    assert w.items[2..][0] == a;
    ReadGroup(b, at.next, a);
    AddressesRead(c, b, at.next + |Lead(a)|, 0, a.items, at.optid);
    var s := AddressesAt(c, b, at.next + |Lead(a)|, 0, |a.items|, at.optid);
    assert s.stop.next == at.next + |Encode(a)|;
    TopicPartRead(b, s.stop, w);
  }

  lemma RestSplit(b: Bytes, i: nat, ws: seq<Wire>)
    requires IsBuffer(b) && ValidAll(ws) && ws != [] && At(b, i, EncodeAll(ws))
    ensures Valid(ws[0]) && ValidAll(ws[1..])
    ensures i + |Encode(ws[0])| <= |b|
    ensures At(b, i, Encode(ws[0])) && At(b, i + |Encode(ws[0])|, EncodeAll(ws[1..]))
  {
    hide Encode, Valid;
    AtSplit(b, i, Encode(ws[0]), EncodeAll(ws[1..]));
  }

  lemma TopicPartRead(b: Bytes, at: Stop, w: Wire)
    requires IsBuffer(b) && Valid(w) && w.Array? && |w.items| >= 3 && at.Reached?
    requires |w.items| > 3 ==> w.items[3].Array? && AllStrings(w.items[3].items)
    requires at.next <= |b| && ValidAll(w.items[2..][1..]) && At(b, at.next, EncodeAll(w.items[2..][1..]))
    ensures TopicPart(b, at, |w.items|).stop.Reached?
    ensures TopicPart(b, at, |w.items|).steps
         == (if |w.items| > 3 then TopicSteps(w.items[3].items) else []) + [SettleTopics]
  {
    hide Encode, EncodeAll, Lead, At, ArrayAt, ValidNode, ValidAll, AllStrings, TopicSteps, TopicsAt;
    if |w.items| > 3 {
      var t := w.items[3];
      assert w.items[2..][1..][0] == t;
      RestSplit(b, at.next, w.items[2..][1..]);
      ReadGroup(b, at.next, t);
      TopicsRead(b, at.next + |Lead(t)|, t.items, at.optid);
    }
  }
}
