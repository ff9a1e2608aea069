/** Replies of the wrong form, as MessagePack values: the first thing wrong turns a reply down, and
    by then exactly the steps before it have been taken. */
module ReplyFaults {
  import opened Wrappers
  import opened MsgPack
  import opened Wire
  import opened Skipping
  import opened Reply
  import opened ReplyForm
  import opened Strays

  /** No int, no string and no array. */
  predicate Unfit(w: Wire) {
    !IsInt(w) && !w.Str? && !w.Array?
  }

  lemma UnfitRefused(b: Bytes, i: nat, w: Wire, level: int, id: int)
    requires IsBuffer(b) && Valid(w) && At(b, i, Encode(w)) && Unfit(w)
    ensures i <= |b| && OptionAt(b, i, level, id) == Walk([], Rejected)
  {
    ReadElement(b, i, w);
    ReadGroup(b, i, w);
    hide ElementAt, ArrayAt, MapAt, Encode, IsInt;
  }

  // ----- Socket options

  /** A key that is no string, or a value that is unfit for the option of a known name. */
  predicate BadPair(c: Context, items: seq<Wire>)
    requires |items| >= 2
  {
    !items[0].Str? || (SymbolValue(c.symbols, items[0].data).Some? && Unfit(items[1]))
  }

  predicate GoodPair(c: Context, items: seq<Wire>)
    requires |items| >= 2
  {
    && items[0].Str?
    && if SymbolValue(c.symbols, items[0].data).Some? then IsOptionValue(items[1]) else Straight(items[1])
  }

  predicate SocketFault(c: Context, items: seq<Wire>) {
    |items| >= 2 && (BadPair(c, items) || (GoodPair(c, items) && SocketFault(c, items[2..])))
  }

  /** The calls for the names before the fault. */
  function SocketStepsBefore(c: Context, items: seq<Wire>): seq<Step>
    requires ValidAll(items) && SocketFault(c, items)
  {
    if BadPair(c, items) then []
    else
      ValidPair(items);
      var id := SymbolValue(c.symbols, items[0].data);
      (if id.Some? then OptionSteps(items[1], SocketLevel(c, items[0].data), id.value) else [])
      + SocketStepsBefore(c, items[2..])
  }

  lemma {:induction false} SocketOptionsRefused(c: Context, b: Bytes, i: nat, items: seq<Wire>, optid: int)
    requires i <= |b| && IsBuffer(b) && ValidAll(items) && At(b, i, EncodeAll(items))
    requires |items| % 2 == 0 && SocketFault(c, items)
    ensures SocketOptionsAt(c, b, i, |items| / 2, optid) == Walk(SocketStepsBefore(c, items), Rejected)
    decreases |items|
  {
    hide EncodeAll, Encode, At, Valid, ValidAll, IsOptionValue, Straight, OptionSteps, StringAt, OptionAt,
         SkipAt, SymbolValue, Unfit;
    PairSplit(b, i, items);
    var j := i + |Encode(items[0])|;
    var k := j + |Encode(items[1])|;
    ReadEncoded(b, i, items[0]);
    if items[0].Str? {
      var id := SymbolValue(c.symbols, items[0].data);
      if BadPair(c, items) {
        UnfitRefused(b, j, items[1], SocketLevel(c, items[0].data), id.value);
      } else if id.Some? {
        OptionExactly(b, j, items[1], SocketLevel(c, items[0].data), id.value);
        SocketOptionsRefused(c, b, k, items[2..], id.value);
      } else {
        SkipStraight(b, j, items[1]);
        SocketOptionsRefused(c, b, k, items[2..], optid);
      }
    }
  }

  // ----- Endpoint options

  predicate BadEndpointPair(c: Context, items: seq<Wire>, transport: Symbol)
    requires |items| >= 2
  {
    || !items[0].Str?
    || (SymbolValue(c.symbols, items[0].data).Some? && !(items[0].data <= transport.name) && Unfit(items[1]))
  }

  predicate GoodEndpointPair(c: Context, items: seq<Wire>, transport: Symbol)
    requires |items| >= 2
  {
    && items[0].Str? && !(items[0].data <= transport.name)
    && SymbolValue(c.symbols, items[0].data).Some? && IsOptionValue(items[1])
  }

  predicate EndpointFault(c: Context, items: seq<Wire>, transport: Symbol) {
    && |items| >= 2
    && (BadEndpointPair(c, items, transport) ||
        (GoodEndpointPair(c, items, transport) && EndpointFault(c, items[2..], transport)))
  }

  function EndpointStepsBefore(c: Context, items: seq<Wire>, transport: Symbol): seq<Step>
    requires ValidAll(items) && EndpointFault(c, items, transport)
  {
    if BadEndpointPair(c, items, transport) then []
    else
      ValidPair(items);
      var name := items[0].data;
      OptionSteps(items[1], EndpointLevelOf(c, name, transport), SymbolValue(c.symbols, name).value)
      + EndpointStepsBefore(c, items[2..], transport)
  }

  lemma {:induction false} EndpointOptionsRefused(
      c: Context, b: Bytes, i: nat, items: seq<Wire>, optid: int, transport: Symbol)
    requires i <= |b| && IsBuffer(b) && ValidAll(items) && At(b, i, EncodeAll(items))
    requires |items| % 2 == 0 && EndpointFault(c, items, transport)
    ensures EndpointOptionsAt(c, b, i, |items| / 2, optid, transport)
         == Walk(EndpointStepsBefore(c, items, transport), Rejected)
    decreases |items|
  {
    hide EncodeAll, Encode, At, Valid, ValidAll, IsOptionValue, OptionSteps, StringAt, OptionAt, SkipAt,
         SymbolValue, EndpointLevel, EndpointLevelOf, Unfit;
    PairSplit(b, i, items);
    var j := i + |Encode(items[0])|;
    ReadEncoded(b, i, items[0]);
    if items[0].Str? {
      var id := SymbolValue(c.symbols, items[0].data).value;
      EndpointLevelRead(c, b, i, items[0], transport);
      if BadEndpointPair(c, items, transport) {
        UnfitRefused(b, j, items[1], EndpointLevelOf(c, items[0].data, transport), id);
      } else {
        OptionExactly(b, j, items[1], EndpointLevelOf(c, items[0].data, transport), id);
        EndpointOptionsRefused(c, b, j + |Encode(items[1])|, items[2..], id, transport);
      }
    }
  }

  // ----- Addresses

  /** No array of two or three that starts with an int 0 or 1 and a string. */
  lemma NoPair(c: Context, b: Bytes, i: nat, w: Wire)
    requires IsBuffer(b) && Valid(w) && At(b, i, Encode(w)) && !IsPair(w)
    ensures i <= |b| && FrontAt(c, b, i) == Miss
  {
    hide Encode, EncodeAll, IntAt, StringAt, ArrayAt, At, Lead, IsInt, ValidNode, IntOf, AsInt32, ColonFrom,
         TransportOf;
    ReadGroup(b, i, w);
    if w.Array? && 2 <= |w.items| <= 3 {
      var j := i + |Lead(w)|;
      PairSplit(b, j, w.items);
      ReadEncoded(b, j, w.items[0]);
      ReadEncoded(b, j + |Encode(w.items[0])|, w.items[1]);
    }
  }

  /** A tuple of another form, an address with a zero before any colon, or options that are no
      mapping or have a fault themselves. */
  predicate BadTuple(c: Context, w: Wire)
    requires Valid(w)
  {
    || !IsPair(w)
    || ColonFrom(w.items[1].data, 0).Miss?
    || (IsAddress(w) && TransportIn(c, w.items[1].data).Some? && |w.items| == 3 &&
        (!w.items[2].Map? || EndpointFault(c, w.items[2].items, TransportIn(c, w.items[1].data).value)))
  }

  function TupleStepsBefore(c: Context, w: Wire): seq<Step>
    requires Valid(w) && BadTuple(c, w)
  {
    if !IsPair(w) || ColonFrom(w.items[1].data, 0).Miss? || !w.items[2].Map? then []
    else
      ThirdItem(w);
      EndpointStepsBefore(c, w.items[2].items, TransportIn(c, w.items[1].data).value)
  }

  lemma TupleRefused(c: Context, b: Bytes, i: nat, k: nat, n: nat, w: Wire, optid: int)
    requires IsBuffer(b) && Valid(w) && At(b, i, Encode(w)) && BadTuple(c, w) && k < n
    ensures i <= |b| && AddressesAt(c, b, i, k, n, optid) == Walk(TupleStepsBefore(c, w), Rejected)
  {
    hide Encode, At, Lead, ValidNode, FrontAt, TransportOf, IsInt, IntOf, AsInt32, ColonFrom, EndpointFault,
         EndpointOptionsAt, MapAt, EndpointStepsBefore, KindOf, TransportIn, EncodeAll, ValidAll;
    if !IsPair(w) {
      NoPair(c, b, i, w);
    } else if ColonFrom(w.items[1].data, 0).Miss? {
      AddressExactly(c, b, i, w);
      var r := FrontAt(c, b, i);
      assert r.Miss?;
    } else {
      FrontRead(c, b, i, w);
      var f := FrontAt(c, b, i).value;
      ThirdItem(w);
      var m := w.items[2];
      ReadGroup(b, f.next, m);
      if m.Map? {
        EndpointOptionsRefused(c, b, f.next + |Lead(m)|, m.items, optid, f.transport.value);
      }
    }
  }

  predicate AddressFault(c: Context, k: nat, ws: seq<Wire>)
    requires ValidAll(ws)
    decreases |ws|
  {
    ws != [] && (BadTuple(c, ws[0]) || (AddressOk(c, k, ws[0]) && AddressFault(c, k + 1, ws[1..])))
  }

  function AddressStepsBefore(c: Context, k: nat, ws: seq<Wire>): seq<Step>
    requires ValidAll(ws) && AddressFault(c, k, ws)
    decreases |ws|
  {
    if BadTuple(c, ws[0]) then TupleStepsBefore(c, ws[0])
    else AddressSteps(c, k, ws[0]) + AddressStepsBefore(c, k + 1, ws[1..])
  }

  lemma {:induction false} AddressesRefused(c: Context, b: Bytes, i: nat, k: nat, ws: seq<Wire>, optid: int)
    requires i <= |b| && IsBuffer(b) && ValidAll(ws) && At(b, i, EncodeAll(ws)) && AddressFault(c, k, ws)
    ensures AddressesAt(c, b, i, k, k + |ws|, optid) == Walk(AddressStepsBefore(c, k, ws), Rejected)
    decreases |ws|
  {
    hide Encode, At, FrontAt, TransportOf, TupleOptionsAt, AddressSteps, AddressOk, TransportIn, Valid, BadTuple,
         TupleStepsBefore;
    AtSplit(b, i, Encode(ws[0]), EncodeAll(ws[1..]));
    if BadTuple(c, ws[0]) {
      TupleRefused(c, b, i, k, k + |ws|, ws[0], optid);
    } else {
      AddressRead(c, b, i, k, ws[0], optid);
      var f := FrontAt(c, b, i).value;
      var j := i + |Encode(ws[0])|;
      if f.transport.Some? {
        var o := TupleOptionsAt(c, b, f, optid);
        AddressesRefused(c, b, j, k + 1, ws[1..], o.stop.optid);
      } else {
        AddressesRefused(c, b, j, k + 1, ws[1..], optid);
      }
    }
  }

  // ----- Topics and the whole reply

  predicate TopicFault(ws: seq<Wire>) {
    ws != [] && (!ws[0].Str? || TopicFault(ws[1..]))
  }

  function TopicStepsBefore(ws: seq<Wire>): seq<Step>
    requires TopicFault(ws)
  {
    if ws[0].Str? then [Topic(ws[0].data)] + TopicStepsBefore(ws[1..]) else []
  }

  lemma {:induction false} TopicsRefused(b: Bytes, i: nat, ws: seq<Wire>, optid: int)
    requires i <= |b| && IsBuffer(b) && ValidAll(ws) && At(b, i, EncodeAll(ws)) && TopicFault(ws)
    ensures TopicsAt(b, i, |ws|, optid) == Walk(TopicStepsBefore(ws), Rejected)
    decreases |ws|
  {
    hide Encode, At, StringAt, Valid;
    AtSplit(b, i, Encode(ws[0]), EncodeAll(ws[1..]));
    ReadEncoded(b, i, ws[0]);
    if ws[0].Str? {
      TopicsRefused(b, i + |Encode(ws[0])|, ws[1..], optid);
    }
  }

  /** The opening of a reply that is gone into. */
  predicate Opens(w: Wire)
    requires Valid(w)
  {
    w.Array? && |w.items| >= 3 && IsInt(w.items[0]) && Valid(w.items[0]) && IntOf(w.items[0]) == 1
  }

  /** The options of a reply are no mapping or have a fault. */
  predicate OptionsFault(c: Context, w: Wire)
    requires Valid(w) && Opens(w)
  {
    !w.items[1].Map? || SocketFault(c, w.items[1].items)
  }

  predicate OptionsFine(c: Context, w: Wire)
    requires Valid(w) && Opens(w)
  {
    w.items[1].Map? && SocketOptionsOk(c, w.items[1].items)
  }

  /** Its addresses are no array or have a fault. */
  predicate AddressPartFault(c: Context, w: Wire)
    requires Valid(w) && Opens(w)
  {
    ReplyParts(w);
    !w.items[2].Array? || AddressFault(c, 0, w.items[2].items)
  }

  predicate AddressesFine(c: Context, w: Wire)
    requires Valid(w) && Opens(w)
  {
    w.items[2].Array? && AddressesOk(c, 0, w.items[2].items)
  }

  /** Its topics are no array or have a fault. */
  predicate TopicPartFault(w: Wire)
    requires Valid(w) && Opens(w)
  {
    |w.items| > 3 && (!w.items[3].Array? || TopicFault(w.items[3].items))
  }

  /** The first thing wrong with a reply is one of these. */
  predicate Faulty(c: Context, w: Wire)
    requires Valid(w)
  {
    || !Opens(w)
    || OptionsFault(c, w)
    || (OptionsFine(c, w) && (AddressPartFault(c, w) || (AddressesFine(c, w) && TopicPartFault(w))))
  }

  /** What is done by then. */
  function StepsBefore(c: Context, w: Wire): seq<Step>
    requires Valid(w) && Faulty(c, w)
  {
    if !Opens(w) then []
    else
      ReplyParts(w);
      if OptionsFault(c, w) then (if w.items[1].Map? then SocketStepsBefore(c, w.items[1].items) else [])
      else SocketOptionSteps(c, w.items[1].items) + LaterStepsBefore(c, w)
  }

  function LaterStepsBefore(c: Context, w: Wire): seq<Step>
    requires Valid(w) && Opens(w) && (AddressPartFault(c, w) || (AddressesFine(c, w) && TopicPartFault(w)))
  {
    ReplyParts(w);
    if !w.items[2].Array? then []
    else if AddressPartFault(c, w) then [Unmark] + AddressStepsBefore(c, 0, w.items[2].items)
    else
      [Unmark] + AddressListSteps(c, 0, w.items[2].items) + [Settle, UnmarkTopics]
      + (if w.items[3].Array? then TopicStepsBefore(w.items[3].items) else [])
  }

  lemma TopicPartRefused(b: Bytes, at: Stop, w: Wire)
    requires IsBuffer(b) && Valid(w) && Opens(w) && TopicPartFault(w) && at.Reached?
    requires at.next <= |b| && ValidAll(w.items[2..][1..]) && At(b, at.next, EncodeAll(w.items[2..][1..]))
    ensures TopicPart(b, at, |w.items|)
         == Walk(if w.items[3].Array? then TopicStepsBefore(w.items[3].items) else [], Rejected)
  {
    hide Encode, EncodeAll, Lead, At, ArrayAt, ValidNode, ValidAll, TopicFault, TopicStepsBefore, TopicsAt, IsInt,
         IntOf;
    var t := w.items[3];
    assert w.items[2..][1..][0] == t;
    RestSplit(b, at.next, w.items[2..][1..]);
    ReadGroup(b, at.next, t);
    if t.Array? {
      TopicsRefused(b, at.next + |Lead(t)|, t.items, at.optid);
    }
  }

  lemma LaterRefused(c: Context, b: Bytes, at: Stop, w: Wire)
    requires IsBuffer(b) && Valid(w) && Opens(w) && at.Reached? && ValidAll(w.items[2..])
    requires AddressPartFault(c, w) || (AddressesFine(c, w) && TopicPartFault(w))
    requires At(b, at.next, EncodeAll(w.items[2..]))
    ensures at.next <= |b| && AddressPart(c, b, at, |w.items|) == Walk(LaterStepsBefore(c, w), Rejected)
  {
    hide Encode, EncodeAll, Lead, At, ArrayAt, IntOf, IsInt, ValidNode, Valid, ValidAll, AddressesAt, AddressesOk,
         AddressListSteps, AddressFault, AddressStepsBefore, TopicPart, TopicPartFault, TopicStepsBefore;
    ReplyParts(w);
    var a := w.items[2];
    RestSplit(b, at.next, w.items[2..]);
    assert w.items[2..][0] == a;
    ReadGroup(b, at.next, a);
    if a.Array? {
      var j := at.next + |Lead(a)|;
      if AddressPartFault(c, w) {
        AddressesRefused(c, b, j, 0, a.items, at.optid);
      } else {
        AddressesRead(c, b, j, 0, a.items, at.optid);
        var s := AddressesAt(c, b, j, 0, |a.items|, at.optid);
        assert s.stop.next == at.next + |Encode(a)|;
        TopicPartRefused(b, s.stop, w);
      }
    }
  }

  /** A reply with a fault, in every encoding: `nc_parse_and_apply` returns 0, and what it has done
      by then is what is before the fault. */
  lemma ReplyRefused(c: Context, b: Bytes, w: Wire)
    requires IsBuffer(b) && Valid(w) && At(b, 0, Encode(w)) && Faulty(c, w)
    ensures ReplyWalk(c, b) == Walk(StepsBefore(c, w), Rejected)
  {
    hide Encode, EncodeAll, Lead, At, IntAt, ArrayAt, MapAt, IntOf, AsInt32, IsInt, ValidNode, Valid,
         ValidAll, SocketOptionsAt, SocketFault, SocketStepsBefore, SocketOptionsOk, SocketOptionSteps,
         AddressPartFault, AddressesFine, TopicPartFault, AddressPart, LaterStepsBefore, OpeningAt;
    OpeningExactly(b, w);
    if Opens(w) {
      OpeningRead(b, w);
      ReplyParts(w);
      var j := OpeningAt(b).next;
      var m := w.items[1];
      ReadGroup(b, j, m);
      if m.Map? && SocketFault(c, m.items) {
        SocketOptionsRefused(c, b, j + |Lead(m)|, m.items, c.stale);
      } else if m.Map? {
        SocketOptionsRead(c, b, j + |Lead(m)|, m.items, c.stale);
        var o := SocketOptionsAt(c, b, j + |Lead(m)|, |m.items| / 2, c.stale);
        LaterRefused(c, b, o.stop, w);
      }
    }
  }
}
