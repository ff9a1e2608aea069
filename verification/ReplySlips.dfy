/** Where the two slips in the address part of `nc_parse_and_apply` show: after an option name
    that is not known, and after a transport that is not known, the walk loses step with the
    reply.  Once it has, more turns of a loop are left than there are items, so that it can
    never end where the reply's array or mapping ends. */
module ReplySlips {
  import opened Wrappers
  import opened MsgPack
  import opened Wire
  import opened Skipping
  import opened Reply
  import opened ReplyForm

  // ----- Addresses as the documentation has them

  /** Option values that the skipper can pass. */
  predicate AllPlain(ws: seq<Wire>) {
    ws == [] || (IsOptionValue(ws[0]) && Straight(ws[0]) && AllPlain(ws[1..]))
  }

  /** Names and their values; no name is itself a beginning of the transport's symbol. */
  predicate IsOptionMap(items: seq<Wire>, transport: Symbol) {
    |items| < 2 || (items[0].Str? && !(items[0].data <= transport.name) && IsOptionMap(items[2..], transport))
  }

  predicate AllKnown(c: Context, items: seq<Wire>)
    requires AllNamed(items)
  {
    |items| < 2 || (SymbolValue(c.symbols, items[0].data).Some? && AllKnown(c, items[2..]))
  }

  predicate AllNamed(items: seq<Wire>) {
    |items| < 2 || (items[0].Str? && AllNamed(items[2..]))
  }

  /** [kind, "transport:..."] with an optional mapping of options. */
  predicate IsTuple(c: Context, w: Wire) {
    && Valid(w) && Straight(w) && IsAddress(w)
    && (|w.items| == 3 ==>
          && w.items[2].Map? && AllPlain(w.items[2].items)
          && (TransportIn(c, w.items[1].data).Some? ==>
                IsOptionMap(w.items[2].items, TransportIn(c, w.items[1].data).value)))
  }

  predicate AllTuples(c: Context, ws: seq<Wire>) {
    ws == [] || (IsTuple(c, ws[0]) && AllTuples(c, ws[1..]))
  }

  // ----- Out of step

  /** Past the place `i` where the tuples `rest` start, and behind at least one of them or at
      something inside one that is no tuple. */
  ghost predicate Astray(b: Bytes, p: nat, i: nat, rest: seq<Wire>)
    requires ValidAll(rest)
    decreases |rest|
  {
    if rest == [] then p > i
    else
      var j := i + |Encode(rest[0])|;
      p == j || (i < p < j && p <= |b| && ArrayAt(b, p).Miss?) || Astray(b, p, j, rest[1..])
  }

  /** `rest` lies at `i` in the buffer. */
  ghost predicate Tuples(c: Context, b: Bytes, i: nat, rest: seq<Wire>) {
    IsBuffer(b) && i <= |b| && ValidAll(rest) && AllTuples(c, rest) && At(b, i, EncodeAll(rest))
  }

  /** The rest of a mapping's items lies at `i`, and tuples behind it. */
  ghost predicate Ahead(c: Context, b: Bytes, i: nat, items: seq<Wire>, rest: seq<Wire>) {
    && IsBuffer(b) && i <= |b| && ValidAll(items) && AllPlain(items) && At(b, i, EncodeAll(items))
    && Tuples(c, b, i + |EncodeAll(items)|, rest)
  }

  lemma FirstTuple(c: Context, b: Bytes, i: nat, rest: seq<Wire>)
    requires Tuples(c, b, i, rest) && rest != []
    ensures IsTuple(c, rest[0]) && Valid(rest[0]) && rest[0].Array? && At(b, i, Encode(rest[0]))
    ensures Tuples(c, b, i + |Encode(rest[0])|, rest[1..])
    ensures i + |EncodeAll(rest)| == i + |Encode(rest[0])| + |EncodeAll(rest[1..])|
  {
    hide Encode, EncodeAll, IsTuple, Valid, At, ValidNode, Straight, IsElement, IsOptionValue;
    RestSplit(b, i, rest);
    EncodeFirst(rest);
    TupleParts(c, rest[0]);
  }

  lemma EncodeFirst(ws: seq<Wire>)
    requires ValidAll(ws) && ws != []
    ensures Valid(ws[0]) && ValidAll(ws[1..]) && EncodeAll(ws) == Encode(ws[0]) + EncodeAll(ws[1..])
  {
    hide Encode, Valid;
  }

  lemma FirstItem(c: Context, b: Bytes, i: nat, items: seq<Wire>, rest: seq<Wire>)
    requires Ahead(c, b, i, items, rest) && items != []
    ensures Valid(items[0]) && At(b, i, Encode(items[0])) && IsOptionValue(items[0]) && Straight(items[0])
    ensures Ahead(c, b, i + |Encode(items[0])|, items[1..], rest)
    ensures i + |EncodeAll(items)| == i + |Encode(items[0])| + |EncodeAll(items[1..])|
  {
    hide Encode, EncodeAll, At, Straight, IsOptionValue, Valid, ValidNode, Tuples;
    RestSplit(b, i, items);
    EncodeFirst(items);
  }

  /** The option loop only goes forward, and not at all once its turns are over. */
  lemma OptionsMove(c: Context, b: Bytes, i: nat, n: int, optid: int, t: Symbol)
    requires IsBuffer(b) && i <= |b|
    ensures var stop := EndpointOptionsAt(c, b, i, n, optid, t).stop;
            && (n <= 0 ==> stop == Reached(i, optid))
            && (n > 0 && stop.Reached? ==> stop.next > i && StringAt(b, i).Hit?)
  {
    hide StringAt, SymbolValue, SkipAt, OptionAt, EndpointLevel;
    ReadsMove(b, i);
  }

  lemma ReadsMove(b: Bytes, i: nat)
    requires IsBuffer(b) && i <= |b|
    ensures StringAt(b, i).Hit? ==> StringAt(b, i).next > i - |StringAt(b, i).value|
    ensures SkipAt(b, i).Past? ==> SkipAt(b, i).next > i
  {
  }

  /** A tuple taken for an option value: the whole of it if it has no options, and otherwise
      all up to them. */
  lemma TupleAsValue(c: Context, b: Bytes, i: nat, w: Wire, level: int, id: int)
    requires IsBuffer(b) && IsTuple(c, w) && At(b, i, Encode(w))
    ensures i <= |b|
    ensures var stop := OptionAt(b, i, level, id).stop;
            && stop.Reached? && i < stop.next <= |b|
            && (stop.next == i + |Encode(w)|
                || (stop.next < i + |Encode(w)| && ArrayAt(b, stop.next).Miss? && StringAt(b, stop.next).Miss?))
  {
    hide *;
    TupleParts(c, w);
    AtFits(b, i, Encode(w));
    if |w.items| == 2 {
      OptionExactly(b, i, w, level, id);
    } else {
      ReadElement(b, i, w);
      ReadGroup(b, i, w);
      GroupParts(w);
      ListOption(b, i, w, level, id);
      OptionsInside(b, i + |Lead(w)|, w.items, level, id);
    }
  }

  lemma TupleParts(c: Context, w: Wire)
    requires IsTuple(c, w)
    ensures Valid(w) && Straight(w) && w.Array? && !IsElement(w) && 2 <= |w.items| <= 3
    ensures IsElement(w.items[0]) && IsElement(w.items[1])
    ensures |w.items| == 2 ==> IsOptionValue(w)
    ensures |w.items| == 3 ==> w.items[2].Map?
  {
    hide Valid, Straight, IsInt, ColonFrom, IntOf, AsInt32, AllPlain, IsOptionMap, TransportIn;
    assert w.items[1..][0] == w.items[1];
    if |w.items| == 2 {
      assert w.items[1..][1..] == [];
      assert AllElements(w.items[1..]);
    }
    NoInt(w);
  }

  lemma NoInt(w: Wire)
    ensures w.Array? ==> !IsElement(w)
  {
  }

  /** The elements of a tuple up to its options. */
  lemma OptionsInside(b: Bytes, i: nat, ws: seq<Wire>, level: int, id: int)
    requires IsBuffer(b) && i <= |b| && ValidAll(ws) && At(b, i, EncodeAll(ws)) && |ws| == 3
    requires IsElement(ws[0]) && IsElement(ws[1]) && ws[2].Map?
    ensures var stop := ElementsAt(b, i, level, id, 3).stop;
            && stop.Reached? && i < stop.next < i + |EncodeAll(ws)| && stop.next <= |b|
            && ArrayAt(b, stop.next).Miss? && StringAt(b, stop.next).Miss?
  {
    hide *;
    PairSplit(b, i, ws);
    var j := i + |Encode(ws[0])|;
    var k := j + |Encode(ws[1])|;
    LastItem(ws);
    ReadElement(b, i, ws[0]);
    ReadElement(b, j, ws[1]);
    ReadElement(b, k, ws[2]);
    ReadEncoded(b, k, ws[2]);
    MapIsNoElement(ws[2]);
    StuckElement(b, k, level, id, 1);
    OneElement(b, i, level, id, 3);
    OneElement(b, j, level, id, 2);
    EncodeSome(ws[0]);
    EncodeSome(ws[2]);
  }

  lemma LastItem(ws: seq<Wire>)
    requires ValidAll(ws) && |ws| == 3
    ensures Valid(ws[2]) && EncodeAll(ws[2..]) == Encode(ws[2])
  {
    ValidPair(ws);
    NoItems();
    assert ws[2..] == [ws[2]] && ws[2..][1..] == [];
  }

  lemma MapIsNoElement(w: Wire)
    ensures w.Map? ==> !IsElement(w)
  {
  }

  lemma EncodeSome(w: Wire)
    requires Valid(w)
    ensures |Encode(w)| > 0
  {
  }

  lemma OneElement(b: Bytes, i: nat, level: int, id: int, n: nat)
    requires i <= |b| && n > 0 && ElementAt(b, i).Hit?
    ensures ElementAt(b, i).next <= |b|
    ensures ElementsAt(b, i, level, id, n).stop == ElementsAt(b, ElementAt(b, i).next, level, id, n - 1).stop
  {
    hide ElementAt;
  }

  // ----- Past an unknown option

  lemma NothingAhead(c: Context, b: Bytes, i: nat, rest: seq<Wire>)
    requires IsBuffer(b)
    ensures ValidAll([]) && EncodeAll([]) == []
    ensures Ahead(c, b, i, [], rest) <==> Tuples(c, b, i, rest)
  {
    hide AllTuples, Encode;
  }

  /** One turn of the option loop that goes well: the value is read at `at`. */
  lemma OptionTurn(c: Context, b: Bytes, i: nat, n: int, optid: int, t: Symbol)
    returns (level: int, at: nat, id: int)
    requires IsBuffer(b) && i <= |b| && n > 0 && EndpointOptionsAt(c, b, i, n, optid, t).stop.Reached?
    ensures StringAt(b, i).Hit? && at <= |b|
    ensures var Hit(name, j) := StringAt(b, i);
            j <= |b| && Past(at) == if SymbolValue(c.symbols, name).Some? then Past(j) else SkipAt(b, j)
    ensures var value := OptionAt(b, at, level, id).stop;
            && value.Reached?
            && EndpointOptionsAt(c, b, i, n, optid, t).stop == EndpointOptionsAt(c, b, value.next, n - 1, id, t).stop
  {
    hide StringAt, SymbolValue, SkipAt, OptionAt, EndpointLevel;
    var Hit(name, j) := StringAt(b, i);
    var known := SymbolValue(c.symbols, name);
    id := if known.Some? then known.value else optid;
    at := if known.Some? then j else SkipAt(b, j).next;
    level := EndpointLevel(c, b, j - |name|, |name|, t).value;
  }

  /** An option value is read where the items of a mapping and then tuples lie ahead, and `n`
      more turns of the option loop follow: as many as the items are enough for. */
  lemma {:induction false} ValueAstray(c: Context, b: Bytes, i: nat, items: seq<Wire>, rest: seq<Wire>, n: nat,
                                       level: int, id: int, t: Symbol)
    requires Ahead(c, b, i, items, rest) && 2 * n >= |items|
    ensures i <= |b| && ValidAll(rest) && ValidAll(items)
    ensures var value := OptionAt(b, i, level, id).stop;
            value.Reached? ==>
              && value.next <= |b|
              && var stop := EndpointOptionsAt(c, b, value.next, n, id, t).stop;
                 stop.Reached? ==> Astray(b, stop.next, i + |EncodeAll(items)|, rest)
    decreases |items| + |rest|
  {
    hide OptionAt, EndpointOptionsAt, Encode, EncodeAll, At, StringAt, ArrayAt, Valid, AllPlain, AllTuples,
         IsTuple, IsOptionValue, Straight, OptionSteps;
    var value := OptionAt(b, i, level, id).stop;
    if value.Reached? {
      OptionsMove(c, b, value.next, n, id, t);
      if items != [] {
        FirstItem(c, b, i, items, rest);
        OptionExactly(b, i, items[0], level, id);
        OptionsAstray(c, b, i + |Encode(items[0])|, items[1..], rest, n, id, t);
      } else {
        NothingAhead(c, b, i, rest);
        if rest != [] {
          FirstTuple(c, b, i, rest);
          TupleAsValue(c, b, i, rest[0], level, id);
          NothingAhead(c, b, i + |Encode(rest[0])|, rest[1..]);
          if value.next == i + |Encode(rest[0])| && n > 0 {
            OptionsAstray(c, b, value.next, [], rest[1..], n, id, t);
          }
        }
      }
    }
  }

  /** With more turns of the option loop to go than the items are enough for, it ends past
      them all. */
  lemma {:induction false} OptionsAstray(c: Context, b: Bytes, i: nat, items: seq<Wire>, rest: seq<Wire>, n: nat,
                                         optid: int, t: Symbol)
    requires Ahead(c, b, i, items, rest) && 2 * n > |items|
    ensures i <= |b| && ValidAll(rest) && ValidAll(items)
    ensures var stop := EndpointOptionsAt(c, b, i, n, optid, t).stop;
            stop.Reached? ==> Astray(b, stop.next, i + |EncodeAll(items)|, rest)
    decreases |items| + |rest|
  {
    hide OptionAt, EndpointOptionsAt, Encode, EncodeAll, At, StringAt, ArrayAt, Valid, AllPlain, AllTuples,
         IsTuple, IsOptionValue, Straight, SkipAt, SymbolValue;
    OptionsMove(c, b, i, n, optid, t);
    if items == [] {
      NothingAhead(c, b, i, rest);
      if rest != [] {
        FirstTuple(c, b, i, rest);
        ReadEncoded(b, i, rest[0]);
      }
    } else {
      FirstItem(c, b, i, items, rest);
      ReadEncoded(b, i, items[0]);
      if items[0].Str? && EndpointOptionsAt(c, b, i, n, optid, t).stop.Reached? {
        NameAstray(c, b, i, items, rest, n, optid, t);
      }
    }
  }

  lemma NameAstray(c: Context, b: Bytes, i: nat, items: seq<Wire>, rest: seq<Wire>, n: nat, optid: int, t: Symbol)
    requires Ahead(c, b, i, items, rest) && 2 * n > |items| > 0
    requires i <= |b| && ValidAll(rest) && Valid(items[0]) && items[0].Str? && At(b, i, Encode(items[0]))
    requires Ahead(c, b, i + |Encode(items[0])|, items[1..], rest)
    requires StringAt(b, i) == Hit(items[0].data, i + |Encode(items[0])|)
    requires i + |EncodeAll(items)| == i + |Encode(items[0])| + |EncodeAll(items[1..])|
    requires EndpointOptionsAt(c, b, i, n, optid, t).stop.Reached?
    ensures Astray(b, EndpointOptionsAt(c, b, i, n, optid, t).stop.next, i + |EncodeAll(items)|, rest)
    decreases |items| + |rest|, 0
  {
    hide OptionAt, EndpointOptionsAt, Encode, EncodeAll, At, StringAt, ArrayAt, Valid, AllPlain, AllTuples,
         IsTuple, IsOptionValue, Straight, SkipAt, SymbolValue;
    var j := i + |Encode(items[0])|;
    var level, at, id := OptionTurn(c, b, i, n, optid, t);
    if SymbolValue(c.symbols, items[0].data).Some? {
      ValueAstray(c, b, j, items[1..], rest, n - 1, level, id, t);
    } else if |items| > 1 {
      FirstItem(c, b, j, items[1..], rest);
      SkipStraight(b, j, items[1]);
      assert items[1..][1..] == items[2..];
      ValueAstray(c, b, at, items[2..], rest, n - 1, level, id, t);
    } else {
      assert items[1..] == [];
      NothingAhead(c, b, j, rest);
      if rest != [] {
        FirstTuple(c, b, j, rest);
        TupleParts(c, rest[0]);
        SkipStraight(b, j, rest[0]);
        NothingAhead(c, b, at, rest[1..]);
        ValueAstray(c, b, at, [], rest[1..], n - 1, level, id, t);
      } else {
        OptionsMove(c, b, OptionAt(b, at, level, id).stop.next, n - 1, id, t);
      }
    }
  }

  // ----- A mapping of options

  /** A name and its value: where they end, and that the value can be read and skipped. */
  lemma FirstPair(c: Context, b: Bytes, i: nat, items: seq<Wire>, rest: seq<Wire>, t: Symbol) returns (j: nat, k: nat)
    requires Ahead(c, b, i, items, rest) && |items| >= 2 && IsOptionMap(items, t)
    ensures j <= |b| && k <= |b| && ValidAll(items) && ValidAll(items[2..])
    ensures Ahead(c, b, k, items[2..], rest) && k + |EncodeAll(items[2..])| == i + |EncodeAll(items)|
    ensures items[0].Str? && IsOptionMap(items[2..], t) &&
            StringAt(b, i) == Hit(items[0].data, j) && |items[0].data| <= j
    ensures EndpointLevel(c, b, j - |items[0].data|, |items[0].data|, t).Hit?
    ensures forall level, id :: OptionAt(b, j, level, id).stop == Reached(k, id)
    ensures SkipAt(b, j) == Past(k)
  {
    hide OptionAt, Encode, EncodeAll, At, StringAt, Valid, AllTuples, AllPlain, IsOptionValue, Straight, SkipAt,
         EndpointLevel, OptionSteps;
    FirstItem(c, b, i, items, rest);
    j := i + |Encode(items[0])|;
    FirstItem(c, b, j, items[1..], rest);
    k := j + |Encode(items[1])|;
    assert items[1..][1..] == items[2..];
    ReadEncoded(b, i, items[0]);
    EndpointLevelRead(c, b, i, items[0], t);
    SkipStraight(b, j, items[1]);
    forall level, id
      ensures OptionAt(b, j, level, id).stop == Reached(k, id)
    {
      OptionExactly(b, j, items[1], level, id);
    }
  }

  /** The turn of the option loop for a name: one value is read for a known one, and a second
      one behind it for one that is not known. */
  lemma PairTurn(c: Context, b: Bytes, i: nat, n: int, optid: int, t: Symbol, name: Bytes, j: nat, k: nat)
    returns (level: int)
    requires IsBuffer(b) && i <= |b| && j <= |b| && k <= |b| && n > 0 && |name| <= j
    requires StringAt(b, i) == Hit(name, j) && SkipAt(b, j) == Past(k)
    requires EndpointLevel(c, b, j - |name|, |name|, t).Hit?
    requires forall level, id :: OptionAt(b, j, level, id).stop == Reached(k, id)
    ensures var stop := EndpointOptionsAt(c, b, i, n, optid, t).stop;
            var known, second := SymbolValue(c.symbols, name), OptionAt(b, k, level, optid).stop;
            && (known.Some? ==> stop == EndpointOptionsAt(c, b, k, n - 1, known.value, t).stop)
            && (known.None? && stop.Reached? ==>
                  second.Reached? && stop == EndpointOptionsAt(c, b, second.next, n - 1, optid, t).stop)
  {
    hide OptionAt, StringAt, SkipAt, SymbolValue, EndpointLevel;
    level := EndpointLevel(c, b, j - |name|, |name|, t).value;
  }

  /** In front of a mapping of options, whatever tuples come after it: its end is reached if
      all its names are known, and otherwise the walk goes astray. */
  lemma {:induction false} OptionsInStep(c: Context, b: Bytes, i: nat, items: seq<Wire>, rest: seq<Wire>,
                                         optid: int, t: Symbol)
    requires Ahead(c, b, i, items, rest) && |items| % 2 == 0 && IsOptionMap(items, t)
    ensures i <= |b| && ValidAll(rest) && ValidAll(items) && AllNamed(items)
    ensures var stop := EndpointOptionsAt(c, b, i, |items| / 2, optid, t).stop;
            var end := i + |EncodeAll(items)|;
            && (AllKnown(c, items) ==> stop.Reached? && stop.next == end)
            && (!AllKnown(c, items) && stop.Reached? ==> Astray(b, stop.next, end, rest))
    decreases |items|
  {
    hide EndpointOptionsAt, OptionAt, EncodeAll, At, StringAt, SkipAt, ValidAll, AllTuples, AllPlain, IsOptionMap,
         SymbolValue, EndpointLevel, Astray;
    AheadIs(c, b, i, items, rest);
    if items == [] {
      OptionsMove(c, b, i, 0, optid, t);
      NoItems();
    } else {
      var n := |items| / 2;
      var j, k := FirstPair(c, b, i, items, rest, t);
      var level := PairTurn(c, b, i, n, optid, t, items[0].data, j, k);
      var known := SymbolValue(c.symbols, items[0].data);
      OptionsInStep(c, b, k, items[2..], rest, if known.Some? then known.value else optid, t);
      ValueAstray(c, b, k, items[2..], rest, n - 1, level, optid, t);
    }
  }

  lemma AheadIs(c: Context, b: Bytes, i: nat, items: seq<Wire>, rest: seq<Wire>)
    requires Ahead(c, b, i, items, rest)
    ensures IsBuffer(b) && i <= |b| && ValidAll(items) && ValidAll(rest) && i + |EncodeAll(items)| <= |b|
  {
  }

  /** Of a mapping of any size whose names are strings and no beginnings of the transport's
      symbol, and whose values are option values: the walk ends where the mapping ends if and
      only if every name is known.  What follows the mapping is arbitrary. */
  lemma EndpointOptionsExactly(c: Context, b: Bytes, i: nat, items: seq<Wire>, optid: int, t: Symbol)
    requires IsBuffer(b) && ValidAll(items) && At(b, i, EncodeAll(items)) && |items| % 2 == 0
    requires IsOptionMap(items, t) && AllPlain(items)
    ensures i <= |b| && AllNamed(items)
    ensures var stop := EndpointOptionsAt(c, b, i, |items| / 2, optid, t).stop;
            stop.Reached? && stop.next == i + |EncodeAll(items)| <==> AllKnown(c, items)
  {
    hide EndpointOptionsAt, EncodeAll, AllNamed, AllKnown, AllPlain, IsOptionMap;
    AtFits(b, i, EncodeAll(items));
    NothingAhead(c, b, i + |EncodeAll(items)|, []);
    OptionsInStep(c, b, i, items, [], optid, t);
  }

  // ----- The address array

  /** At something that is no array the address loop stops. */
  lemma AddressesMove(c: Context, b: Bytes, i: nat, k: nat, n: int, optid: int)
    requires IsBuffer(b) && i <= |b|
    ensures var stop := AddressesAt(c, b, i, k, n, optid).stop;
            && (k >= n ==> stop == Reached(i, optid))
            && (k < n && stop.Reached? ==> stop.next > i && ArrayAt(b, i).Hit?)
  {
    hide ArrayAt, IntAt, StringAt, ColonFrom, TransportOf, TupleOptionsAt, DrainAt;
  }

  lemma TupleOptions(c: Context, w: Wire)
    requires IsTuple(c, w) && |w.items| == 3
    ensures Valid(w.items[2]) && ValidAll(w.items[2].items) && |w.items[2].items| % 2 == 0 && AllPlain(w.items[2].items)
    ensures var transport := TransportIn(c, w.items[1].data);
            transport.Some? ==>
              && IsOptionMap(w.items[2].items, transport.value)
              && NamesDecide(c, w.items[2].items, transport.value)
  {
    hide Valid, AllPlain, IsOptionMap, TransportIn, ColonFrom, IsInt, AsInt32, IntOf, Straight;
    ThirdItem(w);
    var transport := TransportIn(c, w.items[1].data);
    if transport.Some? {
      NamesDecideAll(c, w.items[2].items, transport.value);
    }
  }

  /** An option mapping is read as meant if and only if its names are known. */
  ghost predicate NamesDecide(c: Context, items: seq<Wire>, t: Symbol) {
    AllNamed(items) && (EndpointOptionsOk(c, items, t) <==> AllKnown(c, items))
  }

  lemma {:induction false} NamesDecideAll(c: Context, items: seq<Wire>, t: Symbol)
    requires IsOptionMap(items, t) && AllPlain(items)
    ensures NamesDecide(c, items, t)
    decreases |items|
  {
    hide IsOptionValue, Straight, SymbolValue;
    if |items| >= 2 {
      assert items[1..][0] == items[1] && items[1..][1..] == items[2..];
      NamesDecideAll(c, items[2..], t);
    }
  }

  /** One turn of the address loop, if it is to go on: at the next tuple exactly if the address
      is in order, and otherwise inside this one at its options or astray behind it. */
  lemma TupleTurn(c: Context, b: Bytes, i: nat, ws: seq<Wire>, k: nat, n: int, optid: int)
    returns (at: nat, id: int)
    requires Tuples(c, b, i, ws) && ws != [] && k < n
    ensures Valid(ws[0]) && ValidAll(ws[1..]) && i <= |b| && at <= |b|
    ensures var j, stop := i + |Encode(ws[0])|, AddressesAt(c, b, i, k, n, optid).stop;
            && (AddressOk(c, k, ws[0]) ==> at == j && stop == AddressesAt(c, b, at, k + 1, n, id).stop)
            && (!AddressOk(c, k, ws[0]) && stop.Reached? ==>
                  && stop == AddressesAt(c, b, at, k + 1, n, id).stop
                  && ((i < at < j && ArrayAt(b, at).Miss?) || Astray(b, at, j, ws[1..])))
  {
    hide Encode, EncodeAll, At, Lead, Valid, FrontAt, TransportIn, IsInt, IntOf, AsInt32, ColonFrom, ArrayAt, MapAt,
         EndpointOptionsAt, EndpointOptionsOk, AllPlain, IsOptionMap, AllTuples, DrainAt, Straight, Astray, KindOf;
    FirstTuple(c, b, i, ws);
    var w := ws[0];
    FrontRead(c, b, i, w);
    var f := FrontAt(c, b, i).value;
    at, id := f.next, optid;
    if |w.items| == 3 {
      TupleOptions(c, w);
      ThirdItem(w);
      ReadGroup(b, f.next, w.items[2]);
      if f.transport.Some? {
        hide IsTuple;
        var m := w.items[2];
        NothingAhead(c, b, i, ws[1..]);
        OptionsInStep(c, b, f.next + |Lead(m)|, m.items, ws[1..], optid, f.transport.value);
        var stop := TupleOptionsAt(c, b, f, optid).stop;
        if stop.Reached? {
          at, id := stop.next, stop.optid;
        }
      }
    } else {
      NoItems();
      assert w.items[2..] == [];
    }
  }

  /** With more turns of the address loop to go than there are tuples, it never ends where the
      address array does. */
  lemma {:induction false} TooManyTurns(c: Context, b: Bytes, i: nat, ws: seq<Wire>, k: nat, n: int, optid: int)
    requires Tuples(c, b, i, ws) && n - k > |ws|
    ensures i <= |b| && ValidAll(ws)
    ensures var stop := AddressesAt(c, b, i, k, n, optid).stop;
            stop.Reached? ==> stop.next != i + |EncodeAll(ws)|
    decreases |ws|
  {
    hide AddressesAt, Encode, EncodeAll, At, Valid, AllTuples, Astray, ArrayAt, AddressOk;
    AddressesMove(c, b, i, k, n, optid);
    if ws == [] {
      NoItems();
    } else if AddressesAt(c, b, i, k, n, optid).stop.Reached? {
      FirstTuple(c, b, i, ws);
      var at, id := TupleTurn(c, b, i, ws, k, n, optid);
      AddressesMove(c, b, at, k + 1, n, id);
      if at == i + |Encode(ws[0])| {
        TooManyTurns(c, b, at, ws[1..], k + 1, n, id);
      } else if Astray(b, at, i + |Encode(ws[0])|, ws[1..]) {
        AstrayStays(c, b, at, i + |Encode(ws[0])|, ws[1..], k + 1, n, id);
      }
    }
  }

  /** Nor does it from a place where it is astray, with a turn left for each tuple. */
  lemma {:induction false} AstrayStays(c: Context, b: Bytes, p: nat, i: nat, ws: seq<Wire>, k: nat, n: int, optid: int)
    requires Tuples(c, b, i, ws) && ValidAll(ws) && Astray(b, p, i, ws) && p <= |b| && n - k >= |ws|
    ensures i <= |b|
    ensures var stop := AddressesAt(c, b, p, k, n, optid).stop;
            stop.Reached? ==> stop.next != i + |EncodeAll(ws)|
    decreases |ws|
  {
    hide AddressesAt, Encode, EncodeAll, At, Valid, AllTuples, ArrayAt;
    AddressesMove(c, b, p, k, n, optid);
    if ws == [] {
      NoItems();
    } else if AddressesAt(c, b, p, k, n, optid).stop.Reached? {
      FirstTuple(c, b, i, ws);
      if p == i + |Encode(ws[0])| {
        TooManyTurns(c, b, p, ws[1..], k, n, optid);
      } else if Astray(b, p, i + |Encode(ws[0])|, ws[1..]) {
        AstrayStays(c, b, p, i + |Encode(ws[0])|, ws[1..], k, n, optid);
      }
    }
  }

  /** Of an address array of any length whose addresses have the documented form: the walk ends
      where the array ends if and only if the names of all options are known, and every
      address of unknown transport has no options and is not among the first two. */
  lemma {:induction false} AddressesExactly(c: Context, b: Bytes, i: nat, ws: seq<Wire>, k: nat, optid: int)
    requires Tuples(c, b, i, ws)
    ensures i <= |b| && ValidAll(ws)
    ensures var stop := AddressesAt(c, b, i, k, k + |ws|, optid).stop;
            stop.Reached? && stop.next == i + |EncodeAll(ws)| <==> AddressesOk(c, k, ws)
    decreases |ws|
  {
    hide AddressesAt, Encode, EncodeAll, At, Valid, AllTuples, Astray, ArrayAt, AddressOk;
    AddressesMove(c, b, i, k, k + |ws|, optid);
    if ws == [] {
      NoItems();
    } else {
      FirstTuple(c, b, i, ws);
      var j := i + |Encode(ws[0])|;
      var at, id := TupleTurn(c, b, i, ws, k, k + |ws|, optid);
      AddressesMove(c, b, at, k + 1, k + |ws|, id);
      if AddressOk(c, k, ws[0]) {
        AddressesExactly(c, b, j, ws[1..], k + 1, id);
      } else if AddressesAt(c, b, i, k, k + |ws|, optid).stop.Reached? && Astray(b, at, j, ws[1..]) {
        AstrayStays(c, b, at, j, ws[1..], k + 1, k + |ws|, id);
      }
    }
  }

  // ----- Levels

  /** The level of an endpoint option is the one its name asks for if and only if the name does
      not begin with the transport's symbol, or is longer than the name of the socket's
      protocol, or the two levels are the same anyway. */
  lemma LevelExactly(c: Context, name: Bytes, t: Symbol)
    ensures EndpointLevelOf(c, name, t) == (if Prefixed(name, t.name) then t.value else SOL_SOCKET) <==>
            !Prefixed(name, t.name) || |name| > |c.protocol| || t.value == SOL_SOCKET
  {
  }

  /** A short transport and a protocol with a long name. */
  lemma LevelMissed()
    ensures var transport, protocol := [0x4E, 0x4E, 0x5F, 0x57, 0x53], [0x4E, 0x4E, 0x5F, 0x52, 0x45, 0x51, 0x5F];
            var name := transport + [UNDERSCORE, 0x41];
            && Prefixed(name, transport)
            && EndpointLevelOf(Context([], protocol, 1, 0), name, Symbol(transport, 9)) == SOL_SOCKET
  {
    var transport: Bytes := [0x4E, 0x4E, 0x5F, 0x57, 0x53];
    assert (transport + [UNDERSCORE, 0x41])[..5] == transport;
  }
}
