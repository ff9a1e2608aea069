/** When the walk of a reply leaves the buffer: exactly at which bytes each of the four reads
    that can do so does, and a form of buffers for which none ever does. */
module Strays {
  import opened Wrappers
  import opened MsgPack
  import opened Wire
  import opened Skipping
  import opened Reply
  import opened ReplyForm

  // ----- The search for a colon

  /** It leaves the buffer exactly if there is no colon and no zero from its start on. */
  lemma {:induction false} ColonAstray(b: Bytes, i: nat)
    ensures ColonFrom(b, i).Wild? <==> forall j :: i <= j < |b| ==> b[j] != COLON && b[j] != 0
    decreases |b| - i
  {
    if i < |b| {
      ColonAstray(b, i + 1);
    }
  }

  /** In a string that lies in a buffer it finds what it would find in the string, and runs on
      behind it if there is nothing to stop it. */
  lemma {:induction false} ColonOfString(b: Bytes, i: nat, s: Bytes, k: nat)
    requires At(b, i, s) && k <= |s|
    ensures ColonFrom(b, i + k)
         == match ColonFrom(s, k)
            case Hit(_, at) => Hit((), i + at)
            case Miss => Miss
            case Wild => ColonFrom(b, i + |s|)
    decreases |s| - k
  {
    if k < |s| {
      assert s[k] == b[i..i + |s|][k] == b[i + k];
      ColonOfString(b, i, s, k + 1);
    }
  }

  /** A kind and a string, which need not have a transport. */
  predicate IsPair(w: Wire)
    requires Valid(w)
  {
    && w.Array? && 2 <= |w.items| <= 3
    && IsInt(w.items[0]) && w.items[1].Str? && Valid(w.items[0])
    && AsInt32(IntOf(w.items[0])) in {0, 1}
  }

  /** Where the string of an address ends in the buffer. */
  function StringEnd(i: nat, w: Wire): nat
    requires Valid(w) && IsPair(w) && Valid(w.items[1])
  {
    i + |Lead(w)| + |Encode(w.items[0])| + |Encode(w.items[1])|
  }

  /** An address is refused for want of a transport name exactly if no colon comes before the
      first zero -- in its string or in what comes after it.  It is taken as meant if and only
      if there is a colon in the string or none, and a zero first, behind it. */
  lemma AddressExactly(c: Context, b: Bytes, i: nat, w: Wire)
    requires IsBuffer(b) && Valid(w) && At(b, i, Encode(w)) && IsPair(w)
    ensures i <= |b| && Valid(w.items[1])
    ensures var inside, behind := ColonFrom(w.items[1].data, 0), ColonFrom(b, StringEnd(i, w));
            && (FrontAt(c, b, i).Hit? <==> inside.Hit? || (inside.Wild? && behind.Hit?))
            && (FrontAt(c, b, i).Wild? <==> inside.Wild? && behind.Wild?)
            && ((FrontAt(c, b, i).Hit? <==> inside.Hit?) <==> !inside.Wild? || !behind.Hit?)
  {
    hide *;
    PairRead(b, i, w);
    var end := StringEnd(i, w);
    var k := end - |Encode(w.items[1])|;
    TextPlace(b, k, w.items[1]);
    ColonOfString(b, end - |w.items[1].data|, w.items[1].data, 0);
    FrontAsColon(c, b, i, ArrayAt(b, i), IntAt(b, ArrayAt(b, i).next), StringAt(b, k));
  }

  /** What is read of such an array. */
  lemma PairRead(b: Bytes, i: nat, w: Wire)
    requires IsBuffer(b) && Valid(w) && At(b, i, Encode(w)) && IsPair(w)
    ensures i <= |b| && w.Array? && |w.items| >= 2 && Valid(w.items[1]) && w.items[1].Str?
    ensures |Encode(w.items[1])| <= StringEnd(i, w) <= |b|
    ensures ArrayAt(b, i).Hit? && 2 <= ArrayAt(b, i).value <= 3
    ensures var kind := IntAt(b, ArrayAt(b, i).next);
            var k := StringEnd(i, w) - |Encode(w.items[1])|;
            && kind.Hit? && kind.value in {0, 1} && kind.next == k
            && StringAt(b, k) == Hit(w.items[1].data, StringEnd(i, w))
            && At(b, k, Encode(w.items[1]))
  {
    hide Encode, EncodeAll, IntAt, StringAt, ArrayAt, At, Lead, IsInt, ValidNode, IntOf, AsInt32;
    ReadGroup(b, i, w);
    var j := i + |Lead(w)|;
    PairSplit(b, j, w.items);
    ReadEncoded(b, j, w.items[0]);
    ReadEncoded(b, j + |Encode(w.items[0])|, w.items[1]);
  }

  /** The front of an address is as good as the search for the colon. */
  lemma FrontAsColon(c: Context, b: Bytes, i: nat, tuple: Read<int>, kind: Read<int>, addr: Read<Bytes>)
    requires i <= |b| && tuple == ArrayAt(b, i) && tuple.Hit? && 2 <= tuple.value <= 3
    requires kind == IntAt(b, tuple.next) && kind.Hit? && kind.value in {0, 1}
    requires addr == StringAt(b, kind.next) && addr.Hit?
    ensures var colon := ColonFrom(b, addr.next - |addr.value|);
            (FrontAt(c, b, i).Hit? <==> colon.Hit?) && (FrontAt(c, b, i).Wild? <==> colon.Wild?)
  {
    hide IntAt, StringAt, ArrayAt, ColonFrom, TransportOf;
  }

  lemma TextPlace(b: Bytes, k: nat, w: Wire)
    requires IsBuffer(b) && Valid(w) && w.Str? && At(b, k, Encode(w))
    ensures |w.data| <= |Encode(w)| && k + |Encode(w)| <= |b|
    ensures At(b, k + |Encode(w)| - |w.data|, w.data)
  {
    AtSplit(b, k, Lead(w), w.data);
  }

  const TCP: Bytes := [0x74, 0x63, 0x70]
  const TC: Bytes := [0x74, 0x63]

  /** The reply [1, {}, [[0, "tc"]]] with the bytes "p:" behind it: the address without a
      transport name is taken for one of transport tcp. */
  lemma ColonBehind(c: Context)
    requires TransportOf(c.symbols, TCP).Some?
    ensures var b := [0x93, 0x01, 0x80, 0x91, 0x92, 0x00, 0xA2] + TC + [0x70, COLON];
            && ReplyWalk(c, b).steps == [Unmark, Address(0, TC), Settle, UnmarkTopics, SettleTopics]
            && ReplyWalk(c, b).stop.Reached? && ReplyWalk(c, b).stop.next == 9
  {
    var b: Bytes := [0x93, 0x01, 0x80, 0x91, 0x92, 0x00, 0xA2] + TC + [0x70, COLON];
    BehindHead(b);
    BehindFront(c, b);
    BehindAddress(c, b);
    hide OpeningAt, MapAt, ArrayAt, FrontAt, AddressesAt, TransportOf;
    assert SocketOptionsAt(c, b, 3, 0, c.stale) == Walk([], Reached(3, c.stale));
    assert [Unmark] + [Address(0, TC)] + [Settle, UnmarkTopics] + [SettleTopics]
        == [Unmark, Address(0, TC), Settle, UnmarkTopics, SettleTopics];
  }

  lemma BehindHead(b: Bytes)
    requires b == [0x93, 0x01, 0x80, 0x91, 0x92, 0x00, 0xA2] + TC + [0x70, COLON]
    ensures OpeningAt(b) == Hit(3, 2) && MapAt(b, 2) == Hit(0, 3) && ArrayAt(b, 3) == Hit(1, 4)
  {
  }

  lemma BehindAddress(c: Context, b: Bytes)
    requires IsBuffer(b) && |b| > 9 && TransportOf(c.symbols, TCP).Some?
    requires FrontAt(c, b, 4) == Hit(Front(2, 0, TC, TransportOf(c.symbols, TCP), 9), 9)
    ensures AddressesAt(c, b, 4, 0, 1, c.stale) == Walk([Address(0, TC)], Reached(9, c.stale))
  {
    hide FrontAt, TransportOf;
    assert AddressesAt(c, b, 9, 1, 1, c.stale) == Walk([], Reached(9, c.stale));
  }

  lemma BehindFront(c: Context, b: Bytes)
    requires TransportOf(c.symbols, TCP).Some?
    requires b == [0x93, 0x01, 0x80, 0x91, 0x92, 0x00, 0xA2] + TC + [0x70, COLON]
    ensures FrontAt(c, b, 4) == Hit(Front(2, 0, TC, TransportOf(c.symbols, TCP), 9), 9)
  {
    hide TransportOf;
    assert ArrayAt(b, 4) == Hit(2, 5) && IntAt(b, 5) == Hit(0, 6);
    assert b[7..9] == TC && b[7..10] == TCP;
    assert StringAt(b, 6) == Hit(TC, 9);
    assert ColonFrom(b, 10) == Hit((), 10) && ColonFrom(b, 9) == Hit((), 10);
    assert ColonFrom(b, 8) == Hit((), 10) && ColonFrom(b, 7) == Hit((), 10);
    hide ArrayAt, IntAt, StringAt, ColonFrom;
  }

  // ----- The comparison with a transport's symbol

  /** It leaves the buffer exactly if all that is left of the buffer agrees with the symbol. */
  lemma {:induction false} PrefixAstray(b: Bytes, i: nat, prefix: Bytes)
    requires i <= |b|
    ensures PrefixedInBuffer(b, i, prefix).Wild? <==> b[i..] <= prefix
    decreases |prefix|
  {
    if i < |b| {
      assert b[i..] == [b[i]] + b[i + 1..];
      if prefix != [] {
        assert prefix == [prefix[0]] + prefix[1..];
        PrefixAstray(b, i + 1, prefix[1..]);
      }
    }
  }

  lemma LevelAstray(c: Context, b: Bytes, i: nat, n: nat, transport: Symbol)
    requires i <= |b|
    ensures EndpointLevel(c, b, i, n, transport).Wild? <==> |c.protocol| < n && b[i..] <= transport.name
  {
    PrefixAstray(b, i, transport.name);
  }

  // ----- The skipper

  /** A header sends the cursor astray exactly if its 32-bit length is so large that the
      advance wraps and the length that is left seems to grow. */
  lemma HeadAstray(b: Bytes, i: nat)
    requires i <= |b| && IsBuffer(b)
    ensures Head(AsCoded, b, i) == Astray <==>
            && i < |b| && LengthWidth(b[i]) == 4
            && (var j := if IsExt(b[i]) then i + 2 else i + 1;
                j + 4 <= |b| && (4 + BeAt(b, j, 4)) % TWO32 > |b| - j + TWO31)
  {
    hide BeAt;
    if i < |b| && LengthWidth(b[i]) > 0 {
      var w := LengthWidth(b[i]);
      var j := if IsExt(b[i]) then i + 2 else i + 1;
      assert FixedSize(b[i]) < 0 && !(0xA0 <= b[i] <= 0xBF);
      if j + w <= |b| {
        AdvanceAstray(b, j, w, BeAt(b, j, w));
        FieldFits(b, j, w);
      }
      hide Advance, LengthWidth, FixedSize;
    }
  }

  lemma AdvanceAstray(b: Bytes, j: nat, w: nat, n: nat)
    requires IsBuffer(b) && j <= |b| && w <= 4 && n < TWO32
    ensures Advance(b, j, w + n) == Astray <==> (w + n) % TWO32 > |b| - j + TWO31
  {
  }

  lemma FieldFits(b: Bytes, j: nat, w: nat)
    requires (w == 1 || w == 2 || w == 4) && j + w <= |b|
    ensures w < 4 ==> BeAt(b, j, w) < TWO16
  {
  }

  /** One of the next `n` skips leaves the buffer, and those before it do not. */
  ghost predicate OneAstray(b: Bytes, i: nat, n: nat)
    requires i <= |b| && IsBuffer(b)
  {
    exists k: nat :: k < n && AstrayAfter(b, i, k)
  }

  predicate AstrayAfter(b: Bytes, i: nat, k: nat)
    requires i <= |b| && IsBuffer(b)
  {
    SkipManyAt(b, i, k).Past? && SkipAt(b, SkipManyAt(b, i, k).next).Lost?
  }

  /** A skip leaves the buffer exactly if the value's header does, or one of its items. */
  lemma SkipAstray(b: Bytes, i: nat)
    requires i <= |b| && IsBuffer(b)
    ensures SkipAt(b, i).Lost? <==>
            match Head(AsCoded, b, i)
            case Astray => true
            case Items(j, n) => OneAstray(b, j, n)
            case _ => false
  {
    hide Head;
    match Head(AsCoded, b, i)
    case Items(j, n) => ItemsAstray(b, j, n);
    case _ =>
  }

  lemma OneMore(b: Bytes, i: nat, n: nat)
    requires i <= |b| && IsBuffer(b)
    ensures OneAstray(b, i, n + 1) <==> OneAstray(b, i, n) || AstrayAfter(b, i, n)
  {
    hide AstrayAfter;
    if OneAstray(b, i, n + 1) {
      var k: nat :| k < n + 1 && AstrayAfter(b, i, k);
      assert k == n || k < n;
    }
  }

  lemma {:induction false} ItemsAstray(b: Bytes, i: nat, n: nat)
    requires i <= |b| && IsBuffer(b)
    ensures SkipManyAt(b, i, n).Lost? <==> OneAstray(b, i, n)
    decreases n
  {
    hide SkipAt, SkipManyAt;
    SkipNone(b, i);
    if n > 0 {
      var m := n - 1;
      ItemsAstray(b, i, m);
      if SkipManyAt(b, i, m).Past? {
        SkipManyStep(b, i, m);
        assert AstrayAfter(b, i, m) <==> SkipManyAt(b, i, n).Lost?;
      } else {
        SkipManyStops(b, i, m, n);
      }
      OneMore(b, i, m);
    }
  }

  // ----- Inputs

  /** A topic whose length is taken for a negative one. */
  lemma StrayTopic(c: Context)
    ensures var b := [0x94, 0x01, 0x80, 0x90, 0x91, 0xDB, 0x80, 0x00, 0x00, 0x00];
            ReplyWalk(c, b) == Walk([Unmark, Settle, UnmarkTopics], Strayed)
  {
    var b: Bytes := [0x94, 0x01, 0x80, 0x90, 0x91, 0xDB, 0x80, 0x00, 0x00, 0x00];
    assert OpeningAt(b) == Hit(4, 2) && MapAt(b, 2) == Hit(0, 3);
    assert ArrayAt(b, 3) == Hit(0, 4) && ArrayAt(b, 4) == Hit(1, 5);
    StringAstray(b, 5);
    assert b[6] == 0x80;
    hide OpeningAt, MapAt, ArrayAt, StringAt;
    assert SocketOptionsAt(c, b, 3, 0, c.stale) == Walk([], Reached(3, c.stale));
    assert AddressesAt(c, b, 4, 0, 0, c.stale) == Walk([], Reached(4, c.stale));
    assert TopicPart(b, Reached(4, c.stale), 4) == Walk([], Strayed);
    assert [Unmark] + [] + [Settle, UnmarkTopics] + [] == [Unmark, Settle, UnmarkTopics];
  }

  /** An address without a colon at the end of the message. */
  lemma StrayAddress(c: Context)
    ensures var b := [0x93, 0x01, 0x80, 0x91, 0x92, 0x00, 0xA1, 0x74];
            ReplyWalk(c, b) == Walk([Unmark], Strayed)
  {
    var b: Bytes := [0x93, 0x01, 0x80, 0x91, 0x92, 0x00, 0xA1, 0x74];
    assert OpeningAt(b) == Hit(3, 2) && MapAt(b, 2) == Hit(0, 3) && ArrayAt(b, 3) == Hit(1, 4);
    assert ArrayAt(b, 4) == Hit(2, 5) && IntAt(b, 5) == Hit(0, 6);
    assert b[7..8] == [0x74] && StringAt(b, 6) == Hit([0x74], 8);
    ColonAstray(b, 7);
    hide OpeningAt, MapAt, ArrayAt, IntAt, StringAt, ColonFrom;
    assert FrontAt(c, b, 4) == Wild;
    assert SocketOptionsAt(c, b, 3, 0, c.stale) == Walk([], Reached(3, c.stale));
    assert AddressesAt(c, b, 4, 0, 1, c.stale) == Walk([], Strayed);
  }

  // ----- Buffers nothing leaves

  /** No 32-bit length field, read where the skipper reads it, has its high bit set. */
  predicate LowLengths(b: Bytes) {
    forall i :: 0 <= i < |b| && LengthWidth(b[i]) == 4 ==> LowAt(b, if IsExt(b[i]) then i + 2 else i + 1)
  }

  predicate LowAt(b: Bytes, j: nat) {
    j < |b| ==> b[j] < 0x80
  }

  /** The last five bytes are zero. */
  predicate Padded(b: Bytes) {
    |b| >= 5 && forall k :: |b| - 5 <= k < |b| ==> b[k] == 0
  }

  predicate CleanSymbols(symbols: seq<Symbol>) {
    forall s :: s in symbols ==> 0 !in s.name
  }

  /** A message that no read can leave, whatever else it holds. */
  predicate Safe(b: Bytes) {
    IsBuffer(b) && LowLengths(b) && Padded(b)
  }

  lemma LowField(b: Bytes, i: nat)
    requires LowLengths(b) && i < |b| && LengthWidth(b[i]) == 4
    ensures var j := if IsExt(b[i]) then i + 2 else i + 1; j + 4 <= |b| ==> BeAt(b, j, 4) < TWO31
  {
    assert LowAt(b, if IsExt(b[i]) then i + 2 else i + 1);
    hide LengthWidth;
  }

  lemma StringStays(b: Bytes, i: nat)
    requires LowLengths(b) && i <= |b|
    ensures !StringAt(b, i).Wild?
  {
    StringAstray(b, i);
    if |b| - i >= 5 && b[i] == 0xDB {
      LowField(b, i);
      hide Be32, StringAt;
    }
  }

  lemma {:induction false} SkipStays(b: Bytes, i: nat)
    requires IsBuffer(b) && LowLengths(b) && i <= |b|
    ensures !SkipAt(b, i).Lost?
    decreases |b| - i, 0, 0
  {
    HeadAstray(b, i);
    if i < |b| && LengthWidth(b[i]) == 4 {
      LowField(b, i);
    }
    hide Head, LengthWidth, LowLengths, BeAt;
    match Head(AsCoded, b, i)
    case Items(j, n) => SkipsStay(b, j, n);
    case _ =>
  }

  lemma {:induction false} SkipsStay(b: Bytes, i: nat, n: nat)
    requires IsBuffer(b) && LowLengths(b) && i <= |b|
    ensures !SkipManyAt(b, i, n).Lost?
    decreases |b| - i, 1, n
  {
    if n > 0 {
      SkipStays(b, i);
      if SkipAt(b, i).Past? {
        SkipsStay(b, SkipAt(b, i).next, n - 1);
      }
    }
  }

  lemma ElementStays(b: Bytes, i: nat)
    requires LowLengths(b) && i <= |b|
    ensures !ElementAt(b, i).Wild?
  {
    StringStays(b, i);
    hide StringAt, IntAt;
  }

  lemma {:induction false} ElementsStay(b: Bytes, i: nat, level: int, id: int, n: int)
    requires LowLengths(b) && i <= |b|
    ensures !ElementsAt(b, i, level, id, n).stop.Strayed?
    decreases n
  {
    hide ElementAt, LowLengths;
    if n > 0 {
      ElementStays(b, i);
      var e := ElementAt(b, i);
      ElementsStay(b, if e.Hit? then e.next else i, level, id, n - 1);
    }
  }

  lemma OptionStays(b: Bytes, i: nat, level: int, id: int)
    requires LowLengths(b) && i <= |b|
    ensures !OptionAt(b, i, level, id).stop.Strayed?
  {
    hide ElementAt, ArrayAt, LowLengths, ElementsAt;
    ElementStays(b, i);
    var list := ArrayAt(b, i);
    if list.Hit? {
      ElementsStay(b, list.next, level, id, list.value);
    }
  }

  lemma {:induction false} SocketOptionsStay(c: Context, b: Bytes, i: nat, n: int, optid: int)
    requires IsBuffer(b) && LowLengths(b) && i <= |b|
    ensures !SocketOptionsAt(c, b, i, n, optid).stop.Strayed?
    decreases n
  {
    hide StringAt, SkipAt, OptionAt, SocketLevel, SymbolValue, LowLengths;
    StringStays(b, i);
    if n > 0 && StringAt(b, i).Hit? {
      var Hit(name, j) := StringAt(b, i);
      SkipStays(b, j);
      match SymbolValue(c.symbols, name)
      case Some(id) =>
        OptionStays(b, j, SocketLevel(c, name), id);
        var stop := OptionAt(b, j, SocketLevel(c, name), id).stop;
        if stop.Reached? {
          SocketOptionsStay(c, b, stop.next, n - 1, id);
        }
      case None =>
        if SkipAt(b, j).Past? {
          SocketOptionsStay(c, b, SkipAt(b, j).next, n - 1, optid);
        }
    }
  }

  /** The comparison ends at a zero that no symbol has. */
  lemma LevelStays(c: Context, b: Bytes, i: nat, n: nat, transport: Symbol)
    requires Padded(b) && i < |b| && 0 !in transport.name
    ensures EndpointLevel(c, b, i, n, transport).Hit?
  {
    LevelAstray(c, b, i, n, transport);
    var left := b[i..];
    assert left[|left| - 1] == b[|b| - 1] == 0;
    PrefixLast(left, transport.name);
  }

  lemma PrefixLast(a: Bytes, b: Bytes)
    requires a != []
    ensures a <= b ==> a[|a| - 1] in b
  {
    if a <= b {
      assert b[|a| - 1] == a[|a| - 1];
    }
  }

  lemma {:induction false} EndpointOptionsStay(c: Context, b: Bytes, i: nat, n: int, optid: int, transport: Symbol)
    requires Safe(b) && i <= |b| && 0 !in transport.name
    ensures !EndpointOptionsAt(c, b, i, n, optid, transport).stop.Strayed?
    decreases n
  {
    hide StringAt, SkipAt, OptionAt, EndpointLevel, SymbolValue, LowLengths, Padded;
    StringStays(b, i);
    if n > 0 && StringAt(b, i).Hit? {
      var Hit(name, j) := StringAt(b, i);
      SkipStays(b, j);
      var known := SymbolValue(c.symbols, name);
      var id := if known.Some? then known.value else optid;
      var from := if known.Some? then Past(j) else SkipAt(b, j);
      var level := EndpointLevel(c, b, j - |name|, |name|, transport);
      if from.Past? {
        if name != [] {
          LevelStays(c, b, j - |name|, |name|, transport);
        } else {
          NoName(c, b, j, transport);
        }
        OptionStays(b, from.next, level.value, id);
        var stop := OptionAt(b, from.next, level.value, id).stop;
        if stop.Reached? {
          EndpointOptionsStay(c, b, stop.next, n - 1, id, transport);
        }
      }
    }
  }

  lemma NoName(c: Context, b: Bytes, i: nat, transport: Symbol)
    ensures EndpointLevel(c, b, i, 0, transport).Hit?
  {
  }

  /** Behind a string there is a zero left. */
  lemma StringInside(b: Bytes, i: nat)
    requires Padded(b) && i <= |b| && StringAt(b, i).Hit?
    ensures StringAt(b, i).next - |StringAt(b, i).value| < |b|
  {
  }

  lemma FrontStays(c: Context, b: Bytes, i: nat)
    requires Safe(b) && i <= |b|
    ensures !FrontAt(c, b, i).Wild?
    ensures FrontAt(c, b, i).Hit? && FrontAt(c, b, i).value.transport.Some? ==>
              FrontAt(c, b, i).value.transport.value in c.symbols
  {
    hide IntAt, StringAt, ArrayAt, ColonFrom, TransportOf, LowLengths, Padded;
    var tuple := ArrayAt(b, i);
    if tuple.Hit? && IntAt(b, tuple.next).Hit? {
      var k := IntAt(b, tuple.next).next;
      StringStays(b, k);
      if StringAt(b, k).Hit? {
        var start := StringAt(b, k).next - |StringAt(b, k).value|;
        StringInside(b, k);
        ColonStays(b, start);
        if ColonFrom(b, start).Hit? {
          FromTable(c.symbols, b[start..ColonFrom(b, start).next]);
        }
      }
    }
  }

  lemma ColonStays(b: Bytes, i: nat)
    requires Padded(b) && i < |b|
    ensures !ColonFrom(b, i).Wild?
  {
    ColonAstray(b, i);
    assert b[|b| - 1] == 0;
  }

  lemma {:induction false} FromTable(symbols: seq<Symbol>, transport: Bytes)
    ensures var t := TransportOf(symbols, transport); t.Some? ==> t.value in symbols
  {
    hide NamesTransport;
    if symbols != [] {
      FromTable(symbols[1..], transport);
    }
  }

  lemma {:induction false} DrainStays(b: Bytes, i: nat)
    requires IsBuffer(b) && LowLengths(b) && i <= |b|
    ensures DrainAt(b, i).Rejected?
    decreases |b| - i
  {
    hide SkipAt, LowLengths;
    SkipStays(b, i);
    if SkipAt(b, i).Past? {
      DrainStays(b, SkipAt(b, i).next);
    }
  }

  lemma {:induction false} AddressesStay(c: Context, b: Bytes, i: nat, k: nat, n: int, optid: int)
    requires Safe(b) && CleanSymbols(c.symbols) && i <= |b|
    ensures !AddressesAt(c, b, i, k, n, optid).stop.Strayed?
    decreases n - k
  {
    hide FrontAt, DrainAt, EndpointOptionsAt, MapAt, LowLengths, Padded;
    FrontStays(c, b, i);
    if k < n && FrontAt(c, b, i).Hit? {
      var Hit(f, j) := FrontAt(c, b, i);
      DrainStays(b, j);
      if f.transport.Some? {
        if f.tuple > 2 && MapAt(b, j).Hit? {
          EndpointOptionsStay(c, b, MapAt(b, j).next, MapAt(b, j).value, optid, f.transport.value);
        }
        var stop := TupleOptionsAt(c, b, f, optid).stop;
        if stop.Reached? {
          AddressesStay(c, b, stop.next, k + 1, n, stop.optid);
        }
      } else if k >= f.tuple {
        AddressesStay(c, b, j, k + 1, n, optid);
      }
    }
  }

  lemma {:induction false} TopicsStay(b: Bytes, i: nat, n: int, optid: int)
    requires LowLengths(b) && i <= |b|
    ensures !TopicsAt(b, i, n, optid).stop.Strayed?
    decreases n
  {
    hide StringAt, LowLengths;
    StringStays(b, i);
    if n > 0 && StringAt(b, i).Hit? {
      TopicsStay(b, StringAt(b, i).next, n - 1, optid);
    }
  }

  /** Of a message that ends in five zeros and holds no 32-bit length of 2^31 or more the walk
      never leaves the buffer: `nc_parse_and_apply` returns. */
  lemma WalkStays(c: Context, b: Bytes)
    requires Safe(b) && CleanSymbols(c.symbols)
    ensures !ReplyWalk(c, b).stop.Strayed?
  {
    hide OpeningAt, MapAt, ArrayAt, SocketOptionsAt, AddressesAt, TopicsAt, LowLengths, Padded, CleanSymbols;
    var start := OpeningAt(b);
    if start.Hit? && MapAt(b, start.next).Hit? {
      var Hit(n, j) := MapAt(b, start.next);
      SocketOptionsStay(c, b, j, n, c.stale);
      var options := SocketOptionsAt(c, b, j, n, c.stale).stop;
      if options.Reached? && ArrayAt(b, options.next).Hit? {
        var Hit(m, k) := ArrayAt(b, options.next);
        AddressesStay(c, b, k, 0, m, options.optid);
        var addresses := AddressesAt(c, b, k, 0, m, options.optid).stop;
        if addresses.Reached? && ArrayAt(b, addresses.next).Hit? {
          TopicsStay(b, ArrayAt(b, addresses.next).next, ArrayAt(b, addresses.next).value, addresses.optid);
        }
      }
    }
  }
}
