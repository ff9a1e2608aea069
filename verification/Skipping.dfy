/** The skipper and the four readers of the MsgPack module against the MessagePack format:
    what they do on every encoding, and what their success says about the buffer. */
module Skipping {
  import opened MsgPack
  import opened Wire

  // ----- Skipping an encoding

  /** The skipper takes the right size from this node: an ext whose misplaced length field
      still reads as its length, or a collection whose 32-bit count has a zero low half, or
      any of the other families. */
  predicate StraightNode(w: Wire) {
    match w
    case Ext(width, kind, data) =>
      if width == 1 then kind == |data|
      else if width == 2 then |data| % 0x100 * 0x100 + kind == |data|
      else |data| % 0x100_0000 * 0x100 + kind == |data|
    case Array(width, items) => width == 4 ==> |items| % TWO16 == 0
    case Map(width, items) => width == 4 ==> |items| / 2 % TWO16 == 0
    case _ => true
  }

  predicate Straight(w: Wire)
    decreases w, 1
  {
    StraightNode(w) && (w.Array? || w.Map? ==> StraightAll(w.items))
  }

  predicate StraightAll(ws: seq<Wire>)
    decreases ws, 0
  {
    ws == [] || (Straight(ws[0]) && StraightAll(ws[1..]))
  }

  /** Of an encoded value whose parts it can skip, the skipper stops exactly at the end if
      and only if the value's own header is one it reads right.  What follows the value
      is arbitrary. */
  lemma {:induction false} SkipEncoded(b: Bytes, i: nat, w: Wire)
    requires IsBuffer(b) && Valid(w) && At(b, i, Encode(w))
    requires w.Array? || w.Map? ==> StraightAll(w.items)
    ensures SkipAt(b, i) == Past(i + |Encode(w)|) <==> StraightNode(w)
    decreases w, 1
  {
    if w.Array? || w.Map? {
      hide Head, Lead, ValidNode, StraightNode, CodedCount, EncodeAll, SkipManyAt, StraightAll, Payload,
           ValidAll;
      AtSplit(b, i, Lead(w), EncodeAll(w.items));
      hide At;
      GroupCount(b, i, w);
      SkipAllEncoded(b, i + |Lead(w)|, w.items, CodedCount(w));
    } else {
      hide *;
      SkipLeafEncoded(b, i, w);
    }
  }

  lemma SkipLeafEncoded(b: Bytes, i: nat, w: Wire)
    requires IsBuffer(b) && Valid(w) && At(b, i, Encode(w)) && !w.Array? && !w.Map?
    ensures SkipAt(b, i) == Past(i + |Encode(w)|) <==> StraightNode(w)
  {
    AtSplit(b, i, Lead(w), Payload(w));
    assert i + |Encode(w)| <= |b|;
    hide Head, Lead, ValidNode, StraightNode, At;
    HeadOfLeaf(b, i, w);
    if w.Ext? {
      ExtHead(b, i, w);
    } else {
      LeafHead(b, i, w);
    }
  }

  /** The number of items the skipper expects after the header of a collection. */
  function CodedCount(w: Wire): (n: nat)
    requires w.Array? || w.Map?
    ensures n <= |w.items|
  {
    if w.width < 4 then |w.items|
    else if w.Array? then |w.items| - |w.items| % TWO16
    else |w.items| - |w.items| / 2 % TWO16 * 2
  }

  lemma GroupCount(b: Bytes, i: nat, w: Wire)
    requires IsBuffer(b) && ValidNode(w) && At(b, i, Lead(w)) && (w.Array? || w.Map?)
    ensures i < |b| && Head(AsCoded, b, i) == Items(i + |Lead(w)|, CodedCount(w))
    ensures StraightNode(w) <==> CodedCount(w) == |w.items|
  {
    hide BeBytes, At, SizedHead, Be16, Be32OfHalf;
    HeadOfGroup(b, i, w);
    LeadFields(b, i, w);
    assert FixedSize(b[i]) < 0 && LengthWidth(b[i]) == 0 && !(0xA0 <= b[i] <= 0xBF);
    hide FixedSize, LengthWidth, Pow256;
    if w.width == 4 {
      HalfCount(b, i + 1);
    }
  }

  lemma HalfCount(b: Bytes, j: nat)
    requires j + 4 <= |b|
    ensures Be32OfHalf(b, j) == Be32(b, j) - Be32(b, j) % TWO16
  {
    hide Be16;
    var q, r := Be16(b, j), Be16(b, j + 2);
    assert Be32(b, j) == TWO16 * q + r;
  }

  lemma ExtHead(b: Bytes, i: nat, w: Wire)
    requires IsBuffer(b) && ValidNode(w) && w.Ext? && At(b, i, Lead(w))
    requires i + |Lead(w)| + |w.data| <= |b|
    ensures Head(AsCoded, b, i) == Last(i + |Lead(w)| + |w.data|) <==> StraightNode(w)
  {
    hide BeBytes, At, BeAt, Head, Advance, Overruns, StraightNode;
    LeadFields(b, i, w);
    assert |Lead(w)| == 2 + w.width && IsExt(b[i]) && LengthWidth(b[i]) == w.width;
    hide Lead, FixedSize, LengthWidth;
    ExtCoded(b, i);
    ExtField(b, i, w);
    AdvanceExactly(b, i + 2, w.width, BeAt(b, i + 2, w.width));
  }

  lemma ExtCoded(b: Bytes, i: nat)
    requires i < |b| && IsBuffer(b) && IsExt(b[i]) && i + 2 + LengthWidth(b[i]) <= |b|
    ensures LengthWidth(b[i]) in {1, 2, 4}
    ensures var w := LengthWidth(b[i]); Head(AsCoded, b, i) == Advance(b, i + 2, w + BeAt(b, i + 2, w))
  {
    hide Advance, BeAt;
  }

  lemma ExtField(b: Bytes, i: nat, w: Wire)
    requires ValidNode(w) && w.Ext? && i + 2 + w.width <= |b|
    requires BeAt(b, i + 1, w.width) == |w.data| && b[i + 1 + w.width] == w.kind
    ensures StraightNode(w) <==> BeAt(b, i + 2, w.width) == |w.data|
  {
    ShiftedField(b, i + 1, w.width);
    hide BeAt;
  }

  /** A length field read one byte late. */
  lemma ShiftedField(b: Bytes, j: nat, width: nat)
    requires width in {1, 2, 4} && j + width + 1 <= |b|
    ensures width == 1 ==> BeAt(b, j + 1, 1) == b[j + 1]
    ensures width == 2 ==> BeAt(b, j + 1, 2) == BeAt(b, j, 2) % 0x100 * 0x100 + b[j + 2]
    ensures width == 4 ==> BeAt(b, j + 1, 4) == BeAt(b, j, 4) % 0x100_0000 * 0x100 + b[j + 4]
  {
    if width == 4 {
      assert BeAt(b, j, 4) == 0x100_0000 * b[j] as int + (TWO16 * b[j + 1] as int + Be16(b, j + 2));
    }
  }

  lemma LeafHead(b: Bytes, i: nat, w: Wire)
    requires IsBuffer(b) && ValidNode(w) && !w.Array? && !w.Map? && !w.Ext? && At(b, i, Lead(w))
    requires i + |Lead(w)| + |Payload(w)| <= |b|
    ensures Head(AsCoded, b, i) == Last(i + |Lead(w)| + |Payload(w)|) && StraightNode(w)
  {
    HeadOfLeaf(b, i, w);
    LeadFields(b, i, w);
    StraightHeadExactly(b, i);
    hide Head, Be16, BeBytes, At, Overruns;
  }

  lemma {:induction false} SkipAllEncoded(b: Bytes, i: nat, ws: seq<Wire>, n: nat)
    requires i <= |b| && IsBuffer(b) && ValidAll(ws) && At(b, i, EncodeAll(ws))
    requires StraightAll(ws) && n <= |ws|
    ensures SkipManyAt(b, i, n).Past?
    ensures SkipManyAt(b, i, n).next + (|ws| - n) <= i + |EncodeAll(ws)|
    ensures n == |ws| ==> SkipManyAt(b, i, n).next == i + |EncodeAll(ws)|
    decreases ws, 0
  {
    hide SkipAt, Encode;
    if n > 0 {
      AtSplit(b, i, Encode(ws[0]), EncodeAll(ws[1..]));
      SkipEncoded(b, i, ws[0]);
      SkipAllEncoded(b, i + |Encode(ws[0])|, ws[1..], n - 1);
    }
  }

  /** Whole trees: a value made of straight nodes only is skipped exactly. */
  lemma SkipStraight(b: Bytes, i: nat, w: Wire)
    requires IsBuffer(b) && Valid(w) && At(b, i, Encode(w)) && Straight(w)
    ensures SkipAt(b, i) == Past(i + |Encode(w)|)
  {
    SkipEncoded(b, i, w);
  }

  // ----- What a skip says about the buffer

  /** Every header the skipper meets from `i` on is one it reads right. */
  predicate StraightWalk(b: Bytes, i: nat)
    requires i <= |b| && IsBuffer(b)
    decreases |b| - i, 0, 0
  {
    && StraightHead(b, i)
    && (match Head(Standard, b, i)
        case Items(j, n) => StraightWalks(b, j, n)
        case _ => true)
  }

  predicate StraightWalks(b: Bytes, i: nat, n: nat)
    requires i <= |b| && IsBuffer(b)
    decreases |b| - i, 1, n
  {
    n == 0 || (StraightWalk(b, i) && (SkipAt(b, i).Past? ==> StraightWalks(b, SkipAt(b, i).next, n - 1)))
  }

  /** On such a walk a skip succeeds exactly when the specification has a value here, and
      stops where that value ends; it is never led astray. */
  lemma {:induction false} SkipIsDecode(b: Bytes, i: nat)
    requires i <= |b| && IsBuffer(b) && StraightWalk(b, i)
    ensures SkipAt(b, i) == if WireAt(b, i).Hit? then Past(WireAt(b, i).next) else Refused
    decreases |b| - i, 0, 0
  {
    hide Head, LeafOf, GroupOf;
    match Head(Standard, b, i)
    case Items(j, n) => SkipManyIsDecode(b, j, n);
    case _ =>
      StandardNeverAstray(b, i);
  }

  lemma StandardNeverAstray(b: Bytes, i: nat)
    requires i <= |b| && IsBuffer(b)
    ensures !Head(Standard, b, i).Astray?
  {
  }

  lemma {:induction false} SkipManyIsDecode(b: Bytes, i: nat, n: nat)
    requires i <= |b| && IsBuffer(b) && StraightWalks(b, i, n)
    ensures SkipManyAt(b, i, n) == if WireManyAt(b, i, n).Hit? then Past(WireManyAt(b, i, n).next) else Refused
    decreases |b| - i, 1, n
  {
    hide SkipAt, WireAt;
    if n > 0 {
      SkipIsDecode(b, i);
      if SkipAt(b, i).Past? {
        SkipManyIsDecode(b, SkipAt(b, i).next, n - 1);
      }
    }
  }

  /** Both directions at once: a skip that met straight headers consumed exactly the bytes of
      one value. */
  lemma SkipConsumesOneValue(b: Bytes, i: nat, j: nat)
    requires i <= |b| && IsBuffer(b) && StraightWalk(b, i)
    ensures SkipAt(b, i) == Past(j) <==>
            i <= j <= |b| && exists w :: Valid(w) && Encode(w) == b[i..j]
  {
    SkipIsDecode(b, i);
    if WireAt(b, i).Hit? {
      DecodeIffEncode(b, i, WireAt(b, i).value, WireAt(b, i).next);
    }
    if i <= j <= |b| && exists w :: Valid(w) && Encode(w) == b[i..j] {
      var w :| Valid(w) && Encode(w) == b[i..j];
      DecodeIffEncode(b, i, w, j);
    }
  }

  // ----- The misread headers, by example

  const ONE_ITEM: Wire := Array(4, [Scalar(5, [])])

  /** An array 32 of one element: the skipper expects no elements. */
  lemma Array32Misread()
    ensures Valid(ONE_ITEM) && Encode(ONE_ITEM) == [0xDD, 0, 0, 0, 1, 5]
    ensures SkipAt(Encode(ONE_ITEM), 0) == Past(5)
  {
    var w := Scalar(5, []);
    assert BeBytes(1, 4) == [0, 0, 0, 1];
    assert Encode(w) == [5];
    assert ONE_ITEM.items[1..] == [];
    assert EncodeAll([]) == [];
    assert ONE_ITEM.items == [w];
    assert EncodeAll([w]) == Encode(w) + EncodeAll([w][1..]);
  }

  /** An ext 8 of one byte and type 0: the skipper takes the type for the length. */
  lemma Ext8Misread(x: Byte)
    ensures Encode(Ext(1, 0, [x])) == [0xC7, 1, 0, x]
    ensures SkipAt([0xC7, 1, 0, x], 0) == Past(3)
  {
  }

  /** Two wrongs can make a right: a misread ext inside an array whose leftover byte happens
      to swallow the next element.  So `StraightNode` cannot be turned into an if-and-only-if
      for whole trees. */
  lemma MisreadsCanCancel()
    ensures var w := Array(0, [Ext(1, 0, [0xA1]), Scalar(5, [])]);
            Valid(w) && !Straight(w) && SkipAt(Encode(w), 0) == Past(|Encode(w)|)
  {
    var e, s := Ext(1, 0, [0xA1]), Scalar(5, []);
    var w := Array(0, [e, s]);
    PairEncodes(e, s);
    assert !Straight(e);
    assert Encode(e) == [0xC7, 1, 0, 0xA1] && Encode(s) == [5];
    assert Lead(w) == [0x92];
    assert Encode(w) == [0x92, 0xC7, 1, 0, 0xA1, 5] by { hide Lead; }
    hide *;
    SkipSixBytes();
  }

  lemma PairEncodes(v: Wire, w: Wire)
    requires Valid(v) && Valid(w)
    ensures ValidAll([v, w]) && EncodeAll([v, w]) == Encode(v) + Encode(w)
    ensures StraightAll([v, w]) <==> Straight(v) && Straight(w)
  {
    hide Valid, Encode, Straight;
    assert [v, w][1..] == [w] && [w][1..] == [];
    assert ValidAll([w][1..]) && StraightAll([w][1..]);
    assert ValidAll([w]) && EncodeAll([w]) == Encode(w) + [];
  }

  lemma SkipSixBytes()
    ensures SkipAt([0x92, 0xC7, 1, 0, 0xA1, 5], 0) == Past(6)
  {
    var b: Bytes := [0x92, 0xC7, 1, 0, 0xA1, 5];
    assert SkipAt(b, 1) == Past(4);
    assert SkipAt(b, 4) == Past(6);
    assert SkipManyAt(b, 4, 1) == Past(6);
    assert SkipManyAt(b, 1, 2) == Past(6);
  }

  // ----- The readers

  /** The integer the specification reads, for the families the int reader knows. */
  predicate IsInt(w: Wire) {
    w.Scalar? && (w.marker < 0x80 || w.marker >= 0xE0 || 0xCC <= w.marker <= 0xCE || 0xD0 <= w.marker <= 0xD2)
  }

  function IntOf(w: Wire): int
    requires ValidNode(w) && IsInt(w)
  {
    var p := w.payload;
    if w.marker < 0x80 then w.marker
    else if w.marker >= 0xE0 then w.marker - 0x100
    else
      match w.marker
      case 0xCC => p[0]
      case 0xCD => Be16(p, 0)
      case 0xCE => Be32(p, 0)
      case 0xD0 => AsInt8(p[0])
      case 0xD1 => AsInt16(Be16(p, 0))
      case _ => AsInt32(Be32(p, 0))
  }

  /** On an encoding, the one reader made for its family accepts, returns what was encoded
      and stops after the value or after the collection's header; the other three
      decline.  Only an unsigned 32-bit integer from 2^31 up comes back as another number. */
  lemma ReadEncoded(b: Bytes, i: nat, w: Wire)
    requires IsBuffer(b) && Valid(w) && At(b, i, Encode(w))
    ensures i <= |b|
    ensures IntAt(b, i) == if IsInt(w) then Hit(AsInt32(IntOf(w)), i + |Encode(w)|) else Miss
    ensures StringAt(b, i) == if w.Str? then Hit(w.data, i + |Encode(w)|) else Miss
    ensures ArrayAt(b, i) == if w.Array? then Hit(|w.items|, i + |Lead(w)|) else Miss
    ensures MapAt(b, i) == if w.Map? then Hit(|w.items| / 2, i + |Lead(w)|) else Miss
    ensures IsInt(w) ==> (AsInt32(IntOf(w)) == IntOf(w) <==> IntOf(w) < TWO31)
  {
    hide ValidAll, EncodeAll, BeBytes, IntAt, StringAt, ArrayAt, MapAt, IntOf, AsInt32;
    if w.Array? || w.Map? {
      AtSplit(b, i, Lead(w), EncodeAll(w.items));
      hide Lead;
      GroupRead(b, i, w);
    } else {
      LeafSplit(b, i, w);
      hide Encode, At, ValidNode;
      if w.Scalar? {
        ScalarRead(b, i, w);
      } else {
        TextRead(b, i, w);
      }
    }
  }

  lemma LeafSplit(b: Bytes, i: nat, w: Wire)
    requires Valid(w) && !w.Array? && !w.Map? && At(b, i, Encode(w))
    ensures i < |b| && ValidNode(w) && |Encode(w)| == |Lead(w)| + |Payload(w)|
    ensures At(b, i, Lead(w)) && At(b, i + |Lead(w)|, Payload(w))
    ensures w.Scalar? ==> Lead(w) == [w.marker] && Payload(w) == w.payload
    ensures !w.Scalar? ==> Payload(w) == w.data
  {
    hide BeBytes;
    AtSplit(b, i, Lead(w), Payload(w));
  }

  lemma GroupRead(b: Bytes, i: nat, w: Wire)
    requires IsBuffer(b) && Valid(w) && (w.Array? || w.Map?)
    requires At(b, i, Lead(w)) && At(b, i + |Lead(w)|, EncodeAll(w.items))
    ensures IntAt(b, i) == Miss && StringAt(b, i) == Miss
    ensures ArrayAt(b, i) == if w.Array? then Hit(|w.items|, i + |Lead(w)|) else Miss
    ensures MapAt(b, i) == if w.Map? then Hit(|w.items| / 2, i + |Lead(w)|) else Miss
  {
    LeadFields(b, i, w);
    assert FieldOf(w) < TWO31;
    if w.width > 0 {
      BeMeans(b, i + 1, w.width);
    }
    hide EncodeAll, BeBytes, BeAt, Be16, Be32, At, ValidAll, Pow256, AsInt32;
  }

  /** The two spellings of a length field. */
  lemma BeMeans(b: Bytes, j: nat, width: nat)
    requires width in {1, 2, 4} && j + width <= |b|
    ensures width == 1 ==> BeAt(b, j, width) == b[j]
    ensures width == 2 ==> BeAt(b, j, width) == Be16(b, j)
    ensures width == 4 ==> BeAt(b, j, width) == Be32(b, j)
    ensures BeAt(b, j, width) < TWO31 ==> AsInt32(BeAt(b, j, width)) == BeAt(b, j, width)
  {
  }

  lemma TextRead(b: Bytes, i: nat, w: Wire)
    requires IsBuffer(b) && ValidNode(w) && (w.Str? || w.Bin? || w.Ext?)
    requires At(b, i, Lead(w)) && At(b, i + |Lead(w)|, w.data)
    ensures IntAt(b, i) == Miss && ArrayAt(b, i) == Miss && MapAt(b, i) == Miss
    ensures StringAt(b, i) == if w.Str? then Hit(w.data, i + |Lead(w)| + |w.data|) else Miss
  {
    LeadFields(b, i, w);
    LeafMarker(w);
    assert IsExt(b[i]) ==> 0xC7 <= b[i] <= 0xC9;
    if w.Str? {
      TextHead(b, i, w);
    }
    hide *;
    NotRead(b, i);
    if w.Str? {
      StringIs(b, i, i + |Lead(w)|, w.data);
    }
  }

  /** The markers of str, bin and ext. */
  lemma NotRead(b: Bytes, i: nat)
    requires i < |b| && (0xA0 <= b[i] <= 0xBF || 0xC4 <= b[i] <= 0xC9 || 0xD9 <= b[i] <= 0xDB)
    ensures IntAt(b, i) == Miss && ArrayAt(b, i) == Miss && MapAt(b, i) == Miss
    ensures 0xC4 <= b[i] <= 0xC9 ==> StringAt(b, i) == Miss
  {
    hide Be16, Be32, AsInt32, AsInt16;
  }

  lemma StringIs(b: Bytes, i: nat, j: nat, data: Bytes)
    requires i <= |b| && j <= |b| && StringHead(b, i) == Hit(|data|, j) && At(b, j, data)
    ensures StringAt(b, i) == Hit(data, j + |data|)
  {
    hide StringHead;
  }

  lemma TextHead(b: Bytes, i: nat, w: Wire)
    requires IsBuffer(b) && ValidNode(w) && w.Str? && At(b, i, Lead(w)) && At(b, i + |Lead(w)|, w.data)
    ensures StringHead(b, i) == Hit(|w.data|, i + |Lead(w)|)
  {
    LeadFields(b, i, w);
    LeafMarker(w);
    assert FieldOf(w) < TWO31;
    if w.width > 0 {
      BeMeans(b, i + 1, w.width);
    }
    hide BeBytes, BeAt, Be16, Be32, Pow256, AsInt32, Lead, FixedSize, LengthWidth;
  }

  lemma ScalarRead(b: Bytes, i: nat, w: Wire)
    requires IsBuffer(b) && ValidNode(w) && w.Scalar?
    requires At(b, i, [w.marker]) && At(b, i + 1, w.payload)
    ensures StringAt(b, i) == Miss && ArrayAt(b, i) == Miss && MapAt(b, i) == Miss
    ensures IntAt(b, i) == if IsInt(w) then Hit(AsInt32(IntOf(w)), i + 1 + |w.payload|) else Miss
    ensures IsInt(w) ==> (AsInt32(IntOf(w)) == IntOf(w) <==> IntOf(w) < TWO31)
  {
    assert b[i] == b[i..i + 1][0];
    var p := w.payload;
    PayloadField(b, i + 1, p);
    assert IsInt(w) ==> -TWO31 <= IntOf(w) < TWO32;
    assert IsInt(w) ==> (AsInt32(IntOf(w)) == IntOf(w) <==> IntOf(w) < TWO31);
    assert b[i] in {0xCE, 0xD2} ==> AsInt32(AsInt32(Be32(p, 0))) == AsInt32(Be32(p, 0));
    hide AsInt32, Be16, Be32;
  }

  lemma PayloadField(b: Bytes, j: nat, p: Bytes)
    requires At(b, j, p)
    ensures |p| >= 1 ==> p[0] == b[j]
    ensures |p| == 2 ==> Be16(p, 0) == Be16(b, j)
    ensures |p| == 4 ==> Be32(p, 0) == Be32(b, j)
  {
    assert forall k {:trigger p[k]} | 0 <= k < |p| :: p[k] == b[j..j + |p|][k] == b[j + k];
  }

  /** Whatever the buffer, at most one of the four readers accepts it. */
  lemma OneReaderAtMost(b: Bytes, i: nat)
    requires i <= |b|
    ensures IntAt(b, i).Miss? || (StringAt(b, i).Miss? && ArrayAt(b, i).Miss? && MapAt(b, i).Miss?)
    ensures StringAt(b, i).Miss? || (ArrayAt(b, i).Miss? && MapAt(b, i).Miss?)
    ensures ArrayAt(b, i).Miss? || MapAt(b, i).Miss?
  {
    hide AsInt32, Be16, Be32;
  }

  /** A value the int or string reader accepts is one the skipper passes over just so. */
  lemma ReadLikeSkip(b: Bytes, i: nat)
    requires i <= |b| && IsBuffer(b)
    ensures IntAt(b, i).Hit? ==> SkipAt(b, i) == Past(IntAt(b, i).next)
    ensures StringAt(b, i).Hit? ==> SkipAt(b, i) == Past(StringAt(b, i).next)
  {
    hide Head, IntAt, StringAt;
    if IntAt(b, i).Hit? {
      IntHeadSkips(b, i);
    }
    if StringAt(b, i).Hit? {
      StringHeadSkips(b, i);
    }
  }

  /** The string reader goes astray on exactly one header. */
  lemma StringAstray(b: Bytes, i: nat)
    requires i <= |b|
    ensures StringAt(b, i).Wild? <==> |b| - i >= 5 && b[i] == 0xDB && Be32(b, i + 1) >= TWO31
  {
    hide Be16, Be32;
  }

  lemma IntHeadSkips(b: Bytes, i: nat)
    requires i <= |b| && IsBuffer(b) && IntAt(b, i).Hit?
    ensures Head(AsCoded, b, i) == Last(IntAt(b, i).next)
  {
    hide SizedHead, CountHead, AsInt32, Be16, Be32;
  }

  lemma StringHeadSkips(b: Bytes, i: nat)
    requires i <= |b| && IsBuffer(b) && StringAt(b, i).Hit?
    ensures Head(AsCoded, b, i) == Last(StringAt(b, i).next)
  {
    hide CountHead, Advance;
    assert FixedSize(b[i]) < 0;
    var w := LengthWidth(b[i]);
    if !(0xA0 <= b[i] <= 0xBF) {
      assert w > 0 && !IsExt(b[i]);
      BeMeans(b, i + 1, w);
      var n := BeAt(b, i + 1, w);
      AdvanceExactly(b, i + 1, w, n);
      assert Head(AsCoded, b, i) == Advance(b, i + 1, w + n);
      hide Head, FixedSize, LengthWidth, BeAt, Overruns, Be16, Be32;
    }
  }

  /** How many of `n` announced items or pairs the skipper looks for. */
  function LookedFor(marker: Byte, n: nat): (m: nat)
    ensures m <= n
    ensures m == n <==> (marker != 0xDD && marker != 0xDF) || n % TWO16 == 0
  {
    if marker == 0xDD || marker == 0xDF then n - n % TWO16 else n
  }

  /** Reading a collection header and skipping its items comes to the same as one skip of the
      whole, failures and all, exactly if the count is one the skipper reads right or one of
      the items it looks for fails. */
  lemma HeaderThenItems(b: Bytes, i: nat)
    requires i <= |b| && IsBuffer(b)
    ensures ArrayAt(b, i).Hit? && ArrayAt(b, i).value >= 0 ==>
              var n := ArrayAt(b, i).value;
              var apart := SkipManyAt(b, ArrayAt(b, i).next, n);
              SkipAt(b, i) == apart <==> LookedFor(b[i], n) == n || !SkipAt(b, i).Past?
    ensures MapAt(b, i).Hit? && MapAt(b, i).value >= 0 ==>
              var n := MapAt(b, i).value;
              var apart := SkipManyAt(b, MapAt(b, i).next, 2 * n);
              SkipAt(b, i) == apart <==> LookedFor(b[i], n) == n || !SkipAt(b, i).Past?
  {
    if ArrayAt(b, i).Hit? && ArrayAt(b, i).value >= 0 {
      ApartOrWhole(b, i, ArrayAt(b, i), 1);
    }
    if MapAt(b, i).Hit? && MapAt(b, i).value >= 0 {
      ApartOrWhole(b, i, MapAt(b, i), 2);
    }
  }

  lemma ApartOrWhole(b: Bytes, i: nat, read: Read<int>, per: nat)
    requires i <= |b| && IsBuffer(b) && read.Hit? && read.value >= 0
    requires read == if per == 1 then ArrayAt(b, i) else MapAt(b, i)
    requires per == 1 || per == 2
    ensures read.next <= |b|
    ensures var n := read.value;
            var apart := SkipManyAt(b, read.next, per * n);
            SkipAt(b, i) == apart <==> LookedFor(b[i], n) == n || !SkipAt(b, i).Past?
  {
    var n := read.value;
    var m := LookedFor(b[i], n);
    CountAsCoded(b, i, read, per);
    hide Head, MapAt, ArrayAt, SkipManyAt;
    assert per * m <= per * n && (m < n ==> per * m < per * n);
    SkipFewer(b, read.next, per * m, per * n);
    hide LookedFor;
  }

  lemma CountAsCoded(b: Bytes, i: nat, read: Read<int>, per: nat)
    requires i <= |b| && IsBuffer(b) && read.Hit? && read.value >= 0
    requires read == if per == 1 then ArrayAt(b, i) else MapAt(b, i)
    requires per == 1 || per == 2
    ensures i < |b| && Head(AsCoded, b, i) == Items(read.next, per * LookedFor(b[i], read.value))
  {
    assert FixedSize(b[i]) < 0 && LengthWidth(b[i]) == 0;
    hide FixedSize, LengthWidth, SizedHead, CountHead, LookedFor;
    CountHeads(b, i, read, per);
  }

  lemma CountHeads(b: Bytes, i: nat, read: Read<int>, per: nat)
    requires i <= |b| && IsBuffer(b) && read.Hit? && read.value >= 0
    requires read == if per == 1 then ArrayAt(b, i) else MapAt(b, i)
    requires per == 1 || per == 2
    ensures i < |b| && !(0xA0 <= b[i] <= 0xBF)
    ensures CountHead(AsCoded, b, i) == Items(read.next, per * LookedFor(b[i], read.value))
  {
    assert b[i] == 0xDD || b[i] == 0xDF ==> read.value == Be32(b, i + 1);
    hide SizedHead;
  }

  /** Fewer skips end earlier, or fail in the same way. */
  lemma {:induction false} SkipFewer(b: Bytes, i: nat, m: nat, n: nat)
    requires i <= |b| && IsBuffer(b) && m <= n
    ensures var few, many := SkipManyAt(b, i, m), SkipManyAt(b, i, n);
            && (!few.Past? ==> many == few)
            && (few.Past? && many.Past? ==> few.next + (n - m) <= many.next)
    decreases n
  {
    if m > 0 && SkipAt(b, i).Past? {
      SkipFewer(b, SkipAt(b, i).next, m - 1, n - 1);
    }
  }
}
