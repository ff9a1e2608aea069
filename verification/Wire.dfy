/** The MessagePack specification, section "Formats", as concrete syntax: every value in
    every encoding it may have, the bytes of each, and a reference decoder.  The skipper of
    the MsgPack module is compared with it. */
module Wire {
  import opened MsgPack

  /** A value as written: `width` is the size of the length field, 0 for the families that
      keep the length in the marker.  Map items are key, value, key, value, ... */
  datatype Wire =
    | Scalar(marker: Byte, payload: Bytes)
    | Str(width: nat, data: Bytes)
    | Bin(width: nat, data: Bytes)
    | Ext(width: nat, kind: Byte, data: Bytes)
    | Array(width: nat, items: seq<Wire>)
    | Map(width: nat, items: seq<Wire>)

  function Pow256(width: nat): nat {
    if width == 1 then 0x100 else if width == 2 then TWO16 else TWO32
  }

  predicate ValidNode(w: Wire) {
    match w
    case Scalar(m, payload) => |payload| == FixedSize(m)
    case Str(width, data) =>
      (width == 0 && |data| < 32) || (width in {1, 2, 4} && |data| < Pow256(width))
    case Bin(width, data) => width in {1, 2, 4} && |data| < Pow256(width)
    case Ext(width, _, data) => width in {1, 2, 4} && |data| < Pow256(width)
    case Array(width, items) =>
      (width == 0 && |items| < 16) || (width in {2, 4} && |items| < Pow256(width))
    case Map(width, items) =>
      && |items| % 2 == 0
      && ((width == 0 && |items| / 2 < 16) || (width in {2, 4} && |items| / 2 < Pow256(width)))
  }

  predicate Valid(w: Wire)
    decreases w, 1
  {
    ValidNode(w) && (w.Array? || w.Map? ==> ValidAll(w.items))
  }

  predicate ValidAll(ws: seq<Wire>)
    decreases ws, 0
  {
    ws == [] || (Valid(ws[0]) && ValidAll(ws[1..]))
  }

  function BeBytes16(n: nat): (b: Bytes)
    requires n < TWO16
    ensures |b| == 2 && Be16(b, 0) == n
  {
    [n / 0x100, n % 0x100]
  }

  /** Big-endian bytes of a length field. */
  function BeBytes(n: nat, width: nat): (b: Bytes)
    requires width in {1, 2, 4} && n < Pow256(width)
    ensures |b| == width && BeAt(b, 0, width) == n
  {
    if width == 1 then [n]
    else if width == 2 then BeBytes16(n)
    else BeBytes16(n / TWO16) + BeBytes16(n % TWO16)
  }

  /** The bytes before the payload or the items. */
  function Lead(w: Wire): (b: Bytes)
    requires ValidNode(w)
    ensures |b| >= 1
  {
    match w
    case Scalar(m, _) => [m]
    case Str(width, data) =>
      if width == 0 then [0xA0 + |data|]
      else [if width == 1 then 0xD9 else if width == 2 then 0xDA else 0xDB] + BeBytes(|data|, width)
    case Bin(width, data) =>
      [if width == 1 then 0xC4 else if width == 2 then 0xC5 else 0xC6] + BeBytes(|data|, width)
    case Ext(width, kind, data) =>
      [if width == 1 then 0xC7 else if width == 2 then 0xC8 else 0xC9] + BeBytes(|data|, width) + [kind]
    case Array(width, items) =>
      if width == 0 then [0x90 + |items|]
      else [if width == 2 then 0xDC else 0xDD] + BeBytes(|items|, width)
    case Map(width, items) =>
      if width == 0 then [0x80 + |items| / 2]
      else [if width == 2 then 0xDE else 0xDF] + BeBytes(|items| / 2, width)
  }

  function Encode(w: Wire): (b: Bytes)
    requires Valid(w)
    ensures |b| >= 1
    decreases w, 1
  {
    Lead(w) + if w.Array? || w.Map? then EncodeAll(w.items) else Payload(w)
  }

  function EncodeAll(ws: seq<Wire>): (b: Bytes)
    requires ValidAll(ws)
    ensures |b| >= |ws|
    decreases ws, 0
  {
    if ws == [] then [] else Encode(ws[0]) + EncodeAll(ws[1..])
  }

  /** `part` is written in `b` from `i` on. */
  predicate At(b: Bytes, i: nat, part: Bytes) {
    i + |part| <= |b| && b[i..i + |part|] == part
  }

  lemma AtSplit(b: Bytes, i: nat, p: Bytes, q: Bytes)
    ensures At(b, i, p + q) <==> At(b, i, p) && At(b, i + |p|, q)
  {
    if i + |p| + |q| <= |b| {
      var whole := b[i..i + |p + q|];
      assert whole[..|p|] == b[i..i + |p|] && whole[|p|..] == b[i + |p|..i + |p| + |q|];
      assert (p + q)[..|p|] == p && (p + q)[|p|..] == q;
      assert whole == whole[..|p|] + whole[|p|..];
    }
  }

  // ----- The reference decoder

  /** The childless value in b[i..j], given that its header ends it there. */
  function LeafOf(b: Bytes, i: nat, j: nat): Wire
    requires i <= |b| && IsBuffer(b) && Head(Standard, b, i) == Last(j)
  {
    var m := b[i];
    var w := LengthWidth(m);
    if FixedSize(m) >= 0 then Scalar(m, b[i + 1..j])
    else if 0xA0 <= m <= 0xBF then Str(0, b[i + 1..j])
    else if IsExt(m) then Ext(w, b[i + 1 + w], b[i + 2 + w..j])
    else if m >= 0xD9 then Str(w, b[i + 1 + w..j])
    else Bin(w, b[i + 1 + w..j])
  }

  /** The collection whose header is at i, given its items. */
  function GroupOf(b: Bytes, i: nat, items: seq<Wire>): Wire
    requires i < |b|
  {
    var m := b[i];
    if m <= 0x8F then Map(0, items)
    else if m <= 0x9F then Array(0, items)
    else if m == 0xDC then Array(2, items)
    else if m == 0xDD then Array(4, items)
    else if m == 0xDE then Map(2, items)
    else Map(4, items)
  }

  /** The value the specification puts at `i`, and where it ends. */
  function WireAt(b: Bytes, i: nat): (r: Read<Wire>)
    requires i <= |b| && IsBuffer(b)
    ensures r.Hit? ==> i < r.next <= |b|
    ensures !r.Wild?
    decreases |b| - i, 0, 0
  {
    match Head(Standard, b, i)
    case Last(j) => Hit(LeafOf(b, i, j), j)
    case Items(j, n) =>
      (match WireManyAt(b, j, n)
       case Hit(items, k) => Hit(GroupOf(b, i, items), k)
       case _ => Miss)
    case _ => Miss
  }

  function WireManyAt(b: Bytes, i: nat, n: nat): (r: Read<seq<Wire>>)
    requires i <= |b| && IsBuffer(b)
    ensures r.Hit? ==> i + n <= r.next <= |b| && |r.value| == n
    ensures !r.Wild?
    decreases |b| - i, 1, n
  {
    if n == 0 then Hit([], i)
    else
      match WireAt(b, i)
      case Hit(w, j) =>
        (match WireManyAt(b, j, n - 1)
         case Hit(ws, k) => Hit([w] + ws, k)
         case _ => Miss)
      case _ => Miss
  }

  lemma BeFromBytes(b: Bytes, i: nat, width: nat)
    requires width in {1, 2, 4} && i + width <= |b|
    ensures BeAt(b, i, width) < Pow256(width)
    ensures BeBytes(BeAt(b, i, width), width) == b[i..i + width]
  {
    var n := BeAt(b, i, width);
    if width == 4 {
      var q, r := Be16(b, i), Be16(b, i + 2);
      hide Be16;
      assert n == TWO16 * q + r;
      ByTwoBytes(q, r);
      FromBytes16(b, i);
      FromBytes16(b, i + 2);
      hide BeBytes16;
      assert b[i..i + 4] == b[i..i + 2] + b[i + 2..i + 4];
    } else if width == 2 {
      FromBytes16(b, i);
    }
  }

  lemma FromBytes16(b: Bytes, i: nat)
    requires i + 2 <= |b|
    ensures BeBytes16(Be16(b, i)) == b[i..i + 2]
  {
    By256(b[i], b[i + 1]);
  }

  /** A marker and a length field, read back. */
  lemma LengthField(b: Bytes, i: nat, m: Byte, n: nat, width: nat)
    requires width in {1, 2, 4} && n < Pow256(width) && At(b, i, [m] + BeBytes(n, width))
    ensures i + 1 + width <= |b| && b[i] == m && BeAt(b, i + 1, width) == n
  {
    var be := BeBytes(n, width);
    AtSplit(b, i, [m], be);
    var there := b[i + 1..i + 1 + width];
    assert b[i] == b[i..i + 1][0];
    assert b[i + 1] == there[0];
    if width >= 2 { assert b[i + 2] == there[1]; }
    if width == 4 { assert b[i + 3] == there[2] && b[i + 4] == there[3]; }
  }

  /** The lead of a value at `i`, read back: its marker and its length field. */
  lemma LeadFields(b: Bytes, i: nat, w: Wire)
    requires ValidNode(w) && At(b, i, Lead(w))
    ensures i < |b| && b[i] == Lead(w)[0]
    ensures !w.Scalar? && w.width > 0 ==>
              && i + 1 + w.width <= |b|
              && BeAt(b, i + 1, w.width) == FieldOf(w)
    ensures w.Ext? ==> i + 1 + w.width < |b| && b[i + 1 + w.width] == w.kind
  {
    hide BeAt, BeBytes;
    var lead := Lead(w);
    assert b[i] == b[i..i + |lead|][0];
    if !w.Scalar? && w.width > 0 {
      var field := [lead[0]] + BeBytes(FieldOf(w), w.width);
      var kind := if w.Ext? then [w.kind] else [];
      assert lead == field + kind;
      AtSplit(b, i, field, kind);
      LengthField(b, i, lead[0], FieldOf(w), w.width);
      if w.Ext? {
        assert b[i + 1 + w.width] == b[i + 1 + w.width..i + 2 + w.width][0];
      }
    }
  }

  /** The number in the length field. */
  function FieldOf(w: Wire): nat
    requires !w.Scalar?
  {
    if w.Map? then |w.items| / 2 else if w.Array? then |w.items| else |w.data|
  }

  /** What the header of an encoded collection says. */
  lemma HeadOfGroup(b: Bytes, i: nat, w: Wire)
    requires IsBuffer(b) && ValidNode(w) && At(b, i, Lead(w)) && (w.Array? || w.Map?)
    ensures Head(Standard, b, i) == Items(i + |Lead(w)|, |w.items|)
  {
    LeadFields(b, i, w);
    GroupMarker(w);
    hide BeBytes, At, SizedHead, Pow256, Be16, Be32, FixedSize, LengthWidth, Lead;
  }

  lemma GroupMarker(w: Wire)
    requires ValidNode(w) && (w.Array? || w.Map?)
    ensures var m := Lead(w)[0];
            && FixedSize(m) < 0 && LengthWidth(m) == 0 && !(0xA0 <= m <= 0xBF) && |Lead(w)| == 1 + w.width
            && (w.Array? ==> m == if w.width == 0 then 0x90 + |w.items| else if w.width == 2 then 0xDC else 0xDD)
            && (w.Map? ==> m == if w.width == 0 then 0x80 + |w.items| / 2 else if w.width == 2 then 0xDE else 0xDF)
  {
    hide BeBytes, Pow256;
  }

  /** What the header of an encoded childless value says. */
  lemma HeadOfLeaf(b: Bytes, i: nat, w: Wire)
    requires IsBuffer(b) && ValidNode(w) && At(b, i, Lead(w)) && !w.Array? && !w.Map?
    ensures var j := i + |Lead(w)| + |Payload(w)|;
            Head(Standard, b, i) == if j <= |b| then Last(j) else Bad
  {
    LeadFields(b, i, w);
    hide BeBytes, At, CountHead, Pow256, Advance, BeAt;
    if !w.Scalar? {
      assert FixedSize(b[i]) < 0;
      assert LengthWidth(b[i]) == w.width;
      hide FixedSize, LengthWidth;
    }
  }

  /** The bytes after the lead of a childless value. */
  function Payload(w: Wire): Bytes
    requires !w.Array? && !w.Map?
  {
    if w.Scalar? then w.payload else w.data
  }

  /** The decoder finds every encoding. */
  lemma {:induction false} DecodeEncoded(b: Bytes, i: nat, w: Wire)
    requires IsBuffer(b) && Valid(w) && At(b, i, Encode(w))
    ensures WireAt(b, i) == Hit(w, i + |Encode(w)|)
    decreases w, 1
  {
    hide Head, Lead, LeafOf, GroupOf, ValidNode, At;
    var lead := Lead(w);
    if w.Array? || w.Map? {
      AtSplit(b, i, lead, EncodeAll(w.items));
      HeadOfGroup(b, i, w);
      GroupOfLead(b, i, w, w.items);
      DecodeAllEncoded(b, i + |lead|, w.items);
    } else {
      AtSplit(b, i, lead, Payload(w));
      LeafOfLead(b, i, w);
    }
  }

  lemma GroupOfLead(b: Bytes, i: nat, w: Wire, items: seq<Wire>)
    requires ValidNode(w) && At(b, i, Lead(w)) && (w.Array? || w.Map?)
    ensures i < |b| && GroupOf(b, i, items) == w.(items := items)
  {
    hide BeBytes;
    assert b[i] == b[i..i + |Lead(w)|][0];
  }

  /** What the marker of a childless value says about it. */
  lemma LeafMarker(w: Wire)
    requires ValidNode(w) && !w.Array? && !w.Map?
    ensures var m := Lead(w)[0];
            && (w.Scalar? ==> m == w.marker && FixedSize(m) >= 0 && |Lead(w)| == 1)
            && (!w.Scalar? ==> FixedSize(m) < 0 && LengthWidth(m) == w.width)
            && (w.Str? ==> |Lead(w)| == 1 + w.width && !IsExt(m) && m >= 0xA0)
            && (w.Str? ==> if w.width == 0 then m <= 0xBF else 0xD9 <= m <= 0xDB)
            && (w.Bin? ==> |Lead(w)| == 1 + w.width && 0xC4 <= m <= 0xC6)
            && (w.Ext? ==> |Lead(w)| == 2 + w.width && IsExt(m))
  {
    hide BeBytes, Pow256;
  }

  lemma LeafOfLead(b: Bytes, i: nat, w: Wire)
    requires IsBuffer(b) && ValidNode(w) && !w.Array? && !w.Map?
    requires At(b, i, Lead(w)) && At(b, i + |Lead(w)|, Payload(w))
    ensures Head(Standard, b, i) == Last(i + |Lead(w)| + |Payload(w)|)
    ensures LeafOf(b, i, i + |Lead(w)| + |Payload(w)|) == w
  {
    HeadOfLeaf(b, i, w);
    LeadFields(b, i, w);
    LeafMarker(w);
    hide BeAt, BeBytes, Head, Lead, FixedSize, LengthWidth, ValidNode;
  }

  lemma {:induction false} DecodeAllEncoded(b: Bytes, i: nat, ws: seq<Wire>)
    requires i <= |b| && IsBuffer(b) && ValidAll(ws) && At(b, i, EncodeAll(ws))
    ensures WireManyAt(b, i, |ws|) == Hit(ws, i + |EncodeAll(ws)|)
    decreases ws, 0
  {
    hide Encode;
    if ws != [] {
      AtSplit(b, i, Encode(ws[0]), EncodeAll(ws[1..]));
      DecodeEncoded(b, i, ws[0]);
      DecodeAllEncoded(b, i + |Encode(ws[0])|, ws[1..]);
      assert ws == [ws[0]] + ws[1..];
    }
  }

  /** Everything the decoder returns is an encoding. */
  lemma {:induction false} EncodeDecoded(b: Bytes, i: nat)
    requires i <= |b| && IsBuffer(b) && WireAt(b, i).Hit?
    ensures Valid(WireAt(b, i).value)
    ensures b[i..WireAt(b, i).next] == Encode(WireAt(b, i).value)
    decreases |b| - i, 0, 0
  {
    hide Head, Lead, LeafOf, GroupOf, ValidNode;
    match Head(Standard, b, i)
    case Last(j) =>
      LeafEncodes(b, i, j);
    case Items(j, n) =>
      EncodeManyDecoded(b, j, n);
      var items, k := WireManyAt(b, j, n).value, WireManyAt(b, j, n).next;
      GroupEncodes(b, i, j, items);
      assert b[i..k] == b[i..j] + b[j..k];
  }

  lemma GroupEncodes(b: Bytes, i: nat, j: nat, items: seq<Wire>)
    requires i <= |b| && IsBuffer(b) && Head(Standard, b, i) == Items(j, |items|)
    ensures var w := GroupOf(b, i, items);
            ValidNode(w) && b[i..j] == Lead(w) && (w.Array? || w.Map?) && w.items == items
  {
    hide SizedHead, BeBytes;
    var w := GroupOf(b, i, items);
    assert 0x80 <= b[i] <= 0x9F || 0xDC <= b[i] <= 0xDF;
    assert w.width > 0 ==> i + 1 + w.width == j;
    assert FieldOf(w) == if w.width > 0 then BeAt(b, i + 1, w.width) else b[i] % 0x10;
    hide Head;
    if w.width > 0 {
      BeFromBytes(b, i + 1, w.width);
      assert b[i..j] == [b[i]] + b[i + 1..j];
    } else {
      assert b[i..j] == [b[i]];
    }
    hide BeAt, Be16, Be32, Pow256;
  }

  lemma LeafEncodes(b: Bytes, i: nat, j: nat)
    requires i <= |b| && IsBuffer(b) && Head(Standard, b, i) == Last(j)
    ensures var w := LeafOf(b, i, j);
            !w.Array? && !w.Map? && ValidNode(w) && b[i..j] == Lead(w) + Payload(w)
  {
    hide Advance, CountHead;
    if FixedSize(b[i]) >= 0 {
      assert b[i..j] == [b[i]] + b[i + 1..j];
    } else if 0xA0 <= b[i] <= 0xBF {
      assert b[i..j] == [b[i]] + b[i + 1..j];
    } else {
      SizedLeafEncodes(b, i, j);
    }
  }

  lemma SizedLeafEncodes(b: Bytes, i: nat, j: nat)
    requires i < |b| && IsBuffer(b) && FixedSize(b[i]) < 0 && !(0xA0 <= b[i] <= 0xBF)
    requires LengthWidth(b[i]) > 0 && SizedHead(Standard, b, i) == Last(j)
    ensures Head(Standard, b, i) == Last(j)
    ensures var w := LeafOf(b, i, j);
            !w.Array? && !w.Map? && ValidNode(w) && b[i..j] == Lead(w) + Payload(w)
  {
    var width := LengthWidth(b[i]);
    var n := BeAt(b, i + 1, width);
    BeFromBytes(b, i + 1, width);
    hide Advance, CountHead, BeAt, BeBytes;
    var w := LeafOf(b, i, j);
    assert |Payload(w)| == n < Pow256(width);
    hide FixedSize, Pow256;
    if IsExt(b[i]) {
      assert b[i..j] == [b[i]] + b[i + 1..i + 1 + width] + [b[i + 1 + width]] + b[i + 2 + width..j];
    } else {
      assert b[i..j] == [b[i]] + b[i + 1..i + 1 + width] + b[i + 1 + width..j];
    }
  }

  lemma {:induction false} EncodeManyDecoded(b: Bytes, i: nat, n: nat)
    requires i <= |b| && IsBuffer(b) && WireManyAt(b, i, n).Hit?
    ensures ValidAll(WireManyAt(b, i, n).value)
    ensures b[i..WireManyAt(b, i, n).next] == EncodeAll(WireManyAt(b, i, n).value)
    decreases |b| - i, 1, n
  {
    hide Head, Valid, Encode;
    if n > 0 {
      var j := WireAt(b, i).next;
      EncodeDecoded(b, i);
      EncodeManyDecoded(b, j, n - 1);
      var ws, k := WireManyAt(b, i, n).value, WireManyAt(b, i, n).next;
      assert ws[1..] == WireManyAt(b, j, n - 1).value;
      assert b[i..k] == b[i..j] + b[j..k];
    }
  }

  /** The decoder and the encoder are inverse, and so at most one value starts at a place. */
  lemma DecodeIffEncode(b: Bytes, i: nat, w: Wire, j: nat)
    requires i <= |b| && IsBuffer(b)
    ensures WireAt(b, i) == Hit(w, j) <==> Valid(w) && i <= j <= |b| && b[i..j] == Encode(w)
  {
    if WireAt(b, i) == Hit(w, j) {
      EncodeDecoded(b, i);
    }
    if Valid(w) && i <= j <= |b| && b[i..j] == Encode(w) {
      DecodeEncoded(b, i, w);
    }
  }

  // ----- The skipper against the decoder

  /** Both readings of the header at `i` agree. */
  predicate StraightHead(b: Bytes, i: nat)
    requires i <= |b| && IsBuffer(b)
  {
    Head(AsCoded, b, i) == Head(Standard, b, i)
  }

  /** Exactly which headers the skipper misreads, in terms of the bytes it looks at: an ext
      length is taken one byte late, an array 32 or map 32 count loses its low half, and a
      32-bit length from 2^31 up wraps. */
  lemma StraightHeadExactly(b: Bytes, i: nat)
    requires i < |b| && IsBuffer(b)
    ensures StraightHead(b, i) <==>
            (var m, w, left := b[i], LengthWidth(b[i]), |b| - i - 1;
             if m == 0xDD || m == 0xDF then left < 4 || Be16(b, i + 3) == 0
             else if IsExt(m) then
               left < w + 1
               || BeAt(b, i + 1, w) == BeAt(b, i + 2, w) < TWO31
               || (left - 1 - w < BeAt(b, i + 1, w) && Overruns(left - 1, w, BeAt(b, i + 2, w)))
             else if w == 4 then
               left < 4 || BeAt(b, i + 1, 4) < TWO31 || Overruns(left, 4, BeAt(b, i + 1, 4))
             else true)
  {
    if IsExt(b[i]) {
      StraightExt(b, i);
    } else if LengthWidth(b[i]) > 0 {
      StraightBlob(b, i);
    } else {
      hide SizedHead;
    }
  }

  lemma StraightExt(b: Bytes, i: nat)
    requires i < |b| && IsBuffer(b) && IsExt(b[i])
    ensures var w, left := LengthWidth(b[i]), |b| - i - 1;
            StraightHead(b, i) <==>
            left < w + 1
            || BeAt(b, i + 1, w) == BeAt(b, i + 2, w) < TWO31
            || (left - 1 - w < BeAt(b, i + 1, w) && Overruns(left - 1, w, BeAt(b, i + 2, w)))
  {
    hide Overruns, BeAt;
    var w := LengthWidth(b[i]);
    assert w > 0 && FixedSize(b[i]) < 0;
    if i + 2 + w <= |b| {
      var n, t := BeAt(b, i + 1, w), BeAt(b, i + 2, w);
      AdvanceExactly(b, i + 2, w, t);
      hide Advance;
      assert Head(AsCoded, b, i) == Advance(b, i + 2, w + t);
      assert Head(Standard, b, i) == if i + 2 + w + n > |b| then Bad else Last(i + 2 + w + n);
      hide Head, LengthWidth, FixedSize;
    }
  }

  lemma StraightBlob(b: Bytes, i: nat)
    requires i < |b| && IsBuffer(b) && LengthWidth(b[i]) > 0 && !IsExt(b[i])
    ensures var w, left := LengthWidth(b[i]), |b| - i - 1;
            StraightHead(b, i) <==>
            w < 4 || left < 4 || BeAt(b, i + 1, 4) < TWO31 || Overruns(left, 4, BeAt(b, i + 1, 4))
  {
    var w := LengthWidth(b[i]);
    if i + 1 + w <= |b| {
      AdvanceExactly(b, i + 1, w, BeAt(b, i + 1, w));
      assert w < 4 ==> BeAt(b, i + 1, w) < TWO31;
    }
    hide Advance, CountHead, Overruns, BeAt;
  }

  /** The C arithmetic on a length field `n` of `w` bytes at `j`. */
  lemma AdvanceExactly(b: Bytes, j: nat, w: nat, n: nat)
    requires IsBuffer(b) && j + w <= |b| && w <= 4 && n < TWO32
    ensures Advance(b, j, w + n) == Bad <==> Overruns(|b| - j, w, n)
    ensures Advance(b, j, w + n) == Last(j + w + n) <==> j + w + n <= |b|
    ensures Advance(b, j, w + n).Last? ==> j + w + n <= |b| || Advance(b, j, w + n).next < j + w
    ensures n < TWO31 && j + w + n > |b| ==> Overruns(|b| - j, w, n)
    ensures n >= TWO31 ==> j + w + n > |b|
  {
  }

  /** A length field of `w` bytes that the C arithmetic correctly finds to exceed `left`. */
  predicate Overruns(left: int, w: nat, n: nat) {
    left < (w + n) % TWO32 <= left + TWO31
  }
}
