/** The MessagePack readers of src/utils/msgpack.c, exactly as they are coded.

    A buffer is a byte sequence and a cursor is an index into it, so `*plen` is always
    the number of bytes from the cursor to the end.  Each reader is a method that moves
    local copies of the cursor and the length as the C code does, proved against a
    function of the same buffer; the theorems are about the functions. */
module MsgPack {

  type Byte = x: int | 0 <= x < 0x100
  type Bytes = seq<Byte>

  const TWO16 := 0x1_0000
  const TWO31 := 0x8000_0000
  const TWO32 := 0x1_0000_0000

  /** What a reader did: nothing, a value and the cursor after it, or -- `Wild` -- it
      claimed success with a cursor that is not a position ahead of it in the buffer. */
  datatype Read<+T> = Miss | Hit(value: T, next: nat) | Wild

  /** A buffer whose length is a C `int`. */
  predicate IsBuffer(b: Bytes) {
    |b| < TWO31
  }

  // ----- Machine arithmetic

  function Be16(b: Bytes, i: nat): (n: nat)
    requires i + 2 <= |b|
    ensures n < TWO16
  {
    0x100 * (b[i] as int) + b[i + 1]
  }

  function Be32(b: Bytes, i: nat): (n: nat)
    requires i + 4 <= |b|
    ensures n < TWO32
  {
    Be16(b, i) * TWO16 + Be16(b, i + 2)
  }

  lemma By256(q: nat, r: nat)
    requires r < 0x100
    ensures (0x100 * q + r) / 0x100 == q && (0x100 * q + r) % 0x100 == r
  {
  }

  lemma ByTwoBytes(q: nat, r: nat)
    requires r < TWO16
    ensures (TWO16 * q + r) / TWO16 == q
  {
  }

  lemma ByThreeBytes(q: nat, r: nat)
    requires r < 0x100_0000
    ensures (0x100_0000 * q + r) / 0x100_0000 == q
  {
  }

  /** The 32-bit two's complement reading of an integer. */
  function AsInt32(n: int): (r: int)
    ensures -TWO31 <= r < TWO31 && (n - r) % TWO32 == 0
  {
    var u := n % TWO32;
    if u < TWO31 then u else u - TWO32
  }

  function AsInt16(n: nat): int
    requires n < TWO16
  {
    if n < 0x8000 then n else n - TWO16
  }

  function AsInt8(n: Byte): int {
    if n < 0x80 then n else n - 0x100
  }

  /** `be32toh` applied to a 16-bit load on a little-endian machine: the two loaded
      bytes become the high half of the count and the low half is zero. */
  function Be32OfHalf(b: Bytes, i: nat): (n: nat)
    requires i + 2 <= |b|
    ensures n < TWO32 && n % TWO16 == 0
  {
    Be16(b, i) * TWO16
  }

  // ----- What the four value readers return

  function IntAt(b: Bytes, i: nat): (r: Read<int>)
    requires i <= |b|
    ensures r.Hit? ==> i < r.next <= |b|
  {
    if i == |b| then Miss
    else
      var m, left := b[i], |b| - i - 1;
      if m < 0x80 then Hit(m, i + 1)
      else if m >= 0xE0 then Hit(AsInt8(m), i + 1)
      else if m == 0xCC && left >= 1 then Hit(b[i + 1], i + 2)
      else if m == 0xCD && left >= 2 then Hit(Be16(b, i + 1), i + 3)
      else if m == 0xCE && left >= 4 then Hit(AsInt32(Be32(b, i + 1)), i + 5)
      else if m == 0xD0 && left >= 1 then Hit(AsInt8(b[i + 1]), i + 2)
      else if m == 0xD1 && left >= 2 then Hit(AsInt16(Be16(b, i + 1)), i + 3)
      else if m == 0xD2 && left >= 4 then Hit(AsInt32(Be32(b, i + 1)), i + 5)
      else Miss
  }

  /** Where the characters of a string start and how many the header announces. */
  function StringHead(b: Bytes, i: nat): (r: Read<int>)
    requires i <= |b|
    ensures r.Hit? ==> i < r.next <= |b|
  {
    if i == |b| then Miss
    else
      var m, left := b[i], |b| - i - 1;
      if 0xA0 <= m <= 0xBF then Hit(m - 0xA0, i + 1)
      else if m == 0xD9 && left >= 1 then Hit(b[i + 1], i + 2)
      else if m == 0xDA && left >= 2 then Hit(Be16(b, i + 1), i + 3)
      else if m == 0xDB && left >= 4 then Hit(AsInt32(Be32(b, i + 1)), i + 5)
      else Miss
  }

  function StringAt(b: Bytes, i: nat): (r: Read<Bytes>)
    requires i <= |b|
    ensures r.Hit? ==> i < r.next <= |b| && |r.value| < r.next - i
  {
    match StringHead(b, i)
    case Hit(n, j) =>
      if |b| - j < n then Miss
      else if n < 0 then Wild
      else Hit(b[j..j + n], j + n)
    case _ => Miss
  }

  function ArrayAt(b: Bytes, i: nat): (r: Read<int>)
    requires i <= |b|
    ensures r.Hit? ==> i < r.next <= |b|
  {
    CountAt(b, i, 0x90, 0xDC)
  }

  function MapAt(b: Bytes, i: nat): (r: Read<int>)
    requires i <= |b|
    ensures r.Hit? ==> i < r.next <= |b|
  {
    CountAt(b, i, 0x80, 0xDE)
  }

  /** The shared shape of the array and mapping headers: a family of short markers, one
      marker with a 16-bit count and the next one with a 32-bit count. */
  function CountAt(b: Bytes, i: nat, short: int, wide: int): (r: Read<int>)
    requires i <= |b|
    ensures r.Hit? ==> i < r.next <= |b|
  {
    if i == |b| then Miss
    else
      var m, left := b[i], |b| - i - 1;
      if short <= m < short + 16 then Hit(m - short, i + 1)
      else if m == wide && left >= 2 then Hit(Be16(b, i + 1), i + 3)
      else if m == wide + 1 && left >= 4 then Hit(AsInt32(Be32(b, i + 1)), i + 5)
      else Miss
  }

  // ----- The readers

  method ParseInt(b: Bytes, pos: nat) returns (r: Read<int>)
    requires pos <= |b|
    ensures r == IntAt(b, pos)
  {
    var buf, len := pos, |b| - pos;
    if len < 1 { return Miss; }
    var marker := b[buf];
    buf, len := buf + 1, len - 1;
    var result: int;
    if marker < 0x80 {
      result := marker;
    } else if marker >= 0xE0 {
      result := AsInt8(marker);
    } else {
      match marker {
        case 0xCC =>
          if len < 1 { return Miss; }
          result, buf, len := b[buf], buf + 1, len - 1;
        case 0xCD =>
          if len < 2 { return Miss; }
          result, buf, len := Be16(b, buf), buf + 2, len - 2;
        case 0xCE =>
          if len < 4 { return Miss; }
          result, buf, len := AsInt32(Be32(b, buf)), buf + 4, len - 4;
        case 0xD0 =>
          if len < 1 { return Miss; }
          result, buf, len := AsInt8(b[buf]), buf + 1, len - 1;
        case 0xD1 =>
          if len < 2 { return Miss; }
          result, buf, len := AsInt16(Be16(b, buf)), buf + 2, len - 2;
        case 0xD2 =>
          if len < 4 { return Miss; }
          result, buf, len := AsInt32(Be32(b, buf)), buf + 4, len - 4;
        case _ =>
          return Miss;
      }
    }
    return Hit(result, buf);
  }

  method ParseString(b: Bytes, pos: nat) returns (r: Read<Bytes>)
    requires pos <= |b|
    ensures r == StringAt(b, pos)
  {
    var buf, len := pos, |b| - pos;
    if len < 1 { return Miss; }
    var marker := b[buf];
    buf, len := buf + 1, len - 1;
    var strlen: int;
    if 0xA0 <= marker <= 0xBF {
      strlen := marker - 0xA0;
    } else {
      match marker {
        case 0xD9 =>
          if len < 1 { return Miss; }
          strlen, buf, len := b[buf], buf + 1, len - 1;
        case 0xDA =>
          if len < 2 { return Miss; }
          strlen, buf, len := Be16(b, buf), buf + 2, len - 2;
        case 0xDB =>
          if len < 4 { return Miss; }
          strlen, buf, len := AsInt32(Be32(b, buf)), buf + 4, len - 4;
        case _ =>
          return Miss;
      }
    }
    if len < strlen { return Miss; }
    if strlen < 0 { return Wild; }
    return Hit(b[buf..buf + strlen], buf + strlen);
  }

  method ParseArray(b: Bytes, pos: nat) returns (r: Read<int>)
    requires pos <= |b|
    ensures r == ArrayAt(b, pos)
  {
    var buf, len := pos, |b| - pos;
    if len < 1 { return Miss; }
    var marker := b[buf];
    buf, len := buf + 1, len - 1;
    var arrlen: int;
    if 0x90 <= marker <= 0x9F {
      arrlen := marker - 0x90;
    } else {
      match marker {
        case 0xDC =>
          if len < 2 { return Miss; }
          arrlen, buf, len := Be16(b, buf), buf + 2, len - 2;
        case 0xDD =>
          if len < 4 { return Miss; }
          arrlen, buf, len := AsInt32(Be32(b, buf)), buf + 4, len - 4;
        case _ =>
          return Miss;
      }
    }
    return Hit(arrlen, buf);
  }

  method ParseMapping(b: Bytes, pos: nat) returns (r: Read<int>)
    requires pos <= |b|
    ensures r == MapAt(b, pos)
  {
    var buf, len := pos, |b| - pos;
    if len < 1 { return Miss; }
    var marker := b[buf];
    buf, len := buf + 1, len - 1;
    var maplen: int;
    if 0x80 <= marker <= 0x8F {
      maplen := marker - 0x80;
    } else {
      match marker {
        case 0xDE =>
          if len < 2 { return Miss; }
          maplen, buf, len := Be16(b, buf), buf + 2, len - 2;
        case 0xDF =>
          if len < 4 { return Miss; }
          maplen, buf, len := AsInt32(Be32(b, buf)), buf + 4, len - 4;
        case _ =>
          return Miss;
      }
    }
    return Hit(maplen, buf);
  }

  // ----- Skipping

  /** What a skip did: nothing, moved the cursor to `next`, or claimed success with a cursor
      outside the buffer. */
  datatype Skipped = Refused | Past(next: nat) | Lost

  /** Two readings of a header: the MessagePack specification's, and the one the skipper is
      coded with. */
  datatype Reading = Standard | AsCoded

  /** A header is unusable, sends the cursor astray, ends the value, or announces `count`
      values to follow. */
  datatype Header = Bad | Astray | Last(next: nat) | Items(next: nat, count: nat)

  /** Payload size of the markers whose size does not depend on further bytes. */
  function FixedSize(m: Byte): (n: int)
    ensures -1 <= n <= 17
  {
    match m
    case 0xC0 => 0 case 0xC2 => 0 case 0xC3 => 0
    case 0xCA => 4 case 0xCB => 8
    case 0xCC => 1 case 0xCD => 2 case 0xCE => 4 case 0xCF => 8
    case 0xD0 => 1 case 0xD1 => 2 case 0xD2 => 4 case 0xD3 => 8
    case 0xD4 => 2 case 0xD5 => 3 case 0xD6 => 5 case 0xD7 => 9 case 0xD8 => 17
    case _ => if m < 0x80 || m >= 0xE0 then 0 else -1
  }

  /** Bytes in the length field of a str, bin or ext marker of the sized families. */
  function LengthWidth(m: Byte): (w: nat)
    ensures w == 0 || w == 1 || w == 2 || w == 4
  {
    match m
    case 0xC4 => 1 case 0xD9 => 1 case 0xC7 => 1
    case 0xC5 => 2 case 0xDA => 2 case 0xC8 => 2
    case 0xC6 => 4 case 0xDB => 4 case 0xC9 => 4
    case _ => 0
  }

  predicate IsExt(m: Byte) {
    0xC7 <= m <= 0xC9
  }

  function BeAt(b: Bytes, i: nat, width: nat): (n: nat)
    requires (width == 1 || width == 2 || width == 4) && i + width <= |b|
    ensures n < TWO32
  {
    if width == 1 then b[i] else if width == 2 then Be16(b, i) else Be32(b, i)
  }

  /** `len -= n; buf += n` on a length that is a C `int` and an `n` that is unsigned. */
  function Advance(b: Bytes, j: nat, n: nat): (h: Header)
    requires j <= |b| && IsBuffer(b)
    ensures h.Last? ==> h.next == j + n % TWO32 <= |b|
    ensures !h.Items?
  {
    var u := n % TWO32;
    if AsInt32(|b| - j - u) < 0 then Bad
    else if j + u <= |b| then Last(j + u)
    else Astray
  }

  /** The header of a str, bin or ext value with a length field. */
  function SizedHead(rd: Reading, b: Bytes, i: nat): (h: Header)
    requires i < |b| && IsBuffer(b) && LengthWidth(b[i]) > 0
    ensures h.Last? ==> i < h.next <= |b|
    ensures !h.Items?
  {
    var w := LengthWidth(b[i]);
    var t := if IsExt(b[i]) then 1 else 0;
    match rd
    case Standard =>
      if i + 1 + w + t > |b| then Bad
      else if i + 1 + w + t + BeAt(b, i + 1, w) > |b| then Bad
      else Last(i + 1 + w + t + BeAt(b, i + 1, w))
    case AsCoded =>
      if i + 1 + t + w > |b| then Bad
      else Advance(b, i + 1 + t, w + BeAt(b, i + 1 + t, w))
  }

  /** The header of an array or map; a map of n pairs announces 2 * n values. */
  function CountHead(rd: Reading, b: Bytes, i: nat): (h: Header)
    requires i < |b|
    ensures h.Items? ==> i < h.next <= |b|
    ensures h.Items? || h == Bad
  {
    var m := b[i];
    if 0x80 <= m <= 0x8F then Items(i + 1, 2 * (m - 0x80))
    else if 0x90 <= m <= 0x9F then Items(i + 1, m - 0x90)
    else
      var per := if m >= 0xDE then 2 else 1;
      if m == 0xDC || m == 0xDE then
        if i + 3 > |b| then Bad else Items(i + 3, per * Be16(b, i + 1))
      else if m == 0xDD || m == 0xDF then
        if i + 5 > |b| then Bad
        else Items(i + 5, per * (if rd == Standard then Be32(b, i + 1) else Be32OfHalf(b, i + 1)))
      else Bad
  }

  function Head(rd: Reading, b: Bytes, i: nat): (h: Header)
    requires i <= |b| && IsBuffer(b)
    ensures h.Last? || h.Items? ==> i < h.next <= |b|
  {
    if i == |b| then Bad
    else if FixedSize(b[i]) >= 0 then
      if i + 1 + FixedSize(b[i]) > |b| then Bad else Last(i + 1 + FixedSize(b[i]))
    else if 0xA0 <= b[i] <= 0xBF then
      if i + 1 + (b[i] - 0xA0) > |b| then Bad else Last(i + 1 + (b[i] - 0xA0))
    else if LengthWidth(b[i]) > 0 then SizedHead(rd, b, i)
    else CountHead(rd, b, i)
  }

  /** Where `nc_mp_skip_value` leaves the cursor. */
  function SkipAt(b: Bytes, i: nat): (r: Skipped)
    requires i <= |b| && IsBuffer(b)
    ensures r.Past? ==> i < r.next <= |b|
    decreases |b| - i, 0, 0
  {
    match Head(AsCoded, b, i)
    case Bad => Refused
    case Astray => Lost
    case Last(j) => Past(j)
    case Items(j, n) => SkipManyAt(b, j, n)
  }

  /** `n` skips in a row. */
  function SkipManyAt(b: Bytes, i: nat, n: nat): (r: Skipped)
    requires i <= |b| && IsBuffer(b)
    ensures r.Past? ==> i + n <= r.next <= |b|
    decreases |b| - i, 1, n
  {
    if n == 0 then Past(i)
    else
      var first := SkipAt(b, i);
      if first.Past? then SkipManyAt(b, first.next, n - 1) else first
  }

  lemma SkipNone(b: Bytes, i: nat)
    requires i <= |b| && IsBuffer(b)
    ensures SkipManyAt(b, i, 0) == Past(i)
  {
  }

  lemma {:induction false} SkipManyStep(b: Bytes, i: nat, n: nat)
    requires i <= |b| && IsBuffer(b) && SkipManyAt(b, i, n).Past?
    ensures SkipManyAt(b, i, n + 1) == SkipAt(b, SkipManyAt(b, i, n).next)
    decreases n
  {
    if n > 0 {
      SkipManyStep(b, SkipAt(b, i).next, n - 1);
    }
  }

  lemma {:induction false} SkipManyStops(b: Bytes, i: nat, n: nat, m: nat)
    requires i <= |b| && IsBuffer(b) && n <= m && !SkipManyAt(b, i, n).Past?
    ensures SkipManyAt(b, i, m) == SkipManyAt(b, i, n)
    decreases n
  {
    if SkipAt(b, i).Past? {
      SkipManyStops(b, SkipAt(b, i).next, n - 1, m - 1);
    }
  }

  /** The recursive skipper.  `calls` counts it and all its nested calls, `depth` how deep
      they nest: both are bounded by the bytes at hand although a header can announce more
      than four thousand million values. */
  method SkipValue(b: Bytes, pos: nat) returns (r: Skipped, ghost calls: nat, ghost depth: nat)
    requires pos <= |b| && IsBuffer(b)
    ensures r == SkipAt(b, pos)
    ensures r.Past? ==> pos < r.next <= |b| && calls <= r.next - pos
    ensures calls <= |b| - pos + 1
    ensures 1 <= depth <= calls
    decreases |b| - pos, 1
  {
    hide SkipManyAt, SizedHead, Be16, Be32OfHalf;
    calls, depth := 1, 1;
    var buf, len := pos, |b| - pos;
    if len < 1 { return Refused, calls, depth; }
    var marker := b[buf];
    buf, len := buf + 1, len - 1;

    if marker < 0x80 || marker >= 0xE0 {
      // the marker byte is the value
    } else if marker <= 0x8F {
      r, calls, depth := SkipPairs(b, buf, marker - 0x80);
      return r, calls + 1, depth + 1;
    } else if marker <= 0x9F {
      r, calls, depth := SkipItems(b, buf, marker - 0x90);
      return r, calls + 1, depth + 1;
    } else if marker <= 0xBF {
      if len < marker - 0xA0 { return Refused, calls, depth; }
      len, buf := len - (marker - 0xA0), buf + (marker - 0xA0);
    } else if marker == 0xC0 || marker == 0xC2 || marker == 0xC3 {
      // nil, false, true
    } else if LengthWidth(marker) > 0 {
      r := SkipSized(b, pos);
      return;
    } else if FixedSize(marker) > 0 {
      len, buf := len - FixedSize(marker), buf + FixedSize(marker);
    } else {
      match marker {
        case 0xDC =>
          if len < 2 { return Refused, calls, depth; }
          r, calls, depth := SkipItems(b, buf + 2, Be16(b, buf));
          return r, calls + 1, depth + 1;
        case 0xDD =>
          if len < 4 { return Refused, calls, depth; }
          r, calls, depth := SkipItems(b, buf + 4, Be32OfHalf(b, buf));
          return r, calls + 1, depth + 1;
        case 0xDE =>
          if len < 2 { return Refused, calls, depth; }
          r, calls, depth := SkipPairs(b, buf + 2, Be16(b, buf));
          return r, calls + 1, depth + 1;
        case 0xDF =>
          if len < 4 { return Refused, calls, depth; }
          r, calls, depth := SkipPairs(b, buf + 4, Be32OfHalf(b, buf));
          return r, calls + 1, depth + 1;
        case _ =>
          return Refused, calls, depth;
      }
    }
    if len < 0 { return Refused, calls, depth; }
    return Past(buf), calls, depth;
  }

  /** The str, bin and ext branches with a length field. */
  method SkipSized(b: Bytes, pos: nat) returns (r: Skipped)
    requires pos < |b| && IsBuffer(b) && LengthWidth(b[pos]) > 0
    ensures r == match SizedHead(AsCoded, b, pos)
                 case Bad => Refused
                 case Last(j) => Past(j)
                 case _ => Lost
  {
    var marker, buf, len := b[pos], pos + 1, |b| - pos - 1;
    if IsExt(marker) {
      len, buf := len - 1, buf + 1;  // meant to step over the type byte
    }
    var w := LengthWidth(marker);
    if len < w { return Refused; }
    var n := (w + BeAt(b, buf, w)) % TWO32;
    len, buf := AsInt32(len - n), buf + n;
    if len < 0 { return Refused; }
    if buf > |b| { return Lost; }
    return Past(buf);
  }

  /** The element loop of the array branches. */
  method SkipItems(b: Bytes, pos: nat, count: nat) returns (r: Skipped, ghost calls: nat, ghost depth: nat)
    requires pos <= |b| && IsBuffer(b)
    ensures r == SkipManyAt(b, pos, count)
    ensures r.Past? ==> pos <= r.next <= |b| && calls <= r.next - pos
    ensures calls <= |b| - pos + 1
    ensures depth <= calls
    decreases |b| - pos, 2
  {
    hide SkipAt, SkipManyAt;
    assert SkipManyAt(b, pos, 0) == Past(pos) by { SkipNone(b, pos); }
    var buf, i := pos, 0;
    calls, depth := 0, 0;
    while i < count
      invariant i <= count && pos + i <= buf <= |b|
      invariant SkipManyAt(b, pos, i) == Past(buf)
      invariant calls <= buf - pos && depth <= calls
    {
      var item, c, d := SkipValue(b, buf);
      calls, depth := calls + c, if d > depth then d else depth;
      SkipManyStep(b, pos, i);
      if !item.Past? {
        SkipManyStops(b, pos, i + 1, count);
        return item, calls, depth;
      }
      buf, i := item.next, i + 1;
    }
    r := Past(buf);
  }

  /** The key and value loop of the map branches. */
  method SkipPairs(b: Bytes, pos: nat, count: nat) returns (r: Skipped, ghost calls: nat, ghost depth: nat)
    requires pos <= |b| && IsBuffer(b)
    ensures r == SkipManyAt(b, pos, 2 * count)
    ensures r.Past? ==> pos <= r.next <= |b| && calls <= r.next - pos
    ensures calls <= |b| - pos + 1
    ensures depth <= calls
    decreases |b| - pos, 2
  {
    hide SkipAt, SkipManyAt;
    assert SkipManyAt(b, pos, 0) == Past(pos) by { SkipNone(b, pos); }
    var buf, i := pos, 0;
    calls, depth := 0, 0;
    while i < count
      invariant i <= count && pos + 2 * i <= buf <= |b|
      invariant SkipManyAt(b, pos, 2 * i) == Past(buf)
      invariant calls <= buf - pos && depth <= calls
    {
      var key, c, d := SkipValue(b, buf);
      calls, depth := calls + c, if d > depth then d else depth;
      SkipManyStep(b, pos, 2 * i);
      if !key.Past? {
        SkipManyStops(b, pos, 2 * i + 1, 2 * count);
        return key, calls, depth;
      }
      buf := key.next;
      var value, c', d' := SkipValue(b, buf);
      calls, depth := calls + c', if d' > depth then d' else depth;
      SkipManyStep(b, pos, 2 * i + 1);
      if !value.Past? {
        SkipManyStops(b, pos, 2 * i + 2, 2 * count);
        return value, calls, depth;
      }
      buf, i := value.next, i + 1;
    }
    r := Past(buf);
  }
}
