/** `nn_print_message` of tools/nanocat.c: how received messages are written out, and what can be
    made of the output.  `char` is signed, so a byte from 0x80 on is printed by `%02x` as the
    eight digits of a negative int. */
module Echo {
  import opened MsgPack
  import opened Wire
  import opened Skipping

  const QUOTE: Byte := 0x22
  const BACKSLASH: Byte := 0x5C
  const NEWLINE: Byte := 0x0A
  const RETURN: Byte := 0x0D

  predicate Printable(c: Byte) {
    0x20 <= c <= 0x7E
  }

  /** A hexadecimal digit. */
  function Digit(n: nat): (c: Byte)
    requires n < 16
    ensures c != NEWLINE && c != QUOTE && c != BACKSLASH
  {
    if n < 10 then 0x30 + n else 0x61 + n - 10
  }

  function DigitValue(c: Byte): int {
    if 0x30 <= c <= 0x39 then c - 0x30 else if 0x61 <= c <= 0x66 then c - 0x61 + 10 else -1
  }

  /** `%02x` of a signed char. */
  function Hex(c: Byte): Bytes {
    var last := [Digit(c / 16), Digit(c % 16)];
    if c < 0x80 then last else [0x66, 0x66, 0x66, 0x66, 0x66, 0x66] + last
  }

  /** One character of a quoted message. */
  function Escape(c: Byte): (r: Bytes)
    ensures r != [] && r[0] != QUOTE
  {
    if c == NEWLINE then [BACKSLASH, 0x6E]
    else if c == RETURN then [BACKSLASH, 0x72]
    else if c == BACKSLASH || c == QUOTE then [BACKSLASH, c]
    else if Printable(c) then [c]
    else [BACKSLASH, 0x78] + Hex(c)
  }

  function Escapes(m: Bytes): Bytes {
    if m == [] then [] else Escape(m[0]) + Escapes(m[1..])
  }

  function Quoted(m: Bytes): Bytes {
    [QUOTE] + Escapes(m) + [QUOTE, NEWLINE]
  }

  function Ascii(m: Bytes): (r: Bytes)
    ensures |r| == |m| + 1
  {
    seq(|m|, k requires 0 <= k < |m| => if Printable(m[k]) then m[k] else 0x2E) + [NEWLINE]
  }

  /** A message as a MessagePack bin with the shortest length field. */
  function Frame(m: Bytes): Bytes
    requires IsBuffer(m)
  {
    Encode(Bin(if |m| < 0x100 then 1 else if |m| < TWO16 then 2 else 4, m))
  }

  datatype Format = Silent | Raw | AsciiOnly | InQuotes | Framed

  /** What is written for a message. */
  function Output(f: Format, m: Bytes): Bytes
    requires IsBuffer(m)
  {
    match f
    case Silent => []
    case Raw => m
    case AsciiOnly => Ascii(m)
    case InQuotes => Quoted(m)
    case Framed => Frame(m)
  }

  /** `nn_print_message` */
  method PrintMessage(f: Format, message: Bytes) returns (out: Bytes)
    requires IsBuffer(message)
    ensures out == Output(f, message)
  {
    match f {
      case Silent => out := [];
      case Raw => out := message;
      case AsciiOnly => out := PrintAscii(message);
      case InQuotes => out := PrintQuoted(message);
      case Framed => out := PrintFrame(message);
    }
  }

  method PrintAscii(message: Bytes) returns (out: Bytes)
    ensures out == Ascii(message)
  {
    out := [];
    var buf: nat, buflen: nat := 0, |message|;
    while buflen > 0
      invariant buf + buflen == |message| == |message| && |out| == buf
      invariant forall k :: 0 <= k < buf ==> out[k] == Ascii(message)[k]
    {
      out := out + [if Printable(message[buf]) then message[buf] else 0x2E];
      buflen, buf := buflen - 1, buf + 1;
    }
    out := out + [NEWLINE];
  }

  method PrintQuoted(message: Bytes) returns (out: Bytes)
    ensures out == Quoted(message)
  {
    hide Escape;
    out := [QUOTE];
    var buf: nat, buflen: nat := 0, |message|;
    while buflen > 0
      invariant buf + buflen == |message|
      invariant out + Escapes(message[buf..]) == [QUOTE] + Escapes(message)
    {
      assert message[buf..][1..] == message[buf + 1..];
      out := out + Escape(message[buf]);
      buflen, buf := buflen - 1, buf + 1;
    }
    assert message[buf..] == [] && out + [] == out;
    out := out + [QUOTE, NEWLINE];
  }

  method PrintFrame(message: Bytes) returns (out: Bytes)
    requires IsBuffer(message)
    ensures out == Frame(message)
  {
    var buflen := |message|;
    FrameLead(message);
    hide Frame;
    if buflen < 0x100 {
      out := [0xC4, buflen] + message;
    } else if buflen < TWO16 {
      out := [0xC5, buflen / 0x100, buflen % 0x100] + message;
    } else {
      out := [0xC6, buflen / 0x100_0000, buflen / TWO16 % 0x100, buflen / 0x100 % 0x100, buflen % 0x100] + message;
    }
  }

  /** The bytes of a frame before the message. */
  lemma FrameLead(m: Bytes)
    requires IsBuffer(m)
    ensures var n := |m|;
            Frame(m) == (if n < 0x100 then [0xC4, n]
                         else if n < TWO16 then [0xC5, n / 0x100, n % 0x100]
                         else [0xC6, n / 0x100_0000, n / TWO16 % 0x100, n / 0x100 % 0x100, n % 0x100]) + m
  {
    FourBytes(|m|);
  }

  lemma FourBytes(n: nat)
    requires n < TWO32
    ensures BeBytes(n, 4) == [n / 0x100_0000, n / TWO16 % 0x100, n / 0x100 % 0x100, n % 0x100]
  {
    var q, r := n / TWO16, n % TWO16;
    Divides(q, r);
    assert n == TWO16 * q + r;
  }

  lemma Divides(q: nat, r: nat)
    requires r < TWO16
    ensures var n := TWO16 * q + r;
            n / 0x100_0000 == q / 0x100 && n / 0x100 % 0x100 == r / 0x100 && n % 0x100 == r % 0x100
  {
    var a, c, d, e := q / 0x100, q % 0x100, r / 0x100, r % 0x100;
    By256(0x100 * q + d, e);
    By256(q, d);
    ByThreeBytes(a, TWO16 * c + r);
    hide *;
    assert TWO16 * q + r == 0x100 * (0x100 * q + d) + e == 0x100_0000 * a + (TWO16 * c + r);
  }

  // ----- What is printed

  /** "0123456789abcdef" */
  const HEX: Bytes :=
    [0x30, 0x31, 0x32, 0x33, 0x34, 0x35, 0x36, 0x37, 0x38, 0x39, 0x61, 0x62, 0x63, 0x64, 0x65, 0x66]

  /** How one byte of a quoted message is written: newline, return, backslash and quote as in C,
      other printable characters as they are, and the rest by two digits, with six f's before
      them from 0x80 on. */
  lemma EscapeExactly(c: Byte)
    ensures Escape(c) ==
              if c == 0x0A then [0x5C, 0x6E]
              else if c == 0x0D then [0x5C, 0x72]
              else if c == 0x22 then [0x5C, 0x22]
              else if c == 0x5C then [0x5C, 0x5C]
              else if 0x1F < c < 0x7F then [c]
              else
                [0x5C, 0x78] + (if c > 0x7F then [0x66, 0x66, 0x66, 0x66, 0x66, 0x66] else [])
                + [HEX[c / 16], HEX[c % 16]]
  {
    HexIs(c / 16);
    HexIs(c % 16);
    hide HEX, Digit;
  }

  lemma HexIs(n: nat)
    requires n < 16
    ensures Digit(n) == HEX[n]
  {
  }

  /** Each byte of an ASCII line stands for that of the message: itself if it is printable, and a
      dot if it is not.  So the line shows the message exactly if all of it is printable. */
  lemma AsciiExactly(m: Bytes)
    requires IsBuffer(m)
    ensures var line := Output(AsciiOnly, m);
            && |line| == |m| + 1 && line[|m|] == 0x0A
            && (forall k :: 0 <= k < |m| ==> line[k] == if 0x20 <= m[k] <= 0x7E then m[k] else 0x2E)
            && (line[..|m|] == m <==> forall c :: c in m ==> 0x20 <= c <= 0x7E)
  {
    var line := Output(AsciiOnly, m);
    if line[..|m|] == m {
      forall c | c in m
        ensures 0x20 <= c <= 0x7E
      {
        var k :| 0 <= k < |m| && m[k] == c;
        assert line[..|m|][k] == line[k];
      }
    }
    if forall c :: c in m ==> 0x20 <= c <= 0x7E {
      assert forall k :: 0 <= k < |m| ==> m[k] in m;
    }
  }

  // ----- Reading quoted output back

  /** The escaped byte at `i` and where the next one starts; none at the closing quote. */
  function UnescapeAt(b: Bytes, i: nat): (r: Read<Byte>)
    ensures r.Hit? ==> i < r.next <= |b|
  {
    if i >= |b| || b[i] == QUOTE then Miss
    else if b[i] != BACKSLASH then Hit(b[i], i + 1)
    else if i + 1 >= |b| then Miss
    else if b[i + 1] == 0x6E then Hit(NEWLINE, i + 2)
    else if b[i + 1] == 0x72 then Hit(RETURN, i + 2)
    else if b[i + 1] != 0x78 then Hit(b[i + 1], i + 2)
    else HexAt(b, if i + 2 < |b| && b[i + 2] == 0x66 then i + 8 else i + 2)
  }

  function HexAt(b: Bytes, i: nat): (r: Read<Byte>)
    ensures r.Hit? ==> i < r.next <= |b|
  {
    if i + 2 > |b| || DigitValue(b[i]) < 0 || DigitValue(b[i + 1]) < 0 then Miss
    else Hit(16 * DigitValue(b[i]) + DigitValue(b[i + 1]), i + 2)
  }

  /** The bytes up to a closing quote, and the place after it and its newline. */
  function UnquoteFrom(b: Bytes, i: nat): (r: Read<Bytes>)
    ensures r.Hit? ==> i < r.next <= |b|
    decreases |b| - i
  {
    var c := UnescapeAt(b, i);
    if c.Hit? then
      var rest := UnquoteFrom(b, c.next);
      if rest.Hit? then Hit([c.value] + rest.value, rest.next) else Miss
    else if At(b, i, [QUOTE, NEWLINE]) then Hit([], i + 2)
    else Miss
  }

  /** The messages of an output from `i` on. */
  function UnquoteAll(b: Bytes, i: nat): seq<Bytes>
    decreases |b| - i
  {
    if i >= |b| || b[i] != QUOTE then []
    else
      var line := UnquoteFrom(b, i + 1);
      if line.Hit? then [line.value] + UnquoteAll(b, line.next) else []
  }

  function QuotedAll(ms: seq<Bytes>): Bytes {
    if ms == [] then [] else Quoted(ms[0]) + QuotedAll(ms[1..])
  }

  lemma EscapeRead(b: Bytes, i: nat, c: Byte)
    requires At(b, i, Escape(c))
    ensures UnescapeAt(b, i) == Hit(c, i + |Escape(c)|)
  {
    var r := Escape(c);
    forall k | 0 <= k < |r|
      ensures b[i + k] == r[k]
    {
      assert b[i..i + |r|][k] == r[k];
    }
    assert b[i] == r[0] && (|r| > 1 ==> b[i + 1] == r[1]);
    if |r| > 2 {
      assert b[i + 2] == r[2] && b[i + |r| - 2] == r[|r| - 2] && b[i + |r| - 1] == r[|r| - 1];
      HexDigits(c);
    }
  }

  /** The last two digits give the byte, and six f's come before them exactly if it is one of
      those that are negative. */
  lemma HexDigits(c: Byte)
    ensures var h := Hex(c);
            && |h| == (if c < 0x80 then 2 else 8)
            && DigitValue(h[|h| - 2]) == c / 16 && DigitValue(h[|h| - 1]) == c % 16
            && (h[0] == 0x66 <==> c >= 0x80)
  {
  }

  lemma {:induction false} EscapesRead(b: Bytes, i: nat, m: Bytes)
    requires At(b, i, Escapes(m) + [QUOTE, NEWLINE])
    ensures UnquoteFrom(b, i) == Hit(m, i + |Escapes(m)| + 2)
    decreases |m|
  {
    hide Escape, UnescapeAt;
    if m == [] {
      assert Escapes(m) + [QUOTE, NEWLINE] == [QUOTE, NEWLINE];
      AtQuote(b, i);
    } else {
      var rest := Escapes(m[1..]) + [QUOTE, NEWLINE];
      assert Escapes(m) + [QUOTE, NEWLINE] == Escape(m[0]) + rest;
      AtSplit(b, i, Escape(m[0]), rest);
      EscapeRead(b, i, m[0]);
      EscapesRead(b, i + |Escape(m[0])|, m[1..]);
      assert m == [m[0]] + m[1..];
    }
  }

  lemma AtQuote(b: Bytes, i: nat)
    requires At(b, i, [QUOTE, NEWLINE])
    ensures UnescapeAt(b, i) == Miss
  {
    assert b[i..i + 2][0] == QUOTE;
  }

  /** The quoted output of any messages in a row reads back as those messages: it is uniquely
      decodable, whatever bytes they hold. */
  lemma {:induction false} QuotedRoundTrip(b: Bytes, i: nat, ms: seq<Bytes>)
    requires i <= |b| && b[i..] == QuotedAll(ms)
    ensures UnquoteAll(b, i) == ms
    decreases |ms|
  {
    hide UnquoteFrom, Escapes;
    if ms != [] {
      var body, rest := Escapes(ms[0]) + [QUOTE, NEWLINE], QuotedAll(ms[1..]);
      assert b[i..] == [QUOTE] + (body + rest);
      OneLine(b, i, body, rest);
      EscapesRead(b, i + 1, ms[0]);
      QuotedRoundTrip(b, i + 1 + |body|, ms[1..]);
      assert ms == [ms[0]] + ms[1..];
    }
  }

  lemma OneLine(b: Bytes, i: nat, body: Bytes, rest: Bytes)
    requires i <= |b| && b[i..] == [QUOTE] + (body + rest)
    ensures i + 1 + |body| <= |b| && b[i] == QUOTE
    ensures At(b, i + 1, body) && b[i + 1 + |body|..] == rest
  {
    assert b[i] == b[i..][0];
    assert b[i + 1..] == b[i..][1..] == body + rest;
    assert b[i + 1..i + 1 + |body|] == b[i + 1..][..|body|] == body;
    assert b[i + 1 + |body|..] == b[i + 1..][|body|..] == rest;
  }

  // ----- One line per message

  function Newlines(b: Bytes): nat {
    if b == [] then 0 else (if b[0] == NEWLINE then 1 else 0) + Newlines(b[1..])
  }

  lemma {:induction false} NewlinesConcat(a: Bytes, b: Bytes)
    ensures Newlines(a + b) == Newlines(a) + Newlines(b)
  {
    if a == [] {
      assert a + b == b;
    } else {
      assert (a + b)[1..] == a[1..] + b;
      NewlinesConcat(a[1..], b);
    }
  }

  lemma {:induction false} NoNewlines(b: Bytes)
    requires NEWLINE !in b
    ensures Newlines(b) == 0
  {
    if b != [] {
      NoNewlines(b[1..]);
    }
  }

  lemma {:induction false} EscapesOneLine(m: Bytes)
    ensures NEWLINE !in Escapes(m)
  {
    if m != [] {
      EscapesOneLine(m[1..]);
      assert NEWLINE !in Escape(m[0]);
    }
  }

  /** Quoted output has as many lines as there were messages, and ends a line. */
  lemma {:induction false} OneLineEach(ms: seq<Bytes>)
    ensures Newlines(QuotedAll(ms)) == |ms|
    ensures ms != [] ==> QuotedAll(ms)[|QuotedAll(ms)| - 1] == NEWLINE
  {
    if ms != [] {
      OneLineEach(ms[1..]);
      NewlinesConcat(Quoted(ms[0]), QuotedAll(ms[1..]));
      var line := [QUOTE] + Escapes(ms[0]) + [QUOTE];
      EscapesOneLine(ms[0]);
      assert NEWLINE !in line;
      NoNewlines(line);
      assert Quoted(ms[0]) == line + [NEWLINE];
      NewlinesConcat(line, [NEWLINE]);
      assert [NEWLINE][1..] == [];
    }
  }

  // ----- Two-digit escapes

  /** As a reader takes it for which `\x` has two digits. */
  function TwoDigitAt(b: Bytes, i: nat): (r: Read<Byte>)
    ensures r.Hit? ==> i < r.next <= |b|
  {
    if i + 2 < |b| && b[i] == BACKSLASH && b[i + 1] == 0x78 then HexAt(b, i + 2) else UnescapeAt(b, i)
  }

  function TwoDigitFrom(b: Bytes, i: nat): (r: Read<Bytes>)
    decreases |b| - i
  {
    var c := TwoDigitAt(b, i);
    if c.Hit? then
      var rest := TwoDigitFrom(b, c.next);
      if rest.Hit? then Hit([c.value] + rest.value, rest.next) else Miss
    else if At(b, i, [QUOTE, NEWLINE]) then Hit([], i + 2)
    else Miss
  }

  /** What such a reader makes of the escape of one byte. */
  function Taken(c: Byte): Bytes {
    if c < 0x80 then [c] else [0xFF] + Hex(c)[2..]
  }

  function TakenAll(m: Bytes): Bytes {
    if m == [] then [] else Taken(m[0]) + TakenAll(m[1..])
  }

  predicate AllPositive(m: Bytes) {
    forall k :: 0 <= k < |m| ==> m[k] < 0x80
  }

  lemma {:induction false} TakenExactly(m: Bytes)
    ensures |TakenAll(m)| >= |m|
    ensures TakenAll(m) == m <==> AllPositive(m)
    ensures AllPositive(m) <==> |TakenAll(m)| == |m|
  {
    if m != [] {
      TakenExactly(m[1..]);
      assert m == [m[0]] + m[1..];
      assert AllPositive(m) <==> m[0] < 0x80 && AllPositive(m[1..]);
    }
  }

  lemma {:induction false} LettersRead(b: Bytes, i: nat, h: Bytes, rest: Read<Bytes>, k: nat)
    requires k <= |h| && At(b, i, h) && forall j :: 0 <= j < |h| ==> DigitValue(h[j]) >= 0
    requires rest.Hit? && TwoDigitFrom(b, i + |h|) == rest
    ensures TwoDigitFrom(b, i + k) == Hit(h[k..] + rest.value, rest.next)
    decreases |h| - k
  {
    hide TwoDigitAt, DigitValue;
    if k < |h| {
      assert b[i + k] == b[i..i + |h|][k] == h[k];
      LetterRead(b, i + k);
      LettersRead(b, i, h, rest, k + 1);
      assert h[k..] + rest.value == [h[k]] + (h[k + 1..] + rest.value);
    } else {
      assert h[k..] + rest.value == rest.value;
    }
  }

  lemma LetterRead(b: Bytes, i: nat)
    requires i < |b| && DigitValue(b[i]) >= 0
    ensures TwoDigitAt(b, i) == Hit(b[i], i + 1)
  {
  }

  lemma TakenRead(b: Bytes, i: nat, c: Byte, rest: Read<Bytes>)
    requires At(b, i, Escape(c)) && rest.Hit? && TwoDigitFrom(b, i + |Escape(c)|) == rest
    ensures TwoDigitFrom(b, i) == Hit(Taken(c) + rest.value, rest.next)
  {
    hide *;
    if c >= 0x80 {
      HighRead(b, i, c, rest);
    } else {
      LowRead(b, i, c, rest);
    }
  }

  lemma HighRead(b: Bytes, i: nat, c: Byte, rest: Read<Bytes>)
    requires c >= 0x80 && At(b, i, Escape(c)) && rest.Hit? && TwoDigitFrom(b, i + |Escape(c)|) == rest
    ensures TwoDigitFrom(b, i) == Hit(Taken(c) + rest.value, rest.next)
  {
    hide *;
    var h := NegativeEscape(c);
    AtSplit(b, i, [BACKSLASH, 0x78, 0x66, 0x66], h);
    LettersRead(b, i + 4, h, rest, 0);
    FirstFs(b, i);
    assert h[0..] == h;
    TwoDigitStep(b, i);
    assert Taken(c) + rest.value == [0xFF] + (h + rest.value);
  }

  lemma LowRead(b: Bytes, i: nat, c: Byte, rest: Read<Bytes>)
    requires c < 0x80 && At(b, i, Escape(c)) && rest.Hit? && TwoDigitFrom(b, i + |Escape(c)|) == rest
    ensures TwoDigitFrom(b, i) == Hit(Taken(c) + rest.value, rest.next)
  {
    hide Escape, TwoDigitAt, TwoDigitFrom, UnescapeAt, At, Hex;
    SameRead(b, i, c);
    TwoDigitStep(b, i);
  }

  /** One escape or letter, and what comes after it. */
  lemma TwoDigitStep(b: Bytes, i: nat)
    requires i < |b| && TwoDigitAt(b, i).Hit?
    ensures var c := TwoDigitAt(b, i);
            c.next <= |b| && TwoDigitFrom(b, c.next).Hit? ==>
              var rest := TwoDigitFrom(b, c.next);
              TwoDigitFrom(b, i) == Hit([c.value] + rest.value, rest.next)
  {
    hide TwoDigitAt;
  }

  lemma NegativeEscape(c: Byte) returns (h: Bytes)
    requires c >= 0x80
    ensures Escape(c) == [BACKSLASH, 0x78, 0x66, 0x66] + h && Taken(c) == [0xFF] + h
    ensures |h| == 6 && forall j :: 0 <= j < |h| ==> DigitValue(h[j]) >= 0
  {
    h := Hex(c)[2..];
    HexDigits(c);
  }

  lemma FirstFs(b: Bytes, i: nat)
    requires At(b, i, [BACKSLASH, 0x78, 0x66, 0x66])
    ensures TwoDigitAt(b, i) == Hit(0xFF, i + 4)
  {
    var p := b[i..i + 4];
    assert b[i] == p[0] && b[i + 1] == p[1] && b[i + 2] == p[2] && b[i + 3] == p[3];
  }

  lemma SameRead(b: Bytes, i: nat, c: Byte)
    requires At(b, i, Escape(c)) && c < 0x80
    ensures TwoDigitAt(b, i) == Hit(c, i + |Escape(c)|)
  {
    EscapeRead(b, i, c);
    var r := Escape(c);
    var p := b[i..i + |r|];
    assert b[i] == p[0] && (|r| > 1 ==> b[i + 1] == p[1]) && (|r| > 2 ==> b[i + 2] == p[2]);
    HexDigits(c);
  }

  lemma {:induction false} TwoDigitRead(b: Bytes, i: nat, m: Bytes)
    requires At(b, i, Escapes(m) + [QUOTE, NEWLINE])
    ensures TwoDigitFrom(b, i) == Hit(TakenAll(m), i + |Escapes(m)| + 2)
    decreases |m|
  {
    hide Escape, UnescapeAt, Taken;
    if m == [] {
      assert Escapes(m) + [QUOTE, NEWLINE] == [QUOTE, NEWLINE];
      AtQuote(b, i);
      assert b[i..i + 2][0] == QUOTE;
    } else {
      var rest := Escapes(m[1..]) + [QUOTE, NEWLINE];
      assert Escapes(m) + [QUOTE, NEWLINE] == Escape(m[0]) + rest;
      AtSplit(b, i, Escape(m[0]), rest);
      TwoDigitRead(b, i + |Escape(m[0])|, m[1..]);
      TakenRead(b, i, m[0], Hit(TakenAll(m[1..]), i + |Escapes(m)| + 2));
    }
  }

  /** A reader for which `\x` has two digits gets a message right exactly if it has no byte
      from 0x80 on. */
  lemma TwoDigitsExactly(b: Bytes, i: nat, m: Bytes)
    requires At(b, i, Escapes(m) + [QUOTE, NEWLINE])
    ensures TwoDigitFrom(b, i).Hit?
    ensures TwoDigitFrom(b, i).value == m <==> AllPositive(m)
  {
    TwoDigitRead(b, i, m);
    TakenExactly(m);
  }

  // ----- Framed output

  function FrameAll(ms: seq<Bytes>): Bytes
    requires AllBuffers(ms)
  {
    if ms == [] then [] else Frame(ms[0]) + FrameAll(ms[1..])
  }

  predicate AllBuffers(ms: seq<Bytes>) {
    ms == [] || (IsBuffer(ms[0]) && AllBuffers(ms[1..]))
  }

  /** Cut a stream with the skipper, and take off what each part begins with. */
  function CutFrom(b: Bytes, i: nat): seq<Bytes>
    requires i <= |b| && IsBuffer(b)
    decreases |b| - i
  {
    if i == |b| then []
    else
      var body := i + 1 + LengthWidth(b[i]);
      match SkipAt(b, i)
      case Past(j) => if body <= j then [b[body..j]] + CutFrom(b, j) else []
      case _ => []
  }

  lemma FrameCut(b: Bytes, i: nat, m: Bytes)
    requires IsBuffer(b) && IsBuffer(m) && At(b, i, Frame(m))
    ensures i < |b| && LengthWidth(b[i]) + 1 + |m| == |Frame(m)|
    ensures SkipAt(b, i) == Past(i + |Frame(m)|)
    ensures b[i + 1 + LengthWidth(b[i])..i + |Frame(m)|] == m
  {
    var w := Bin(if |m| < 0x100 then 1 else if |m| < TWO16 then 2 else 4, m);
    assert ValidNode(w) && Frame(m) == Encode(w);
    hide *;
    BinStraight(w);
    SkipStraight(b, i, w);
    BinParts(b, i, w);
  }

  lemma BinParts(b: Bytes, i: nat, w: Wire)
    requires w.Bin? && ValidNode(w) && At(b, i, Lead(w) + w.data)
    ensures i < |b| && LengthWidth(b[i]) + 1 == |Lead(w)|
    ensures b[i + |Lead(w)|..i + |Lead(w)| + |w.data|] == w.data
  {
    AtSplit(b, i, Lead(w), w.data);
    assert b[i] == b[i..i + |Lead(w)|][0] == Lead(w)[0];
    hide BeBytes;
  }

  lemma BinStraight(w: Wire)
    requires w.Bin?
    ensures Straight(w) && (ValidNode(w) ==> Valid(w) && Encode(w) == Lead(w) + w.data)
  {
  }

  /** A stream of framed messages of any lengths is cut by the skipper into just those
      messages, as long as it is not longer than the skipper can count. */
  lemma {:induction false} FramesCut(b: Bytes, i: nat, ms: seq<Bytes>)
    requires i <= |b| && IsBuffer(b) && AllBuffers(ms) && b[i..] == FrameAll(ms)
    ensures CutFrom(b, i) == ms
    decreases |ms|
  {
    hide SkipAt, Frame, LengthWidth, CutFrom;
    if ms == [] {
      NothingToCut(b, i);
    } else {
      var f, rest := Frame(ms[0]), FrameAll(ms[1..]);
      OneFrame(b, i, f, rest);
      FrameCut(b, i, ms[0]);
      FramesCut(b, i + |f|, ms[1..]);
      CutStep(b, i, i + |f|);
      assert ms == [ms[0]] + ms[1..];
    }
  }

  lemma NothingToCut(b: Bytes, i: nat)
    requires IsBuffer(b) && i == |b|
    ensures CutFrom(b, i) == []
  {
  }

  lemma CutStep(b: Bytes, i: nat, j: nat)
    requires IsBuffer(b) && i < |b| && SkipAt(b, i) == Past(j) && i + 1 + LengthWidth(b[i]) <= j
    ensures j <= |b| && CutFrom(b, i) == [b[i + 1 + LengthWidth(b[i])..j]] + CutFrom(b, j)
  {
    hide SkipAt, LengthWidth;
  }

  lemma OneFrame(b: Bytes, i: nat, f: Bytes, rest: Bytes)
    requires i <= |b| && b[i..] == f + rest
    ensures At(b, i, f) && b[i + |f|..] == rest
  {
    assert b[i..i + |f|] == b[i..][..|f|] == f;
    assert b[i + |f|..] == b[i..][|f|..] == rest;
  }

  /** A frame is a bin, which the string reader does not take. */
  lemma FrameIsNoString(b: Bytes, i: nat, m: Bytes)
    requires IsBuffer(b) && IsBuffer(m) && At(b, i, Frame(m))
    ensures i < |b| && StringAt(b, i) == Miss
  {
    FrameCut(b, i, m);
    ReadEncoded(b, i, Bin(if |m| < 0x100 then 1 else if |m| < TWO16 then 2 else 4, m));
  }

  // ----- Messages in a row

  /** What is written for messages in a row. */
  function OutputAll(f: Format, ms: seq<Bytes>): Bytes
    requires AllBuffers(ms)
  {
    if ms == [] then [] else Output(f, ms[0]) + OutputAll(f, ms[1..])
  }

  /** Without an echo format nothing is written.  Raw output is the messages and nothing else, so
      that any two of them look like one that is both. */
  lemma {:induction false} UnquotedOutput(ms: seq<Bytes>, a: Bytes, b: Bytes)
    requires AllBuffers(ms) && IsBuffer(a + b)
    ensures OutputAll(Silent, ms) == []
    ensures OutputAll(Raw, [a, b] + ms) == a + b + OutputAll(Raw, ms) == OutputAll(Raw, [a + b] + ms)
  {
    var two, one := [a, b] + ms, [a + b] + ms;
    assert two[1..] == [b] + ms && two[1..][1..] == ms && one[1..] == ms;
    assert a + (b + OutputAll(Raw, ms)) == a + b + OutputAll(Raw, ms);
    if ms != [] {
      UnquotedOutput(ms[1..], a, b);
    }
  }

  /** Quoted and framed output, message after message. */
  lemma {:induction false} DelimitedOutput(ms: seq<Bytes>)
    requires AllBuffers(ms)
    ensures OutputAll(InQuotes, ms) == QuotedAll(ms) && OutputAll(Framed, ms) == FrameAll(ms)
  {
    hide Frame, Escapes;
    if ms != [] {
      DelimitedOutput(ms[1..]);
    }
  }
}
