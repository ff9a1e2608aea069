/** How `nc_parse_and_apply` reads a reply: the effects it asks for, in order, and how it
    ends.  The functions follow the C code with its slips; the methods beside them are its
    loops.

    A reply is walked once and its effects happen on the way, so a reply that is turned down
    half way has already had the effects of its first half. */
module Reply {
  import opened Wrappers
  import opened MsgPack

  datatype Symbol = Symbol(name: Bytes, value: int)

  /** What the walk depends on besides the bytes: the table behind `nn_symbol`, the protocol
      of the socket, and the value an uninitialised `optid` happens to have. */
  datatype Context = Context(symbols: seq<Symbol>, protocol: Bytes, protoid: int, stale: int)

  const SOL_SOCKET := 0
  const COLON: Byte := 0x3A
  const UNDERSCORE: Byte := 0x5F

  datatype OptionValue = IntValue(n: int) | TextValue(s: Bytes)

  /** The effects of a reply.  `Settle` tears down what was not named since `Unmark`. */
  datatype Step =
    | SetOption(level: int, id: int, value: OptionValue)
    | Unmark
    | Address(kind: int, addr: Bytes)
    | Settle
    | UnmarkTopics
    | Topic(name: Bytes)
    | SettleTopics

  /** Where a part of the walk stopped: at a place in the buffer (with the `optid` then in
      force), by turning the reply down, or by leaving the buffer. */
  datatype Stop = Reached(next: nat, optid: int) | Rejected | Strayed

  datatype Walk = Walk(steps: seq<Step>, stop: Stop)

  /** Do `first`, then `rest` from where it stopped. */
  function Then(first: seq<Step>, rest: Walk): Walk {
    Walk(first + rest.steps, rest.stop)
  }

  // ----- Names

  /** The value of the first symbol with this name. */
  function SymbolValue(symbols: seq<Symbol>, name: Bytes): Option<int> {
    if symbols == [] then None
    else if symbols[0].name == name then Some(symbols[0].value)
    else SymbolValue(symbols[1..], name)
  }

  function Lower(c: Byte): Byte {
    if 0x41 <= c <= 0x5A then c + 0x20 else c
  }

  predicate SameLetters(a: Bytes, b: Bytes) {
    |a| == |b| && forall k :: 0 <= k < |a| ==> Lower(a[k]) == Lower(b[k])
  }

  const NN: Bytes := [0x4E, 0x4E, 0x5F]  // "NN_"

  predicate NamesTransport(s: Symbol, transport: Bytes) {
    |s.name| >= 3 && s.name[..3] == NN && SameLetters(s.name[3..], transport)
  }

  /** The first symbol that is "NN_" and the transport, letter case aside. */
  function TransportOf(symbols: seq<Symbol>, transport: Bytes): Option<Symbol> {
    if symbols == [] then None
    else if NamesTransport(symbols[0], transport) then Some(symbols[0])
    else TransportOf(symbols[1..], transport)
  }

  /** `strchr (addr, ':')`: it stops at a zero byte and not at the end of the string. */
  function ColonFrom(b: Bytes, i: nat): (r: Read<()>)
    ensures r.Hit? ==> i <= r.next < |b| && b[r.next] == COLON
    decreases |b| - i
  {
    if i >= |b| then Wild
    else if b[i] == COLON then Hit((), i)
    else if b[i] == 0 then Miss
    else ColonFrom(b, i + 1)
  }

  /** Symbol k is the first of this name. */
  predicate IsFirst(symbols: seq<Symbol>, name: Bytes, k: int) {
    0 <= k < |symbols| && symbols[k].name == name && forall j :: 0 <= j < k ==> symbols[j].name != name
  }

  method FindSymbol(symbols: seq<Symbol>, name: Bytes) returns (r: Option<int>)
    ensures r == SymbolValue(symbols, name)
    ensures r.None? ==> forall k :: 0 <= k < |symbols| ==> symbols[k].name != name
    ensures r.Some? ==> exists k :: IsFirst(symbols, name, k) && symbols[k].value == r.value
  {
    var k := 0;
    while k < |symbols|
      invariant k <= |symbols| && SymbolValue(symbols, name) == SymbolValue(symbols[k..], name)
      invariant forall j :: 0 <= j < k ==> symbols[j].name != name
    {
      if symbols[k].name == name {
        assert IsFirst(symbols, name, k);
        return Some(symbols[k].value);
      }
      k := k + 1;
    }
    return None;
  }

  method FindTransport(symbols: seq<Symbol>, transport: Bytes) returns (r: Option<Symbol>)
    ensures r == TransportOf(symbols, transport)
    ensures r.Some? ==> r.value in symbols && NamesTransport(r.value, transport)
    ensures r.None? ==> forall k :: 0 <= k < |symbols| ==> !NamesTransport(symbols[k], transport)
  {
    var k := 0;
    while k < |symbols|
      invariant k <= |symbols| && TransportOf(symbols, transport) == TransportOf(symbols[k..], transport)
      invariant forall j :: 0 <= j < k ==> !NamesTransport(symbols[j], transport)
    {
      if NamesTransport(symbols[k], transport) { return Some(symbols[k]); }
      k := k + 1;
    }
    return None;
  }

  /** Place k is the first from `pos` on that holds a colon or a zero. */
  predicate FirstStop(b: Bytes, pos: nat, k: int) {
    && pos <= k < |b| && (b[k] == COLON || b[k] == 0)
    && forall j :: pos <= j < k ==> b[j] != COLON && b[j] != 0
  }

  method FindColon(b: Bytes, pos: nat) returns (r: Read<()>)
    ensures r == ColonFrom(b, pos)
    ensures r.Hit? ==> FirstStop(b, pos, r.next) && b[r.next] == COLON
    ensures r.Miss? ==> exists k :: FirstStop(b, pos, k) && b[k] == 0
    ensures r.Wild? ==> forall k :: pos <= k < |b| ==> b[k] != COLON && b[k] != 0
  {
    var i := pos;
    while i < |b| && b[i] != 0
      invariant pos <= i && ColonFrom(b, pos) == ColonFrom(b, i)
      invariant forall k :: pos <= k < i && k < |b| ==> b[k] != COLON && b[k] != 0
    {
      if b[i] == COLON { return Hit((), i); }
      i := i + 1;
    }
    assert i < |b| ==> FirstStop(b, pos, i);
    return if i < |b| then Miss else Wild;
  }

  predicate Prefixed(name: Bytes, prefix: Bytes) {
    |prefix| < |name| && name[..|prefix|] == prefix && name[|prefix|] == UNDERSCORE
  }

  function SocketLevel(c: Context, name: Bytes): int {
    if Prefixed(name, c.protocol) then c.protoid else SOL_SOCKET
  }

  /** Compare the option name at `i` with a transport symbol and a '_'.  The C code checks
      the name's length against the protocol's, so the comparison can run past the name. */
  function PrefixedInBuffer(b: Bytes, i: nat, prefix: Bytes): (r: Read<bool>)
    ensures !r.Miss?
    decreases |prefix|
  {
    if i >= |b| then Wild
    else if prefix == [] then Hit(b[i] == UNDERSCORE, i)
    else if b[i] != prefix[0] then Hit(false, i)
    else PrefixedInBuffer(b, i + 1, prefix[1..])
  }

  /** Level of an endpoint option whose `n` characters start at `i`. */
  function EndpointLevel(c: Context, b: Bytes, i: nat, n: nat, transport: Symbol): (r: Read<int>)
    ensures !r.Miss?
  {
    if |c.protocol| >= n then Hit(SOL_SOCKET, i)
    else
      match PrefixedInBuffer(b, i, transport.name)
      case Hit(yes, _) => Hit(if yes then transport.value else SOL_SOCKET, i)
      case _ => Wild
  }

  // ----- Option values

  /** One int or string, tried in this order. */
  function ElementAt(b: Bytes, i: nat): (r: Read<OptionValue>)
    requires i <= |b|
    ensures r.Hit? ==> i < r.next <= |b|
  {
    var number := IntAt(b, i);
    if number.Hit? then Hit(IntValue(number.value), number.next)
    else
      match StringAt(b, i)
      case Hit(text, next) => Hit(TextValue(text), next)
      case Miss => Miss
      case Wild => Wild
  }

  /** `nc_parse_and_set_option` */
  function OptionAt(b: Bytes, i: nat, level: int, id: int): (w: Walk)
    requires i <= |b|
    ensures w.stop.Reached? ==> i < w.stop.next <= |b|
  {
    match ElementAt(b, i)
    case Hit(value, next) => Walk([SetOption(level, id, value)], Reached(next, id))
    case Wild => Walk([], Strayed)
    case Miss =>
      var list := ArrayAt(b, i);
      if list.Hit? then ElementsAt(b, list.next, level, id, list.value) else Walk([], Rejected)
  }

  /** The elements of an option array.  One that is neither an int nor a string is not
      stepped over, and all later turns of the loop look at it again. */
  function ElementsAt(b: Bytes, i: nat, level: int, id: int, n: int): (w: Walk)
    requires i <= |b|
    ensures w.stop.Reached? ==> i <= w.stop.next <= |b|
    decreases n
  {
    if n <= 0 then Walk([], Reached(i, id))
    else
      match ElementAt(b, i)
      case Hit(value, next) => Then([SetOption(level, id, value)], ElementsAt(b, next, level, id, n - 1))
      case Wild => Walk([], Strayed)
      case Miss => ElementsAt(b, i, level, id, n - 1)
  }

  /** The mapping of socket options, from its first key on. */
  function SocketOptionsAt(c: Context, b: Bytes, i: nat, n: int, optid: int): (w: Walk)
    requires i <= |b| && IsBuffer(b)
    ensures w.stop.Reached? ==> i <= w.stop.next <= |b|
    decreases n
  {
    if n <= 0 then Walk([], Reached(i, optid))
    else
      match StringAt(b, i)
      case Wild => Walk([], Strayed)
      case Miss => Walk([], Rejected)
      case Hit(name, j) =>
        match SymbolValue(c.symbols, name)
        case Some(id) =>
          var value := OptionAt(b, j, SocketLevel(c, name), id);
          if value.stop.Reached? then
            Then(value.steps, SocketOptionsAt(c, b, value.stop.next, n - 1, id))
          else value
        case None =>
          match SkipAt(b, j)
          case Refused => Walk([], Rejected)
          case Lost => Walk([], Strayed)
          case Past(k) => SocketOptionsAt(c, b, k, n - 1, optid)
  }

  /** The mapping of an address's options.  After an unknown name its value is skipped and
      then another value is read for the last known option. */
  function EndpointOptionsAt(c: Context, b: Bytes, i: nat, n: int, optid: int, transport: Symbol): (w: Walk)
    requires i <= |b| && IsBuffer(b)
    ensures w.stop.Reached? ==> i <= w.stop.next <= |b|
    decreases n
  {
    if n <= 0 then Walk([], Reached(i, optid))
    else
      match StringAt(b, i)
      case Wild => Walk([], Strayed)
      case Miss => Walk([], Rejected)
      case Hit(name, j) =>
        var known := SymbolValue(c.symbols, name);
        var id := if known.Some? then known.value else optid;
        var from := if known.Some? then Past(j) else SkipAt(b, j);
        match from
        case Refused => Walk([], Rejected)
        case Lost => Walk([], Strayed)
        case Past(k) =>
          match EndpointLevel(c, b, j - |name|, |name|, transport)
          case Hit(level, _) =>
            var value := OptionAt(b, k, level, id);
            if value.stop.Reached? then
              Then(value.steps, EndpointOptionsAt(c, b, value.stop.next, n - 1, id, transport))
            else value
          case _ => Walk([], Strayed)
  }

  // ----- Addresses

  /** The skip loop after an unknown transport.  Its guard does not change inside, so once
      entered it goes on until a skip fails. */
  function DrainAt(b: Bytes, i: nat): (s: Stop)
    requires i <= |b| && IsBuffer(b)
    ensures !s.Reached?
    decreases |b| - i
  {
    match SkipAt(b, i)
    case Refused => Rejected
    case Lost => Strayed
    case Past(j) => DrainAt(b, j)
  }

  /** The front of an address tuple. */
  datatype Front = Front(tuple: int, kind: int, addr: Bytes, transport: Option<Symbol>, next: nat)

  /** Read a tuple up to its options; `Miss` turns the reply down. */
  function FrontAt(c: Context, b: Bytes, i: nat): (r: Read<Front>)
    requires i <= |b|
    ensures r.Hit? ==> i < r.next == r.value.next <= |b|
  {
    match ArrayAt(b, i)
    case Hit(tuple, j) =>
      if tuple < 2 || tuple > 3 then Miss
      else
        (match IntAt(b, j)
         case Hit(kind, k) =>
           if kind != 0 && kind != 1 then Miss
           else
             (match StringAt(b, k)
              case Hit(addr, next) =>
                (match ColonFrom(b, next - |addr|)
                 case Hit(_, colon) =>
                   Hit(Front(tuple, kind, addr, TransportOf(c.symbols, b[next - |addr|..colon]), next), next)
                 case Miss => Miss
                 case Wild => Wild)
              case Miss => Miss
              case Wild => Wild)
         case _ => Miss)
    case _ => Miss
  }

  /** Address number `k` and the rest of them. */
  function AddressesAt(c: Context, b: Bytes, i: nat, k: nat, n: int, optid: int): (w: Walk)
    requires i <= |b| && IsBuffer(b)
    ensures w.stop.Reached? ==> i <= w.stop.next <= |b|
    decreases n - k
  {
    if k >= n then Walk([], Reached(i, optid))
    else
      match FrontAt(c, b, i)
      case Miss => Walk([], Rejected)
      case Wild => Walk([], Strayed)
      case Hit(f, j) =>
        if !f.transport.Some? then
          if k < f.tuple then Walk([], DrainAt(b, j))
          else AddressesAt(c, b, j, k + 1, n, optid)
        else
          var options := TupleOptionsAt(c, b, f, optid);
          if options.stop.Reached? then
            Then(options.steps + [Address(f.kind, f.addr)],
                 AddressesAt(c, b, options.stop.next, k + 1, n, options.stop.optid))
          else options
  }

  /** The optional third element of a tuple. */
  function TupleOptionsAt(c: Context, b: Bytes, f: Front, optid: int): (w: Walk)
    requires f.next <= |b| && IsBuffer(b) && f.transport.Some?
    ensures w.stop.Reached? ==> f.next <= w.stop.next <= |b|
  {
    if f.tuple <= 2 then Walk([], Reached(f.next, optid))
    else
      match MapAt(b, f.next)
      case Hit(n, j) => EndpointOptionsAt(c, b, j, n, optid, f.transport.value)
      case _ => Walk([], Rejected)
  }

  method ReadFront(c: Context, b: Bytes, pos: nat) returns (r: Read<Front>)
    requires pos <= |b|
    ensures r == FrontAt(c, b, pos)
  {
    hide ArrayAt, IntAt, StringAt, ColonFrom, TransportOf;
    var tuple := ParseArray(b, pos);
    if !tuple.Hit? || tuple.value < 2 || tuple.value > 3 { return Miss; }
    var kind := ParseInt(b, tuple.next);
    if !kind.Hit? || (kind.value != 0 && kind.value != 1) { return Miss; }
    var addr := ParseString(b, kind.next);
    if addr.Miss? { return Miss; }
    if addr.Wild? { return Wild; }
    var start := addr.next - |addr.value|;
    var colon := FindColon(b, start);
    if colon.Miss? { return Miss; }
    if colon.Wild? { return Wild; }
    var transport := FindTransport(c.symbols, b[start..colon.next]);
    return Hit(Front(tuple.value, kind.value, addr.value, transport, addr.next), addr.next);
  }

  method Drain(b: Bytes, pos: nat) returns (s: Stop)
    requires pos <= |b| && IsBuffer(b)
    ensures s == DrainAt(b, pos)
  {
    hide SkipAt;
    var i := pos;
    while true
      invariant pos <= i <= |b| && DrainAt(b, pos) == DrainAt(b, i)
      decreases |b| - i
    {
      var next, _, _ := SkipValue(b, i);
      match next
      case Refused => return Rejected;
      case Lost => return Strayed;
      case Past(j) => i := j;
    }
  }

  function TopicsAt(b: Bytes, i: nat, n: int, optid: int): (w: Walk)
    requires i <= |b|
    ensures w.stop.Reached? ==> i <= w.stop.next <= |b|
    decreases n
  {
    if n <= 0 then Walk([], Reached(i, optid))
    else
      match StringAt(b, i)
      case Hit(topic, j) => Then([Topic(topic)], TopicsAt(b, j, n - 1, optid))
      case Miss => Walk([], Rejected)
      case Wild => Walk([], Strayed)
  }

  // ----- The whole reply

  /** The reply's length and, past its result code, the place of the options mapping. */
  function OpeningAt(b: Bytes): (r: Read<int>)
    ensures r.Hit? ==> r.next <= |b| && r.value >= 3
    ensures !r.Wild?
  {
    match ArrayAt(b, 0)
    case Hit(length, i) =>
      (match IntAt(b, i)
       case Hit(code, j) => if code == 1 && length >= 3 then Hit(length, j) else Miss
       case _ => Miss)
    case _ => Miss
  }

  method ReadOpening(b: Bytes) returns (r: Read<int>)
    ensures r == OpeningAt(b)
  {
    hide ArrayAt, IntAt;
    var length := ParseArray(b, 0);
    if !length.Hit? { return Miss; }
    var code := ParseInt(b, length.next);
    if !code.Hit? || code.value != 1 || length.value < 3 { return Miss; }
    return Hit(length.value, code.next);
  }

  /** `nc_parse_and_apply`: the steps it takes and whether it returned 1 (`Reached`). */
  function ReplyWalk(c: Context, b: Bytes): Walk
    requires IsBuffer(b)
  {
    match OpeningAt(b)
    case Hit(length, i) =>
      (match MapAt(b, i)
       case Hit(n, j) =>
         var options := SocketOptionsAt(c, b, j, n, c.stale);
         if options.stop.Reached? then Then(options.steps, AddressPart(c, b, options.stop, length)) else options
       case _ => Walk([], Rejected))
    case _ => Walk([], Rejected)
  }

  function AddressPart(c: Context, b: Bytes, at: Stop, length: int): Walk
    requires at.Reached? && at.next <= |b| && IsBuffer(b)
  {
    match ArrayAt(b, at.next)
    case Hit(n, j) =>
      var addresses := AddressesAt(c, b, j, 0, n, at.optid);
      if addresses.stop.Reached? then
        Then([Unmark] + addresses.steps + [Settle, UnmarkTopics], TopicPart(b, addresses.stop, length))
      else Walk([Unmark] + addresses.steps, addresses.stop)
    case _ => Walk([], Rejected)
  }

  function TopicPart(b: Bytes, at: Stop, length: int): Walk
    requires at.Reached? && at.next <= |b|
  {
    if length <= 3 then Walk([SettleTopics], at)
    else
      match ArrayAt(b, at.next)
      case Hit(n, j) =>
        var topics := TopicsAt(b, j, n, at.optid);
        if topics.stop.Reached? then Walk(topics.steps + [SettleTopics], topics.stop) else topics
      case _ => Walk([], Rejected)
  }
}
