/** The library's calls in src/nanoconfig.c: which URLs it takes, and the messages by which it
    tells the worker what to do. */
module Nanoconfig {
  import opened Wrappers
  import opened MsgPack

  const URL_MAX := 512
  const WORKER_BUFFER := URL_MAX + 50

  // "nanoconfig://"
  const SCHEME: Bytes := [0x6E, 0x61, 0x6E, 0x6F, 0x63, 0x6F, 0x6E, 0x66, 0x69, 0x67, 0x3A, 0x2F, 0x2F]

  // ----- URLs

  /** Printable and not blank. */
  predicate Visible(c: Byte) {
    0x21 <= c <= 0x7E
  }

  predicate ValidUrl(url: Bytes) {
    |url| <= URL_MAX && SCHEME <= url && forall k :: 0 <= k < |url| ==> Visible(url[k])
  }

  /** `nc_validate_url` */
  method ValidateUrl(url: Bytes) returns (ok: bool)
    ensures ok <==> ValidUrl(url)
  {
    if |url| > URL_MAX { return false; }
    if !(SCHEME <= url) { return false; }
    var i := 0;
    while i < |url|
      invariant i <= |url| && forall k :: 0 <= k < i ==> Visible(url[k])
    {
      if !Visible(url[i]) { return false; }
      i := i + 1;
    }
    return true;
  }

  /** A URL is taken exactly if it has at most 512 characters, begins with "nanoconfig://" and has
      no blank, control or other character outside ASCII; in particular it is one word. */
  lemma ValidUrlExactly(url: Bytes)
    ensures ValidUrl(url) <==>
              && |url| <= 512 && (forall c :: c in url ==> 0x20 < c < 0x7F)
              && [0x6E, 0x61, 0x6E, 0x6F, 0x63, 0x6F, 0x6E, 0x66, 0x69, 0x67, 0x3A, 0x2F, 0x2F] <= url
    ensures ValidUrl(url) ==> 0 !in url && 0x20 !in url
  {
    if forall c :: c in url ==> 0x20 < c < 0x7F {
      assert forall k :: 0 <= k < |url| ==> url[k] in url;
    }
  }

  // ----- Messages

  const NC_CONFIGURE := 1
  const NC_CLOSE := 2
  const NC_SHUTDOWN := 99

  datatype Command = Configure(socket: int, url: Bytes) | Close(socket: int) | Shutdown

  predicate IsInt32(n: int) {
    -TWO31 <= n < TWO31
  }

  /** An int in memory, lowest byte first. */
  function Le32(n: int): (b: Bytes)
    requires IsInt32(n)
    ensures |b| == 4
  {
    var u := n % TWO32;
    [u % 0x100, u / 0x100 % 0x100, u / TWO16 % 0x100, u / 0x100_0000]
  }

  function IntAtLe(b: Bytes, i: nat): int
    requires i + 4 <= |b|
  {
    AsInt32(b[i] + 0x100 * (b[i + 1] as int) + TWO16 * (b[i + 2] as int) + 0x100_0000 * (b[i + 3] as int))
  }

  lemma Le32RoundTrip(n: int, b: Bytes, i: nat)
    requires IsInt32(n) && i + 4 <= |b| && b[i..i + 4] == Le32(n)
    ensures IntAtLe(b, i) == n
  {
    var p := b[i..i + 4];
    assert b[i] == p[0] && b[i + 1] == p[1] && b[i + 2] == p[2] && b[i + 3] == p[3];
    Digits(n % TWO32);
  }

  lemma Digits(u: nat)
    requires u < TWO32
    ensures u % 0x100 + 0x100 * (u / 0x100 % 0x100) + TWO16 * (u / TWO16 % 0x100) + 0x100_0000 * (u / 0x100_0000) == u
  {
    var a, b, c := u / 0x100, u / 0x100 / 0x100, u / 0x100 / 0x100 / 0x100;
    var d, e, f := u % 0x100, a % 0x100, b % 0x100;
    ByTwoBytes(b, 0x100 * e + d);
    ByThreeBytes(c, TWO16 * f + (0x100 * e + d));
    hide *;
    assert u == TWO16 * b + (0x100 * e + d) == 0x100_0000 * c + (TWO16 * f + (0x100 * e + d));
  }

  /** A command that a C program can give: its socket is an int and its URL a C string. */
  predicate IsCommand(c: Command) {
    match c
    case Configure(s, url) => IsInt32(s) && 0 !in url
    case Close(s) => IsInt32(s)
    case Shutdown => true
  }

  /** The message for a command. */
  function Message(c: Command): Bytes
    requires IsCommand(c)
  {
    match c
    case Configure(s, url) => Le32(NC_CONFIGURE) + Le32(s) + url + [0]
    case Close(s) => Le32(NC_CLOSE) + Le32(s)
    case Shutdown => Le32(NC_SHUTDOWN)
  }

  /** `strlen` from i on; the end of the buffer if there is no zero byte. */
  function StringEnd(b: Bytes, i: nat): (j: nat)
    requires i <= |b|
    ensures i <= j <= |b| && 0 !in b[i..j] && (j < |b| ==> b[j] == 0)
    decreases |b| - i
  {
    if i == |b| || b[i] == 0 then i
    else
      assert b[i..StringEnd(b, i + 1)] == [b[i]] + b[i + 1..StringEnd(b, i + 1)];
      StringEnd(b, i + 1)
  }

  /** What the worker's loop makes of a message: a command, or none where it would abort or
      read past what it received. */
  function ReadCommand(buf: Bytes): Option<Command> {
    if |buf| < 4 then None
    else
      var tag := IntAtLe(buf, 0);
      if tag == NC_SHUTDOWN then Some(Shutdown)
      else if |buf| < 8 then None
      else if tag == NC_CLOSE then Some(Close(IntAtLe(buf, 4)))
      else if tag == NC_CONFIGURE && StringEnd(buf, 8) < |buf| then
        Some(Configure(IntAtLe(buf, 4), buf[8..StringEnd(buf, 8)]))
      else None
  }

  /** What `nn_recv` leaves in the worker's buffer. */
  function Received(message: Bytes): Bytes {
    if |message| > WORKER_BUFFER then message[..WORKER_BUFFER] else message
  }

  lemma FirstZero(b: Bytes, i: nat, j: nat)
    requires i <= j < |b| && 0 !in b[i..j] && b[j] == 0
    ensures StringEnd(b, i) == j
    decreases j - i
  {
    if i < j {
      assert b[i] == b[i..j][0] && b[i + 1..j] == b[i..j][1..];
      FirstZero(b, i + 1, j);
    }
  }

  /** Every command arrives as it was given, provided its message is not longer than the
      worker's buffer. */
  lemma CommandRoundTrip(c: Command)
    requires IsCommand(c) && |Message(c)| <= WORKER_BUFFER
    ensures ReadCommand(Received(Message(c))) == Some(c)
  {
    var b := Message(c);
    hide Le32, IntAtLe, StringEnd;
    match c
    case Configure(s, url) =>
      assert b[0..4] == Le32(NC_CONFIGURE) && b[4..8] == Le32(s) && b[8..8 + |url|] == url;
      Le32RoundTrip(NC_CONFIGURE, b, 0);
      Le32RoundTrip(s, b, 4);
      FirstZero(b, 8, 8 + |url|);
    case Close(s) =>
      assert b[0..4] == Le32(NC_CLOSE) && b[4..8] == Le32(s);
      Le32RoundTrip(NC_CLOSE, b, 0);
      Le32RoundTrip(s, b, 4);
    case Shutdown =>
      assert b[0..4] == Le32(NC_SHUTDOWN);
      Le32RoundTrip(NC_SHUTDOWN, b, 0);
  }

  /** A valid URL fits, with 41 bytes to spare, and is a C string. */
  lemma ValidUrlFits(s: int, url: Bytes)
    requires ValidUrl(url) && IsInt32(s)
    ensures IsCommand(Configure(s, url)) && |Message(Configure(s, url))| + 41 <= WORKER_BUFFER
  {
  }

  // ----- The library

  class Library {
    var initialized: bool
    var starts: nat         // how often the worker thread was started
    var sent: seq<Bytes>    // the messages the worker socket took
    var closed: seq<int>    // the sockets closed without the worker
    ghost var commands: seq<Command>

    /** The worker runs once if anything was ever started, and what is on its way to it says
        what it was told, in order. */
    ghost predicate Valid()
      reads this
    {
      && starts == (if initialized then 1 else 0)
      && (!initialized ==> sent == [])
      && |sent| == |commands|
      && forall k :: 0 <= k < |sent| ==> ReadCommand(Received(sent[k])) == Some(commands[k])
    }

    constructor ()
      ensures Valid() && !initialized && commands == [] && closed == []
    {
      initialized, starts, sent, closed, commands := false, 0, [], [], [];
    }

    /** `nc_start` */
    method Start()
      requires Valid()
      modifies this`initialized, this`starts
      ensures Valid() && initialized
    {
      if initialized { return; }
      starts := starts + 1;
      initialized := true;
    }

    /** `nn_send` on the worker socket; it may fail. */
    method Send(ghost c: Command, message: Bytes, goes: bool)
      requires Valid() && initialized && ReadCommand(Received(message)) == Some(c)
      modifies this`sent, this`commands
      ensures Valid() && commands == if goes then old(commands) + [c] else old(commands)
    {
      if goes {
        sent := sent + [message];
        commands := commands + [c];
      }
    }

    /** `nc_configure`: a URL it does not take starts nothing. */
    method Configure(sock: int, url: Bytes, allocates: bool, goes: bool) returns (rc: int)
      requires Valid() && IsInt32(sock)
      modifies this
      ensures Valid() && closed == old(closed)
      ensures rc == if ValidUrl(url) && allocates && goes then 0 else -1
      ensures commands == if rc == 0 then old(commands) + [Command.Configure(sock, url)] else old(commands)
      ensures initialized <==> old(initialized) || ValidUrl(url)
    {
      var ok := ValidateUrl(url);
      if !ok { return -1; }
      Start();
      if !allocates { return -1; }
      ValidUrlFits(sock, url);
      CommandRoundTrip(Command.Configure(sock, url));
      Send(Command.Configure(sock, url), Message(Command.Configure(sock, url)), goes);
      return if goes then 0 else -1;
    }

    /** `nc_close`: before anything was configured the socket is closed at once. */
    method Close(sock: int, goes: bool)
      requires Valid() && IsInt32(sock)
      modifies this
      ensures Valid() && initialized == old(initialized)
      ensures closed == if old(initialized) then old(closed) else old(closed) + [sock]
      ensures commands == if old(initialized) && goes then old(commands) + [Command.Close(sock)] else old(commands)
    {
      if !initialized {
        closed := closed + [sock];
        return;
      }
      CommandRoundTrip(Command.Close(sock));
      Send(Command.Close(sock), Message(Command.Close(sock)), goes);
    }

    /** `nc_term` */
    method Term(goes: bool)
      requires Valid()
      modifies this`sent, this`commands
      ensures Valid()
      ensures commands == if initialized && goes then old(commands) + [Shutdown] else old(commands)
    {
      if !initialized { return; }
      CommandRoundTrip(Shutdown);
      Send(Shutdown, Message(Shutdown), goes);
    }
  }
}
