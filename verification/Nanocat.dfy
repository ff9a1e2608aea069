/** The option table of tools/nanocat.c and which loop `main` enters. */
module Nanocat {
  import opened Wrappers
  import opened Options

  // Bits of the masks
  const SOCK := 0
  const WRITEABLE := 1
  const READABLE := 2
  const SUBSCRIBER := 3
  const DATA := 4
  const ENDPOINT := 5

  // Fields of the target
  const VERBOSE := 0
  const SOCKET_TYPE := 1
  const TOPOLOGY := 2
  const SUBSCRIPTIONS := 3
  const INTERVAL := 4
  const DATA_TO_SEND := 5
  const ECHO_FORMAT := 6

  // Socket types: nanomsg's constants, of which only that they differ matters here
  const PUSH := 1
  const PULL := 2
  const PUB := 3
  const SUB := 4
  const REQ := 5
  const REP := 6
  const SURVEYOR := 7
  const RESPONDENT := 8
  const BUS := 9
  const PAIR := 10

  const FORMATS: seq<string> := ["no", "raw", "ascii", "quoted", "msgpack"]

  function Plain(name: string, letter: char, kind: Kind, field: nat): Opt {
    Opt(name, letter, None, kind, field, {}, {}, {})
  }

  function Type(name: string, program: string, constant: int, sets: set<nat>, needs: set<nat>): Opt {
    Opt(name, NUL, Some(program), SetEnum(constant), SOCKET_TYPE, sets, {SOCK}, needs)
  }

  function Echo(name: string, letter: char, constant: int): Opt {
    Opt(name, letter, None, SetEnum(constant), ECHO_FORMAT, {}, {}, {READABLE})
  }

  const GENERIC: seq<Opt> := [
    Plain("verbose", 'v', Increment, VERBOSE),
    Plain("silent", 'q', Decrement, VERBOSE),
    Plain("help", 'h', Help, 0)
  ]

  const SOCKET_TYPES: seq<Opt> := [
    Type("push", "nn_push", PUSH, {SOCK, WRITEABLE}, {DATA}),
    Type("pull", "nn_pull", PULL, {SOCK, READABLE}, {}),
    Type("pub", "nn_pub", PUB, {SOCK, WRITEABLE}, {DATA}),
    Type("sub", "nn_sub", SUB, {SOCK, READABLE, SUBSCRIBER}, {}),
    Type("req", "nn_req", REQ, {SOCK, WRITEABLE, READABLE}, {DATA}),
    Type("rep", "nn_rep", REP, {SOCK, WRITEABLE, READABLE}, {}),
    Type("surveyor", "nn_surveyor", SURVEYOR, {SOCK, WRITEABLE, READABLE}, {DATA}),
    Type("respondent", "nn_respondent", RESPONDENT, {SOCK, WRITEABLE, READABLE}, {}),
    Type("bus", "nn_bus", BUS, {SOCK, WRITEABLE, READABLE}, {}),
    Type("pair", "nn_pair", PAIR, {SOCK, WRITEABLE, READABLE}, {})
  ]

  const OTHERS: seq<Opt> := [
    Opt("topology", 'T', None, Text, TOPOLOGY, {ENDPOINT}, {ENDPOINT}, {}),
    Opt("subscribe", NUL, None, ListAppend, SUBSCRIPTIONS, {}, {}, {SUBSCRIBER}),
    Opt("format", NUL, None, Enum(FORMATS), ECHO_FORMAT, {}, {}, {READABLE}),
    Echo("raw", NUL, 1),
    Echo("ascii", 'A', 2),
    Echo("quoted", 'Q', 3),
    Echo("msgpack", NUL, 4),
    Opt("interval", 'i', None, Float, INTERVAL, {}, {}, {WRITEABLE}),
    Opt("data", 'D', None, Blob, DATA_TO_SEND, {DATA}, {DATA}, {WRITEABLE}),
    Opt("file", 'F', None, ReadFile, DATA_TO_SEND, {DATA}, {DATA}, {WRITEABLE})
  ]

  const TABLE: seq<Opt> := GENERIC + SOCKET_TYPES + OTHERS
  const NEEDED: set<nat> := {SOCK, ENDPOINT}
  const EXCLUSIVE: set<nat> := {SOCK, ENDPOINT, DATA}

  // ----- The target

  /** The socket type that has been stored, 0 at first. */
  function SocketType(log: seq<Use>): int
    requires InTable(TABLE, log)
  {
    if log == [] then 0
    else
      var n := |log| - 1;
      var o := TABLE[log[n].i];
      if o.field == SOCKET_TYPE && o.kind.SetEnum? then o.kind.constant else SocketType(log[..n])
  }

  /** How many options in use store in this field. */
  function HowMany(us: seq<Use>, field: nat): nat
    requires InTable(TABLE, us)
  {
    if us == [] then 0 else (if TABLE[us[0].i].field == field then 1 else 0) + HowMany(us[1..], field)
  }

  /** Whether there is data to send. */
  predicate HasData(log: seq<Use>)
    requires InTable(TABLE, log)
  {
    HowMany(log, DATA_TO_SEND) > 0
  }

  datatype Loop = SendLoop | RecvLoop | RwLoop | RespLoop | NoLoop

  /** The dispatch of `main`. */
  function LoopOf(socketType: int, data: bool): Loop {
    if socketType == PUB || socketType == PUSH then SendLoop
    else if socketType == SUB || socketType == PULL then RecvLoop
    else if socketType == BUS || socketType == PAIR then if data then RwLoop else RecvLoop
    else if socketType == SURVEYOR || socketType == REQ then RwLoop
    else if socketType == REP || socketType == RESPONDENT then if data then RespLoop else RecvLoop
    else NoLoop
  }

  predicate Sends(l: Loop) {
    l.SendLoop? || l.RwLoop? || l.RespLoop?
  }

  /** The loops that print what they receive. */
  predicate Prints(l: Loop) {
    l.RecvLoop? || l.RwLoop? || l.RespLoop?
  }

  // ----- What the rows say

  predicate Receives(socketType: int) {
    socketType != PUSH && socketType != PUB
  }

  predicate Transmits(socketType: int) {
    socketType != PULL && socketType != SUB
  }

  /** The socket types with which nanocat has to speak first. */
  predicate SpeaksFirst(socketType: int) {
    socketType == PUSH || socketType == PUB || socketType == REQ || socketType == SURVEYOR
  }

  /** What an option other than a socket type needs, by where it stores. */
  function NeedsOf(field: nat): set<nat> {
    if field == ECHO_FORMAT then {READABLE}
    else if field == SUBSCRIPTIONS then {SUBSCRIBER}
    else if field == INTERVAL || field == DATA_TO_SEND then {WRITEABLE}
    else {}
  }

  predicate IsType(o: Opt) {
    && o.field == SOCKET_TYPE && o.kind.SetEnum? && 1 <= o.kind.constant <= 10
    && SOCK in o.sets && DATA !in o.sets && ENDPOINT !in o.sets && o.conflicts == {SOCK}
    && (READABLE in o.sets <==> Receives(o.kind.constant))
    && (WRITEABLE in o.sets <==> Transmits(o.kind.constant))
    && (SUBSCRIBER in o.sets <==> o.kind.constant == SUB)
    && o.needs == (if SpeaksFirst(o.kind.constant) then {DATA} else {})
    && o.arg0name.Some? && "nn_" <= o.arg0name.value
  }

  predicate IsOther(o: Opt) {
    && o.field != SOCKET_TYPE && o.arg0name.None? && o.conflicts == o.sets && o.needs == NeedsOf(o.field)
    && o.sets == (if o.field == TOPOLOGY then {ENDPOINT} else if o.field == DATA_TO_SEND then {DATA} else {})
  }

  predicate RowOk(o: Opt) {
    IsType(o) || IsOther(o)
  }

  lemma GenericOk()
    ensures forall o :: o in GENERIC ==> RowOk(o)
  {
  }

  lemma FirstTypesOk()
    ensures forall k :: 0 <= k < 5 ==> IsType(SOCKET_TYPES[k])
  {
    assert IsType(SOCKET_TYPES[0]) && IsType(SOCKET_TYPES[1]) && IsType(SOCKET_TYPES[2]);
    assert IsType(SOCKET_TYPES[3]) && IsType(SOCKET_TYPES[4]);
    hide IsType;
  }

  lemma LastTypesOk()
    ensures forall k :: 5 <= k < 10 ==> IsType(SOCKET_TYPES[k])
  {
    assert IsType(SOCKET_TYPES[5]) && IsType(SOCKET_TYPES[6]) && IsType(SOCKET_TYPES[7]);
    assert IsType(SOCKET_TYPES[8]) && IsType(SOCKET_TYPES[9]);
    hide IsType;
  }

  lemma TypesOk()
    ensures forall o :: o in SOCKET_TYPES ==> RowOk(o)
  {
    FirstTypesOk();
    LastTypesOk();
    assert |SOCKET_TYPES| == 10;
    hide SOCKET_TYPES, IsType;
  }

  lemma OthersOk()
    ensures forall o :: o in OTHERS ==> RowOk(o)
  {
    forall k | 0 <= k < |OTHERS|
      ensures RowOk(OTHERS[k])
    {
      if k == 0 { assert RowOk(OTHERS[0]); }
      else if k == 8 { assert RowOk(OTHERS[8]); }
      else if k == 9 { assert RowOk(OTHERS[9]); }
    }
  }

  lemma RowsOk()
    ensures forall o :: o in TABLE ==> RowOk(o)
  {
    GenericOk();
    TypesOk();
    OthersOk();
    hide GENERIC, SOCKET_TYPES, OTHERS, RowOk;
  }

  /** Which of the bits that conflict a row sets, and that it conflicts with these. */
  lemma RowBits(o: Opt)
    requires RowOk(o)
    ensures SOCK in o.sets <==> o.field == SOCKET_TYPE
    ensures ENDPOINT in o.sets <==> o.field == TOPOLOGY
    ensures DATA in o.sets <==> o.field == DATA_TO_SEND
    ensures o.conflicts == o.sets * EXCLUSIVE
    ensures READABLE in o.sets || WRITEABLE in o.sets || SUBSCRIBER in o.sets ==> IsType(o)
  {
  }

  /** Conflicts among the options of nanocat are mutual. */
  lemma ConflictsAreMutual()
    ensures Symmetric(TABLE)
  {
    hide TABLE;
    forall a, b | Bars(TABLE, a, b)
      ensures Bars(TABLE, b, a)
    {
      RowIs(a.i);
      RowIs(b.i);
      var bit :| bit in TABLE[a.i].sets * TABLE[b.i].conflicts;
      assert bit in TABLE[b.i].sets * TABLE[a.i].conflicts;
    }
  }

  /** So the order of nanocat's options does not matter for being accepted. */
  lemma AnyOrder(libc: Oracle, us: seq<Use>, vs: seq<Use>)
    requires InTable(TABLE, us) && InTable(TABLE, vs) && multiset(us) == multiset(vs)
    ensures Accepted(TABLE, NEEDED, libc, us) <==> Accepted(TABLE, NEEDED, libc, vs)
  {
    ConflictsAreMutual();
    OrderIrrelevant(TABLE, NEEDED, libc, us, vs);
  }

  lemma {:induction false} SocketTypeIs(log: seq<Use>) returns (u: Use)
    requires InTable(TABLE, log) && SOCK in MaskOf(TABLE, log)
    ensures u in log && IsType(TABLE[u.i]) && SocketType(log) == TABLE[u.i].kind.constant
  {
    hide TABLE, IsType;
    if log == [] {
      assert false;
    } else {
      var n := |log| - 1;
      var front, last := log[..n], log[n];
      assert log == front + [last] && last in log;
      RowKind(last.i);
      MaskBoth(TABLE, front, [last]);
      MaskOfOne(last);
      hide MaskOf;
      u := last;
      if SOCK !in TABLE[last.i].sets {
        u := SocketTypeIs(front);
      }
    }
  }

  lemma RowKind(i: nat)
    requires i < |TABLE|
    ensures SOCK in TABLE[i].sets <==> TABLE[i].field == SOCKET_TYPE
    ensures TABLE[i].field == SOCKET_TYPE <==> IsType(TABLE[i])
    ensures TABLE[i].field == SOCKET_TYPE ==> TABLE[i].kind.SetEnum?
  {
    RowIs(i);
    RowBits(TABLE[i]);
    hide TABLE;
  }

  lemma MaskOfOne(u: Use)
    requires u.i < |TABLE|
    ensures MaskOf(TABLE, [u]) == TABLE[u.i].sets
  {
    hide TABLE;
    assert [u][1..] == [];
  }

  lemma RowIs(i: nat)
    requires i < |TABLE|
    ensures RowOk(TABLE[i])
  {
    RowsOk();
    assert TABLE[i] in TABLE;
    hide TABLE, RowOk;
  }

  /** A command line that gets past the parser: everything on it has been stored. */
  lemma AcceptedRun(t: seq<Opt>, required: set<nat>, libc: Oracle, argv: seq<string>)
    requires argv != [] && Run(t, required, libc, argv).stop.None?
    ensures var s, us := Run(t, required, libc, argv), UsesOf(t, argv).uses;
            && InTable(t, us) && s.log == us && NoneBarred(t, us) && AllFit(t, libc, us)
            && NeedsMet(t, us, MaskOf(t, us)) && required <= MaskOf(t, us)
  {
    var p := UsesOf(t, argv);
    ProcessedExactly(t, libc, p.uses);
    var s := Finish(t, libc, START, p);
    hide ProcessAll, NoneBarred, AllFit, NeedsMet, MaskOf;
    CheckExactly(t, required, s);
  }

  lemma {:induction false} HowManySetting(us: seq<Use>)
    requires InTable(TABLE, us)
    ensures Setting(TABLE, us, SOCK) == HowMany(us, SOCKET_TYPE)
    ensures Setting(TABLE, us, ENDPOINT) == HowMany(us, TOPOLOGY)
    ensures Setting(TABLE, us, DATA) == HowMany(us, DATA_TO_SEND)
  {
    hide TABLE, RowOk;
    if us != [] {
      HowManySetting(us[1..]);
      RowIs(us[0].i);
      RowBits(TABLE[us[0].i]);
    }
  }

  lemma {:induction false} HowManyIn(us: seq<Use>, field: nat)
    requires InTable(TABLE, us)
    ensures HowMany(us, field) > 0 <==> exists u :: u in us && TABLE[u.i].field == field
  {
    hide TABLE;
    if us != [] {
      HowManyIn(us[1..], field);
      assert us == [us[0]] + us[1..];
    }
  }

  /** Each of the bits that conflict is set at most once. */
  ghost predicate EachOnce(us: seq<Use>)
    requires InTable(TABLE, us)
  {
    forall b :: b in EXCLUSIVE ==> Setting(TABLE, us, b) <= 1
  }

  lemma BarredExactly(us: seq<Use>)
    requires InTable(TABLE, us)
    ensures NoneBarred(TABLE, us) <==> EachOnce(us)
  {
    hide TABLE, MaskOf, Setting, EXCLUSIVE, RowOk, Bars;
    forall i | 0 <= i < |TABLE|
      ensures TABLE[i].conflicts == TABLE[i].sets * EXCLUSIVE
    {
      RowIs(i);
      RowBits(TABLE[i]);
    }
    if NoneBarred(TABLE, us) {
      forall b | b in EXCLUSIVE
        ensures Setting(TABLE, us, b) <= 1
      {
        AtMostOne(TABLE, us, b);
      }
    }
    if EachOnce(us) {
      forall j, k | 0 <= j < k < |us|
        ensures !Bars(TABLE, us[j], us[k])
      {
        NotBoth(us, j, k);
      }
    }
  }

  lemma NotBoth(us: seq<Use>, j: nat, k: nat)
    requires InTable(TABLE, us) && EachOnce(us) && j < k < |us|
    requires TABLE[us[k].i].conflicts == TABLE[us[k].i].sets * EXCLUSIVE
    ensures !Bars(TABLE, us[j], us[k])
  {
    hide TABLE, Setting, EXCLUSIVE;
    if Bars(TABLE, us[j], us[k]) {
      var b :| b in TABLE[us[j].i].sets * TABLE[us[k].i].conflicts;
      SettingTwice(TABLE, us, b, j, k);
      assert false;
    }
  }

  /** What the uses of a command line have to do with one another. */
  predicate Sensible(us: seq<Use>)
    requires InTable(TABLE, us)
  {
    && HowMany(us, SOCKET_TYPE) == 1 && HowMany(us, TOPOLOGY) == 1 && HowMany(us, DATA_TO_SEND) <= 1
    && FitsSocket(us, SocketType(us))
  }

  predicate FitsSocket(us: seq<Use>, socketType: int)
    requires InTable(TABLE, us)
  {
    && (HowMany(us, ECHO_FORMAT) > 0 ==> Receives(socketType))
    && (HowMany(us, SUBSCRIPTIONS) > 0 ==> socketType == SUB)
    && (HowMany(us, INTERVAL) > 0 || HasData(us) ==> Transmits(socketType))
    && (SpeaksFirst(socketType) ==> HasData(us))
  }

  /** Nanocat accepts exactly the command lines that name one socket type, one topology and data
      at most once; that ask for an echo format only if the socket receives, for subscriptions
      only if it is a SUB, for an interval or data only if it sends; and that give data if the
      socket is of a type that speaks first. */
  lemma AcceptedSensibly(libc: Oracle, us: seq<Use>)
    requires InTable(TABLE, us)
    ensures Accepted(TABLE, NEEDED, libc, us) <==> AllFit(TABLE, libc, us) && Sensible(us)
  {
    AcceptedExactly(TABLE, NEEDED, libc, us);
    BarredExactly(us);
    HowManySetting(us);
    hide TABLE, MaskOf, Setting, NoneBarred, AllFit, Accepted, NeedsMet, FitsSocket, HowMany, SocketType;
    SettingMask(TABLE, us, SOCK);
    SettingMask(TABLE, us, ENDPOINT);
    assert EachOnce(us) <==> Setting(TABLE, us, SOCK) <= 1 && Setting(TABLE, us, ENDPOINT) <= 1 &&
                             Setting(TABLE, us, DATA) <= 1;
    if HowMany(us, SOCKET_TYPE) == 1 {
      NeedsExactly(us);
    }
  }

  /** What one row asks of a command line with a socket type and, perhaps, data. */
  predicate Served(o: Opt, socketType: int, data: bool) {
    && (o.field == SOCKET_TYPE && SpeaksFirst(socketType) ==> data)
    && (o.field == ECHO_FORMAT ==> Receives(socketType))
    && (o.field == SUBSCRIPTIONS ==> socketType == SUB)
    && (o.field == INTERVAL || o.field == DATA_TO_SEND ==> Transmits(socketType))
  }

  /** The bits of a command line with a socket type and, perhaps, data. */
  ghost predicate MaskFits(mask: set<nat>, socketType: int, data: bool) {
    && (READABLE in mask <==> Receives(socketType))
    && (WRITEABLE in mask <==> Transmits(socketType))
    && (SUBSCRIBER in mask <==> socketType == SUB)
    && (DATA in mask <==> data)
  }

  lemma RowServed(o: Opt, socketType: int, data: bool, mask: set<nat>)
    requires RowOk(o) && MaskFits(mask, socketType, data)
    requires o.field == SOCKET_TYPE ==> o.kind.SetEnum? && o.kind.constant == socketType
    ensures o.needs <= mask <==> Served(o, socketType, data)
  {
  }

  /** All uses that set a socket type are the same use. */
  lemma OneType(us: seq<Use>, u: Use, v: Use)
    requires InTable(TABLE, us) && Setting(TABLE, us, SOCK) == 1 && u in us && v in us
    requires SOCK in TABLE[u.i].sets && SOCK in TABLE[v.i].sets
    ensures u == v
  {
    hide TABLE, Setting;
    var j :| 0 <= j < |us| && us[j] == u;
    var k :| 0 <= k < |us| && us[k] == v;
    if j < k {
      SettingTwice(TABLE, us, SOCK, j, k);
    } else if k < j {
      SettingTwice(TABLE, us, SOCK, k, j);
    }
  }

  lemma TypesAgree(us: seq<Use>, u: Use)
    requires InTable(TABLE, us) && Setting(TABLE, us, SOCK) == 1 && u in us && IsType(TABLE[u.i])
    ensures forall v :: v in us && TABLE[v.i].field == SOCKET_TYPE ==> v == u
  {
    hide TABLE, Setting, IsType;
    RowKind(u.i);
    forall v | v in us && TABLE[v.i].field == SOCKET_TYPE
      ensures v == u
    {
      RowKind(v.i);
      OneType(us, v, u);
    }
  }

  lemma MaskOfType(us: seq<Use>, u: Use)
    requires InTable(TABLE, us) && Setting(TABLE, us, SOCK) == 1 && u in us && IsType(TABLE[u.i])
    ensures MaskFits(MaskOf(TABLE, us), TABLE[u.i].kind.constant, HasData(us))
  {
    TypesAgree(us, u);
    HowManySetting(us);
    SettingMask(TABLE, us, DATA);
    var mask := MaskOf(TABLE, us);
    hide TABLE, Setting, MaskOf, RowOk, HowMany;
    assert TABLE[u.i].sets <= mask;
    forall b | b in mask && (b == READABLE || b == WRITEABLE || b == SUBSCRIBER)
      ensures b in TABLE[u.i].sets
    {
      var v :| v in us && b in TABLE[v.i].sets;
      RowIs(v.i);
      RowBits(TABLE[v.i]);
      RowKind(v.i);
    }
  }

  lemma NeedsExactly(us: seq<Use>)
    requires InTable(TABLE, us) && Setting(TABLE, us, SOCK) == 1
    ensures NeedsMet(TABLE, us, MaskOf(TABLE, us)) <==> FitsSocket(us, SocketType(us))
  {
    hide TABLE, MaskOf, Setting, IsType, RowOk, HowMany, SocketType, FitsSocket, Served, MaskFits, HasData;
    SettingMask(TABLE, us, SOCK);
    var u := SocketTypeIs(us);
    TypesAgree(us, u);
    MaskOfType(us, u);
    forall v | v in us
      ensures TABLE[v.i].needs <= MaskOf(TABLE, us) <==> Served(TABLE[v.i], SocketType(us), HasData(us))
    {
      RowIs(v.i);
      RowKind(v.i);
      RowServed(TABLE[v.i], SocketType(us), HasData(us), MaskOf(TABLE, us));
    }
    HowManySetting(us);
    ServedExactly(us, SocketType(us));
  }

  ghost predicate AllServed(us: seq<Use>, socketType: int)
    requires InTable(TABLE, us)
  {
    forall u :: u in us ==> Served(TABLE[u.i], socketType, HasData(us))
  }

  lemma ServedExactly(us: seq<Use>, socketType: int)
    requires InTable(TABLE, us) && HowMany(us, SOCKET_TYPE) == 1
    ensures AllServed(us, socketType) <==> FitsSocket(us, socketType)
  {
    hide TABLE, HowMany;
    HowManyIn(us, SOCKET_TYPE);
    HowManyIn(us, ECHO_FORMAT);
    HowManyIn(us, SUBSCRIPTIONS);
    HowManyIn(us, INTERVAL);
    HowManyIn(us, DATA_TO_SEND);
  }

  /** So does the whole command line, once it can be read to its end. */
  lemma AcceptedLine(libc: Oracle, argv: seq<string>)
    requires argv != []
    ensures var p := UsesOf(TABLE, argv);
            Run(TABLE, NEEDED, libc, argv).stop.None? <==>
            p.stop.None? && AllFit(TABLE, libc, p.uses) && Sensible(p.uses)
  {
    hide *;
    RunAccepts(TABLE, NEEDED, libc, argv);
    AcceptedSensibly(libc, UsesOf(TABLE, argv).uses);
  }

  /** Every command line that nanocat accepts names exactly one socket type and one topology and
      data at most once.  Its loop prints what comes in exactly if the socket receives, sends
      exactly if there is data, and answers exactly if there is data and the socket is one that
      is asked. */
  lemma AcceptedNanocat(libc: Oracle, argv: seq<string>)
    requires argv != [] && Run(TABLE, NEEDED, libc, argv).stop.None?
    ensures var log := Run(TABLE, NEEDED, libc, argv).log;
            && log == UsesOf(TABLE, argv).uses && AllFit(TABLE, libc, log) && Sensible(log)
            && RightLoop(SocketType(log), HasData(log))
  {
    AcceptedRun(TABLE, NEEDED, libc, argv);
    var log := Run(TABLE, NEEDED, libc, argv).log;
    hide *;
    AcceptedExactly(TABLE, NEEDED, libc, log);
    AcceptedSensibly(libc, log);
    TypeInRange(log);
    LoopRight(log);
  }

  predicate RightLoop(socketType: int, data: bool) {
    var l := LoopOf(socketType, data);
    && (Prints(l) <==> socketType !in {PUSH, PUB})
    && (Sends(l) <==> data)
    && (l == RespLoop <==> data && socketType in {REP, RESPONDENT})
  }

  lemma TypeInRange(us: seq<Use>)
    requires InTable(TABLE, us) && HowMany(us, SOCKET_TYPE) == 1
    ensures 1 <= SocketType(us) <= 10
  {
    hide TABLE, HowMany, Setting, MaskOf, SocketType;
    HowManySetting(us);
    SettingMask(TABLE, us, SOCK);
    var u := SocketTypeIs(us);
  }

  lemma LoopRight(us: seq<Use>)
    requires InTable(TABLE, us) && Sensible(us) && 1 <= SocketType(us) <= 10
    ensures RightLoop(SocketType(us), HasData(us))
  {
    hide TABLE, HowMany, SocketType;
  }

  // ----- What the messages say

  const NCCAT: string := "nccat"
  const PULL_ROW: nat := 4

  lemma {:induction false} NotNamed(t: seq<Opt>, name: string, i: nat)
    requires i <= |t| && forall o :: o in t ==> o.arg0name != Some(name)
    ensures ByName(t, name, i) == []
    decreases |t| - i
  {
    if i < |t| {
      NotNamed(t, name, i + 1);
    }
  }

  lemma NccatIsNoOption()
    ensures Base(NCCAT) == NCCAT && ByName(TABLE, NCCAT, 0) == []
  {
    RowsOk();
    hide TABLE;
    assert NCCAT[1] != "nn_"[1];
    assert !("nn_" <= NCCAT);
    NotNamed(TABLE, NCCAT, 0);
  }

  lemma PullRow()
    ensures PULL_ROW < |TABLE| && TABLE[PULL_ROW] == Type("pull", "nn_pull", PULL, {SOCK, READABLE}, {})
    ensures PieceOk(TABLE, LongFlag(PULL_ROW))
  {
    var table := TABLE;
    assert table[PULL_ROW] == SOCKET_TYPES[1];
    assert table[0] == GENERIC[0] && table[1] == GENERIC[1] && table[2] == GENERIC[2] && table[3] == SOCKET_TYPES[0];
    hide TABLE, GENERIC, SOCKET_TYPES, OTHERS;
  }

  lemma PullWritten()
    ensures AllOk(TABLE, [LongFlag(PULL_ROW)]) && WrittenAll(TABLE, [LongFlag(PULL_ROW)]) == ["--pull"]
    ensures MeantAll([LongFlag(PULL_ROW)]) == [Use(PULL_ROW, None)]
  {
    PullRow();
    hide TABLE, PieceOk, WrittenAll, MeantAll;
    OnePiece(TABLE, LongFlag(PULL_ROW));
    assert "--" + TABLE[PULL_ROW].longname == "--pull";
  }

  lemma OnePiece(t: seq<Opt>, p: Piece)
    requires PieceOk(t, p)
    ensures AllOk(t, [p]) && WrittenAll(t, [p]) == Written(t, p) && MeantAll([p]) == Meant(p)
  {
    hide PieceOk, Written, Meant;
    var ps := [p];
    assert ps != [] && ps[0] == p && ps[1..] == [];
    assert MeantAll(ps) == Meant(ps[0]) + MeantAll(ps[1..]) == Meant(p);
    assert WrittenAll(t, ps) == Written(t, ps[0]) + WrittenAll(t, ps[1..]) == Written(t, p);
  }

  /** What the message about one option asks for is what that option needs; only the message
      about what nccat itself requires says less than the code asks. */
  lemma OptionMessagesRight(libc: Oracle, us: seq<Use>)
    requires InTable(TABLE, us)
    ensures Accepted(TABLE, NEEDED, libc, us) <==>
            AcceptedAsSaid(TABLE, {}, libc, us) && NEEDED <= MaskOf(TABLE, us)
  {
    RowsOk();
    forall o | o in TABLE
      ensures Together(TABLE, o.needs)
    {
      NeedTogether(o);
    }
    hide TABLE, NEEDED, RowOk, Together, Accepted, AcceptedAsSaid;
    NothingTogether(TABLE);
    MessagesRight(TABLE, {}, libc, us);
    AcceptedExactly(TABLE, {}, libc, us);
    AcceptedExactly(TABLE, NEEDED, libc, us);
  }

  lemma NothingTogether(t: seq<Opt>)
    ensures Together(t, {})
  {
  }

  lemma NeedTogether(o: Opt)
    requires RowOk(o)
    ensures Together(TABLE, o.needs)
  {
    hide TABLE, Together;
    NothingTogether(TABLE);
    OneBit(TABLE, DATA);
    OneBit(TABLE, READABLE);
    OneBit(TABLE, WRITEABLE);
    OneBit(TABLE, SUBSCRIBER);
  }

  /** `nccat --pull` has one of the bits that are required and is refused, with the message that
      at least one of them is. */
  lemma PullAlone(libc: Oracle)
    ensures Run(TABLE, NEEDED, libc, [NCCAT, "--pull"]).stop == Some(Required)
    ensures var us := UsesOf(TABLE, [NCCAT, "--pull"]).uses;
            us == [Use(PULL_ROW, None)] && AcceptedAsSaid(TABLE, NEEDED, libc, us)
  {
    PullWritten();
    NccatIsNoOption();
    hide *;
    RunWritten(TABLE, NEEDED, libc, NCCAT, [LongFlag(PULL_ROW)]);
    assert [NCCAT] + ["--pull"] == [NCCAT, "--pull"] && [] + [Use(PULL_ROW, None)] == [Use(PULL_ROW, None)];
    OnlyPull(libc);
  }

  lemma OnlyPull(libc: Oracle)
    ensures PULL_ROW < |TABLE|
    ensures var us := [Use(PULL_ROW, None)];
            && Check(TABLE, NEEDED, ProcessAll(TABLE, libc, START, us)).stop == Some(Required)
            && AcceptedAsSaid(TABLE, NEEDED, libc, us)
  {
    PullRow();
    hide TABLE, NEEDED, PieceOk, Check, ProcessAll, AcceptedAsSaid, OneOf;
    OneFlag(TABLE, NEEDED, libc, PULL_ROW);
    PullLacks();
  }

  lemma PullLacks()
    ensures !(NEEDED <= {SOCK, READABLE}) && OneOf(NEEDED, {SOCK, READABLE})
  {
    assert ENDPOINT in NEEDED && SOCK in NEEDED * {SOCK, READABLE};
  }

  /** A command line of one option without an argument that needs no other. */
  lemma OneFlag(t: seq<Opt>, required: set<nat>, libc: Oracle, i: nat)
    requires i < |t| && t[i].kind.SetEnum? && t[i].needs == {}
    ensures var us := [Use(i, None)];
            && (!(required <= t[i].sets) ==>
                  Check(t, required, ProcessAll(t, libc, START, us)).stop == Some(Required))
            && (OneOf(required, t[i].sets) ==> AcceptedAsSaid(t, required, libc, us))
  {
    var us := [Use(i, None)];
    assert us[1..] == [];
    assert MaskOf(t, us) == t[i].sets;
    ProcessedExactly(t, libc, us);
    var s := ProcessAll(t, libc, START, us);
    hide ProcessAll, MaskOf, Check;
    LackingExactly(t, s, 0);
    NothingLacks(t, required, s);
  }

  lemma NothingLacks(t: seq<Opt>, required: set<nat>, s: Sem)
    requires s.stop.None? && FirstLacking(t, s, 0) == |t|
    ensures !(required <= s.mask) ==> Check(t, required, s).stop == Some(Required)
  {
    hide FirstLacking;
  }
}
