/** What nccat's command lines mean: names, program names and echo formats. */
module CommandLines {
  import opened Wrappers
  import opened Options
  import opened Nanocat
  import E = Echo

  // ----- Names of socket types

  /** The constant of a socket type by its name, 0 where there is none: `socket_types`. */
  function ConstantOf(name: string): int {
    if name == "push" then PUSH
    else if name == "pull" then PULL
    else if name == "pub" then PUB
    else if name == "sub" then SUB
    else if name == "req" then REQ
    else if name == "rep" then REP
    else if name == "bus" then BUS
    else if name == "pair" then PAIR
    else if name == "surveyor" then SURVEYOR
    else if name == "respondent" then RESPONDENT
    else 0
  }

  /** An option that stands for the socket type of its name, and for which the program's name can
      stand as well. */
  predicate WellNamed(o: Opt, constant: int) {
    && o.kind == SetEnum(constant) && ConstantOf(o.longname) == constant
    && o.arg0name == Some("nn_" + o.longname) && o.longname != "" && '=' !in o.longname
  }

  lemma PipelineNamesOk()
    ensures forall k :: 0 <= k < 2 ==> WellNamed(SOCKET_TYPES[k], k + 1)
  {
    assert "nn_" + "push" == "nn_push" && "nn_" + "pull" == "nn_pull";
    assert WellNamed(SOCKET_TYPES[0], 1) && WellNamed(SOCKET_TYPES[1], 2);
    hide WellNamed;
  }

  lemma PubsubNamesOk()
    ensures forall k :: 2 <= k < 4 ==> WellNamed(SOCKET_TYPES[k], k + 1)
  {
    assert "nn_" + "pub" == "nn_pub" && "nn_" + "sub" == "nn_sub";
    assert WellNamed(SOCKET_TYPES[2], 3) && WellNamed(SOCKET_TYPES[3], 4);
    hide WellNamed;
  }

  lemma ReqrepNamesOk()
    ensures forall k :: 4 <= k < 6 ==> WellNamed(SOCKET_TYPES[k], k + 1)
  {
    assert "nn_" + "req" == "nn_req" && "nn_" + "rep" == "nn_rep";
    assert WellNamed(SOCKET_TYPES[4], 5) && WellNamed(SOCKET_TYPES[5], 6);
    hide WellNamed;
  }

  lemma SurveyNamesOk()
    ensures forall k :: 6 <= k < 8 ==> WellNamed(SOCKET_TYPES[k], k + 1)
  {
    assert "nn_" + "surveyor" == "nn_surveyor" && "nn_" + "respondent" == "nn_respondent";
    assert WellNamed(SOCKET_TYPES[6], 7) && WellNamed(SOCKET_TYPES[7], 8);
    hide WellNamed;
  }

  lemma OtherNamesOk()
    ensures forall k :: 8 <= k < 10 ==> WellNamed(SOCKET_TYPES[k], k + 1)
  {
    assert "nn_" + "bus" == "nn_bus" && "nn_" + "pair" == "nn_pair";
    assert WellNamed(SOCKET_TYPES[8], 9) && WellNamed(SOCKET_TYPES[9], 10);
    hide WellNamed;
  }

  const TYPES_AT: nat := 3
  const OTHERS_AT: nat := 13

  lemma Layout()
    ensures |GENERIC| == TYPES_AT && |SOCKET_TYPES| == 10 && |OTHERS| == 10 && |TABLE| == 23
    ensures forall k :: 0 <= k < TYPES_AT ==> TABLE[k] == GENERIC[k]
    ensures forall k :: TYPES_AT <= k < OTHERS_AT ==> TABLE[k] == SOCKET_TYPES[k - TYPES_AT]
    ensures forall k :: OTHERS_AT <= k < 23 ==> TABLE[k] == OTHERS[k - OTHERS_AT]
  {
    Lengths();
    hide GENERIC, SOCKET_TYPES, OTHERS;
  }

  lemma Lengths()
    ensures |GENERIC| == TYPES_AT && |SOCKET_TYPES| == 10 && |OTHERS| == 10
  {
  }

  /** The socket types are in rows 3 to 12, and the row decides the constant. */
  lemma TypeRow(i: nat)
    requires TYPES_AT <= i < OTHERS_AT
    ensures i < |TABLE| && WellNamed(TABLE[i], i - TYPES_AT + 1)
  {
    Layout();
    PipelineNamesOk();
    PubsubNamesOk();
    ReqrepNamesOk();
    SurveyNamesOk();
    OtherNamesOk();
    hide TABLE, GENERIC, SOCKET_TYPES, OTHERS, WellNamed;
  }

  lemma OtherRow(i: nat)
    requires i < TYPES_AT || OTHERS_AT <= i < |TABLE|
    ensures |TABLE| == 23 && TABLE[i].arg0name == None && (i < TYPES_AT ==> ConstantOf(TABLE[i].longname) == 0)
  {
    Layout();
    GenericUnnamed();
    OthersUnnamed();
    hide TABLE, GENERIC, SOCKET_TYPES, OTHERS, ConstantOf;
  }

  lemma GenericUnnamed()
    ensures |GENERIC| == 3
    ensures forall k :: 0 <= k < 3 ==> GENERIC[k].arg0name == None && ConstantOf(GENERIC[k].longname) == 0
  {
  }

  lemma OthersUnnamed()
    ensures |OTHERS| == 10 && forall k :: 0 <= k < 10 ==> OTHERS[k].arg0name == None
  {
  }

  /** The option of a socket type can be written out. */
  lemma TypeNameable(i: nat)
    requires TYPES_AT <= i < OTHERS_AT
    ensures PieceOk(TABLE, LongFlag(i))
  {
    TypeRow(i);
    var first := FirstNamed(TABLE, TABLE[i].longname);
    if first < i {
      if first < TYPES_AT {
        OtherRow(first);
      } else {
        TypeRow(first);
      }
    }
    hide TABLE, ConstantOf, FirstNamed;
  }

  lemma {:induction false} OnlyNamed(t: seq<Opt>, name: string, i: nat, k: nat)
    requires i < |t| && k <= |t| && forall j :: 0 <= j < |t| ==> (t[j].arg0name == Some(name) <==> j == i)
    ensures ByName(t, name, k) == if k <= i then [Use(i, None)] else []
    decreases |t| - k
  {
    if k < |t| {
      OnlyNamed(t, name, i, k + 1);
    }
  }

  /** A program of that name stands for that socket type and for nothing else. */
  lemma TypeByName(i: nat)
    requires TYPES_AT <= i < OTHERS_AT
    ensures i < |TABLE| && ByName(TABLE, "nn_" + TABLE[i].longname, 0) == [Use(i, None)]
  {
    hide TABLE, ConstantOf, ByName;
    TypeRow(i);
    var name := "nn_" + TABLE[i].longname;
    forall j | 0 <= j < |TABLE|
      ensures TABLE[j].arg0name == Some(name) <==> j == i
    {
      if TABLE[j].arg0name == Some(name) {
        SameNameSameRow(j, i);
      }
    }
    OnlyNamed(TABLE, name, i, 0);
  }

  lemma SameNameSameRow(j: nat, i: nat)
    requires TYPES_AT <= i < OTHERS_AT && i < |TABLE| && j < |TABLE|
    requires TABLE[j].arg0name == Some("nn_" + TABLE[i].longname)
    ensures j == i
  {
    hide TABLE, ConstantOf;
    TypeRow(i);
    if j < TYPES_AT || j >= OTHERS_AT {
      OtherRow(j);
      assert false;
    } else {
      TypeRow(j);
      var a, b := TABLE[j].longname, TABLE[i].longname;
      assert a == ("nn_" + a)[3..] == ("nn_" + b)[3..] == b;
    }
  }

  /** Calling nanocat by the name of a socket type is calling nccat with that type as its first
      option, whatever comes after. */
  lemma CalledByType(required: set<nat>, libc: Oracle, program: string, i: nat, args: seq<string>)
    requires TYPES_AT <= i < OTHERS_AT && i < |TABLE| && Base(program) == "nn_" + TABLE[i].longname
    ensures Run(TABLE, required, libc, [program] + args)
         == Run(TABLE, required, libc, [NCCAT, "--" + TABLE[i].longname] + args)
  {
    hide TABLE, ByName, Base, Check, Finish, PieceOk, Parse;
    TypeByName(i);
    TypeNameable(i);
    NccatIsNoOption();
    var flag := ["--" + TABLE[i].longname];
    FlagFirst(i, args);
    var uses := [Use(i, None)] + Parse(TABLE, args).uses;
    assert [] + uses == uses;
    assert ([program] + args)[1..] == args;
    assert ([NCCAT, "--" + TABLE[i].longname] + args)[1..] == flag + args;
  }

  lemma FlagFirst(i: nat, args: seq<string>)
    requires PieceOk(TABLE, LongFlag(i))
    ensures var p := Parse(TABLE, args);
            Parse(TABLE, ["--" + TABLE[i].longname] + args) == p.(uses := [Use(i, None)] + p.uses)
  {
    hide TABLE, ArgToken;
    var all := ["--" + TABLE[i].longname] + args;
    assert all[1..] == args;
    ReadPiece(TABLE, LongFlag(i), args);
  }

  // ----- Names and letters of the other options

  /** Where an option stores, by its name. */
  function FieldOf(name: string): nat {
    if name == "topology" then TOPOLOGY
    else if name == "subscribe" then SUBSCRIPTIONS
    else if name == "interval" then INTERVAL
    else if name == "data" || name == "file" then DATA_TO_SEND
    else if name == "format" || FormatNamed(name).Some? then ECHO_FORMAT
    else VERBOSE
  }

  /** The names that have a letter. */
  function NameOf(letter: char): string {
    match letter
    case 'v' => "verbose"
    case 'q' => "silent"
    case 'h' => "help"
    case 'T' => "topology"
    case 'A' => "ascii"
    case 'Q' => "quoted"
    case 'i' => "interval"
    case 'D' => "data"
    case 'F' => "file"
    case _ => ""
  }

  predicate Described(o: Opt) {
    o.field == FieldOf(o.longname) && (o.shortname != NUL ==> NameOf(o.shortname) == o.longname)
  }

  lemma OthersDescribed()
    ensures |OTHERS| == 10 && |GENERIC| == 3
    ensures forall k :: 0 <= k < 10 ==> Described(OTHERS[k])
    ensures forall k :: 0 <= k < 3 ==> Described(GENERIC[k])
  {
  }

  /** Each row that is no socket type stores where its name says, and its letter is that of its
      name. */
  lemma RowDescribed(i: nat)
    requires i < |TABLE|
    ensures TABLE[i].field == SOCKET_TYPE <==> TYPES_AT <= i < OTHERS_AT
    ensures i < TYPES_AT || OTHERS_AT <= i ==> Described(TABLE[i])
  {
    Layout();
    OthersDescribed();
    FirstTypesOk();
    LastTypesOk();
    hide TABLE, GENERIC, SOCKET_TYPES, OTHERS, NameOf;
  }

  // ----- Echo formats

  /** The cases of `nn_print_message`, by constant. */
  const PRINTERS: seq<E.Format> := [E.Silent, E.Raw, E.AsciiOnly, E.InQuotes, E.Framed]

  function Place(items: seq<string>, name: string): (k: nat)
    ensures k <= |items| && (k < |items| <==> name in items) && (k < |items| ==> items[k] == name)
  {
    if items == [] || items[0] == name then 0 else 1 + Place(items[1..], name)
  }

  /** The echo format that has been stored, that of no echo at first. */
  function EchoStored(log: seq<Use>): int
    requires InTable(TABLE, log)
  {
    if log == [] then 0
    else
      var n := |log| - 1;
      var o := TABLE[log[n].i];
      if o.field != ECHO_FORMAT then EchoStored(log[..n])
      else if o.kind.SetEnum? then o.kind.constant
      else if o.kind.Enum? && log[n].arg.Some? then Place(o.kind.items, log[n].arg.value)
      else 0
  }

  /** The echo format that was asked for last, by name. */
  function AskedFor(log: seq<Use>): string
    requires InTable(TABLE, log)
  {
    if log == [] then "no"
    else
      var n := |log| - 1;
      var o := TABLE[log[n].i];
      if o.field != ECHO_FORMAT then AskedFor(log[..n])
      else if o.longname == "format" && log[n].arg.Some? then log[n].arg.value
      else o.longname
  }

  function FormatNamed(name: string): Option<E.Format> {
    if name == "no" then Some(E.Silent)
    else if name == "raw" then Some(E.Raw)
    else if name == "ascii" then Some(E.AsciiOnly)
    else if name == "quoted" then Some(E.InQuotes)
    else if name == "msgpack" then Some(E.Framed)
    else None
  }

  predicate EchoRow(o: Opt) {
    o.field == ECHO_FORMAT ==>
      || (o.longname == "format" && o.kind == Enum(FORMATS))
      || (o.longname != "format" && o.kind.SetEnum? && 0 <= o.kind.constant < |FORMATS| &&
          FORMATS[o.kind.constant] == o.longname)
  }

  lemma OthersEcho()
    ensures forall k :: 0 <= k < |OTHERS| ==> EchoRow(OTHERS[k])
  {
    assert EchoRow(OTHERS[2]) && EchoRow(OTHERS[3]) && EchoRow(OTHERS[4]) && EchoRow(OTHERS[5]) && EchoRow(OTHERS[6]);
  }

  lemma RowEcho(i: nat)
    requires i < |TABLE|
    ensures EchoRow(TABLE[i])
  {
    Layout();
    if i < TYPES_AT {
      GenericEcho();
    } else if i < OTHERS_AT {
      FirstTypesOk();
      LastTypesOk();
      assert IsType(TABLE[i]);
    } else {
      OthersEcho();
    }
    hide TABLE, GENERIC, SOCKET_TYPES, OTHERS;
  }

  lemma GenericEcho()
    ensures |GENERIC| == 3 && forall k :: 0 <= k < 3 ==> GENERIC[k].field != ECHO_FORMAT
  {
  }

  lemma FormatsOk()
    ensures |FORMATS| == |PRINTERS| == 5
    ensures forall k :: 0 <= k < 5 ==> FormatNamed(FORMATS[k]) == Some(PRINTERS[k])
  {
  }

  /** Whatever options went through, messages are printed in the format that was asked for last,
      by its own option or by `--format`, and not at all if none was. */
  lemma {:induction false} EchoesAsAsked(libc: Oracle, log: seq<Use>)
    requires InTable(TABLE, log) && AllFit(TABLE, libc, log)
    ensures 0 <= EchoStored(log) < |PRINTERS|
    ensures FormatNamed(AskedFor(log)) == Some(PRINTERS[EchoStored(log)])
  {
    hide TABLE, FORMATS, PRINTERS, FormatNamed;
    FormatsOk();
    if log == [] {
      NoIsFirst();
    } else {
      var n := |log| - 1;
      assert log[n] in log && forall u :: u in log[..n] ==> u in log;
      EchoesAsAsked(libc, log[..n]);
      RowEcho(log[n].i);
    }
  }

  lemma NoIsFirst()
    ensures FORMATS[0] == "no"
  {
  }
}
