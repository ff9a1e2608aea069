/** With which message the option engine of tools/options.c ends a program, and what the program's
    own name stands for. */
module Refusals {
  import opened Wrappers
  import opened Options

  // ----- Command lines that make no sense

  /** The ways to get an option wrong. */
  datatype Slip =
    | ValueForFlag(i: nat, value: string)             // --flag=value
    | NoValue(i: nat)                                 // --name, and nothing after it
    | UnknownName(key: string)                        // --key, which nothing begins with
    | EmptyName(value: string)                        // --=value
    | TooShort(key: string, j: nat, k: nat)           // --key, which two options begin with
    | NoLetter(flags: seq<nat>, c: char, more: string) // -ab?..., and no option has that letter
    | LetterNoValue(flags: seq<nat>, i: nat)          // -abn, and nothing after it
    | Word(word: string)                              // not an option

  ghost predicate SlipOk(t: seq<Opt>, s: Slip, rest: seq<string>) {
    match s
    case ValueForFlag(i, _) => Nameable(t, i, false)
    case NoValue(i) => Nameable(t, i, true) && rest == []
    case UnknownName(key) => key != "" && '=' !in key && forall o :: o in t ==> !(key <= o.longname)
    case EmptyName(_) => forall o :: o in t ==> o.longname != ""
    case TooShort(key, j, k) =>
      && key != "" && '=' !in key && (forall o :: o in t ==> o.longname != key)
      && j < k < |t| && key <= t[j].longname && key <= t[k].longname
    case NoLetter(flags, c, more) =>
      && AllFlags(t, flags) && !("-" <= Letters(t, flags) + [c])
      && forall o :: o in t ==> o.shortname == NUL || o.shortname != c
    case LetterNoValue(flags, i) =>
      AllFlags(t, flags) && Lettered(t, i, true) && rest == [] && !("-" <= Letters(t, flags) + [t[i].shortname])
    case Word(word) => !("-" <= word)
  }

  function SlipWritten(t: seq<Opt>, s: Slip, rest: seq<string>): string
    requires SlipOk(t, s, rest)
  {
    match s
    case ValueForFlag(i, value) => "--" + (t[i].longname + ("=" + value))
    case NoValue(i) => "--" + t[i].longname
    case UnknownName(key) => "--" + key
    case EmptyName(value) => "--" + ("" + ("=" + value))
    case TooShort(key, _, _) => "--" + key
    case NoLetter(flags, c, more) => "-" + (Letters(t, flags) + ([c] + more))
    case LetterNoValue(flags, i) => "-" + (Letters(t, flags) + [t[i].shortname])
    case Word(word) => word
  }

  /** The options that are carried out all the same, and the message. */
  function Answered(s: Slip): Parsed {
    match s
    case ValueForFlag(i, _) => Parsed([], Some(NoArgument(i)))
    case NoValue(i) => Parsed([], Some(WantsArgument(i)))
    case UnknownName(_) => Parsed([], Some(UnknownLong))
    case EmptyName(_) => Parsed([], Some(UnknownLong))
    case TooShort(_, _, _) => Parsed([], Some(Ambiguous))
    case NoLetter(flags, c, _) => Parsed(FlagUses(flags), Some(UnknownShort(c)))
    case LetterNoValue(flags, i) => Parsed(FlagUses(flags), Some(WantsArgument(i)))
    case Word(word) => Parsed([], Some(Unexpected(word)))
  }

  lemma {:induction false} ClusterSlips(t: seq<Opt>, flags: seq<nat>, tail: string, rest: seq<string>, end: Token)
    requires AllFlags(t, flags) && ShortToken(t, tail, rest) == end
    ensures ShortToken(t, Letters(t, flags) + tail, rest) == end.(uses := FlagUses(flags) + end.uses)
    decreases |flags|
  {
    hide FirstShort;
    var all := Letters(t, flags) + tail;
    if flags == [] {
      assert all == tail && FlagUses(flags) + end.uses == end.uses;
    } else {
      assert flags[0] in flags;
      assert all[1..] == Letters(t, flags[1..]) + tail;
      ClusterSlips(t, flags[1..], tail, rest, end);
      assert FlagUses(flags) + end.uses == [Use(flags[0], None)] + (FlagUses(flags[1..]) + end.uses);
    }
  }

  lemma LongSlips(t: seq<Opt>, key: string, more: string, rest: seq<string>)
    requires key + more != "" && '=' !in key && (more == "" || more[0] == '=')
    ensures ArgToken(t, "--" + (key + more), rest) == LongToken(t, key + more, rest)
    ensures KeyOf(key + more) == |key| && (key + more)[..|key|] == key
  {
    KeyWritten(key, more);
    var arg := "--" + (key + more);
    assert arg[2..] == key + more;
    hide LongToken, KeyOf;
  }

  lemma DashSlips(t: seq<Opt>, letters: string, rest: seq<string>)
    requires !("-" <= letters)
    ensures ArgToken(t, "-" + letters, rest) == ShortToken(t, letters, rest)
  {
    var arg := "-" + letters;
    assert arg[1..] == letters;
    hide ShortToken;
  }

  lemma ReadSlip(t: seq<Opt>, s: Slip, rest: seq<string>)
    requires SlipOk(t, s, rest)
    ensures var k := ArgToken(t, SlipWritten(t, s, rest), rest);
            Parsed(k.uses, k.stop) == Answered(s)
  {
    hide FirstShort, FirstBegun, FirstNamed, KeyOf, ArgToken, ShortToken;
    match s
    case ValueForFlag(i, value) => LongSlips(t, t[i].longname, "=" + value, rest);
    case NoValue(i) =>
      LongSlips(t, t[i].longname, "", rest);
      assert t[i].longname + "" == t[i].longname;
    case UnknownName(key) =>
      LongSlips(t, key, "", rest);
      assert key + "" == key;
      UnknownIs(t, key);
    case EmptyName(value) =>
      LongSlips(t, "", "=" + value, rest);
      EmptyIs(t);
    case TooShort(key, j, k) =>
      LongSlips(t, key, "", rest);
      assert key + "" == key;
      TooShortIs(t, key, j, k);
    case NoLetter(flags, c, more) =>
      NoLetterIs(t, c, more, rest);
      ClusterSlips(t, flags, [c] + more, rest, Token([], rest, Some(UnknownShort(c))));
      assert FlagUses(flags) + [] == FlagUses(flags);
      var letters := Letters(t, flags) + ([c] + more);
      assert letters[0] == (Letters(t, flags) + [c])[0];
      DashSlips(t, letters, rest);
    case LetterNoValue(flags, i) =>
      LastLetterIs(t, i);
      ClusterSlips(t, flags, [t[i].shortname], rest, Token([], rest, Some(WantsArgument(i))));
      assert FlagUses(flags) + [] == FlagUses(flags);
      DashSlips(t, Letters(t, flags) + [t[i].shortname], rest);
    case Word(word) => WordIs(t, word, rest);
  }

  lemma WordIs(t: seq<Opt>, word: string, rest: seq<string>)
    requires !("-" <= word)
    ensures ArgToken(t, word, rest) == Token([], rest, Some(Unexpected(word)))
  {
    hide ShortToken, LongToken;
  }

  lemma UnknownIs(t: seq<Opt>, key: string)
    requires key != "" && forall o :: o in t ==> !(key <= o.longname)
    ensures Resolve(t, key) == Nothing
  {
    hide FirstBegun, FirstNamed;
    assert FirstBegun(t, key, 0) == |t|;
    assert FirstNamed(t, key) == |t|;
  }

  lemma EmptyIs(t: seq<Opt>)
    requires forall o :: o in t ==> o.longname != ""
    ensures Resolve(t, "") == Nothing
  {
    hide FirstBegun, FirstNamed;
    assert FirstNamed(t, "") == |t|;
  }

  lemma TooShortIs(t: seq<Opt>, key: string, j: nat, k: nat)
    requires key != "" && forall o :: o in t ==> o.longname != key
    requires j < k < |t| && key <= t[j].longname && key <= t[k].longname
    ensures Resolve(t, key) == Several
  {
    hide FirstBegun, FirstNamed;
    assert FirstNamed(t, key) == |t|;
    assert FirstBegun(t, key, 0) <= j;
    assert FirstBegun(t, key, FirstBegun(t, key, 0) + 1) <= k;
  }

  lemma NoLetterIs(t: seq<Opt>, c: char, more: string, rest: seq<string>)
    requires forall o :: o in t ==> o.shortname == NUL || o.shortname != c
    ensures ShortToken(t, [c] + more, rest) == Token([], rest, Some(UnknownShort(c)))
  {
    hide FirstShort;
    assert FirstShort(t, c) == |t|;
  }

  lemma LastLetterIs(t: seq<Opt>, i: nat)
    requires Lettered(t, i, true)
    ensures ShortToken(t, [t[i].shortname], []) == Token([], [], Some(WantsArgument(i)))
  {
    hide FirstShort;
  }

  /** Whatever options are written down before it, each way to get one wrong is answered with its
      own message, and what comes after it is not looked at. */
  lemma {:induction false} SlipAnswered(t: seq<Opt>, ps: seq<Piece>, s: Slip, rest: seq<string>)
    requires AllOk(t, ps) && SlipOk(t, s, rest)
    ensures Parse(t, WrittenAll(t, ps) + ([SlipWritten(t, s, rest)] + rest))
         == Parsed(MeantAll(ps) + Answered(s).uses, Answered(s).stop)
    decreases |ps|
  {
    hide PieceOk, ArgToken, Written, Meant, SlipOk, SlipWritten, Answered;
    var bad := [SlipWritten(t, s, rest)] + rest;
    if ps == [] {
      ReadSlip(t, s, rest);
      assert WrittenAll(t, ps) + bad == bad && bad[1..] == rest;
      assert MeantAll(ps) + Answered(s).uses == Answered(s).uses;
      AnsweredStops(s);
    } else {
      ReadPiece(t, ps[0], WrittenAll(t, ps[1..]) + bad);
      SlipAnswered(t, ps[1..], s, rest);
      var args := WrittenAll(t, ps) + bad;
      assert args == Written(t, ps[0]) + (WrittenAll(t, ps[1..]) + bad);
      assert MeantAll(ps) + Answered(s).uses == Meant(ps[0]) + (MeantAll(ps[1..]) + Answered(s).uses);
    }
  }

  lemma AnsweredStops(s: Slip)
    ensures Answered(s).stop.Some?
  {
  }

  /** The program ends with that message, unless an option before it has ended it already. */
  lemma SlipEnds(t: seq<Opt>, required: set<nat>, libc: Oracle, program: string, ps: seq<Piece>, s: Slip,
      rest: seq<string>)
    requires AllOk(t, ps) && SlipOk(t, s, rest)
    ensures var us := ByName(t, Base(program), 0) + (MeantAll(ps) + Answered(s).uses);
            && InTable(t, us)
            && var stop := ProcessAll(t, libc, START, us).stop;
               Run(t, required, libc, [program] + (WrittenAll(t, ps) + ([SlipWritten(t, s, rest)] + rest))).stop
               == if stop.Some? then stop else Answered(s).stop
  {
    var args := WrittenAll(t, ps) + ([SlipWritten(t, s, rest)] + rest);
    assert ([program] + args)[1..] == args;
    SlipAnswered(t, ps, s, rest);
    AnsweredStops(s);
    hide ProcessAll, ByName, Answered, SlipOk, SlipWritten, FirstLacking;
  }

  // ----- Options that are refused

  /** What ends the program at a use, after uses that went through. */
  ghost function Objection(t: seq<Opt>, libc: Oracle, before: seq<Use>, u: Use): Option<Stop>
    requires InTable(t, before) && u.i < |t|
  {
    var kind := t[u.i].kind;
    if HasArg(kind) && u.arg.None? then Some(Asserted(u.i))
    else if BarredBy(t, before, u) then Some(Conflict(u.i))
    else match kind
      case Help => Some(Shown)
      case Enum(items) => if u.arg.value in items then None else Some(Invalid(u.i))
      case Number | Float | ReadFile => if libc(kind, u.arg.value) then None else Some(Invalid(u.i))
      case _ => None
  }

  lemma ObjectionIs(t: seq<Opt>, libc: Oracle, before: seq<Use>, u: Use)
    requires InTable(t, before) && u.i < |t| && ProcessAll(t, libc, START, before).stop.None?
    ensures Process(t, libc, ProcessAll(t, libc, START, before), u).stop == Objection(t, libc, before, u)
  {
    ProcessedExactly(t, libc, before);
    BarringMask(t, before, u);
    hide ProcessAll, NoneBarred, AllFit, MaskOf, BarredBy;
  }

  lemma ThroughUse(t: seq<Opt>, libc: Oracle, before: seq<Use>, u: Use, after: seq<Use>)
    requires InTable(t, before) && u.i < |t| && InTable(t, after)
    ensures InTable(t, before + ([u] + after))
    ensures ProcessAll(t, libc, START, before + ([u] + after))
         == ProcessAll(t, libc, Process(t, libc, ProcessAll(t, libc, START, before), u), after)
  {
    hide Process;
    assert ([u] + after)[1..] == after;
    ProcessBoth(t, libc, START, before, [u] + after);
  }

  /** The first use that is objected to decides how the program ends. */
  lemma FirstObjection(t: seq<Opt>, libc: Oracle, before: seq<Use>, u: Use, after: seq<Use>)
    requires InTable(t, before) && u.i < |t| && InTable(t, after)
    requires ProcessAll(t, libc, START, before).stop.None?
    ensures InTable(t, before + ([u] + after))
    ensures var objection := Objection(t, libc, before, u);
            var stop := ProcessAll(t, libc, START, before + ([u] + after)).stop;
            if objection.Some? then stop == objection else after == [] ==> stop.None?
  {
    hide Process, Objection, ProcessAll;
    ThroughUse(t, libc, before, u, after);
    ObjectionIs(t, libc, before, u);
    var r := Process(t, libc, ProcessAll(t, libc, START, before), u);
    if r.stop.Some? {
      StoppedStays(t, libc, r, after);
    } else {
      NothingMore(t, libc, r);
    }
  }

  lemma NothingMore(t: seq<Opt>, libc: Oracle, s: Sem)
    ensures ProcessAll(t, libc, s, []) == s
  {
  }

  /** Whether an option in use lacks a bit. */
  predicate Lacks(t: seq<Opt>, s: Sem, i: nat)
    requires i < |t|
  {
    Used(s.log, i) && !(t[i].needs <= s.mask)
  }

  lemma {:induction false} FirstLackingExactly(t: seq<Opt>, s: Sem, i: nat)
    requires i <= |t|
    ensures var r := FirstLacking(t, s, i);
            && (forall j :: i <= j < r ==> !Lacks(t, s, j))
            && (r < |t| ==> Lacks(t, s, r))
    decreases |t| - i
  {
    hide Used;
    if i < |t| {
      FirstLackingExactly(t, s, i + 1);
    }
  }

  /** At the end, the message is about the first option of the table that lacks something; only
      if none does, about what the program requires. */
  lemma CheckStops(t: seq<Opt>, required: set<nat>, s: Sem, i: nat)
    requires s.stop.None? && i < |t|
    ensures Check(t, required, s).stop == Some(Requires(i)) <==>
              Lacks(t, s, i) && forall j :: 0 <= j < i ==> !Lacks(t, s, j)
    ensures Check(t, required, s).stop == Some(Required) <==>
              (forall j :: 0 <= j < |t| ==> !Lacks(t, s, j)) && !(required <= s.mask)
  {
    FirstLackingExactly(t, s, 0);
    hide FirstLacking, Lacks;
  }

  // ----- The program's name

  /** What is after the last slash, all of it if there is none. */
  lemma {:induction false} BaseExactly(path: string)
    ensures var b := Base(path);
            && '/' !in b && |b| <= |path| && path[|path| - |b|..] == b
            && (|b| < |path| ==> path[|path| - |b| - 1] == '/')
    decreases |path|
  {
    if '/' in path {
      assert path == [path[0]] + path[1..];
      if '/' in path[1..] {
        BaseExactly(path[1..]);
      }
    }
  }

  /** The options with that name, each once and in the order of the table. */
  lemma {:induction false} ByNameExactly(t: seq<Opt>, name: string, i: nat)
    requires i <= |t|
    ensures var us := ByName(t, name, i);
            && (forall u :: u in us <==> u.arg.None? && i <= u.i < |t| && t[u.i].arg0name == Some(name))
            && (forall j, k :: 0 <= j < k < |us| ==> us[j].i < us[k].i)
    decreases |t| - i
  {
    if i < |t| {
      ByNameExactly(t, name, i + 1);
    }
  }
}
