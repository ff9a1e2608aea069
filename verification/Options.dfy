/** The command-line engine of tools/options.c.  `exit` is a stop that ends everything after
    it; what an option stores in its target is the record of its use. */
module Options {
  import opened Wrappers

  datatype Kind =
    | Help | Number | Increment | Decrement
    | Enum(items: seq<string>) | SetEnum(constant: int)
    | Text | Blob | Float | ListAppend | ListAppendFmt | ReadFile

  predicate HasArg(k: Kind) {
    !(k.Help? || k.Increment? || k.Decrement? || k.SetEnum?)
  }

  /** One row of an option table; `shortname` 0 is none, `field` is the offset in the target
      where the option stores, and masks are sets of bits. */
  datatype Opt = Opt(
    longname: string, shortname: char, arg0name: Option<string>, kind: Kind, field: nat,
    sets: set<nat>, conflicts: set<nat>, needs: set<nat>)

  const NUL: char := 0 as char

  datatype Stop =
    | Shown                  // the help was printed
    | Ambiguous | UnknownLong | UnknownShort(c: char) | Unexpected(arg: string)
    | NoArgument(i: nat)     // "does not accept argument"
    | WantsArgument(i: nat)
    | Invalid(i: nat)        // the argument is not of the option's type
    | Asserted(i: nat)       // the program's name stands for an option that takes an argument
    | Conflict(i: nat)
    | Requires(i: nat)
    | Required

  /** An option of the table and its argument. */
  datatype Use = Use(i: nat, arg: Option<string>)

  // ----- Reading arguments

  /** What is left of '=' or of the end. */
  function KeyOf(arg: string): (n: nat)
    ensures n <= |arg| && '=' !in arg[..n] && (n < |arg| ==> arg[n] == '=')
  {
    if arg == [] || arg[0] == '=' then 0
    else
      assert arg[..1 + KeyOf(arg[1..])] == [arg[0]] + arg[1..][..KeyOf(arg[1..])];
      1 + KeyOf(arg[1..])
  }

  /** First option of exactly this name, or the length of the table. */
  function FirstNamed(t: seq<Opt>, key: string): (i: nat)
    ensures i <= |t| && (i < |t| ==> t[i].longname == key)
    ensures forall j :: 0 <= j < i ==> t[j].longname != key
  {
    if t == [] || t[0].longname == key then 0 else 1 + FirstNamed(t[1..], key)
  }

  /** First option from `i` on whose name begins with the key, or the length of the table. */
  function FirstBegun(t: seq<Opt>, key: string, i: nat): (j: nat)
    requires i <= |t|
    ensures i <= j <= |t| && (j < |t| ==> key <= t[j].longname)
    ensures forall k :: i <= k < j ==> !(key <= t[k].longname)
    decreases |t| - i
  {
    if i == |t| || key <= t[i].longname then i else FirstBegun(t, key, i + 1)
  }

  datatype Match = Found(i: nat) | Several | Nothing

  /** The option of that name, else the only one that the key abbreviates. */
  function Resolve(t: seq<Opt>, key: string): (m: Match)
    ensures m.Found? ==> m.i < |t|
  {
    var named, first := FirstNamed(t, key), FirstBegun(t, key, 0);
    if named < |t| then Found(named)
    else if key == "" || first == |t| then Nothing
    else if FirstBegun(t, key, first + 1) == |t| then Found(first)
    else Several
  }

  /** The option that alone begins with the key. */
  predicate OnlyBegun(t: seq<Opt>, key: string, i: nat)
    requires i < |t|
  {
    key <= t[i].longname && forall j :: 0 <= j < |t| && j != i ==> !(key <= t[j].longname)
  }

  /** Where no option has the key for its name: the key is taken for an option exactly if that
      one and no other begins with it, and it is unknown exactly if none does. */
  lemma ResolveExactly(t: seq<Opt>, key: string, i: nat)
    requires FirstNamed(t, key) == |t| && i < |t| && key != ""
    ensures Resolve(t, key) == Found(i) <==> OnlyBegun(t, key, i)
    ensures Resolve(t, key) == Nothing <==> forall j :: 0 <= j < |t| ==> !(key <= t[j].longname)
  {
    var first := FirstBegun(t, key, 0);
    if first < |t| {
      var next := FirstBegun(t, key, first + 1);
      hide FirstBegun, FirstNamed;
      assert key <= t[first].longname && (next < |t| ==> key <= t[next].longname);
    } else {
      assert !(key <= t[i].longname);
    }
  }

  /** The scan of `nn_parse_long_option`: it keeps the longest prefix so far, which is the length
      of the key once there is one, and the option it belongs to, -1 for several. */
  method ScanLong(t: seq<Opt>, arg: string) returns (best: int, longest: nat)
    ensures -1 <= best < |t|
    ensures best >= 0 ==> longest == KeyOf(arg)
    ensures Resolve(t, arg[..KeyOf(arg)]) == if best >= 0 then Found(best) else if longest > 0 then Several else Nothing
  {
    hide KeyOf, FirstNamed, FirstBegun;
    ghost var key := arg[..KeyOf(arg)];
    ghost var first := FirstBegun(t, key, 0);
    best, longest := -1, 0;
    var i := 0;
    while i < |t|
      invariant i <= |t| && -1 <= best < i && i <= FirstNamed(t, key)
      invariant key == "" || first >= i ==> best == -1 && longest == 0
      invariant key != "" && first < i ==>
                longest == |key| && best == if FirstBegun(t, key, first + 1) >= i then first else -1
    {
      var n, fits := MatchLength(t[i].longname, arg);
      if fits {
        if n == |t[i].longname| {
          return i, n;
        }
        if n == longest {
          best := -1;
        } else if n > longest {
          best, longest := i, n;
        }
      }
      i := i + 1;
    }
  }

  /** How far the argument's name runs along an option's name, and whether all of it does. */
  method MatchLength(name: string, arg: string) returns (n: nat, fits: bool)
    ensures fits <==> arg[..KeyOf(arg)] <= name
    ensures fits ==> n == KeyOf(arg)
  {
    n := 0;
    while n < |arg| && arg[n] != '='
      invariant n <= KeyOf(arg) && n <= |name| && arg[..n] <= name
      decreases |arg| - n
    {
      if n == |name| || arg[n] != name[n] { return n, false; }
      n := n + 1;
    }
    fits := true;
  }

  /** First option with this short name, or the length of the table. */
  function FirstShort(t: seq<Opt>, c: char): (i: nat)
    ensures i <= |t| && (i < |t| ==> t[i].shortname == c != NUL)
    ensures forall j :: 0 <= j < i ==> t[j].shortname == NUL || t[j].shortname != c
  {
    if t == [] || (t[0].shortname != NUL && t[0].shortname == c) then 0 else 1 + FirstShort(t[1..], c)
  }

  /** What one argument turns into: uses of options, the arguments left, and a stop for one
      that makes no sense. */
  datatype Token = Token(uses: seq<Use>, rest: seq<string>, stop: Option<Stop>)

  function One(i: nat, arg: Option<string>, rest: seq<string>): Token {
    Token([Use(i, arg)], rest, None)
  }

  function LongToken(t: seq<Opt>, arg: string, rest: seq<string>): (k: Token)
    ensures |k.rest| <= |rest| && forall u :: u in k.uses ==> u.i < |t|
  {
    var n := KeyOf(arg);
    match Resolve(t, arg[..n])
    case Several => Token([], rest, Some(Ambiguous))
    case Nothing => Token([], rest, Some(UnknownLong))
    case Found(i) =>
      if n < |arg| then
        if HasArg(t[i].kind) then One(i, Some(arg[n + 1..]), rest) else Token([], rest, Some(NoArgument(i)))
      else if !HasArg(t[i].kind) then One(i, None, rest)
      else if rest == [] then Token([], rest, Some(WantsArgument(i)))
      else One(i, Some(rest[0]), rest[1..])
  }

  /** A cluster of short options; one that takes an argument ends it. */
  function ShortToken(t: seq<Opt>, data: string, rest: seq<string>): (k: Token)
    ensures |k.rest| <= |rest| && forall u :: u in k.uses ==> u.i < |t|
    decreases data
  {
    if data == "" then Token([], rest, None)
    else
      var i := FirstShort(t, data[0]);
      if i == |t| then Token([], rest, Some(UnknownShort(data[0])))
      else if !HasArg(t[i].kind) then
        var more := ShortToken(t, data[1..], rest);
        more.(uses := [Use(i, None)] + more.uses)
      else if |data| > 1 then One(i, Some(data[1..]), rest)
      else if rest == [] then Token([], rest, Some(WantsArgument(i)))
      else One(i, Some(rest[0]), rest[1..])
  }

  /** `--` alone means nothing here, and neither does `-`: both are stepped over. */
  function ArgToken(t: seq<Opt>, arg: string, rest: seq<string>): (k: Token)
    ensures |k.rest| <= |rest| && forall u :: u in k.uses ==> u.i < |t|
  {
    if arg == "" || arg[0] != '-' then Token([], rest, Some(Unexpected(arg)))
    else if |arg| == 1 || arg[1] != '-' then ShortToken(t, arg[1..], rest)
    else if |arg| == 2 then Token([], rest, None)
    else LongToken(t, arg[2..], rest)
  }

  datatype Parsed = Parsed(uses: seq<Use>, stop: Option<Stop>)

  function Parse(t: seq<Opt>, args: seq<string>): (p: Parsed)
    ensures forall u :: u in p.uses ==> u.i < |t|
    decreases |args|
  {
    if args == [] then Parsed([], None)
    else
      var k := ArgToken(t, args[0], args[1..]);
      if k.stop.Some? then Parsed(k.uses, k.stop)
      else
        var more := Parse(t, k.rest);
        more.(uses := k.uses + more.uses)
  }

  /** `--`, which the source calls the end of the options, does not end them, and `-` is no file:
      what comes after either is parsed as if it were not there. */
  lemma DashesEndNothing(t: seq<Opt>, dashes: string, args: seq<string>)
    requires dashes == "--" || dashes == "-"
    ensures Parse(t, [dashes] + args) == Parse(t, args)
  {
    var all := [dashes] + args;
    assert all[1..] == args;
    assert dashes[1..] == "" || dashes[1..] == "-";
    assert ArgToken(t, all[0], args) == Token([], args, None);
    hide ArgToken;
    assert [] + Parse(t, args).uses == Parse(t, args).uses;
  }

  // ----- Carrying options out

  /** `log` is what has been stored in the target. */
  datatype Sem = Sem(mask: set<nat>, log: seq<Use>, stop: Option<Stop>)

  const START: Sem := Sem({}, [], None)

  /** What libc makes of a number or a file name. */
  type Oracle = (Kind, string) -> bool

  predicate Fits(k: Kind, arg: Option<string>, libc: Oracle): (fits: bool)
    ensures fits && HasArg(k) ==> arg.Some?
  {
    match k
    case Help => false
    case Enum(items) => arg.Some? && arg.value in items
    case Number | Float | ReadFile => arg.Some? && libc(k, arg.value)
    case _ => HasArg(k) ==> arg.Some?
  }

  /** `nn_process_option`, behind the assertion that an option without an argument takes none. */
  function Process(t: seq<Opt>, libc: Oracle, s: Sem, u: Use): Sem
    requires u.i < |t|
  {
    var o := t[u.i];
    if s.stop.Some? then s
    else if HasArg(o.kind) && u.arg.None? then s.(stop := Some(Asserted(u.i)))
    else if s.mask * o.conflicts != {} then s.(stop := Some(Conflict(u.i)))
    else if Fits(o.kind, u.arg, libc) then Sem(s.mask + o.sets, s.log + [u], None)
    else Sem(s.mask + o.sets, s.log, Some(if o.kind.Help? then Shown else Invalid(u.i)))
  }

  predicate InTable(t: seq<Opt>, us: seq<Use>) {
    forall u :: u in us ==> u.i < |t|
  }

  function ProcessAll(t: seq<Opt>, libc: Oracle, s: Sem, us: seq<Use>): Sem
    requires InTable(t, us)
    decreases |us|
  {
    if us == [] then s else ProcessAll(t, libc, Process(t, libc, s, us[0]), us[1..])
  }

  /** The uses of a parse, and then its stop. */
  function Finish(t: seq<Opt>, libc: Oracle, s: Sem, p: Parsed): Sem
    requires InTable(t, p.uses)
  {
    var r := ProcessAll(t, libc, s, p.uses);
    if r.stop.Some? then r else r.(stop := p.stop)
  }

  /** First option in use that lacks something, from `i` on. */
  function FirstLacking(t: seq<Opt>, s: Sem, i: nat): (r: nat)
    requires i <= |t|
    ensures i <= r <= |t|
    decreases |t| - i
  {
    if i == |t| || (Used(s.log, i) && !(t[i].needs <= s.mask)) then i else FirstLacking(t, s, i + 1)
  }

  predicate Used(log: seq<Use>, i: nat) {
    log != [] && (log[0].i == i || Used(log[1..], i))
  }

  /** `nn_check_requires` */
  function Check(t: seq<Opt>, required: set<nat>, s: Sem): Sem {
    var i := FirstLacking(t, s, 0);
    if s.stop.Some? then s
    else if i < |t| then s.(stop := Some(Requires(i)))
    else if !(required <= s.mask) then s.(stop := Some(Required))
    else s
  }

  /** The program's own name: what is after its last slash. */
  function Base(path: string): string {
    if '/' !in path then path
    else if path[0] == '/' && '/' !in path[1..] then path[1..]
    else Base(path[1..])
  }

  /** The options that the program's name stands for, from `i` on. */
  function ByName(t: seq<Opt>, name: string, i: nat): (us: seq<Use>)
    requires i <= |t|
    ensures InTable(t, us)
    decreases |t| - i
  {
    if i == |t| then []
    else (if t[i].arg0name == Some(name) then [Use(i, None)] else []) + ByName(t, name, i + 1)
  }

  /** All the uses of a command line. */
  function UsesOf(t: seq<Opt>, argv: seq<string>): (p: Parsed)
    requires argv != []
    ensures InTable(t, p.uses)
  {
    var p := Parse(t, argv[1..]);
    p.(uses := ByName(t, Base(argv[0]), 0) + p.uses)
  }

  /** `nn_parse_options` */
  function Run(t: seq<Opt>, required: set<nat>, libc: Oracle, argv: seq<string>): Sem
    requires argv != []
  {
    Check(t, required, Finish(t, libc, START, UsesOf(t, argv)))
  }

  // ----- What is accepted

  /** The bits that uses set. */
  function MaskOf(t: seq<Opt>, us: seq<Use>): (m: set<nat>)
    requires InTable(t, us)
    ensures forall u :: u in us ==> t[u.i].sets <= m
    ensures forall b :: b in m ==> exists u :: u in us && b in t[u.i].sets
  {
    if us == [] then {} else t[us[0].i].sets + MaskOf(t, us[1..])
  }

  /** `a` in use rules out `b`. */
  predicate Bars(t: seq<Opt>, a: Use, b: Use) {
    a.i < |t| && b.i < |t| && t[a.i].sets * t[b.i].conflicts != {}
  }

  /** Nothing bars anything that comes after it. */
  ghost predicate NoneBarred(t: seq<Opt>, us: seq<Use>) {
    forall j, k :: 0 <= j < k < |us| ==> !Bars(t, us[j], us[k])
  }

  ghost predicate AllFit(t: seq<Opt>, libc: Oracle, us: seq<Use>) {
    forall u :: u in us ==> u.i < |t| && Fits(t[u.i].kind, u.arg, libc)
  }

  lemma {:induction false} ProcessBoth(t: seq<Opt>, libc: Oracle, s: Sem, a: seq<Use>, b: seq<Use>)
    requires InTable(t, a) && InTable(t, b)
    ensures ProcessAll(t, libc, s, a + b) == ProcessAll(t, libc, ProcessAll(t, libc, s, a), b)
    decreases |a|
  {
    if a == [] {
      assert a + b == b;
    } else {
      assert (a + b)[1..] == a[1..] + b;
      ProcessBoth(t, libc, Process(t, libc, s, a[0]), a[1..], b);
    }
  }

  lemma {:induction false} MaskBoth(t: seq<Opt>, a: seq<Use>, b: seq<Use>)
    requires InTable(t, a) && InTable(t, b)
    ensures MaskOf(t, a + b) == MaskOf(t, a) + MaskOf(t, b)
  {
    if a == [] {
      assert a + b == b;
    } else {
      assert (a + b)[1..] == a[1..] + b;
      MaskBoth(t, a[1..], b);
    }
  }

  /** All uses go through exactly if each fits its option and none is barred by an earlier
      one; then the target holds them all and the mask is what they set. */
  lemma {:induction false} ProcessedExactly(t: seq<Opt>, libc: Oracle, us: seq<Use>)
    requires InTable(t, us)
    ensures var s := ProcessAll(t, libc, START, us);
            && (s.stop.None? <==> NoneBarred(t, us) && AllFit(t, libc, us))
            && (s.stop.None? ==> s.mask == MaskOf(t, us) && s.log == us)
    decreases |us|
  {
    hide ProcessAll, MaskOf, Bars, NoneBarred, AllFit, Fits, BarredBy;
    if us == [] {
      NoUses(t, libc);
    } else {
      var n := |us| - 1;
      var front, u := us[..n], us[n];
      assert us == front + [u];
      ProcessedExactly(t, libc, front);
      OneMoreUse(t, libc, front, u);
      BarringMask(t, front, u);
      LastOne(t, libc, front, u);
    }
  }

  lemma NoUses(t: seq<Opt>, libc: Oracle)
    ensures ProcessAll(t, libc, START, []) == START && MaskOf(t, []) == {} && NoneBarred(t, []) && AllFit(t, libc, [])
  {
  }

  lemma OneMoreUse(t: seq<Opt>, libc: Oracle, us: seq<Use>, u: Use)
    requires InTable(t, us) && u.i < |t|
    ensures ProcessAll(t, libc, START, us + [u]) == Process(t, libc, ProcessAll(t, libc, START, us), u)
    ensures MaskOf(t, us + [u]) == MaskOf(t, us) + t[u.i].sets
  {
    hide Process;
    assert [u][1..] == [];
    ProcessBoth(t, libc, START, us, [u]);
    MaskBoth(t, us, [u]);
    var s := ProcessAll(t, libc, START, us);
    assert ProcessAll(t, libc, s, [u]) == Process(t, libc, s, u);
  }

  /** Something among `us` bars `u`. */
  ghost predicate BarredBy(t: seq<Opt>, us: seq<Use>, u: Use) {
    exists j :: 0 <= j < |us| && Bars(t, us[j], u)
  }

  lemma LastOne(t: seq<Opt>, libc: Oracle, us: seq<Use>, u: Use)
    ensures NoneBarred(t, us + [u]) <==> NoneBarred(t, us) && !BarredBy(t, us, u)
    ensures AllFit(t, libc, us + [u]) <==> AllFit(t, libc, us) && u.i < |t| && Fits(t[u.i].kind, u.arg, libc)
  {
    hide Bars, Fits;
    var all := us + [u];
    assert all[|us|] == u && forall j :: 0 <= j < |us| ==> all[j] == us[j];
    forall v | v in us
      ensures v in all
    {
    }
  }

  lemma BarringMask(t: seq<Opt>, us: seq<Use>, u: Use)
    requires InTable(t, us) && u.i < |t|
    ensures MaskOf(t, us) * t[u.i].conflicts != {} <==> BarredBy(t, us, u)
  {
    var both := MaskOf(t, us) * t[u.i].conflicts;
    if b :| b in both {
      var a :| a in us && b in t[a.i].sets;
      assert b in t[a.i].sets * t[u.i].conflicts;
    }
    if j :| 0 <= j < |us| && Bars(t, us[j], u) {
      var b :| b in t[us[j].i].sets * t[u.i].conflicts;
      assert b in both;
    }
  }

  ghost predicate NeedsMet(t: seq<Opt>, us: seq<Use>, mask: set<nat>) {
    forall u :: u in us ==> u.i < |t| && t[u.i].needs <= mask
  }

  lemma {:induction false} UsedExactly(log: seq<Use>, i: nat)
    ensures Used(log, i) <==> exists u :: u in log && u.i == i
  {
    if log != [] {
      UsedExactly(log[1..], i);
      assert log == [log[0]] + log[1..];
    }
  }

  lemma {:induction false} LackingExactly(t: seq<Opt>, s: Sem, i: nat)
    requires i <= |t|
    ensures FirstLacking(t, s, i) == |t| <==> forall j :: i <= j < |t| ==> (Used(s.log, j) ==> t[j].needs <= s.mask)
    decreases |t| - i
  {
    if i < |t| {
      LackingExactly(t, s, i + 1);
    }
  }

  lemma CheckExactly(t: seq<Opt>, required: set<nat>, s: Sem)
    requires s.stop.None? && InTable(t, s.log)
    ensures Check(t, required, s).stop.None? <==> NeedsMet(t, s.log, s.mask) && required <= s.mask
    ensures Check(t, required, s).log == s.log && Check(t, required, s).mask == s.mask
  {
    LackingExactly(t, s, 0);
    forall j: nat
      ensures Used(s.log, j) <==> exists u :: u in s.log && u.i == j
    {
      UsedExactly(s.log, j);
    }
  }

  /** The uses are accepted as a command line. */
  predicate Accepted(t: seq<Opt>, required: set<nat>, libc: Oracle, us: seq<Use>)
    requires InTable(t, us)
  {
    Check(t, required, ProcessAll(t, libc, START, us)).stop.None?
  }

  /** What acceptance comes to: each use fits, none is barred by an earlier one, and every bit
      that is required or that a use needs is set by some use, in whatever place. */
  lemma AcceptedExactly(t: seq<Opt>, required: set<nat>, libc: Oracle, us: seq<Use>)
    requires InTable(t, us)
    ensures Accepted(t, required, libc, us) <==>
              && NoneBarred(t, us) && AllFit(t, libc, us)
              && NeedsMet(t, us, MaskOf(t, us)) && required <= MaskOf(t, us)
  {
    ProcessedExactly(t, libc, us);
    var s := ProcessAll(t, libc, START, us);
    hide ProcessAll, NoneBarred, AllFit, NeedsMet, MaskOf;
    if s.stop.None? {
      CheckExactly(t, required, s);
    }
  }

  /** A command line is accepted exactly if it can be read to its end and its uses are. */
  lemma RunAccepts(t: seq<Opt>, required: set<nat>, libc: Oracle, argv: seq<string>)
    requires argv != []
    ensures Run(t, required, libc, argv).stop.None? <==>
            UsesOf(t, argv).stop.None? && Accepted(t, required, libc, UsesOf(t, argv).uses)
  {
    var p := UsesOf(t, argv);
    var s := ProcessAll(t, libc, START, p.uses);
    hide ProcessAll, UsesOf, FirstLacking;
    assert s.stop.None? && p.stop.None? ==> s.(stop := p.stop) == s;
  }

  // ----- What the messages say

  /** At least one of the bits is set, if there are any. */
  predicate OneOf(bits: set<nat>, mask: set<nat>) {
    bits == {} || bits * mask != {}
  }

  /** Every option that sets one of the bits sets them all. */
  ghost predicate Together(t: seq<Opt>, bits: set<nat>) {
    forall i :: 0 <= i < |t| ==> t[i].sets * bits == {} || bits <= t[i].sets
  }

  /** Under all uses of a table's options, having one of the bits set is having all of them set
      -- what the messages ask for is what the code asks for -- if and only if the bits always
      come together. */
  lemma OneMeansAllExactly(t: seq<Opt>, bits: set<nat>)
    ensures (forall us :: InTable(t, us) ==> (OneOf(bits, MaskOf(t, us)) <==> bits <= MaskOf(t, us))) <==>
            Together(t, bits)
  {
    if Together(t, bits) {
      forall us | InTable(t, us)
        ensures OneOf(bits, MaskOf(t, us)) <==> bits <= MaskOf(t, us)
      {
        OneMeansAll(t, bits, us);
      }
    }
    if forall us :: InTable(t, us) ==> (OneOf(bits, MaskOf(t, us)) <==> bits <= MaskOf(t, us)) {
      forall i | 0 <= i < |t|
        ensures t[i].sets * bits == {} || bits <= t[i].sets
      {
        var us := [Use(i, None)];
        assert us[1..] == [] && MaskOf(t, us) == t[i].sets;
        assert InTable(t, us);
      }
    }
  }

  lemma OneMeansAll(t: seq<Opt>, bits: set<nat>, us: seq<Use>)
    requires Together(t, bits) && InTable(t, us)
    ensures OneOf(bits, MaskOf(t, us)) <==> bits <= MaskOf(t, us)
  {
    var both := bits * MaskOf(t, us);
    if b :| b in both {
      var u :| u in us && b in t[u.i].sets;
      assert b in t[u.i].sets * bits;
    }
    if bits <= MaskOf(t, us) {
      assert both == bits;
    }
  }

  /** One bit always comes together with itself. */
  lemma OneBit(t: seq<Opt>, bit: nat)
    ensures Together(t, {bit})
  {
    forall i | 0 <= i < |t| && bit !in t[i].sets
      ensures t[i].sets * {bit} == {}
    {
    }
  }

  /** Acceptance as the messages have it. */
  ghost predicate AcceptedAsSaid(t: seq<Opt>, required: set<nat>, libc: Oracle, us: seq<Use>)
    requires InTable(t, us)
  {
    && NoneBarred(t, us) && AllFit(t, libc, us)
    && (forall u :: u in us ==> OneOf(t[u.i].needs, MaskOf(t, us)))
    && OneOf(required, MaskOf(t, us))
  }

  /** Where all that is asked for comes together, the messages are right. */
  lemma MessagesRight(t: seq<Opt>, required: set<nat>, libc: Oracle, us: seq<Use>)
    requires InTable(t, us) && Together(t, required) && forall o :: o in t ==> Together(t, o.needs)
    ensures Accepted(t, required, libc, us) <==> AcceptedAsSaid(t, required, libc, us)
  {
    AcceptedExactly(t, required, libc, us);
    OneMeansAll(t, required, us);
    forall u | u in us
      ensures OneOf(t[u.i].needs, MaskOf(t, us)) <==> t[u.i].needs <= MaskOf(t, us)
    {
      OneMeansAll(t, t[u.i].needs, us);
    }
    hide Accepted, NoneBarred, AllFit, MaskOf, Together, OneOf;
  }

  // ----- Order

  /** If one option rules out another, then the other rules out the one. */
  ghost predicate Symmetric(t: seq<Opt>) {
    forall a, b :: Bars(t, a, b) ==> Bars(t, b, a)
  }

  /** No two of them, in whatever places, rule each other out. */
  ghost predicate Quiet(t: seq<Opt>, m: multiset<Use>) {
    forall a, b :: a in m && b in m && (a != b || m[a] >= 2) ==> !Bars(t, a, b)
  }

  lemma {:induction false} TwoPlaces(us: seq<Use>, a: Use)
    ensures multiset(us)[a] >= 2 <==> exists j, k :: 0 <= j < k < |us| && us[j] == us[k] == a
  {
    if us != [] {
      var n := |us| - 1;
      var front := us[..n];
      assert us == front + [us[n]];
      TwoPlaces(front, a);
      if multiset(us)[a] >= 2 && multiset(front)[a] < 2 {
        assert a in front && us[n] == a;
        var j :| 0 <= j < n && front[j] == a;
        assert us[j] == us[n] == a;
      }
      if j, k :| 0 <= j < k < |us| && us[j] == us[k] == a {
        if k == n {
          assert front[j] == a;
          assert a in front;
        } else {
          assert front[j] == front[k] == a;
        }
      }
    }
  }

  lemma QuietExactly(t: seq<Opt>, us: seq<Use>)
    requires Symmetric(t)
    ensures NoneBarred(t, us) <==> Quiet(t, multiset(us))
  {
    hide Bars;
    var m := multiset(us);
    if NoneBarred(t, us) {
      forall a, b | a in m && b in m && (a != b || m[a] >= 2)
        ensures !Bars(t, a, b)
      {
        TwoPlaces(us, a);
        assert a in us && b in us;
      }
    }
    if Quiet(t, m) {
      forall j, k | 0 <= j < k < |us|
        ensures !Bars(t, us[j], us[k])
      {
        TwoPlaces(us, us[j]);
        assert us[j] in us && us[k] in us;
      }
    }
  }

  lemma SameMask(t: seq<Opt>, us: seq<Use>, vs: seq<Use>)
    requires InTable(t, us) && InTable(t, vs) && multiset(us) == multiset(vs)
    ensures MaskOf(t, us) == MaskOf(t, vs)
    ensures forall u :: u in us <==> u in vs
  {
    forall u
      ensures u in us <==> u in vs
    {
      assert u in us <==> u in multiset(us);
      assert u in vs <==> u in multiset(vs);
    }
    hide MaskOf;
  }

  /** Where conflicts are mutual, the order of the options does not matter: not for being
      accepted, and not for the bits that are set in the end. */
  lemma OrderIrrelevant(t: seq<Opt>, required: set<nat>, libc: Oracle, us: seq<Use>, vs: seq<Use>)
    requires InTable(t, us) && InTable(t, vs) && Symmetric(t) && multiset(us) == multiset(vs)
    ensures Accepted(t, required, libc, us) <==> Accepted(t, required, libc, vs)
    ensures MaskOf(t, us) == MaskOf(t, vs)
  {
    AcceptedExactly(t, required, libc, us);
    AcceptedExactly(t, required, libc, vs);
    QuietExactly(t, us);
    QuietExactly(t, vs);
    SameMask(t, us, vs);
    hide Accepted, NoneBarred, Quiet, MaskOf, Fits;
  }

  /** Where one option rules out another and not the other way round, it does: the two are
      accepted in one order and refused in the other. */
  lemma OrderMatters(t: seq<Opt>, libc: Oracle, a: Use, b: Use)
    requires Bars(t, a, b) && !Bars(t, b, a) && AllFit(t, libc, [a, b])
    ensures ProcessAll(t, libc, START, [b, a]).stop.None?
    ensures ProcessAll(t, libc, START, [a, b]).stop.Some?
  {
    ProcessedExactly(t, libc, [a, b]);
    ProcessedExactly(t, libc, [b, a]);
    hide ProcessAll, Bars, Fits;
    assert a in [a, b] && b in [a, b];
    assert Bars(t, [a, b][0], [a, b][1]);
  }

  // ----- Exclusive bits

  /** How many uses set a bit. */
  function Setting(t: seq<Opt>, us: seq<Use>, b: nat): nat
    requires InTable(t, us)
  {
    if us == [] then 0 else (if b in t[us[0].i].sets then 1 else 0) + Setting(t, us[1..], b)
  }

  lemma {:induction false} SettingMask(t: seq<Opt>, us: seq<Use>, b: nat)
    requires InTable(t, us)
    ensures Setting(t, us, b) >= 1 <==> b in MaskOf(t, us)
  {
    if us != [] {
      SettingMask(t, us[1..], b);
    }
  }

  /** If everything that sets a bit conflicts with that bit, at most one use sets it. */
  lemma {:induction false} AtMostOne(t: seq<Opt>, us: seq<Use>, b: nat)
    requires InTable(t, us) && NoneBarred(t, us)
    requires forall i :: 0 <= i < |t| && b in t[i].sets ==> b in t[i].conflicts
    ensures Setting(t, us, b) <= 1
  {
    if us != [] {
      RestNotBarred(t, us);
      AtMostOne(t, us[1..], b);
      SettingMask(t, us[1..], b);
      forall u | u in us[1..]
        ensures b in t[us[0].i].sets && b in t[u.i].conflicts ==> Bars(t, us[0], u)
      {
        CommonBit(t, us[0], u, b);
      }
      hide NoneBarred, Bars;
    }
  }

  /** Two uses in different places that set a bit. */
  lemma {:induction false} SettingTwice(t: seq<Opt>, us: seq<Use>, b: nat, j: nat, k: nat)
    requires InTable(t, us) && j < k < |us| && b in t[us[j].i].sets && b in t[us[k].i].sets
    ensures Setting(t, us, b) >= 2
  {
    if j == 0 {
      assert us[1..][k - 1] == us[k];
      SettingMask(t, us[1..], b);
    } else {
      SettingTwice(t, us[1..], b, j - 1, k - 1);
    }
  }

  lemma CommonBit(t: seq<Opt>, a: Use, u: Use, b: nat)
    requires a.i < |t| && u.i < |t|
    ensures b in t[a.i].sets && b in t[u.i].conflicts ==> Bars(t, a, u)
  {
    assert b in t[a.i].sets * t[u.i].conflicts <==> b in t[a.i].sets && b in t[u.i].conflicts;
  }

  lemma RestNotBarred(t: seq<Opt>, us: seq<Use>)
    requires us != [] && NoneBarred(t, us)
    ensures NoneBarred(t, us[1..]) && forall u :: u in us[1..] ==> !Bars(t, us[0], u)
  {
    hide Bars;
    forall j, k | 0 <= j < k < |us| - 1
      ensures !Bars(t, us[1..][j], us[1..][k])
    {
      assert us[1..][j] == us[j + 1] && us[1..][k] == us[k + 1];
    }
  }

  // ----- Round trip

  /** What may stand at the end of a cluster of flags. */
  datatype Last = Nobody | Joined(i: nat, value: string) | Split(i: nat, value: string)

  /** The ways to write options down. */
  datatype Piece =
    | LongFlag(i: nat)                      // --name
    | LongJoined(i: nat, value: string)     // --name=value
    | LongSplit(i: nat, value: string)      // --name value
    | Cluster(flags: seq<nat>, last: Last)  // -abc, -abcnvalue, -abcn value

  /** The option has a long name of its own that can be written. */
  predicate Nameable(t: seq<Opt>, i: nat, arg: bool) {
    && i < |t| && FirstNamed(t, t[i].longname) == i && HasArg(t[i].kind) == arg
    && t[i].longname != "" && '=' !in t[i].longname
  }

  /** The option has a short name of its own. */
  predicate Lettered(t: seq<Opt>, i: nat, arg: bool) {
    i < |t| && t[i].shortname != NUL && FirstShort(t, t[i].shortname) == i && HasArg(t[i].kind) == arg
  }

  predicate AllFlags(t: seq<Opt>, flags: seq<nat>) {
    forall i :: i in flags ==> Lettered(t, i, false)
  }

  predicate LastOk(t: seq<Opt>, last: Last) {
    match last
    case Nobody => true
    case Joined(i, value) => Lettered(t, i, true) && value != ""
    case Split(i, value) => Lettered(t, i, true)
  }

  predicate PieceOk(t: seq<Opt>, p: Piece) {
    match p
    case LongFlag(i) => Nameable(t, i, false)
    case LongJoined(i, _) => Nameable(t, i, true)
    case LongSplit(i, _) => Nameable(t, i, true)
    case Cluster(flags, last) =>
      AllFlags(t, flags) && LastOk(t, last) && !("-" <= Letters(t, flags) + Tail(t, last))
  }

  function Letters(t: seq<Opt>, flags: seq<nat>): string
    requires AllFlags(t, flags)
  {
    if flags == [] then ""
    else
      assert flags[0] in flags;
      [t[flags[0]].shortname] + Letters(t, flags[1..])
  }

  function Tail(t: seq<Opt>, last: Last): string
    requires LastOk(t, last)
  {
    match last
    case Nobody => ""
    case Joined(i, value) => [t[i].shortname] + value
    case Split(i, _) => [t[i].shortname]
  }

  function Written(t: seq<Opt>, p: Piece): (args: seq<string>)
    requires PieceOk(t, p)
    ensures args != []
  {
    match p
    case LongFlag(i) => ["--" + t[i].longname]
    case LongJoined(i, value) => ["--" + (t[i].longname + ("=" + value))]
    case LongSplit(i, value) => ["--" + t[i].longname, value]
    case Cluster(flags, last) =>
      ["-" + (Letters(t, flags) + Tail(t, last))] + (if last.Split? then [last.value] else [])
  }

  function FlagUses(flags: seq<nat>): seq<Use> {
    if flags == [] then [] else [Use(flags[0], None)] + FlagUses(flags[1..])
  }

  function LastUse(last: Last): seq<Use> {
    match last
    case Nobody => []
    case Joined(i, value) => [Use(i, Some(value))]
    case Split(i, value) => [Use(i, Some(value))]
  }

  /** The options that were meant. */
  function Meant(p: Piece): seq<Use> {
    match p
    case LongFlag(i) => [Use(i, None)]
    case LongJoined(i, value) => [Use(i, Some(value))]
    case LongSplit(i, value) => [Use(i, Some(value))]
    case Cluster(flags, last) => FlagUses(flags) + LastUse(last)
  }

  predicate AllOk(t: seq<Opt>, ps: seq<Piece>) {
    ps == [] || (PieceOk(t, ps[0]) && AllOk(t, ps[1..]))
  }

  function WrittenAll(t: seq<Opt>, ps: seq<Piece>): seq<string>
    requires AllOk(t, ps)
  {
    if ps == [] then [] else Written(t, ps[0]) + WrittenAll(t, ps[1..])
  }

  function MeantAll(ps: seq<Piece>): seq<Use> {
    if ps == [] then [] else Meant(ps[0]) + MeantAll(ps[1..])
  }

  lemma {:induction false} KeyWritten(name: string, more: string)
    requires '=' !in name && (more == "" || more[0] == '=')
    ensures KeyOf(name + more) == |name| && (name + more)[..|name|] == name
  {
    if name == "" {
      assert name + more == more;
    } else {
      assert (name + more)[1..] == name[1..] + more;
      KeyWritten(name[1..], more);
    }
  }

  lemma {:induction false} ReadCluster(t: seq<Opt>, flags: seq<nat>, last: Last, rest: seq<string>)
    requires AllFlags(t, flags) && LastOk(t, last)
    ensures ShortToken(t, Letters(t, flags) + Tail(t, last), (if last.Split? then [last.value] else []) + rest)
         == Token(FlagUses(flags) + LastUse(last), rest, None)
    decreases |flags|
  {
    hide FirstShort;
    var tail := Tail(t, last);
    var all := Letters(t, flags) + tail;
    if flags == [] {
      assert all == tail && FlagUses(flags) + LastUse(last) == LastUse(last);
      ReadLast(t, last, rest);
    } else {
      assert flags[0] in flags;
      assert all[1..] == Letters(t, flags[1..]) + tail;
      ReadCluster(t, flags[1..], last, rest);
      assert FlagUses(flags) + LastUse(last) == [Use(flags[0], None)] + (FlagUses(flags[1..]) + LastUse(last));
    }
  }

  lemma ReadLast(t: seq<Opt>, last: Last, rest: seq<string>)
    requires LastOk(t, last)
    ensures ShortToken(t, Tail(t, last), (if last.Split? then [last.value] else []) + rest)
         == Token(LastUse(last), rest, None)
  {
    hide FirstShort;
    assert [] + rest == rest;
    match last
    case Nobody =>
    case Joined(i, value) => assert Tail(t, last)[1..] == value;
    case Split(i, value) => assert ([value] + rest)[1..] == rest;
  }

  lemma ReadLong(t: seq<Opt>, i: nat, more: string, rest: seq<string>)
    requires i < |t| && Nameable(t, i, HasArg(t[i].kind)) && (more == "" || (more[0] == '=' && HasArg(t[i].kind)))
    ensures var arg := "--" + (t[i].longname + more);
            && ArgToken(t, arg, rest) == LongToken(t, t[i].longname + more, rest)
            && LongToken(t, t[i].longname + more, rest)
            == if more != "" then One(i, Some(more[1..]), rest)
               else if !HasArg(t[i].kind) then One(i, None, rest)
               else if rest == [] then Token([], rest, Some(WantsArgument(i)))
               else One(i, Some(rest[0]), rest[1..])
  {
    var name := t[i].longname;
    KeyWritten(name, more);
    var arg := "--" + (name + more);
    assert arg[2..] == name + more;
    if more != "" {
      assert (name + more)[|name| + 1..] == more[1..];
    }
    hide KeyOf, FirstNamed, FirstBegun;
  }

  lemma ReadPiece(t: seq<Opt>, p: Piece, rest: seq<string>)
    requires PieceOk(t, p)
    ensures var args := Written(t, p) + rest;
            ArgToken(t, args[0], args[1..]) == Token(Meant(p), rest, None)
  {
    var args := Written(t, p) + rest;
    match p
    case LongFlag(i) =>
      ReadLong(t, i, "", rest);
      assert t[i].longname + "" == t[i].longname && args[1..] == rest;
    case LongJoined(i, value) =>
      ReadLong(t, i, "=" + value, rest);
      assert args[1..] == rest && ("=" + value)[1..] == value;
    case LongSplit(i, value) =>
      assert args[1..] == [value] + rest && ([value] + rest)[1..] == rest;
      ReadLong(t, i, "", [value] + rest);
      assert t[i].longname + "" == t[i].longname;
    case Cluster(flags, last) =>
      var all := Letters(t, flags) + Tail(t, last);
      assert args[0] == "-" + all && args[0][1..] == all;
      assert args[1..] == (if last.Split? then [last.value] else []) + rest;
      ReadCluster(t, flags, last, rest);
  }

  /** Options written down in any mix of the ways there are and read back. */
  lemma {:induction false} ParseWritten(t: seq<Opt>, ps: seq<Piece>)
    requires AllOk(t, ps)
    ensures Parse(t, WrittenAll(t, ps)) == Parsed(MeantAll(ps), None)
    decreases |ps|
  {
    hide PieceOk, ArgToken, Written, Meant;
    if ps != [] {
      ReadPiece(t, ps[0], WrittenAll(t, ps[1..]));
      ParseWritten(t, ps[1..]);
    }
  }

  /** A command line written that way comes to what was meant, after what the program's name
      stands for, being accepted or not. */
  lemma RunWritten(t: seq<Opt>, required: set<nat>, libc: Oracle, program: string, ps: seq<Piece>)
    requires AllOk(t, ps)
    ensures UsesOf(t, [program] + WrittenAll(t, ps)) == Parsed(ByName(t, Base(program), 0) + MeantAll(ps), None)
    ensures var us := ByName(t, Base(program), 0) + MeantAll(ps);
            && InTable(t, us)
            && Run(t, required, libc, [program] + WrittenAll(t, ps))
               == Check(t, required, ProcessAll(t, libc, START, us))
  {
    var argv := [program] + WrittenAll(t, ps);
    assert argv[1..] == WrittenAll(t, ps);
    ParseWritten(t, ps);
    var s := ProcessAll(t, libc, START, UsesOf(t, argv).uses);
    hide ProcessAll, Check;
    assert s.stop.None? ==> s.(stop := None) == s;
  }

  // ----- The parser

  /** The uses of `done` and the stop after it, when what is left comes to `rest`. */
  lemma FinishSplit(t: seq<Opt>, libc: Oracle, s: Sem, k: Token, rest: Parsed)
    requires InTable(t, k.uses) && InTable(t, rest.uses)
    ensures var whole := if k.stop.Some? then Parsed(k.uses, k.stop) else Parsed(k.uses + rest.uses, rest.stop);
            var s' := Finish(t, libc, s, Parsed(k.uses, k.stop));
            Finish(t, libc, s, whole) == if s'.stop.Some? then s' else Finish(t, libc, s', rest)
  {
    if k.stop.None? {
      ProcessBoth(t, libc, s, k.uses, rest.uses);
      var s' := ProcessAll(t, libc, s, k.uses);
      if s'.stop.Some? {
        StoppedStays(t, libc, s', rest.uses);
      }
    }
  }

  lemma {:induction false} StoppedStays(t: seq<Opt>, libc: Oracle, s: Sem, us: seq<Use>)
    requires InTable(t, us) && s.stop.Some?
    ensures ProcessAll(t, libc, s, us) == s
    decreases |us|
  {
    if us != [] {
      StoppedStays(t, libc, s, us[1..]);
    }
  }

  lemma NamedAsserts(t: seq<Opt>, libc: Oracle, s: Sem, i: nat)
    requires i < |t| && HasArg(t[i].kind) && s.stop.None?
    ensures Process(t, libc, s, Use(i, None)) == s.(stop := Some(Asserted(i)))
  {
  }

  /** `struct nn_parse_context` */
  class Parser {
    const options: seq<Opt>
    const required: set<nat>
    const argv: seq<string>
    const libc: Oracle

    var mask: set<nat>
    var argsLeft: nat
    var arg: nat           // the place in argv
    var data: string
    var used: set<nat>     // the options whose last use is known
    var log: seq<Use>      // what has been stored in the target
    var stop: Option<Stop> // why the program has ended

    constructor (options: seq<Opt>, required: set<nat>, argv: seq<string>, libc: Oracle)
      requires argv != []
      ensures this.options == options && this.required == required && this.argv == argv && this.libc == libc
      ensures Valid() && View() == START && arg == 0
    {
      this.options, this.required, this.argv, this.libc := options, required, argv, libc;
      mask, argsLeft, arg, data, used, log, stop := {}, |argv| - 1, 0, "", {}, [], None;
    }

    ghost predicate Valid()
      reads this
    {
      && arg + argsLeft + 1 == |argv|
      && (stop.None? ==> forall i :: i in used <==> Used(log, i))
    }

    ghost function View(): Sem
      reads this
    {
      Sem(mask, log, stop)
    }

    /** The arguments not taken yet. */
    ghost function Rest(): seq<string>
      requires Valid()
      reads this
    {
      argv[arg + 1..]
    }

    /** `nn_get_arg` */
    method GetArg() returns (ok: bool)
      requires Valid()
      modifies this`argsLeft, this`arg, this`data
      ensures Valid() && ok == (old(Rest()) != [])
      ensures ok ==> data == old(Rest())[0] && Rest() == old(Rest())[1..]
      ensures !ok ==> data == old(data) && Rest() == old(Rest())
    {
      if argsLeft == 0 { return false; }
      argsLeft, arg := argsLeft - 1, arg + 1;
      data := argv[arg];
      return true;
    }

    /** `nn_process_option`, after the option's use has been noted. */
    method ProcessOption(i: nat, argument: Option<string>)
      requires Valid() && i < |options| && stop.None? && (HasArg(options[i].kind) ==> argument.Some?)
      modifies this`mask, this`used, this`log, this`stop
      ensures Valid() && View() == Process(options, libc, old(View()), Use(i, argument))
    {
      var o := options[i];
      used := used + {i};
      if mask * o.conflicts != {} {
        stop := Some(Conflict(i));
        return;
      }
      mask := mask + o.sets;
      if !Fits(o.kind, argument, libc) {
        stop := Some(if o.kind.Help? then Shown else Invalid(i));
        return;
      }
      NoteUse(log, Use(i, argument));
      log := log + [Use(i, argument)];
    }

    /** `nn_parse_long_option` on what comes after the dashes. */
    method ParseLong(a: string)
      requires Valid() && stop.None?
      modifies this
      ensures Valid()
      ensures var k := old(LongToken(options, a, Rest()));
              && View() == Finish(options, libc, old(View()), Parsed(k.uses, k.stop))
              && (stop.None? ==> Rest() == k.rest)
    {
      hide Process, KeyOf, Resolve, Fits;
      var best, longest := ScanLong(options, a);
      if best >= 0 {
        var joined := longest < |a|;
        if !HasArg(options[best].kind) {
          if joined {
            stop := Some(NoArgument(best));
          } else {
            DoOne(best, None);
          }
        } else if joined {
          DoOne(best, Some(a[longest + 1..]));
        } else {
          var ok := GetArg();
          if ok {
            DoOne(best, Some(data));
          } else {
            stop := Some(WantsArgument(best));
          }
        }
      } else {
        stop := Some(if longest > 0 then Ambiguous else UnknownLong);
      }
    }

    method DoOne(i: nat, argument: Option<string>)
      requires Valid() && i < |options| && stop.None? && (HasArg(options[i].kind) ==> argument.Some?)
      modifies this`mask, this`used, this`log, this`stop
      ensures Valid() && View() == Finish(options, libc, old(View()), Parsed([Use(i, argument)], None))
    {
      OneUse(options, libc, View(), Use(i, argument));
      hide Process, Finish;
      ProcessOption(i, argument);
    }

    /** `nn_parse_short_option`: one letter, and the argument if it takes one. */
    method ParseShort()
      requires Valid() && stop.None? && data != ""
      modifies this
      ensures Valid()
      ensures var k := old(ShortToken(options, data, Rest()));
              && (stop.Some? ==> View() == Finish(options, libc, old(View()), Parsed(k.uses, k.stop)))
              && (stop.None? ==>
                    var more := ShortToken(options, data, Rest());
                    && |data| < |old(data)| && more.rest == k.rest
                    && Finish(options, libc, View(), Parsed(more.uses, more.stop))
                       == Finish(options, libc, old(View()), Parsed(k.uses, k.stop)))
    {
      hide Process, Finish, Fits, Used, FirstShort, ShortToken;
      var i := FindShort(data[0]);
      ghost var was, rest := View(), Rest();
      ShortStep(options, data, rest);
      ghost var more := ShortToken(options, data[1..], rest);
      if i == |options| {
        NoUse(options, libc, was, Some(UnknownShort(data[0])));
        stop := Some(UnknownShort(data[0]));
      } else if !HasArg(options[i].kind) {
        DoOne(i, None);
        FinishSplit(options, libc, was, One(i, None, rest), Parsed(more.uses, more.stop));
        data := data[1..];
      } else {
        ParseShortArgument(i);
        if stop.None? {
          NoLetters(options, Rest());
          NoUse(options, libc, View(), None);
        }
      }
    }

    /** The argument of a short option is the rest of the cluster, or the next argument. */
    method ParseShortArgument(i: nat)
      requires Valid() && stop.None? && data != "" && i < |options| && HasArg(options[i].kind)
      requires i == FirstShort(options, data[0])
      modifies this
      ensures Valid() && (stop.None? ==> data == "")
      ensures var k := old(ShortToken(options, data, Rest()));
              && View() == Finish(options, libc, old(View()), Parsed(k.uses, k.stop))
              && (stop.None? ==> Rest() == k.rest)
    {
      hide Process, Finish, Fits;
      var joined := data[1..];
      if joined == "" {
        var ok := GetArg();
        if !ok {
          NoUse(options, libc, View(), Some(WantsArgument(i)));
          stop := Some(WantsArgument(i));
          return;
        }
        joined := data;
      }
      DoOne(i, Some(joined));
      data := "";
    }

    /** `nn_parse_arg` for the argument just taken. */
    method ParseArg()
      requires Valid() && stop.None?
      modifies this
      ensures Valid()
      ensures var k := old(ArgToken(options, data, Rest()));
              && View() == Finish(options, libc, old(View()), Parsed(k.uses, k.stop))
              && (stop.None? ==> Rest() == k.rest)
    {
      hide Process, Finish, Fits, LongToken;
      NoUse(options, libc, View(), None);
      if data == "" || data[0] != '-' {
        NoUse(options, libc, View(), Some(Unexpected(data)));
        stop := Some(Unexpected(data));
      } else if |data| == 1 || data[1] != '-' {
        data := data[1..];
        ParseCluster();
      } else if |data| > 2 {
        ParseLong(data[2..]);
      }
    }

    method ParseCluster()
      requires Valid() && stop.None?
      modifies this
      ensures Valid()
      ensures var k := old(ShortToken(options, data, Rest()));
              && View() == Finish(options, libc, old(View()), Parsed(k.uses, k.stop))
              && (stop.None? ==> Rest() == k.rest)
    {
      hide Process, Finish, Fits, ShortToken;
      ghost var was, k := View(), ShortToken(options, data, Rest());
      while data != ""
        invariant Valid() && stop.None?
        invariant var more := ShortToken(options, data, Rest());
                  && more.rest == k.rest
                  && Finish(options, libc, View(), Parsed(more.uses, more.stop))
                     == Finish(options, libc, was, Parsed(k.uses, k.stop))
        decreases |data|
      {
        ParseShort();
        if stop.Some? { return; }
      }
      NoLetters(options, Rest());
      NoUse(options, libc, View(), None);
    }

    /** `nn_parse_arg0` */
    method ParseName()
      requires Valid() && stop.None? && arg == 0
      modifies this`mask, this`used, this`log, this`stop
      ensures Valid()
      ensures View() == ProcessAll(options, libc, old(View()), ByName(options, Base(argv[0]), 0))
    {
      hide Process, Fits, Base;
      var name := Base(argv[0]);
      ghost var was := View();
      var i := 0;
      while i < |options|
        invariant i <= |options| && Valid() && stop.None?
        invariant ProcessAll(options, libc, was, ByName(options, name, 0))
               == ProcessAll(options, libc, View(), ByName(options, name, i))
      {
        ghost var more := ByName(options, name, i + 1);
        assert ([Use(i, None)] + more)[1..] == more && [] + more == more;
        if options[i].arg0name == Some(name) {
          if HasArg(options[i].kind) {
            NamedAsserts(options, libc, View(), i);
            stop := Some(Asserted(i));
          } else {
            ProcessOption(i, None);
          }
          if stop.Some? {
            StoppedStays(options, libc, View(), more);
            return;
          }
        }
        i := i + 1;
      }
    }

    /** `nn_check_requires` */
    method CheckRequires()
      requires Valid() && stop.None?
      modifies this`stop
      ensures Valid() && View() == Check(options, required, old(View()))
    {
      var i := 0;
      while i < |options|
        invariant i <= |options| && FirstLacking(options, View(), 0) == FirstLacking(options, View(), i)
      {
        if i in used && !(options[i].needs <= mask) {
          stop := Some(Requires(i));
          return;
        }
        i := i + 1;
      }
      if !(required <= mask) {
        stop := Some(Required);
      }
    }

    /** `nn_parse_options`: it comes to an end with what `Run` says. */
    method ParseOptions()
      requires Valid() && View() == START && arg == 0
      modifies this
      ensures Valid() && View() == Run(options, required, libc, argv)
    {
      hide Process, Fits, Base, ArgToken, Finish, ByName, FirstLacking;
      ghost var all, byName := Parse(options, argv[1..]), ByName(options, Base(argv[0]), 0);
      NamesFirst(options, libc, byName, all);
      ParseName();
      ghost var named := View();
      if stop.Some? { return; }
      var more := GetArg();
      while more
        invariant Valid() && stop.None?
        invariant var rest := if more then [data] + Rest() else [];
                  Finish(options, libc, View(), Parse(options, rest)) == Finish(options, libc, named, all)
        decreases argsLeft, more
      {
        ghost var k := ArgToken(options, data, Rest());
        assert ([data] + Rest())[1..] == Rest();
        FinishSplit(options, libc, View(), k, Parse(options, k.rest));
        ParseArg();
        if stop.Some? { return; }
        more := GetArg();
      }
      NoUse(options, libc, View(), None);
      CheckRequires();
    }

    method FindShort(c: char) returns (i: nat)
      ensures i == FirstShort(options, c)
    {
      i := 0;
      while i < |options|
        invariant i <= |options| && FirstShort(options, c) == i + FirstShort(options[i..], c)
      {
        if options[i].shortname != NUL && options[i].shortname == c { return; }
        i := i + 1;
      }
    }
  }

  lemma ShortStep(t: seq<Opt>, data: string, rest: seq<string>)
    requires data != ""
    ensures var i, more := FirstShort(t, data[0]), ShortToken(t, data[1..], rest);
            && (i == |t| ==> ShortToken(t, data, rest) == Token([], rest, Some(UnknownShort(data[0]))))
            && (i < |t| && !HasArg(t[i].kind) ==>
                  ShortToken(t, data, rest) == more.(uses := [Use(i, None)] + more.uses))
  {
    hide FirstShort;
  }

  lemma NoLetters(t: seq<Opt>, rest: seq<string>)
    ensures ShortToken(t, "", rest) == Token([], rest, None)
  {
  }

  /** The uses that the program's name stands for, and then the rest. */
  lemma NamesFirst(t: seq<Opt>, libc: Oracle, named: seq<Use>, p: Parsed)
    requires InTable(t, named) && InTable(t, p.uses)
    ensures var s := ProcessAll(t, libc, START, named);
            Finish(t, libc, START, p.(uses := named + p.uses)) == if s.stop.Some? then s else Finish(t, libc, s, p)
  {
    ProcessBoth(t, libc, START, named, p.uses);
    var s := ProcessAll(t, libc, START, named);
    if s.stop.Some? {
      StoppedStays(t, libc, s, p.uses);
    }
  }

  lemma OneUse(t: seq<Opt>, libc: Oracle, s: Sem, u: Use)
    requires u.i < |t|
    ensures Finish(t, libc, s, Parsed([u], None)) == Process(t, libc, s, u)
  {
    hide Process;
    assert [u][1..] == [];
    assert ProcessAll(t, libc, s, [u]) == Process(t, libc, s, u);
    var r := Process(t, libc, s, u);
    assert r.stop.None? ==> r.(stop := None) == r;
  }

  lemma NoUse(t: seq<Opt>, libc: Oracle, s: Sem, stop: Option<Stop>)
    requires s.stop.None?
    ensures Finish(t, libc, s, Parsed([], stop)) == s.(stop := stop)
  {
  }

  lemma {:induction false} NoteUse(log: seq<Use>, u: Use)
    ensures forall i :: Used(log + [u], i) <==> Used(log, i) || u.i == i
  {
    if log == [] {
      assert [u][1..] == [] && log + [u] == [u];
    } else {
      assert (log + [u])[1..] == log[1..] + [u];
      NoteUse(log[1..], u);
    }
  }
}
