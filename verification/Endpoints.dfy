/** Endpoint reconciliation in `nc_parse_and_apply`: mark all endpoints unvisited, visit or
    create one for each address of the reply, then shut down the ones not visited.

    `nn_bind` and `nn_connect` are an oracle: `rcs(k)` is what the k-th nanomsg call returns. */
module Endpoints {
  import opened MsgPack
  import opened IntrusiveList

  datatype Endpoint = Endpoint(addr: Bytes, eid: int, visited: bool)

  datatype Call = Bind(addr: Bytes) | Connect(addr: Bytes) | Shutdown(eid: int)

  datatype Outcome =
    | Fine
    | Aborted    // the assertion on an endpoint id failed
    | Undefined  // a write through the cell of a freed node

  datatype Table = Table(eps: seq<Endpoint>, attached: bool, calls: seq<Call>, outcome: Outcome)

  datatype Wanted = Wanted(kind: int, addr: Bytes)

  // ----- The three phases

  function Cleared(eps: seq<Endpoint>): (r: seq<Endpoint>)
    ensures |r| == |eps| && forall k :: 0 <= k < |r| ==> r[k] == eps[k].(visited := false)
  {
    seq(|eps|, k requires 0 <= k < |eps| => eps[k].(visited := false))
  }

  function Unmark(t: Table): Table {
    t.(eps := Cleared(t.eps))
  }

  /** First endpoint with this address, or the length of the list. */
  function Find(eps: seq<Endpoint>, addr: Bytes): (k: nat)
    ensures k <= |eps| && (k < |eps| ==> eps[k].addr == addr)
    ensures forall j :: 0 <= j < k ==> eps[j].addr != addr
  {
    if eps == [] || eps[0].addr == addr then 0 else 1 + Find(eps[1..], addr)
  }

  function Opening(w: Wanted): Call {
    if w.kind == 0 then Bind(w.addr) else Connect(w.addr)
  }

  /** Visit the endpoint of an address, creating it if there is none. */
  function Use(t: Table, w: Wanted, rc: int): Table {
    var k := Find(t.eps, w.addr);
    if t.outcome != Fine then t
    else if k < |t.eps| then t.(eps := t.eps[k := t.eps[k].(visited := true)])
    else if !t.attached then t.(calls := t.calls + [Opening(w)], outcome := Undefined)
    else t.(eps := t.eps + [Endpoint(w.addr, rc, true)], calls := t.calls + [Opening(w)])
  }

  function UseAll(t: Table, ws: seq<Wanted>, rcs: nat -> int): Table
    decreases |ws|
  {
    if ws == [] then t else UseAll(Use(t, ws[0], rcs(|t.calls|)), ws[1..], rcs)
  }

  /** Sweep the list from its head; it stops at an unvisited endpoint without a proper id. */
  datatype Sweep = Sweep(kept: seq<Endpoint>, calls: seq<Call>, ok: bool)

  function Swept(eps: seq<Endpoint>): Sweep {
    if eps == [] then Sweep([], [], true)
    else if eps[0].visited then
      var rest := Swept(eps[1..]);
      rest.(kept := [eps[0]] + rest.kept)
    else if eps[0].eid <= 0 then Sweep(eps, [], false)
    else
      var rest := Swept(eps[1..]);
      rest.(calls := [Shutdown(eps[0].eid)] + rest.calls)
  }

  function Settle(t: Table): Table {
    var s := Swept(t.eps);
    if t.outcome != Fine then t
    else Table(s.kept,
               t.attached && (t.eps == [] || t.eps[|t.eps| - 1].visited || !s.ok),
               t.calls + s.calls,
               if s.ok then Fine else Aborted)
  }

  /** All of it, for the addresses of a reply. */
  function Reconcile(t: Table, ws: seq<Wanted>, rcs: nat -> int): Table {
    Settle(UseAll(Unmark(t), ws, rcs))
  }

  // ----- What visiting does

  predicate Named(ws: seq<Wanted>, addr: Bytes) {
    ws != [] && (ws[0].addr == addr || Named(ws[1..], addr))
  }

  ghost predicate Distinct(eps: seq<Endpoint>) {
    forall j, k :: 0 <= j < k < |eps| ==> eps[j].addr != eps[k].addr
  }

  function Addrs(eps: seq<Endpoint>): set<Bytes> {
    set e <- eps :: e.addr
  }

  /** Visit what is named. */
  function Mark(eps: seq<Endpoint>, ws: seq<Wanted>): (r: seq<Endpoint>)
    ensures |r| == |eps|
    ensures forall k :: 0 <= k < |r| ==> r[k] == eps[k].(visited := eps[k].visited || Named(ws, eps[k].addr))
  {
    seq(|eps|, k requires 0 <= k < |eps| => eps[k].(visited := eps[k].visited || Named(ws, eps[k].addr)))
  }

  /** What is named and not known, each address once, as first named. */
  function News(known: set<Bytes>, ws: seq<Wanted>): seq<Wanted>
    decreases |ws|
  {
    if ws == [] then []
    else if ws[0].addr in known then News(known, ws[1..])
    else [ws[0]] + News(known + {ws[0].addr}, ws[1..])
  }

  /** The endpoints added for `news` when `m` calls were made before. */
  function Opened(news: seq<Wanted>, rcs: nat -> int, m: nat): (r: seq<Endpoint>)
    ensures |r| == |news|
    ensures forall k :: 0 <= k < |r| ==> r[k] == Endpoint(news[k].addr, rcs(m + k), true)
  {
    seq(|news|, k requires 0 <= k < |news| => Endpoint(news[k].addr, rcs(m + k), true))
  }

  function Openings(news: seq<Wanted>): (r: seq<Call>)
    ensures |r| == |news| && forall k :: 0 <= k < |r| ==> r[k] == Opening(news[k])
  {
    seq(|news|, k requires 0 <= k < |news| => Opening(news[k]))
  }

  lemma FindDecides(eps: seq<Endpoint>, addr: Bytes)
    ensures Find(eps, addr) < |eps| <==> addr in Addrs(eps)
  {
  }

  lemma {:induction false} VisitAll(t: Table, ws: seq<Wanted>, rcs: nat -> int)
    requires t.outcome == Fine && t.attached && Distinct(t.eps)
    ensures var news, m := News(Addrs(t.eps), ws), |t.calls|;
            UseAll(t, ws, rcs) == Table(Mark(t.eps, ws) + Opened(news, rcs, m), true, t.calls + Openings(news), Fine)
    decreases |ws|
  {
    if ws == [] {
      assert Mark(t.eps, ws) == t.eps;
    } else {
      hide Addrs, Named, Use, Distinct, Mark, Opened, Openings;
      var t1 := Use(t, ws[0], rcs(|t.calls|));
      if ws[0].addr in Addrs(t.eps) {
        VisitKnown(t, ws, rcs);
      } else {
        VisitNew(t, ws, rcs, News(Addrs(t.eps) + {ws[0].addr}, ws[1..]));
      }
      VisitAll(t1, ws[1..], rcs);
    }
  }

  lemma VisitKnown(t: Table, ws: seq<Wanted>, rcs: nat -> int)
    requires t.outcome == Fine && Distinct(t.eps)
    requires ws != [] && ws[0].addr in Addrs(t.eps)
    ensures var t1 := Use(t, ws[0], rcs(|t.calls|));
            && t1 == t.(eps := t1.eps)
            && Mark(t1.eps, ws[1..]) == Mark(t.eps, ws)
            && Addrs(t1.eps) == Addrs(t.eps)
            && Distinct(t1.eps)
  {
    FindDecides(t.eps, ws[0].addr);
    var t1 := Use(t, ws[0], rcs(|t.calls|));
    SameAddrs(t.eps, t1.eps);
    assert Mark(t1.eps, ws[1..]) == Mark(t.eps, ws);
  }

  lemma VisitNew(t: Table, ws: seq<Wanted>, rcs: nat -> int, more: seq<Wanted>)
    requires t.outcome == Fine && t.attached && Distinct(t.eps)
    requires ws != [] && ws[0].addr !in Addrs(t.eps)
    ensures var w, m := ws[0], |t.calls|;
            var t1 := Use(t, w, rcs(m));
            && t1.attached && t1.outcome == Fine && |t1.calls| == m + 1
            && Distinct(t1.eps)
            && Addrs(t1.eps) == Addrs(t.eps) + {w.addr}
            && Mark(t1.eps, ws[1..]) + Opened(more, rcs, m + 1) == Mark(t.eps, ws) + Opened([w] + more, rcs, m)
            && t1.calls + Openings(more) == t.calls + Openings([w] + more)
  {
    hide Mark, Opened, Openings, Addrs, Distinct, News, Named;
    var w, m := ws[0], |t.calls|;
    var e := Endpoint(w.addr, rcs(m), true);
    FindDecides(t.eps, w.addr);
    var t1 := Use(t, w, rcs(m));
    assert t1 == Table(t.eps + [e], true, t.calls + [Opening(w)], Fine);
    hide Use, Find, Opening;
    AppendAddr(t.eps, e);
    MarkNew(t.eps, e, ws);
    OpenOneMore(w, more, rcs, m);
    assert Mark(t.eps, ws) + [e] + Opened(more, rcs, m + 1) == Mark(t.eps, ws) + ([e] + Opened(more, rcs, m + 1));
  }

  lemma AppendAddr(eps: seq<Endpoint>, e: Endpoint)
    requires Distinct(eps) && e.addr !in Addrs(eps)
    ensures Distinct(eps + [e]) && Addrs(eps + [e]) == Addrs(eps) + {e.addr}
    ensures forall k :: 0 <= k < |eps| ==> eps[k].addr != e.addr
  {
    forall k | 0 <= k < |eps|
      ensures eps[k].addr != e.addr
    {
      assert eps[k] in eps;
    }
  }

  lemma MarkNew(eps: seq<Endpoint>, e: Endpoint, ws: seq<Wanted>)
    requires ws != [] && e.addr == ws[0].addr && e.visited
    requires forall k :: 0 <= k < |eps| ==> eps[k].addr != e.addr
    ensures Mark(eps + [e], ws[1..]) == Mark(eps, ws) + [e]
  {
  }

  lemma OpenOneMore(w: Wanted, more: seq<Wanted>, rcs: nat -> int, m: nat)
    ensures Opened([w] + more, rcs, m) == [Endpoint(w.addr, rcs(m), true)] + Opened(more, rcs, m + 1)
    ensures Openings([w] + more) == [Opening(w)] + Openings(more)
  {
  }

  lemma SameAddrs(a: seq<Endpoint>, b: seq<Endpoint>)
    requires |a| == |b| && forall k :: 0 <= k < |a| ==> a[k].addr == b[k].addr
    ensures Addrs(a) == Addrs(b)
  {
    forall x | x in Addrs(a)
      ensures x in Addrs(b)
    {
      var k :| 0 <= k < |a| && a[k].addr == x;
      assert b[k] in b;
    }
    forall x | x in Addrs(b)
      ensures x in Addrs(a)
    {
      var k :| 0 <= k < |b| && b[k].addr == x;
      assert a[k] in a;
    }
  }

  /** The new addresses are exactly the named unknown ones, each once, and each is listed in
      the way the reply first names it. */
  lemma {:induction false} NewsExactly(known: set<Bytes>, ws: seq<Wanted>, addr: Bytes)
    ensures Named(News(known, ws), addr) <==> Named(ws, addr) && addr !in known
    ensures forall j, k :: 0 <= j < k < |News(known, ws)| ==> News(known, ws)[j].addr != News(known, ws)[k].addr
    decreases |ws|
  {
    if ws != [] {
      var known' := known + {ws[0].addr};
      NewsExactly(known, ws[1..], addr);
      NewsExactly(known', ws[1..], addr);
      if ws[0].addr !in known {
        var more := News(known', ws[1..]);
        assert News(known, ws) == [ws[0]] + more && News(known, ws)[1..] == more;
        forall k | 0 <= k < |more|
          ensures more[k].addr != ws[0].addr
        {
          NamedAt(more, k);
          NewsExactly(known', ws[1..], more[k].addr);
        }
      }
    }
  }

  lemma {:induction false} NamedAt(ws: seq<Wanted>, k: nat)
    requires k < |ws|
    ensures Named(ws, ws[k].addr)
  {
    if k > 0 {
      NamedAt(ws[1..], k - 1);
    }
  }

  // ----- What settling does

  /** The endpoints that were visited, and those that were not. */
  function Keep(eps: seq<Endpoint>, visited: bool): (r: seq<Endpoint>)
    ensures forall e :: e in r <==> e in eps && e.visited == visited
  {
    if eps == [] then []
    else (if eps[0].visited == visited then [eps[0]] else []) + Keep(eps[1..], visited)
  }

  /** One shutdown per endpoint, by its own id. */
  function Shutdowns(eps: seq<Endpoint>): seq<Call> {
    if eps == [] then [] else [Shutdown(eps[0].eid)] + Shutdowns(eps[1..])
  }

  predicate AllProper(eps: seq<Endpoint>) {
    eps == [] || (eps[0].eid > 0 && AllProper(eps[1..]))
  }

  /** The sweep keeps the visited and shuts down the rest, each by its own id, in order; it
      runs to the end exactly if all it has to shut down have proper ids. */
  lemma {:induction false} SweptExactly(eps: seq<Endpoint>)
    ensures Swept(eps).ok <==> AllProper(Keep(eps, false))
    ensures Swept(eps).ok ==> Swept(eps).kept == Keep(eps, true)
    ensures Swept(eps).ok ==> Swept(eps).calls == Shutdowns(Keep(eps, false))
  {
    if eps != [] {
      SweptExactly(eps[1..]);
      KeepHead(eps);
      hide Keep;
    }
  }

  lemma {:induction false} KeepSplits(a: seq<Endpoint>, b: seq<Endpoint>, visited: bool)
    ensures Keep(a + b, visited) == Keep(a, visited) + Keep(b, visited)
  {
    if a == [] {
      assert a + b == b;
    } else {
      assert (a + b)[1..] == a[1..] + b;
      KeepSplits(a[1..], b, visited);
    }
  }

  // ----- Reconciliation

  /** The endpoints that the reply names, or does not name, in their order. */
  function Part(eps: seq<Endpoint>, ws: seq<Wanted>, named: bool): (r: seq<Endpoint>)
    ensures forall e :: e in r <==> e in eps && Named(ws, e.addr) == named
  {
    if eps == [] then []
    else (if Named(ws, eps[0].addr) == named then [eps[0]] else []) + Part(eps[1..], ws, named)
  }

  function Visit(eps: seq<Endpoint>): seq<Endpoint> {
    if eps == [] then [] else [eps[0].(visited := true)] + Visit(eps[1..])
  }

  lemma {:induction false} KeepMarked(eps: seq<Endpoint>, ws: seq<Wanted>)
    ensures var marked := Mark(Cleared(eps), ws);
            && Keep(marked, true) == Visit(Part(eps, ws, true))
            && Shutdowns(Keep(marked, false)) == Shutdowns(Part(eps, ws, false))
            && (AllProper(Keep(marked, false)) <==> AllProper(Part(eps, ws, false)))
  {
    var marked := Mark(Cleared(eps), ws);
    if eps != [] {
      KeepMarked(eps[1..], ws);
      assert marked[1..] == Mark(Cleared(eps[1..]), ws);
      KeepHead(marked);
      PartHead(eps, ws);
      hide Keep, Part, Mark, Cleared, Named;
    }
  }

  lemma KeepHead(eps: seq<Endpoint>)
    requires eps != []
    ensures Keep(eps, eps[0].visited) == [eps[0]] + Keep(eps[1..], eps[0].visited)
    ensures Keep(eps, !eps[0].visited) == Keep(eps[1..], !eps[0].visited)
  {
  }

  lemma PartHead(eps: seq<Endpoint>, ws: seq<Wanted>)
    requires eps != []
    ensures var named := Named(ws, eps[0].addr);
            && Part(eps, ws, named) == [eps[0]] + Part(eps[1..], ws, named)
            && Part(eps, ws, !named) == Part(eps[1..], ws, !named)
  {
  }

  /** From a well-linked table, applying a reply's addresses is set difference: what is named
      and listed stays with its id, what is named and not listed is opened once, what is
      listed and not named is shut down once by its own id, and nothing else happens.  The
      pass is aborted exactly if something without a proper id has to be shut down, and
      the list stays well linked exactly if its old last endpoint stays or one is added. */
  lemma Reconciling(t: Table, ws: seq<Wanted>, rcs: nat -> int)
    requires t.outcome == Fine && t.attached && Distinct(t.eps)
    ensures var t', news := Reconcile(t, ws, rcs), News(Addrs(t.eps), ws);
            && (t'.outcome == Fine <==> AllProper(Part(t.eps, ws, false)))
            && (t'.outcome == Fine ==>
                  && t'.eps == Visit(Part(t.eps, ws, true)) + Opened(news, rcs, |t.calls|)
                  && t'.calls == t.calls + Openings(news) + Shutdowns(Part(t.eps, ws, false))
                  && (t'.attached <==> t.eps == [] || news != [] || Named(ws, t.eps[|t.eps| - 1].addr)))
  {
    var u := Unmark(t);
    SameAddrs(t.eps, u.eps);
    VisitAll(u, ws, rcs);
    var news := News(Addrs(t.eps), ws);
    hide Keep, Part, News, Named, Swept, UseAll, Mark, Cleared, AllProper, Opened, Openings, Addrs;
    SweepMarked(t.eps, ws, Opened(news, rcs, |t.calls|));
    LastMarked(t.eps, ws, Opened(news, rcs, |t.calls|));
  }

  /** The reply names this address here for the first time. */
  predicate FirstNamed(ws: seq<Wanted>, j: int) {
    0 <= j < |ws| && forall i :: 0 <= i < j ==> ws[i].addr != ws[j].addr
  }

  /** Kind 0 is bound, and any other connected to. */
  predicate OpensFor(c: Call, w: Wanted) {
    if w.kind == 0 then c == Bind(w.addr) else c == Connect(w.addr)
  }

  lemma {:induction false} NewsHas(known: set<Bytes>, ws: seq<Wanted>, j: nat) returns (k: nat)
    requires FirstNamed(ws, j) && ws[j].addr !in known
    ensures k < |News(known, ws)| && News(known, ws)[k] == ws[j]
    decreases |ws|
  {
    k := 0;
    if j > 0 {
      var rest := ws[1..];
      assert rest[j - 1] == ws[j] && ws[0].addr != ws[j].addr;
      assert forall i :: 0 <= i < j - 1 ==> rest[i] == ws[i + 1];
      if ws[0].addr in known {
        k := NewsHas(known, rest, j - 1);
      } else {
        var i := NewsHas(known + {ws[0].addr}, rest, j - 1);
        k := i + 1;
      }
    }
  }

  lemma {:induction false} NewsFrom(known: set<Bytes>, ws: seq<Wanted>, k: nat) returns (j: nat)
    requires k < |News(known, ws)|
    ensures FirstNamed(ws, j) && ws[j] == News(known, ws)[k] && ws[j].addr !in known
    decreases |ws|
  {
    var rest := ws[1..];
    if ws[0].addr in known {
      var i := NewsFrom(known, rest, k);
      assert forall m :: 0 < m < |ws| ==> ws[m] == rest[m - 1];
      j := i + 1;
    } else if k == 0 {
      j := 0;
    } else {
      var i := NewsFrom(known + {ws[0].addr}, rest, k - 1);
      assert forall m :: 0 < m < |ws| ==> ws[m] == rest[m - 1];
      j := i + 1;
    }
  }

  /** The calls a reply makes: one for each address it names that is not listed, to bind or to
      connect as the reply says where it first names it, and no other but shutdowns. */
  lemma OpensAsNamed(t: Table, ws: seq<Wanted>, rcs: nat -> int)
    requires t.outcome == Fine && t.attached && Distinct(t.eps) && Reconcile(t, ws, rcs).outcome == Fine
    ensures var calls := Reconcile(t, ws, rcs).calls;
            && t.calls <= calls
            && (forall j :: FirstNamed(ws, j) && ws[j].addr !in Addrs(t.eps) ==> MadeFor(calls, |t.calls|, ws[j]))
            && (forall k :: |t.calls| <= k < |calls| && !calls[k].Shutdown? ==> NamedIn(calls[k], ws, Addrs(t.eps)))
  {
    Reconciling(t, ws, rcs);
    var news, part := News(Addrs(t.eps), ws), Part(t.eps, ws, false);
    hide Reconcile, Part, Addrs, Distinct, Shutdowns, News, Openings;
    CallsOf(t.calls, Addrs(t.eps), ws, part);
  }

  lemma CallsOf(was: seq<Call>, known: set<Bytes>, ws: seq<Wanted>, dropped: seq<Endpoint>)
    ensures var calls := was + Openings(News(known, ws)) + Shutdowns(dropped);
            && was <= calls
            && (forall j :: FirstNamed(ws, j) && ws[j].addr !in known ==> MadeFor(calls, |was|, ws[j]))
            && (forall k :: |was| <= k < |calls| && !calls[k].Shutdown? ==> NamedIn(calls[k], ws, known))
  {
    hide News, Shutdowns, MadeFor, NamedIn;
    var news := News(known, ws);
    var calls := was + Openings(news) + Shutdowns(dropped);
    forall j | FirstNamed(ws, j) && ws[j].addr !in known
      ensures MadeFor(calls, |was|, ws[j])
    {
      NamedIsMade(was, known, ws, Shutdowns(dropped), j);
    }
    OnlyShutdowns(dropped);
    forall k | |was| + |news| <= k < |calls|
      ensures calls[k].Shutdown?
    {
      assert calls[k] in Shutdowns(dropped);
    }
    forall k | |was| <= k < |was| + |news|
      ensures NamedIn(calls[k], ws, known)
    {
      MadeIsNamed(was, known, ws, Shutdowns(dropped), k);
    }
  }

  lemma NamedIsMade(was: seq<Call>, known: set<Bytes>, ws: seq<Wanted>, more: seq<Call>, j: int)
    requires FirstNamed(ws, j) && ws[j].addr !in known
    ensures MadeFor(was + Openings(News(known, ws)) + more, |was|, ws[j])
  {
    hide News;
    var k := NewsHas(known, ws, j);
    var calls := was + Openings(News(known, ws)) + more;
    assert calls[|was| + k] == Openings(News(known, ws))[k];
    assert OpensFor(calls[|was| + k], ws[j]);
  }

  lemma MadeIsNamed(was: seq<Call>, known: set<Bytes>, ws: seq<Wanted>, more: seq<Call>, k: nat)
    requires |was| <= k < |was| + |News(known, ws)|
    ensures NamedIn((was + Openings(News(known, ws)) + more)[k], ws, known)
  {
    hide News, FirstNamed;
    var j := NewsFrom(known, ws, k - |was|);
    var calls := was + Openings(News(known, ws)) + more;
    assert calls[k] == Openings(News(known, ws))[k - |was|];
    assert OpensFor(calls[k], ws[j]);
  }

  /** From call number m on, one is for this address. */
  ghost predicate MadeFor(calls: seq<Call>, m: nat, w: Wanted) {
    exists k: nat :: m <= k < |calls| && OpensFor(calls[k], w)
  }

  /** The call is for an address the reply names for the first time, and that is not known. */
  ghost predicate NamedIn(c: Call, ws: seq<Wanted>, known: set<Bytes>) {
    exists j :: FirstNamed(ws, j) && ws[j].addr !in known && OpensFor(c, ws[j])
  }

  lemma {:induction false} OnlyShutdowns(eps: seq<Endpoint>)
    ensures forall c :: c in Shutdowns(eps) ==> c.Shutdown?
  {
    if eps != [] {
      OnlyShutdowns(eps[1..]);
    }
  }

  lemma SweepMarked(eps: seq<Endpoint>, ws: seq<Wanted>, added: seq<Endpoint>)
    requires forall e :: e in added ==> e.visited
    ensures var all := Mark(Cleared(eps), ws) + added;
            var s := Swept(all);
            && (s.ok <==> AllProper(Part(eps, ws, false)))
            && (s.ok ==> s.kept == Visit(Part(eps, ws, true)) + added && s.calls == Shutdowns(Part(eps, ws, false)))
  {
    var marked := Mark(Cleared(eps), ws);
    hide Keep, Part, Named, Swept, AllProper, Mark, Cleared, Visit, Shutdowns;
    KeepMarked(eps, ws);
    KeepSplits(marked, added, true);
    KeepSplits(marked, added, false);
    AllVisited(added);
    SweptExactly(marked + added);
    assert Keep(marked, false) + [] == Keep(marked, false);
  }

  lemma LastMarked(eps: seq<Endpoint>, ws: seq<Wanted>, added: seq<Endpoint>)
    requires forall e :: e in added ==> e.visited
    ensures var all := Mark(Cleared(eps), ws) + added;
            all == [] || all[|all| - 1].visited <==>
            eps == [] || added != [] || Named(ws, eps[|eps| - 1].addr)
  {
    var all := Mark(Cleared(eps), ws) + added;
    if added != [] {
      assert all[|all| - 1] == added[|added| - 1];
    }
  }

  lemma {:induction false} AllVisited(eps: seq<Endpoint>)
    requires forall e :: e in eps ==> e.visited
    ensures Keep(eps, true) == eps && Keep(eps, false) == []
  {
    if eps != [] {
      AllVisited(eps[1..]);
    }
  }

  /** Through a tail that no longer names the end of the list, the pass is undefined as soon
      as there is an address to add, and otherwise no different. */
  lemma {:induction false} DetachedVisit(t: Table, ws: seq<Wanted>, rcs: nat -> int)
    requires t.outcome == Fine && !t.attached && Distinct(t.eps)
    ensures News(Addrs(t.eps), ws) == [] ==> UseAll(t, ws, rcs) == t.(eps := Mark(t.eps, ws))
    ensures News(Addrs(t.eps), ws) != [] ==> UseAll(t, ws, rcs).outcome == Undefined
    decreases |ws|
  {
    if ws == [] {
      assert Mark(t.eps, ws) == t.eps;
    } else {
      var t1 := Use(t, ws[0], rcs(|t.calls|));
      FindDecides(t.eps, ws[0].addr);
      hide Addrs, Named, Distinct, Mark, Find;
      if ws[0].addr in Addrs(t.eps) {
        VisitKnown(t, ws, rcs);
        hide Use;
        DetachedVisit(t1, ws[1..], rcs);
      } else {
        UndefinedStays(t1, ws[1..], rcs);
      }
    }
  }

  lemma {:induction false} UndefinedStays(t: Table, ws: seq<Wanted>, rcs: nat -> int)
    requires t.outcome != Fine
    ensures UseAll(t, ws, rcs) == t
    decreases |ws|
  {
    if ws != [] {
      UndefinedStays(Use(t, ws[0], rcs(|t.calls|)), ws[1..], rcs);
    }
  }

  /** After a reply was applied the listed addresses are exactly the reply's. */
  lemma ListedAreNamed(t: Table, ws: seq<Wanted>, rcs: nat -> int, addr: Bytes)
    requires t.outcome == Fine && t.attached && Distinct(t.eps) && Reconcile(t, ws, rcs).outcome == Fine
    ensures addr in Addrs(Reconcile(t, ws, rcs).eps) <==> Named(ws, addr)
    ensures Distinct(Reconcile(t, ws, rcs).eps)
  {
    hide News, Part, Named, Visit, UseAll, Swept, Reconcile, Opened, Addrs, Distinct, AllProper, Openings,
         Shutdowns;
    Reconciling(t, ws, rcs);
    var news, part := News(Addrs(t.eps), ws), Part(t.eps, ws, true);
    NewsExactly(Addrs(t.eps), ws, addr);
    PartDistinct(t.eps, ws, true);
    PartAddrs(t.eps, ws, addr);
    VisitAddrs(part);
    OpenedAddrs(news, rcs, |t.calls|, addr);
    JoinDistinct(t.eps, ws, Opened(news, rcs, |t.calls|));
  }

  lemma PartAddrs(eps: seq<Endpoint>, ws: seq<Wanted>, addr: Bytes)
    ensures addr in Addrs(Part(eps, ws, true)) <==> addr in Addrs(eps) && Named(ws, addr)
  {
    hide Part;
    if addr in Addrs(eps) && Named(ws, addr) {
      var e :| e in eps && e.addr == addr;
      assert e in Part(eps, ws, true);
    }
  }

  /** Kept endpoints and endpoints with new addresses make a list without duplicates. */
  lemma JoinDistinct(eps: seq<Endpoint>, ws: seq<Wanted>, added: seq<Endpoint>)
    requires Distinct(Part(eps, ws, true))
    requires |added| == |News(Addrs(eps), ws)|
    requires forall k :: 0 <= k < |added| ==> added[k].addr == News(Addrs(eps), ws)[k].addr
    ensures Distinct(Visit(Part(eps, ws, true)) + added)
    ensures Addrs(Visit(Part(eps, ws, true)) + added) == Addrs(Visit(Part(eps, ws, true))) + Addrs(added)
  {
    var part, news := Part(eps, ws, true), News(Addrs(eps), ws);
    VisitAddrs(part);
    forall k | 0 <= k < |news|
      ensures news[k].addr !in Addrs(eps)
    {
      NamedAt(news, k);
      NewsExactly(Addrs(eps), ws, news[k].addr);
    }
    NewsExactly(Addrs(eps), ws, []);
    forall k | 0 <= k < |part|
      ensures part[k].addr in Addrs(eps)
    {
      assert part[k] in part;
    }
    hide Part, News, Visit, Named;
  }

  lemma {:induction false} PartDistinct(eps: seq<Endpoint>, ws: seq<Wanted>, named: bool)
    requires Distinct(eps)
    ensures Distinct(Part(eps, ws, named))
  {
    if eps != [] {
      PartDistinct(eps[1..], ws, named);
    }
  }

  lemma {:induction false} OpenedAddrs(news: seq<Wanted>, rcs: nat -> int, m: nat, addr: Bytes)
    ensures addr in Addrs(Opened(news, rcs, m)) <==> Named(news, addr)
  {
    var eps := Opened(news, rcs, m);
    if news != [] {
      OpenedAddrs(news[1..], rcs, m + 1, addr);
      assert eps == [eps[0]] + Opened(news[1..], rcs, m + 1);
      assert Addrs(eps) == {eps[0].addr} + Addrs(Opened(news[1..], rcs, m + 1));
    }
  }

  lemma {:induction false} VisitAddrs(eps: seq<Endpoint>)
    ensures |Visit(eps)| == |eps| && Addrs(Visit(eps)) == Addrs(eps)
    ensures forall k :: 0 <= k < |eps| ==> Visit(eps)[k] == eps[k].(visited := true)
  {
    if eps != [] {
      VisitAddrs(eps[1..]);
    }
    SameAddrs(eps, Visit(eps));
  }

  // ----- The same reply again

  /** Applying a reply that names exactly what is listed makes no call and changes no id. */
  lemma SameReplyAgain(t: Table, ws: seq<Wanted>, rcs: nat -> int)
    requires t.outcome == Fine && Distinct(t.eps)
    requires forall addr :: addr in Addrs(t.eps) <==> Named(ws, addr)
    ensures Reconcile(t, ws, rcs) == t.(eps := Visit(t.eps))
  {
    hide Keep, Part, News, Named, Swept, UseAll, Mark, Visit;
    var u := Unmark(t);
    SameAddrs(t.eps, u.eps);
    NothingNew(t.eps, ws);
    assert Distinct(u.eps);
    hide Addrs, Distinct, Cleared;
    VisitListed(u, ws, rcs);
    AllNamed(t.eps, ws);
    SettleListed(t, ws);
  }

  /** An address that is bound and then named as one to connect to stays bound: of two replies
      that differ in kinds only, the second makes no call. */
  lemma KindsIgnored(t: Table, ws: seq<Wanted>, ws': seq<Wanted>, rcs: nat -> int)
    requires t.outcome == Fine && t.attached && Distinct(t.eps) && Reconcile(t, ws, rcs).outcome == Fine
    requires |ws| == |ws'| && forall k :: 0 <= k < |ws| ==> ws'[k].addr == ws[k].addr
    ensures var once := Reconcile(t, ws, rcs); Reconcile(once, ws', rcs) == once.(eps := Visit(once.eps))
  {
    var once := Reconcile(t, ws, rcs);
    ListedAreNamed(t, ws, rcs, []);
    forall addr
      ensures addr in Addrs(once.eps) <==> Named(ws', addr)
    {
      ListedAreNamed(t, ws, rcs, addr);
      NamedAlike(ws, ws', addr);
    }
    hide Reconcile, Addrs, Distinct, Named, Visit;
    SameReplyAgain(once, ws', rcs);
  }

  lemma {:induction false} NamedAlike(ws: seq<Wanted>, ws': seq<Wanted>, addr: Bytes)
    requires |ws| == |ws'| && forall k :: 0 <= k < |ws| ==> ws'[k].addr == ws[k].addr
    ensures Named(ws, addr) <==> Named(ws', addr)
  {
    if ws != [] {
      NamedAlike(ws[1..], ws'[1..], addr);
    }
  }

  lemma SettleListed(t: Table, ws: seq<Wanted>)
    requires t.outcome == Fine && Part(t.eps, ws, true) == t.eps && Part(t.eps, ws, false) == []
    requires t.eps != [] ==> Named(ws, t.eps[|t.eps| - 1].addr)
    ensures Settle(t.(eps := Mark(Cleared(t.eps), ws))) == t.(eps := Visit(t.eps))
  {
    hide Keep, Part, Named, Swept, Mark, Cleared, Visit;
    SweepMarked(t.eps, ws, []);
    LastMarked(t.eps, ws, []);
    assert Mark(Cleared(t.eps), ws) + [] == Mark(Cleared(t.eps), ws) && Visit(t.eps) + [] == Visit(t.eps);
    assert t.calls + [] == t.calls;
  }

  lemma VisitListed(t: Table, ws: seq<Wanted>, rcs: nat -> int)
    requires t.outcome == Fine && Distinct(t.eps) && News(Addrs(t.eps), ws) == []
    ensures UseAll(t, ws, rcs) == t.(eps := Mark(t.eps, ws))
  {
    if t.attached {
      VisitAll(t, ws, rcs);
      assert Mark(t.eps, ws) + [] == Mark(t.eps, ws) && t.calls + [] == t.calls;
    } else {
      DetachedVisit(t, ws, rcs);
    }
  }

  lemma NothingNew(eps: seq<Endpoint>, ws: seq<Wanted>)
    requires forall addr :: Named(ws, addr) ==> addr in Addrs(eps)
    ensures News(Addrs(eps), ws) == []
  {
    var news := News(Addrs(eps), ws);
    if news != [] {
      NamedAt(news, 0);
      NewsExactly(Addrs(eps), ws, news[0].addr);
    }
  }

  lemma {:induction false} AllNamed(eps: seq<Endpoint>, ws: seq<Wanted>)
    requires forall addr :: addr in Addrs(eps) ==> Named(ws, addr)
    ensures Part(eps, ws, true) == eps && Part(eps, ws, false) == []
    ensures eps != [] ==> Named(ws, eps[|eps| - 1].addr)
  {
    if eps != [] {
      assert eps[0].addr in Addrs(eps) && eps[|eps| - 1].addr in Addrs(eps);
      forall addr | addr in Addrs(eps[1..])
        ensures Named(ws, addr)
      {
        assert addr in Addrs(eps);
      }
      AllNamed(eps[1..], ws);
    }
  }

  // ----- Live endpoints

  /** Endpoints by address and id. */
  type Live = set<(Bytes, int)>

  /** What a call makes of the endpoints nanomsg has open, by what it returns: a proper id is
      that of a new endpoint, and a shutdown that fails leaves them all. */
  function Effect(live: Live, c: Call, rc: int): Live {
    match c
    case Shutdown(eid) => if rc < 0 then live else set p | p in live && p.1 != eid
    case _ => if rc > 0 then live + {(c.addr, rc)} else live
  }

  /** The endpoints nanomsg has open after these calls. */
  function OpenAfter(calls: seq<Call>, rcs: nat -> int): Live {
    if calls == [] then {}
    else
      var n := |calls| - 1;
      Effect(OpenAfter(calls[..n], rcs), calls[n], rcs(n))
  }

  /** The ids whose shutdown failed. */
  function Stuck(calls: seq<Call>, rcs: nat -> int): set<int> {
    if calls == [] then {}
    else
      var n := |calls| - 1;
      Stuck(calls[..n], rcs) + if calls[n].Shutdown? && rcs(n) < 0 then {calls[n].eid} else {}
  }

  /** What is open and nobody has tried to shut down. */
  function Held(calls: seq<Call>, rcs: nat -> int): Live {
    set p | p in OpenAfter(calls, rcs) && p.1 !in Stuck(calls, rcs)
  }

  function Pairs(eps: seq<Endpoint>): Live {
    set e | e in eps :: (e.addr, e.eid)
  }

  /** The listed endpoints with a proper id. */
  function Proper(eps: seq<Endpoint>): Live {
    set e | e in eps && e.eid > 0 :: (e.addr, e.eid)
  }

  ghost predicate OwnIds(eps: seq<Endpoint>) {
    forall j, k :: 0 <= j < k < |eps| && eps[j].eid > 0 ==> eps[j].eid != eps[k].eid
  }

  /** The listed endpoints with a proper id are what is open, each under an id of its own,
      except that one whose shutdown failed is open and not listed. */
  ghost predicate Tracked(eps: seq<Endpoint>, calls: seq<Call>, rcs: nat -> int) {
    && OwnIds(eps)
    && Proper(eps) == Held(calls, rcs)
    && (forall id :: id in Stuck(calls, rcs) ==> exists p :: p in OpenAfter(calls, rcs) && p.1 == id)
  }

  ghost predicate Tracks(t: Table, rcs: nat -> int) {
    Tracked(t.eps, t.calls, rcs)
  }

  /** Call k has opened an endpoint under this id. */
  predicate Opens(calls: seq<Call>, rcs: nat -> int, k: nat, id: int) {
    k < |calls| && !calls[k].Shutdown? && rcs(k) == id > 0
  }

  /** No two of these calls have opened endpoints under one id. */
  ghost predicate FreshOpens(calls: seq<Call>, rcs: nat -> int) {
    forall j: nat, k: nat, id: int :: j < k && Opens(calls, rcs, j, id) ==> !Opens(calls, rcs, k, id)
  }

  lemma FreshBefore(calls: seq<Call>, calls': seq<Call>, rcs: nat -> int)
    requires calls <= calls' && FreshOpens(calls', rcs)
    ensures FreshOpens(calls, rcs)
  {
    forall j: nat, k: nat, id: int | j < k && Opens(calls, rcs, j, id)
      ensures !Opens(calls, rcs, k, id)
    {
      assert Opens(calls', rcs, j, id) && !Opens(calls', rcs, k, id);
    }
  }

  lemma CallOne(calls: seq<Call>, c: Call, rcs: nat -> int)
    ensures var n, after := |calls|, calls + [c];
            && OpenAfter(after, rcs) == Effect(OpenAfter(calls, rcs), c, rcs(n))
            && Stuck(after, rcs) == Stuck(calls, rcs) + if c.Shutdown? && rcs(n) < 0 then {c.eid} else {}
  {
    assert (calls + [c])[..|calls|] == calls;
  }

  lemma {:induction false} OpenedBy(calls: seq<Call>, rcs: nat -> int, p: (Bytes, int)) returns (k: nat)
    requires p in OpenAfter(calls, rcs)
    ensures Opens(calls, rcs, k, p.1)
  {
    k := |calls| - 1;
    if p in OpenAfter(calls[..k], rcs) {
      k := OpenedBy(calls[..k], rcs, p);
    }
  }

  /** An id that a fresh open returns is not yet in use. */
  lemma NotInUse(calls: seq<Call>, c: Call, rcs: nat -> int, p: (Bytes, int))
    requires !c.Shutdown? && FreshOpens(calls + [c], rcs) && p in OpenAfter(calls, rcs)
    ensures p.1 > 0 && p.1 != rcs(|calls|)
  {
    var k := OpenedBy(calls, rcs, p);
    var after := calls + [c];
    assert Opens(after, rcs, k, p.1);
    assert !Opens(after, rcs, |calls|, p.1);
  }

  lemma UnmarkTracks(t: Table, rcs: nat -> int)
    requires Tracks(t, rcs)
    ensures Tracks(Unmark(t), rcs)
  {
    hide Held, OpenAfter, Stuck;
    SameProper(t.eps, Unmark(t).eps);
  }

  lemma SameProper(a: seq<Endpoint>, b: seq<Endpoint>)
    requires |a| == |b| && forall k :: 0 <= k < |a| ==> a[k].addr == b[k].addr && a[k].eid == b[k].eid
    ensures Proper(a) == Proper(b) && (OwnIds(a) ==> OwnIds(b))
  {
    ProperWithin(a, b);
    ProperWithin(b, a);
    hide Proper;
  }

  lemma ProperWithin(a: seq<Endpoint>, b: seq<Endpoint>)
    requires |a| == |b| && forall k :: 0 <= k < |a| ==> a[k].addr == b[k].addr && a[k].eid == b[k].eid
    ensures Proper(a) <= Proper(b)
  {
    forall p | p in Proper(a)
      ensures p in Proper(b)
    {
      var k :| 0 <= k < |a| && (a[k].addr, a[k].eid) == p;
      assert b[k] in b;
    }
  }

  /** Visiting keeps the list and the open endpoints in step, however much of the address
      array is read before the reply turns out to be malformed. */
  lemma UseTracks(t: Table, w: Wanted, rcs: nat -> int)
    requires var u := Use(t, w, rcs(|t.calls|));
             Tracks(t, rcs) && u.outcome == Fine && FreshOpens(u.calls, rcs)
    ensures Tracks(Use(t, w, rcs(|t.calls|)), rcs)
  {
    var f := Find(t.eps, w.addr);
    if f < |t.eps| {
      hide Held, OpenAfter, Stuck, Find, FreshOpens;
      SameProper(t.eps, t.eps[f := t.eps[f].(visited := true)]);
    } else {
      OpenTracks(t.eps, t.calls, w, rcs);
    }
  }

  lemma OpenTracks(eps: seq<Endpoint>, calls: seq<Call>, w: Wanted, rcs: nat -> int)
    requires Tracked(eps, calls, rcs) && FreshOpens(calls + [Opening(w)], rcs)
    ensures Tracked(eps + [Endpoint(w.addr, rcs(|calls|), true)], calls + [Opening(w)], rcs)
  {
    hide OpenAfter, Stuck, FreshOpens, Proper;
    var c, rc := Opening(w), rcs(|calls|);
    CallOne(calls, c, rcs);
    ProperAppend(eps, Endpoint(w.addr, rc, true));
    forall p | p in OpenAfter(calls, rcs)
      ensures p.1 > 0 && p.1 != rc
    {
      NotInUse(calls, c, rcs, p);
    }
    forall k | 0 <= k < |eps| && eps[k].eid > 0
      ensures eps[k].eid != rc
    {
      ProperAt(eps, k);
    }
  }

  lemma ProperAppend(eps: seq<Endpoint>, e: Endpoint)
    ensures Proper(eps + [e]) == Proper(eps) + if e.eid > 0 then {(e.addr, e.eid)} else {}
  {
  }

  lemma ProperAt(eps: seq<Endpoint>, k: nat)
    requires k < |eps| && eps[k].eid > 0
    ensures (eps[k].addr, eps[k].eid) in Proper(eps)
  {
    assert eps[k] in eps;
  }

  /** Settling keeps them in step as well, aborted or not. */
  lemma SettleTracks(t: Table, rcs: nat -> int)
    requires Tracks(t, rcs)
    ensures Tracks(Settle(t), rcs)
  {
    hide Tracked, Swept;
    assert [] + t.eps == t.eps && [] + Swept(t.eps).kept == Swept(t.eps).kept;
    SweepTracks([], t.eps, t.calls, rcs);
  }

  lemma {:induction false} SweepTracks(head: seq<Endpoint>, eps: seq<Endpoint>, calls: seq<Call>, rcs: nat -> int)
    requires Tracked(head + eps, calls, rcs)
    ensures Tracked(head + Swept(eps).kept, calls + Swept(eps).calls, rcs)
    decreases |eps|
  {
    hide Tracked;
    if eps == [] || (!eps[0].visited && eps[0].eid <= 0) {
      assert calls + [] == calls;
    } else {
      var e, rest := eps[0], eps[1..];
      assert head + eps == head + [e] + rest;
      if e.visited {
        SweepTracks(head + [e], rest, calls, rcs);
        assert head + [e] + Swept(rest).kept == head + ([e] + Swept(rest).kept);
      } else {
        ShutTracks(head, e, rest, calls, rcs);
        SweepTracks(head, rest, calls + [Shutdown(e.eid)], rcs);
        assert calls + [Shutdown(e.eid)] + Swept(rest).calls == calls + ([Shutdown(e.eid)] + Swept(rest).calls);
      }
    }
  }

  lemma ShutTracks(head: seq<Endpoint>, e: Endpoint, rest: seq<Endpoint>, calls: seq<Call>, rcs: nat -> int)
    requires Tracked(head + [e] + rest, calls, rcs) && e.eid > 0
    ensures Tracked(head + rest, calls + [Shutdown(e.eid)], rcs)
  {
    hide OpenAfter, Stuck, Proper;
    CallOne(calls, Shutdown(e.eid), rcs);
    var p := (e.addr, e.eid);
    ProperAt(head + [e] + rest, |head|);
    assert p in Held(calls, rcs);
    ProperWithout(head, e, rest);
  }

  lemma ProperWithout(head: seq<Endpoint>, e: Endpoint, rest: seq<Endpoint>)
    requires OwnIds(head + [e] + rest) && e.eid > 0
    ensures OwnIds(head + rest)
    ensures Proper(head + rest) == set p | p in Proper(head + [e] + rest) && p.1 != e.eid
  {
    var all := head + [e] + rest;
    assert all[|head|] == e;
    var less := head + rest;
    forall k | 0 <= k < |less|
      ensures less[k].eid != e.eid
      ensures all[if k < |head| then k else k + 1] == less[k]
    {
      var k' := if k < |head| then k else k + 1;
      assert all[k'] == less[k];
    }
    ProperParts(head, e, rest);
  }

  lemma ProperParts(head: seq<Endpoint>, e: Endpoint, rest: seq<Endpoint>)
    requires forall x :: x in head + rest ==> x.eid != e.eid
    ensures Proper(head + rest) == set p | p in Proper(head + [e] + rest) && p.1 != e.eid
  {
  }

  lemma {:induction false} StuckId(calls: seq<Call>, rcs: nat -> int) returns (id: int)
    requires Stuck(calls, rcs) != {}
    ensures id in Stuck(calls, rcs)
  {
    var n := |calls| - 1;
    if calls[n].Shutdown? && rcs(n) < 0 {
      id := calls[n].eid;
    } else {
      id := StuckId(calls[..n], rcs);
    }
  }

  /** The whole list is what nanomsg has open if and only if every listed endpoint got a
      proper id from its open and no shutdown has failed. */
  lemma ListIsOpenExactly(t: Table, rcs: nat -> int)
    requires Tracks(t, rcs)
    ensures Pairs(t.eps) == OpenAfter(t.calls, rcs) <==> AllProper(t.eps) && Stuck(t.calls, rcs) == {}
  {
    var live, stuck := OpenAfter(t.calls, rcs), Stuck(t.calls, rcs);
    ProperPairs(t.eps);
    forall p | p in live
      ensures p.1 > 0
    {
      var k := OpenedBy(t.calls, rcs, p);
    }
    hide OpenAfter, Pairs, Proper, AllProper;
    if stuck != {} {
      var id := StuckId(t.calls, rcs);
      assert exists p :: p in live && p.1 in stuck;
    }
    hide Stuck;
    if Pairs(t.eps) == live {
      forall p | p in live
        ensures p.1 !in stuck
      {
        assert p in Proper(t.eps);
      }
    }
    if AllProper(t.eps) && stuck == {} {
      assert Held(t.calls, rcs) == live && Proper(t.eps) == Pairs(t.eps);
    }
  }

  lemma {:induction false} ProperPairs(eps: seq<Endpoint>)
    ensures AllProper(eps) <==> forall p :: p in Pairs(eps) ==> p.1 > 0
    ensures forall p :: p in Proper(eps) <==> p in Pairs(eps) && p.1 > 0
  {
    if eps != [] {
      ProperPairs(eps[1..]);
      assert Pairs(eps) == {(eps[0].addr, eps[0].eid)} + Pairs(eps[1..]);
    }
  }

  /** A bind that fails: the endpoint is listed and nothing is open, and the next reply that
      does not name it ends the worker. */
  lemma FailedBind(addr: Bytes, rcs: nat -> int)
    requires rcs(0) == -1
    ensures var t := Reconcile(Table([], true, [], Fine), [Wanted(0, addr)], rcs);
            && t == Table([Endpoint(addr, -1, true)], true, [Bind(addr)], Fine)
            && OpenAfter(t.calls, rcs) == {}
            && Reconcile(t, [], rcs).outcome == Aborted
  {
    var t0, w := Table([], true, [], Fine), Wanted(0, addr);
    assert [w][1..] == [];
    var t := Table([Endpoint(addr, -1, true)], true, [Bind(addr)], Fine);
    assert UseAll(Unmark(t0), [w], rcs) == UseAll(Use(Unmark(t0), w, rcs(0)), [], rcs) == t;
    assert t.eps[1..] == [] && t.calls + [] == t.calls;
    assert Swept(t.eps) == Sweep(t.eps, [], true);
    assert OpenAfter(t.calls[..0], rcs) == {};
    assert !Swept(Unmark(t).eps).ok;
  }

  /** A shutdown that fails: the endpoint is open and no longer listed. */
  lemma FailedShutdown(addr: Bytes, rcs: nat -> int)
    requires rcs(0) == 1 && rcs(1) == -1
    ensures var t := Reconcile(Table([Endpoint(addr, 1, true)], true, [Bind(addr)], Fine), [], rcs);
            && t.outcome == Fine && t.eps == []
            && OpenAfter(t.calls, rcs) == {(addr, 1)}
  {
    var t := Table([Endpoint(addr, 1, true)], true, [Bind(addr)], Fine);
    var u := Unmark(t);
    assert u.eps[1..] == [];
    assert Swept(u.eps) == Sweep([], [Shutdown(1)], true);
    assert [Bind(addr)][..0] == [];
    CallOne([Bind(addr)], Shutdown(1), rcs);
  }
}
