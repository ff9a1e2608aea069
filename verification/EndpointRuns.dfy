/** The endpoint list of a socket over runs of replies: exactly which runs stay defined. */
module EndpointRuns {
  import opened MsgPack
  import opened Endpoints

  /** The addresses that a reply names, and whether it is read to the end of its address array. */
  datatype Visit = Visit(ws: seq<Wanted>, through: bool)

  function Visited(t: Table, v: Visit, rcs: nat -> int): Table {
    var u := UseAll(Unmark(t), v.ws, rcs);
    if v.through then Settle(u) else u
  }

  function TableAfter(vs: seq<Visit>, rcs: nat -> int): Table {
    if vs == [] then Table([], true, [], Fine)
    else
      var n := |vs| - 1;
      Visited(TableAfter(vs[..n], rcs), vs[n], rcs)
  }

  // ----- What a reply asks of the list

  /** It names an address that is not listed. */
  predicate Adds(t: Table, v: Visit) {
    News(Addrs(t.eps), v.ws) != []
  }

  /** It gives up the last listed endpoint and adds none. */
  predicate Loosens(t: Table, v: Visit) {
    v.through && t.eps != [] && !Adds(t, v) && !Named(v.ws, t.eps[|t.eps| - 1].addr)
  }

  /** It gives up an endpoint without a proper id. */
  predicate DropsFailed(t: Table, v: Visit) {
    v.through && !AllProper(Part(t.eps, v.ws, false))
  }

  lemma UseDistinct(t: Table, w: Wanted, rc: int)
    requires Distinct(t.eps)
    ensures Distinct(Use(t, w, rc).eps)
  {
  }

  lemma {:induction false} UseAllDistinct(t: Table, ws: seq<Wanted>, rcs: nat -> int)
    requires Distinct(t.eps)
    ensures Distinct(UseAll(t, ws, rcs).eps)
    decreases |ws|
  {
    hide Use, Distinct;
    if ws != [] {
      UseDistinct(t, ws[0], rcs(|t.calls|));
      UseAllDistinct(Use(t, ws[0], rcs(|t.calls|)), ws[1..], rcs);
    }
  }

  lemma {:induction false} KeepDistinct(eps: seq<Endpoint>, visited: bool)
    requires Distinct(eps)
    ensures Distinct(Keep(eps, visited))
  {
    if eps != [] {
      KeepDistinct(eps[1..], visited);
    }
  }

  lemma VisitedDistinct(t: Table, v: Visit, rcs: nat -> int)
    requires Distinct(t.eps) && Visited(t, v, rcs).outcome == Fine
    ensures Distinct(Visited(t, v, rcs).eps)
  {
    var u := Unmark(t);
    assert Distinct(u.eps);
    UseAllDistinct(u, v.ws, rcs);
    var all := UseAll(u, v.ws, rcs);
    SweptExactly(all.eps);
    KeepDistinct(all.eps, true);
    hide Distinct, UseAll, Swept, Keep, Cleared;
  }

  /** One reply: when it stays defined, and when the tail comes loose. */
  lemma VisitExactly(t: Table, v: Visit, rcs: nat -> int)
    requires t.outcome == Fine && Distinct(t.eps)
    ensures var t' := Visited(t, v, rcs);
            && (t'.outcome == Fine <==> (t.attached || !Adds(t, v)) && !DropsFailed(t, v))
            && (t'.outcome == Fine ==> Distinct(t'.eps) && (t'.attached <==> t.attached && !Loosens(t, v)))
  {
    if Visited(t, v, rcs).outcome == Fine {
      VisitedDistinct(t, v, rcs);
    }
    hide Distinct, AllProper, Part, Named, News, UseAll, Visited;
    if t.attached {
      AttachedVisit(t, v, rcs);
    } else {
      LooseVisit(t, v, rcs);
    }
  }

  lemma AttachedVisit(t: Table, v: Visit, rcs: nat -> int)
    requires t.outcome == Fine && Distinct(t.eps) && t.attached
    ensures var t' := Visited(t, v, rcs);
            && (t'.outcome == Fine <==> !DropsFailed(t, v))
            && (t'.outcome == Fine ==> (t'.attached <==> !Loosens(t, v)))
  {
    Reconciling(t, v.ws, rcs);
    var u := Unmark(t);
    SameAddrs(t.eps, u.eps);
    assert Distinct(u.eps);
    VisitAll(u, v.ws, rcs);
    hide Distinct, AllProper, Part, Named, News, UseAll, Settle, Addrs, Mark, Opened, Openings, Endpoints.Visit;
  }

  lemma LooseVisit(t: Table, v: Visit, rcs: nat -> int)
    requires t.outcome == Fine && Distinct(t.eps) && !t.attached
    ensures var t' := Visited(t, v, rcs);
            && (t'.outcome == Fine <==> !Adds(t, v) && !DropsFailed(t, v))
            && (t'.outcome == Fine ==> !t'.attached)
  {
    var u := Unmark(t);
    SameAddrs(t.eps, u.eps);
    assert Distinct(u.eps);
    DetachedVisit(u, v.ws, rcs);
    SweepMarked(t.eps, v.ws, []);
    assert Mark(Cleared(t.eps), v.ws) + [] == Mark(Cleared(t.eps), v.ws);
    hide Distinct, AllProper, Part, Named, News, UseAll, Addrs, Mark, Cleared, Swept, Endpoints.Visit;
  }

  lemma BrokenStays(t: Table, v: Visit, rcs: nat -> int)
    requires t.outcome != Fine
    ensures Visited(t, v, rcs).outcome != Fine
  {
    UndefinedStays(Unmark(t), v.ws, rcs);
    hide UseAll, Cleared;
  }

  // ----- Whole runs

  predicate LoosensAt(vs: seq<Visit>, rcs: nat -> int, n: nat)
    requires n < |vs|
  {
    Loosens(TableAfter(vs[..n], rcs), vs[n])
  }

  /** Some reply before number n loosened the tail. */
  ghost predicate LooseBy(vs: seq<Visit>, rcs: nat -> int, n: nat)
    requires n <= |vs|
  {
    exists m: nat :: m < n && LoosensAt(vs, rcs, m)
  }

  /** Reply n gives up an endpoint that was never open, or names a new address after the last
      listed endpoint was given up without a new one. */
  ghost predicate BreaksAt(vs: seq<Visit>, rcs: nat -> int, n: nat)
    requires n < |vs|
  {
    var t := TableAfter(vs[..n], rcs);
    DropsFailed(t, vs[n]) || (LooseBy(vs, rcs, n) && Adds(t, vs[n]))
  }

  ghost predicate Unbroken(vs: seq<Visit>, rcs: nat -> int, n: nat)
    requires n <= |vs|
  {
    forall k: nat :: k < n ==> !BreaksAt(vs, rcs, k)
  }

  lemma {:induction false} RunUpTo(vs: seq<Visit>, rcs: nat -> int, n: nat)
    requires n <= |vs|
    ensures var t := TableAfter(vs[..n], rcs);
            && (t.outcome == Fine <==> Unbroken(vs, rcs, n))
            && (t.outcome == Fine ==> Distinct(t.eps) && (t.attached <==> !LooseBy(vs, rcs, n)))
  {
    hide LoosensAt, BreaksAt, Visited, Distinct;
    if n == 0 {
      NothingYet(vs, rcs);
    } else {
      var m := n - 1;
      RunUpTo(vs, rcs, m);
      OneVisitMore(vs, rcs, m);
      var t := TableAfter(vs[..m], rcs);
      if t.outcome == Fine {
        VisitExactly(t, vs[m], rcs);
      } else {
        BrokenStays(t, vs[m], rcs);
      }
    }
  }

  lemma NothingYet(vs: seq<Visit>, rcs: nat -> int)
    ensures vs[..0] == [] && Distinct(TableAfter(vs[..0], rcs).eps)
  {
  }

  lemma OneVisitMore(vs: seq<Visit>, rcs: nat -> int, m: nat)
    requires m < |vs|
    ensures TableAfter(vs[..m + 1], rcs) == Visited(TableAfter(vs[..m], rcs), vs[m], rcs)
    ensures LooseBy(vs, rcs, m + 1) <==> LooseBy(vs, rcs, m) || Loosens(TableAfter(vs[..m], rcs), vs[m])
    ensures var t := TableAfter(vs[..m], rcs);
            Unbroken(vs, rcs, m + 1) <==>
            Unbroken(vs, rcs, m) && !DropsFailed(t, vs[m]) && !(LooseBy(vs, rcs, m) && Adds(t, vs[m]))
  {
    assert vs[..m + 1][..m] == vs[..m];
    hide Loosens, DropsFailed, Adds, Visited;
    assert LoosensAt(vs, rcs, m) <==> Loosens(TableAfter(vs[..m], rcs), vs[m]);
    LooseMore(vs, rcs, m);
    UnbrokenMore(vs, rcs, m);
  }

  lemma LooseMore(vs: seq<Visit>, rcs: nat -> int, m: nat)
    requires m < |vs|
    ensures LooseBy(vs, rcs, m + 1) <==> LooseBy(vs, rcs, m) || LoosensAt(vs, rcs, m)
  {
    hide LoosensAt;
    if LooseBy(vs, rcs, m + 1) {
      var k: nat :| k < m + 1 && LoosensAt(vs, rcs, k);
      assert k == m || k < m;
    }
  }

  lemma UnbrokenMore(vs: seq<Visit>, rcs: nat -> int, m: nat)
    requires m < |vs|
    ensures Unbroken(vs, rcs, m + 1) <==> Unbroken(vs, rcs, m) && !BreaksAt(vs, rcs, m)
  {
    hide BreaksAt;
  }

  /** Over every run of replies to a socket its endpoint list stays defined and the worker is not
      stopped by it -- if and only if no reply gives up an endpoint that was never open, and
      none names a new address after another gave up the last one listed without a new one. */
  lemma DefinedExactly(vs: seq<Visit>, rcs: nat -> int)
    ensures TableAfter(vs, rcs).outcome == Fine <==> Unbroken(vs, rcs, |vs|)
  {
    assert vs[..|vs|] == vs;
    RunUpTo(vs, rcs, |vs|);
  }
}
