/** The endpoint list of a socket in memory: the loops of `nc_parse_and_apply` over it, each
    proved to be the phase of the Endpoints module it stands for. */
module EndpointList {
  import opened MsgPack
  import opened IntrusiveList
  import opened Endpoints

  type Node = Link<Endpoint>

  ghost function Payloads(nodes: seq<Node>): (r: seq<Endpoint>)
    reads nodes`item
    ensures |r| == |nodes| && forall k :: 0 <= k < |r| ==> r[k] == nodes[k].item
  {
    if nodes == [] then []
    else
      var n := |nodes| - 1;
      Payloads(nodes[..n]) + [nodes[n].item]
  }

  lemma PayloadsAppend(nodes: seq<Node>, n: Node)
    ensures Payloads(nodes + [n]) == Payloads(nodes) + [n.item]
  {
    assert (nodes + [n])[..|nodes|] == nodes;
  }

  class SocketEndpoints {
    const list: List<Endpoint>
    var calls: seq<Call>  // the nanomsg calls made so far
    var outcome: Outcome

    ghost predicate Valid()
      reads this, list, list.links`next, list.links`prev, list.links`home, list.TailNode()`home
    {
      list.Valid()
    }

    ghost function View(): (t: Table)
      reads this, list, list.links`item
      ensures t.calls == calls && t.outcome == outcome
    {
      Table(Payloads(list.links), list.Attached(), calls, outcome)
    }

    constructor ()
      ensures Valid() && fresh(list) && fresh(Footprint()) && View() == Table([], true, [], Fine)
    {
      list := new List<Endpoint>();
      calls, outcome := [], Fine;
    }

    ghost function Nodes(): set<Node>
      reads list
    {
      set n | n in list.links
    }

    ghost function Footprint(): set<object>
      reads this, list
    {
      {this, list} + Nodes() + list.TailNode()
    }

    /** What the list is made of is what it was made of, and new objects. */
    twostate predicate Grew()
      reads this, list
    {
      forall o :: o in Footprint() ==> o in old(Footprint()) || fresh(o)
    }

    method UnmarkAll()
      requires Valid()
      modifies list.links`item
      ensures Valid() && View() == old(Unmark(View())) && Footprint() == old(Footprint())
    {
      hide Payloads, NoRepeats, List.Attached;
      ghost var eps := Payloads(list.links);
      list.Walks();
      var ep := list.head;
      ghost var k := 0;
      while ep != null
        invariant k <= |list.links| && ep == list.NodeAt(k) && Valid()
        invariant forall j :: 0 <= j < |eps| ==>
                    list.links[j].item == if j < k then eps[j].(visited := false) else eps[j]
        decreases |list.links| - k
      {
        list.WalksOn(k);
        list.Others(k);
        ep.item := ep.item.(visited := false);
        ep := ep.next;
        k := k + 1;
      }
      assert Payloads(list.links) == Cleared(eps);
    }

    method FindNode(addr: Bytes) returns (ep: Link?<Endpoint>, ghost k: nat)
      requires Valid()
      ensures k == Find(Payloads(list.links), addr) && ep == list.NodeAt(Find(Payloads(list.links), addr))
    {
      ep, k := list.head, 0;
      ghost var eps := Payloads(list.links);
      while ep != null
        invariant k <= |list.links| && ep == list.NodeAt(k)
        invariant Find(eps, addr) == k + Find(eps[k..], addr)
        decreases |list.links| - k
      {
        if ep.item.addr == addr { return; }
        assert list.Linked(k);
        ep := ep.next;
        k := k + 1;
      }
    }

    method UseAddress(w: Wanted, rc: int)
      requires Valid() && outcome == Fine
      modifies this, list, list.links, list.TailNode()
      ensures Valid() && View() == old(Use(View(), w, rc)) && Grew()
    {
      hide Payloads, Find, List.Valid, List.Attached;
      var ep, k := FindNode(w.addr);
      if ep != null {
        VisitNode(ep, k);
      } else {
        OpenAddress(w, rc);
      }
    }

    method VisitNode(ep: Node, ghost k: nat)
      requires Valid() && k < |list.links| && list.links[k] == ep
      modifies ep`item
      ensures Valid()
      ensures Payloads(list.links) == old(Payloads(list.links)[k := Payloads(list.links)[k].(visited := true)])
    {
      ghost var eps := Payloads(list.links);
      list.Others(k);
      ep.item := ep.item.(visited := true);
    }

    method OpenAddress(w: Wanted, rc: int)
      requires Valid() && outcome == Fine && Find(Payloads(list.links), w.addr) == |list.links|
      modifies this, list, list.links, list.TailNode()
      ensures Valid() && View() == old(Use(View(), w, rc)) && Grew()
    {
      hide Payloads, Find;
      hide List.Attached, Grew, Footprint;
      list.LooseIsDetached();
      Before();
      if list.Loose() {
        calls, outcome := calls + [Opening(w)], Undefined;
        Gone();
        return;
      }
      calls := calls + [Opening(w)];
      var node := new Link(Endpoint(w.addr, rc, true));
      list.Append(node);
      Opened(node);
    }

    lemma Before()
      ensures |Payloads(list.links)| == |list.links|
    {
    }

    twostate lemma Gone()
      requires unchanged(list) && unchanged(old(list.links))
      ensures Grew() && Payloads(list.links) == old(Payloads(list.links))
    {
    }

    twostate lemma Opened(new node: Node)
      requires list.links == old(list.links) + [node] && fresh(node) && list.TailNode() == {node}
      requires forall n :: n in old(list.links) ==> n.item == old(n.item)
      ensures Grew() && Payloads(list.links) == old(Payloads(list.links)) + [node.item]
    {
      PayloadsAppend(old(list.links), node);
      hide Payloads;
      assert Payloads(old(list.links)) == old(Payloads(list.links));
    }

    /** The sweep; false if it was stopped by the assertion on an endpoint id. */
    method SettleAll() returns (ok: bool)
      requires Valid() && outcome == Fine
      modifies this`calls, this`outcome, list`head, list`links, Nodes()`next, Nodes()`prev, Nodes()`home
      ensures Valid() && View() == old(Settle(View())) && Footprint() <= old(Footprint())
      ensures ok <==> outcome == Fine
    {
      hide Payloads, Swept;
      ok := SweepNodes();
      outcome := if ok then Fine else Aborted;
    }

    method SweepNodes() returns (ok: bool)
      requires Valid()
      modifies this`calls, list`head, list`links, Nodes()`next, Nodes()`prev, Nodes()`home
      ensures Valid() && Nodes() <= old(Nodes())
      ensures SweptOut(old(Payloads(list.links)), old(calls), old(list.Attached()), ok)
    {
      ghost var eps, before, was, nodes := Payloads(list.links), calls, list.Attached(), Nodes();
      ghost var kept, done, rest := [], [], eps;
      StartSweep(eps);
      hide Midway, SweptOut, List.Valid, List.Attached, Payloads;
      list.Walks();
      var ep := list.head;
      while ep != null
        invariant Midway(eps, before, was, kept, done, rest)
        invariant Valid() && Nodes() <= nodes
        invariant |kept| <= |list.links| && ep == list.NodeAt(|kept|)
        decreases |rest|
      {
        ok, ep, kept, done := SweepTurn(ep, eps, before, was, kept, done, rest);
        if !ok {
          return;
        }
        rest := rest[1..];
      }
      FinishSweep(eps, before, was, kept, done, rest);
      ok := true;
    }

    method SweepTurn(ep: Node, ghost eps: seq<Endpoint>, ghost before: seq<Call>, ghost was: bool,
                     ghost kept: seq<Endpoint>, ghost done: seq<Call>, ghost rest: seq<Endpoint>)
      returns (ok: bool, nep: Link?<Endpoint>, ghost kept': seq<Endpoint>, ghost done': seq<Call>)
      requires Valid() && Midway(eps, before, was, kept, done, rest)
      requires |kept| < |list.links| && ep == list.links[|kept|]
      modifies this`calls, list`head, list`links, Nodes()`next, Nodes()`prev, ep`home
      ensures Valid() && Nodes() <= old(Nodes())
      ensures ok ==>
                && rest != [] && Midway(eps, before, was, kept', done', rest[1..])
                && |kept'| <= |list.links| && nep == list.NodeAt(|kept'|)
      ensures !ok ==> SweptOut(eps, before, was, false)
    {
      hide Midway, SweptOut, List.Valid, List.Attached, Payloads;
      Turning(eps, before, was, kept, done, rest);
      list.WalksOn(|kept|);
      nep, kept', done', ok := ep.next, kept, done, true;
      if ep.item.visited {
        kept' := kept + [rest[0]];
      } else if ep.item.eid <= 0 {
        ok := false;
      } else {
        ShutTurn(ep, eps, before, was, kept, done, rest);
        done' := done + [Shutdown(rest[0].eid)];
      }
    }

    /** The sweep has come to the node after `kept`, having made the calls `done`. */
    ghost predicate Midway(eps: seq<Endpoint>, before: seq<Call>, was: bool,
                           kept: seq<Endpoint>, done: seq<Call>, rest: seq<Endpoint>)
      reads this, list, list.links`item
    {
      && Payloads(list.links) == kept + rest && calls == before + done
      && Swept(eps) == Resume(kept, done, rest)
      && LastVisited(eps) == LastVisited(if rest == [] then eps else rest)
      && (list.Attached() <==> was && (rest != [] || LastVisited(eps)))
    }

    /** The sweep has ended. */
    ghost predicate SweptOut(eps: seq<Endpoint>, before: seq<Call>, was: bool, ok: bool)
      reads this, list, list.links`item
    {
      && Swept(eps).ok == ok
      && Payloads(list.links) == Swept(eps).kept && calls == before + Swept(eps).calls
      && (list.Attached() <==> was && (!ok || LastVisited(eps)))
    }

    lemma StartSweep(eps: seq<Endpoint>)
      requires eps == Payloads(list.links)
      ensures Midway(eps, calls, list.Attached(), [], [], eps)
    {
      Start(eps, calls);
    }

    lemma FinishSweep(eps: seq<Endpoint>, before: seq<Call>, was: bool,
                      kept: seq<Endpoint>, done: seq<Call>, rest: seq<Endpoint>)
      requires Midway(eps, before, was, kept, done, rest) && |list.links| <= |kept|
      ensures SweptOut(eps, before, was, true)
    {
      Finished(kept, done);
    }

    /** What the next turn of the sweep does about the node it is at. */
    lemma Turning(eps: seq<Endpoint>, before: seq<Call>, was: bool,
                  kept: seq<Endpoint>, done: seq<Call>, rest: seq<Endpoint>)
      requires Midway(eps, before, was, kept, done, rest) && |kept| < |list.links|
      ensures rest != [] && list.links[|kept|].item == rest[0]
      ensures rest[0].visited ==> Midway(eps, before, was, kept + [rest[0]], done, rest[1..])
      ensures !rest[0].visited && rest[0].eid <= 0 ==>
                SweptOut(eps, before, was, false)
    {
      hide Swept, LastVisited, Payloads, Resume;
      Resuming(kept, done, rest);
    }

    method ShutTurn(ep: Node, ghost eps: seq<Endpoint>, ghost before: seq<Call>, ghost was: bool,
                    ghost kept: seq<Endpoint>, ghost done: seq<Call>, ghost rest: seq<Endpoint>)
      requires Valid() && Midway(eps, before, was, kept, done, rest)
      requires |kept| < |list.links| && ep == list.links[|kept|] && !ep.item.visited && ep.item.eid > 0
      modifies this`calls, list`head, list`links, Nodes()`next, Nodes()`prev, ep`home
      ensures Valid() && Nodes() <= old(Nodes()) && |kept| <= |list.links|
      ensures list.NodeAt(|kept|) == old(list.NodeAt(|kept| + 1))
      ensures rest != [] && Midway(eps, before, was, kept, done + [Shutdown(rest[0].eid)], rest[1..])
    {
      hide Swept, LastVisited, Payloads, Resume, Without, List.Valid, List.Attached;
      Resuming(kept, done, rest);
      ShutNode(ep, |kept|);
    }

    method ShutNode(ep: Node, ghost k: nat)
      requires Valid() && k < |list.links| && list.links[k] == ep
      modifies this`calls, list`head, list`links, Nodes()`next, Nodes()`prev, ep`home
      ensures Valid() && calls == old(calls) + [Shutdown(ep.item.eid)]
      ensures Payloads(list.links) == old(Without(Payloads(list.links), k))
      ensures Nodes() <= old(Nodes())
      ensures list.Attached() <==> old(list.Attached()) && k + 1 < |old(list.links)|
      ensures list.NodeAt(k) == old(list.NodeAt(k + 1))
    {
      hide Payloads, List.Valid, NoRepeats;
      list.WalksOn(k);
      list.NoneTwice();
      calls := calls + [Shutdown(ep.item.eid)];
      WithoutKeeps(list.links, k);
      PayloadsWithout(list.links, k);
      list.Remove(ep, k);
    }
  }

  ghost predicate LastVisited(eps: seq<Endpoint>) {
    eps == [] || eps[|eps| - 1].visited
  }

  /** The sweep of a list whose front, swept so far, left `kept` and made the calls `done`. */
  ghost function Resume(kept: seq<Endpoint>, done: seq<Call>, rest: seq<Endpoint>): Sweep {
    var s := Swept(rest);
    Sweep(kept + s.kept, done + s.calls, s.ok)
  }

  lemma Start(eps: seq<Endpoint>, calls: seq<Call>)
    ensures Swept(eps) == Resume([], [], eps) && [] + eps == eps && calls + [] == calls
    ensures eps == [] ==> LastVisited(eps)
  {
  }

  lemma Resuming(kept: seq<Endpoint>, done: seq<Call>, rest: seq<Endpoint>)
    requires rest != []
    ensures rest[0].visited ==> Resume(kept, done, rest) == Resume(kept + [rest[0]], done, rest[1..])
    ensures !rest[0].visited && rest[0].eid <= 0 ==> Resume(kept, done, rest) == Sweep(kept + rest, done, false)
    ensures !rest[0].visited && rest[0].eid > 0 ==>
              Resume(kept, done, rest) == Resume(kept, done + [Shutdown(rest[0].eid)], rest[1..])
    ensures kept + rest == kept + [rest[0]] + rest[1..]
    ensures Without(kept + rest, |kept|) == kept + rest[1..]
    ensures |rest| > 1 ==> LastVisited(rest[1..]) == LastVisited(rest)
    ensures |rest| == 1 ==> LastVisited(rest) == rest[0].visited
  {
  }

  lemma Finished(kept: seq<Endpoint>, done: seq<Call>)
    ensures Resume(kept, done, []) == Sweep(kept, done, true) && kept + [] == kept
  {
    assert kept + [] == kept && done + [] == done;
  }

  lemma PayloadsWithout(nodes: seq<Node>, k: nat)
    requires k < |nodes|
    ensures Payloads(Without(nodes, k)) == Without(Payloads(nodes), k)
  {
    var eps := Payloads(nodes);
    WithoutAt(nodes, k);
    WithoutAt(eps, k);
    hide Payloads, Without;
    assert Payloads(Without(nodes, k)) == Without(eps, k);
  }
}
