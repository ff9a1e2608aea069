/** Lists that coexist: no node is on two of them, so a change to one leaves the others alone. */
module ListFamily {
  import opened IntrusiveList

  ghost function Cells<T>(lists: set<List<T>>): set<Link<T>>
    reads lists
    ensures forall l, n :: l in lists && n in l.links ==> n in Cells(lists)
  {
    set l, n | l in lists && n in l.links :: n
  }

  ghost function Tails<T>(lists: set<List<T>>): set<Link<T>>
    reads lists
    ensures forall l, n :: l in lists && n in l.TailNode() ==> n in Tails(lists)
  {
    set l, n | l in lists && n in l.TailNode() :: n
  }

  ghost predicate AllValid<T>(lists: set<List<T>>)
    reads lists, Cells(lists)`next, Cells(lists)`prev, Cells(lists)`home, Tails(lists)`home
  {
    forall l :: l in lists ==> l.Valid()
  }

  /** A new empty list besides lists that have not changed. */
  twostate lemma OneMoreValid<T>(lists: set<List<T>>, new l: List<T>)
    requires old(AllValid(lists)) && unchanged(lists) && l.Valid()
    requires unchanged(old(Cells(lists))) && unchanged(old(Tails(lists)))
    ensures AllValid(lists + {l})
  {
    assert forall m :: m in lists ==> old(m.Valid());
  }

  method AppendTo<T>(ghost lists: set<List<T>>, l: List<T>, n: Link<T>)
    requires AllValid(lists) && l in lists && l.Attached()
    requires n.home == null && n !in Tails(lists)
    modifies l, n`next, n`prev, n`home, l.TailNode()`next
    ensures AllValid(lists)
    ensures l.links == old(l.links) + [n] && l.Attached() && l.tail == NextOf(n)
    ensures forall m :: m in lists && m != l ==> m.links == old(m.links) && m.tail == old(m.tail)
  {
    assert n !in l.TailNode();
    forall m | m in lists && m != l
      ensures n !in m.links && n !in m.TailNode() && l.TailNode() !! (set x | x in m.links)
    {
      assert m.Valid() && l.Valid();
    }
    l.Append(n);
  }

  /** Append to two lists. */
  method AppendToBoth<T>(ghost lists: set<List<T>>, l: List<T>, n: Link<T>, l': List<T>, n': Link<T>)
    requires AllValid(lists) && l in lists && l.Attached() && l' in lists && l'.Attached() && l != l'
    requires n.home == null && n !in Tails(lists)
    requires n'.home == null && n' !in Tails(lists) && n != n'
    modifies l, n`next, n`prev, n`home, l.TailNode()`next
    modifies l', n'`next, n'`prev, n'`home, l'.TailNode()`next
    ensures AllValid(lists)
    ensures forall m :: m in lists ==> m.Attached() == old(m.Attached())
    ensures Tails(lists) <= old(Tails(lists)) + {n, n'}
    ensures forall m :: m in lists ==>
              m.links == if m == l then old(m.links) + [n] else if m == l' then old(m.links) + [n'] else old(m.links)
  {
    hide AllValid;
    AppendTo(lists, l, n);
    AppendTo(lists, l', n');
  }

  method RemoveFrom<T>(ghost lists: set<List<T>>, l: List<T>, n: Link<T>, ghost k: nat)
    requires AllValid(lists) && l in lists && k < |l.links| && l.links[k] == n
    modifies l`head, l`links, Cells({l})`next, Cells({l})`prev, n`home
    ensures AllValid(lists)
    ensures l.links == old(Without(l.links, k)) && l.tail == old(l.tail)
    ensures l.Attached() <==> old(l.Attached()) && k + 1 < |old(l.links)|
    ensures forall m :: m in lists && m != l ==> m.links == old(m.links)
  {
    forall m | m in lists && m != l
      ensures (set x | x in l.links) !! (set x | x in m.links) && (m.TailNode() * (set x | x in l.links) == {})
    {
      assert m.Valid() && l.Valid();
    }
    l.WalksOn(k);
    assert n.prev.NextOf? ==> n.prev.link in l.links;
    assert n.next != null ==> n.next in l.links;
    assert n in l.links;
    l.Remove(n, k);
  }

  /** Remove from two lists: a node at place k of one and a node at place k' of the other. */
  method RemoveFromBoth<T>(ghost lists: set<List<T>>, l: List<T>, n: Link<T>, ghost k: nat,
                           l': List<T>, n': Link<T>, ghost k': nat)
    requires AllValid(lists) && l in lists && l' in lists && l != l'
    requires k < |l.links| && l.links[k] == n && k' < |l'.links| && l'.links[k'] == n'
    modifies l`head, l`links, l'`head, l'`links, n`home, n'`home, Cells({l, l'})`next, Cells({l, l'})`prev
    ensures AllValid(lists)
    ensures l.links == old(Without(l.links, k)) && l'.links == old(Without(l'.links, k'))
    ensures forall m :: m in lists && m != l && m != l' ==> m.links == old(m.links)
    ensures l.Attached() <==> old(l.Attached()) && k + 1 < |old(l.links)|
    ensures l'.Attached() <==> old(l'.Attached()) && k' + 1 < |old(l'.links)|
  {
    hide AllValid, Without;
    RemoveFrom(lists, l, n, k);
    RemoveFrom(lists, l', n', k');
  }
}
