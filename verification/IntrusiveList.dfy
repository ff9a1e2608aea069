/** The doubly linked lists of src/worker.c: a list is a head cell and the address of the
    cell the next append goes through; a node keeps its successor and the address of
    the cell that points at it.  A cell is either a list's head or a node's `next`.

    Removal goes through the node only, as in the C code, so it cannot repair the list's tail:
    after the last node is removed the tail still names that node's own `next` cell. */
module IntrusiveList {

  datatype Slot<T> = Nowhere | HeadOf(list: List<T>) | NextOf(link: Link<T>)

  ghost predicate NoRepeats<X>(s: seq<X>) {
    forall j, k :: 0 <= j < k < |s| ==> s[j] != s[k]
  }

  ghost function Without<X>(s: seq<X>, k: nat): seq<X>
    requires k < |s|
  {
    s[..k] + s[k + 1..]
  }

  lemma WithoutKeeps<X>(s: seq<X>, k: nat)
    requires k < |s| && NoRepeats(s)
    ensures NoRepeats(Without(s, k))
    ensures s[k] !in Without(s, k)
    ensures forall x :: x in Without(s, k) <==> x in s && x != s[k]
  {
    var t := Without(s, k);
    forall x | x in s && x != s[k]
      ensures x in t
    {
      var j :| 0 <= j < |s| && s[j] == x;
      assert t[if j < k then j else j - 1] == x;
    }
  }

  lemma NoneNew<X>(s: seq<X>, x: X)
    requires NoRepeats(s) && x !in s
    ensures NoRepeats(s + [x])
  {
  }

  lemma WithoutAt<X>(s: seq<X>, k: nat)
    requires k < |s|
    ensures |Without(s, k)| == |s| - 1
    ensures forall j {:trigger Without(s, k)[j]} :: 0 <= j < |s| - 1 ==>
              Without(s, k)[j] == s[if j < k then j else j + 1]
  {
  }

  class Link<T> {
    var item: T
    var next: Link?<T>
    var prev: Slot<T>
    var home: List?<T>  // the list the node is on; not in the C struct

    constructor (item: T)
      ensures this.item == item && next == null && prev == Nowhere && home == null
    {
      this.item := item;
      next, prev, home := null, Nowhere, null;
    }
  }

  class List<T> {
    var head: Link?<T>
    var tail: Slot<T>
    ghost var links: seq<Link<T>>  // the nodes reachable from the head, in order

    ghost predicate Valid()
      reads this, links`next, links`prev, links`home, TailNode()`home
    {
      && head == (if links == [] then null else links[0])
      && (forall l :: l in links ==> l.home == this)
      && (forall k :: 0 <= k < |links| ==> Linked(k))
      && NoRepeats(links)
      && (Attached() || (tail.NextOf? && tail.link.home == null))
    }

    /** Node k points at node k + 1 and knows the cell that points at it. */
    ghost predicate Linked(k: nat)
      requires k < |links|
      reads this, links`next, links`prev
    {
      && links[k].next == (if k + 1 < |links| then links[k + 1] else null)
      && links[k].prev == SlotBefore(k)
    }

    /** The cell that points at node k. */
    ghost function SlotBefore(k: nat): Slot<T>
      requires k <= |links|
      reads this
    {
      if k == 0 then HeadOf(this) else NextOf(links[k - 1])
    }

    /** The tail names the cell the next node has to be written to. */
    ghost predicate Attached()
      reads this
    {
      tail == SlotBefore(|links|)
    }

    /** The tail names the `next` of a node that was taken off.  Where such nodes are freed, an
        append is now a write to freed memory. */
    predicate Loose()
      reads this, TailNode()`home
    {
      tail.NextOf? && tail.link.home == null
    }

    lemma LooseIsDetached()
      requires Valid()
      ensures Loose() <==> !Attached()
    {
    }

    /** The node whose `next` cell the tail names. */
    ghost function TailNode(): set<Link<T>>
      reads this
    {
      if tail.NextOf? then {tail.link} else {}
    }

    constructor ()
      ensures Valid() && Attached() && links == []
    {
      head, links := null, [];
      new;
      tail := HeadOf(this);
    }

    ghost function NodeAt(k: nat): Link?<T>
      requires k <= |links|
      reads this
    {
      if k < |links| then links[k] else null
    }

    lemma NoneTwice()
      requires Valid()
      ensures NoRepeats(links)
    {
    }

    lemma Others(k: nat)
      requires Valid() && k < |links|
      ensures forall j :: 0 <= j < |links| && j != k ==> links[j] != links[k]
    {
    }

    /** Where a loop over the list starts and how it goes on. */
    lemma Walks()
      requires Valid()
      ensures head == NodeAt(0)
    {
    }

    lemma WalksOn(k: nat)
      requires Valid() && k < |links|
      ensures links[k].next == NodeAt(k + 1) && links[k].prev == SlotBefore(k)
    {
      assert Linked(k);
    }

    /** Append through the tail cell.  If the tail no longer names the end of the list the
        write goes elsewhere and the list does not change. */
    method Append(n: Link<T>)
      requires Valid() && n.home == null && n !in TailNode()
      modifies this, n`next, n`prev, n`home, TailNode()`next
      ensures Valid()
      ensures links == if old(Attached()) then old(links) + [n] else old(links)
      ensures Attached() <==> old(Attached())
      ensures n.home == if old(Attached()) then this else null
      ensures tail == NextOf(n)
    {
      var loose := Loose();
      ghost var was := links;
      LooseIsDetached();
      n.prev := tail;
      if tail.HeadOf? {
        head := n;
      } else {
        tail.link.next := n;
      }
      n.next := null;
      tail := NextOf(n);
      if !loose {
        n.home := this;
        links := links + [n];
      }
      assert NoRepeats(links);
      forall k | 0 <= k < |links|
        ensures Linked(k)
      {
        if k < |was| {
          assert old(Linked(k));
        }
      }
    }

    /** Unlink node k through its own two fields. */
    method Remove(n: Link<T>, ghost k: nat)
      requires Valid() && k < |links| && links[k] == n
      modifies this`head, this`links, n`home
      modifies (if n.prev.NextOf? then {n.prev.link} else {})`next
      modifies (if n.next != null then {n.next} else {})`prev
      ensures Valid()
      ensures links == old(Without(links, k))
      ensures Attached() <==> old(Attached()) && k + 1 < |old(links)|
      ensures n.home == null
    {
      hide NoRepeats, Without;
      assert Linked(k);
      if n.prev.HeadOf? {
        n.prev.list.head := n.next;
      } else {
        n.prev.link.next := n.next;
      }
      if n.next != null {
        n.next.prev := n.prev;
      }
      ghost var was := links;
      links := Without(links, k);
      n.home := null;
      WithoutKeeps(was, k);
      WithoutAt(was, k);
      Relinked(k);
    }

    /** The neighbours of node k linked to each other, and everything else as it was. */
    twostate lemma Relinked(new k: nat)
      requires k < |old(links)| && old(NoRepeats(links)) && links == Without(old(links), k)
      requires old(forall j :: 0 <= j < |links| ==> Linked(j))
      requires forall l :: l in links ==>
                 && l.next == (if k > 0 && l == old(links)[k - 1] then old(links[k].next) else old(l.next))
                 && l.prev == (if k + 1 < |old(links)| && l == old(links)[k + 1] then old(links[k].prev)
                               else old(l.prev))
      ensures forall j :: 0 <= j < |links| ==> Linked(j)
    {
      WithoutAt(old(links), k);
      hide Without;
      var was := old(links);
      assert old(Linked(k));
      forall j | 0 <= j < |links|
        ensures Linked(j)
      {
        var i := if j < k then j else j + 1;
        assert old(Linked(i)) && links[j] == was[i] && links[j] in links;
        assert k > 0 && i != k - 1 ==> was[i] != was[k - 1];
        assert k + 1 < |was| && i != k + 1 ==> was[i] != was[k + 1];
      }
    }
  }
}
