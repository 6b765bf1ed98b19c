/**
  The doubly linked list of call and return nodes of src/porcupine/checker.go.

  A list is described by the sequence `all` of its nodes in history order, with
  the head node first, and the set `gone` of the positions that have been lifted
  out: each node that is still there points to its nearest remaining neighbours.
 */
module LinkedEntries {
  import opened Options
  import opened Histories

  class Node<V> {
    const value: Option<V>
    const matching: Node?<V>
    const id: int
    var next: Node?<V>
    var prev: Node?<V>

    constructor (value: Option<V>, matching: Node?<V>, id: int)
      ensures this.value == value && this.matching == matching && this.id == id
      ensures next == null && prev == null
    {
      this.value := value;
      this.matching := matching;
      this.id := id;
      next := null;
      prev := null;
    }
  }

  // ---- neighbours

  /** The first remaining position after p, or n when there is none. */
  ghost function Next(gone: set<nat>, p: nat, n: nat): (q: nat)
    requires p < n
    ensures p < q <= n && (q < n ==> q !in gone)
    ensures forall r | p < r < q :: r in gone
    decreases n - p
  {
    if p + 1 == n || p + 1 !in gone then p + 1 else Next(gone, p + 1, n)
  }

  /** The last remaining position before p; the head at position 0 always remains. */
  ghost function Prev(gone: set<nat>, p: nat): (q: nat)
    requires 0 < p && 0 !in gone
    ensures q < p && q !in gone
    ensures forall r | q < r < p :: r in gone
  {
    if p - 1 !in gone then p - 1 else Prev(gone, p - 1)
  }

  ghost function NodeAt<V>(all: seq<Node<V>>, p: nat): Node?<V> {
    if p < |all| then all[p] else null
  }

  ghost predicate Distinct<V>(all: seq<Node<V>>) {
    forall p, q | 0 <= p < q < |all| :: all[p] != all[q]
  }

  /** The remaining nodes are linked to their remaining neighbours, in both directions. */
  ghost predicate Linked<V>(all: seq<Node<V>>, gone: set<nat>)
    requires 0 !in gone
    reads all
  {
    && (forall p {:trigger all[p].next} | 0 <= p < |all| && p !in gone :: all[p].next == NodeAt(all, Next(gone, p, |all|)))
    && (forall p {:trigger all[p].prev} | 0 < p < |all| && p !in gone :: all[p].prev == all[Prev(gone, p)])
  }

  /** What a call at c and its return at r still point to after they were lifted out. */
  ghost predicate Dangling<V>(all: seq<Node<V>>, gone: set<nat>, c: nat, r: nat)
    requires 0 !in gone && 0 < c < r < |all|
    reads all[c], all[r]
  {
    && all[c].prev == all[Prev(gone, c)]
    && all[c].next == NodeAt(all, Next(gone, c, |all|))
    && all[r].prev == all[Prev(gone + {c}, r)]
    && all[r].next == NodeAt(all, Next(gone + {c}, r, |all|))
  }

  lemma NextWithout(gone: set<nat>, c: nat, p: nat, n: nat)
    requires p < n && c < n && c !in gone && p != c
    ensures Next(gone + {c}, p, n) == if Next(gone, p, n) == c then Next(gone, c, n) else Next(gone, p, n)
  {
  }

  lemma PrevWithout(gone: set<nat>, c: nat, p: nat)
    requires 0 < p && 0 < c && 0 !in gone && c !in gone && p != c
    ensures Prev(gone + {c}, p) == if Prev(gone, p) == c then Prev(gone, c) else Prev(gone, p)
  {
  }

  lemma Neighbours(gone: set<nat>, c: nat, n: nat)
    requires 0 < c < n && 0 !in gone && c !in gone
    ensures Next(gone, Prev(gone, c), n) == c
    ensures Next(gone, c, n) < n ==> Prev(gone, Next(gone, c, n)) == c
  {
  }

  /** The nodes at the given positions still have the links they had. */
  twostate predicate Untouched<V>(all: seq<Node<V>>, new gone: set<nat>)
    reads all
  {
    forall p | p in gone && p < |all| :: all[p].next == old(all[p].next) && all[p].prev == old(all[p].prev)
  }

  /** The links around c have been closed: c's neighbours point past it, all else is as before. */
  twostate predicate Closed<V>(all: seq<Node<V>>, new gone: set<nat>, new c: nat)
    requires 0 !in gone && 0 < c < |all|
    reads all
  {
    && (forall p {:trigger all[p].next} | 0 <= p < |all| ::
          all[p].next == if p == Prev(gone, c) then NodeAt(all, Next(gone, c, |all|)) else old(all[p].next))
    && (forall p {:trigger all[p].prev} | 0 <= p < |all| ::
          all[p].prev == if p == Next(gone, c, |all|) then all[Prev(gone, c)] else old(all[p].prev))
  }

  /** The links around c have been opened again: c's neighbours point to it, all else is as before. */
  twostate predicate Opened<V>(all: seq<Node<V>>, new gone: set<nat>, new c: nat)
    requires 0 !in gone && 0 < c < |all|
    reads all
  {
    && (forall p {:trigger all[p].next} | 0 <= p < |all| ::
          all[p].next == if p == Prev(gone, c) then all[c] else old(all[p].next))
    && (forall p {:trigger all[p].prev} | 0 <= p < |all| ::
          all[p].prev == if p == Next(gone, c, |all|) then all[c] else old(all[p].prev))
  }

  twostate lemma ClosedLinked<V>(all: seq<Node<V>>, new gone: set<nat>, new c: nat)
    requires 0 !in gone && 0 < c < |all| && c !in gone
    requires old(Linked(all, gone))
    requires Closed(all, gone, c)
    ensures Linked(all, gone + {c})
    ensures Untouched(all, gone + {c})
  {
    Neighbours(gone, c, |all|);
    forall p {:trigger all[p].next} | 0 <= p < |all| && p !in gone + {c}
      ensures all[p].next == NodeAt(all, Next(gone + {c}, p, |all|))
    {
      NextWithout(gone, c, p, |all|);
    }
    forall p {:trigger all[p].prev} | 0 < p < |all| && p !in gone + {c}
      ensures all[p].prev == all[Prev(gone + {c}, p)]
    {
      PrevWithout(gone, c, p);
    }
  }

  twostate lemma OpenedLinked<V>(all: seq<Node<V>>, new gone: set<nat>, new c: nat)
    requires 0 !in gone && 0 < c < |all| && c !in gone
    requires old(Linked(all, gone + {c})) && Opened(all, gone, c)
    requires old(all[c].prev == all[Prev(gone, c)] && all[c].next == NodeAt(all, Next(gone, c, |all|)))
    ensures Linked(all, gone)
    ensures Untouched(all, gone)
  {
    Neighbours(gone, c, |all|);
    forall p {:trigger all[p].next} | 0 <= p < |all| && p !in gone
      ensures all[p].next == NodeAt(all, Next(gone, p, |all|))
    {
      if p != c { NextWithout(gone, c, p, |all|); }
    }
    forall p {:trigger all[p].prev} | 0 < p < |all| && p !in gone ensures all[p].prev == all[Prev(gone, p)] {
      if p != c { PrevWithout(gone, c, p); }
    }
  }

  /** First half of lift: the neighbours of the call point past it.  Its return is still behind it. */
  method LiftCall<V>(entry: Node<V>, ghost all: seq<Node<V>>, ghost gone: set<nat>, ghost c: nat)
    requires 0 !in gone && 0 < c < |all| && c !in gone && Next(gone, c, |all|) < |all|
    requires Distinct(all) && Linked(all, gone) && entry == all[c]
    modifies all
    ensures Linked(all, gone + {c}) && Untouched(all, gone + {c})
  {
    assert entry.prev == all[Prev(gone, c)] && entry.next == all[Next(gone, c, |all|)];
    entry.prev.next := entry.next;
    entry.next.prev := entry.prev;
    assert Closed(all, gone, c);
    ClosedLinked(all, gone, c);
  }

  /** Second half of lift: the neighbours of the return point past it. */
  method LiftReturn<V>(ret: Node<V>, ghost all: seq<Node<V>>, ghost gone: set<nat>, ghost r: nat)
    requires 0 !in gone && 0 < r < |all| && r !in gone
    requires Distinct(all) && Linked(all, gone) && ret == all[r]
    modifies all
    ensures Linked(all, gone + {r}) && Untouched(all, gone + {r})
  {
    assert ret.prev == all[Prev(gone, r)] && ret.next == NodeAt(all, Next(gone, r, |all|));
    ret.prev.next := ret.next;
    if ret.next != null {
      ret.next.prev := ret.prev;
    }
    assert Closed(all, gone, r);
    ClosedLinked(all, gone, r);
  }

  /** lift: take a call and its return out of the list; both keep their own links. */
  method Lift<V>(entry: Node<V>, ghost all: seq<Node<V>>, ghost gone: set<nat>, ghost c: nat, ghost r: nat)
    requires 0 !in gone && 0 < c < r < |all| && c !in gone && r !in gone
    requires Distinct(all) && Linked(all, gone)
    requires entry == all[c] && entry.matching == all[r]
    modifies all
    ensures Linked(all, gone + {c} + {r})
    ensures Dangling(all, gone, c, r)
    ensures Untouched(all, gone)
  {
    LiftCall(entry, all, gone, c);
    LiftReturn(entry.matching, all, gone + {c}, r);
  }

  /** First half of unlift: the neighbours of the return point to it again. */
  method UnliftReturn<V>(ret: Node<V>, ghost all: seq<Node<V>>, ghost gone: set<nat>, ghost r: nat)
    requires 0 !in gone && 0 < r < |all| && r !in gone
    requires Distinct(all) && Linked(all, gone + {r}) && ret == all[r]
    requires ret.prev == all[Prev(gone, r)] && ret.next == NodeAt(all, Next(gone, r, |all|))
    modifies all
    ensures Linked(all, gone) && Untouched(all, gone)
  {
    ret.prev.next := ret;
    if ret.next != null {
      ret.next.prev := ret;
    }
    assert Opened(all, gone, r);
    OpenedLinked(all, gone, r);
  }

  /** Second half of unlift: the neighbours of the call point to it again. */
  method UnliftCall<V>(entry: Node<V>, ghost all: seq<Node<V>>, ghost gone: set<nat>, ghost c: nat)
    requires 0 !in gone && 0 < c < |all| && c !in gone && Next(gone, c, |all|) < |all|
    requires Distinct(all) && Linked(all, gone + {c}) && entry == all[c]
    requires entry.prev == all[Prev(gone, c)] && entry.next == NodeAt(all, Next(gone, c, |all|))
    modifies all
    ensures Linked(all, gone) && Untouched(all, gone)
  {
    entry.prev.next := entry;
    entry.next.prev := entry;
    assert Opened(all, gone, c);
    OpenedLinked(all, gone, c);
  }

  /** unlift: put a call and its return back where they were. */
  method Unlift<V>(entry: Node<V>, ghost all: seq<Node<V>>, ghost gone: set<nat>, ghost c: nat, ghost r: nat)
    requires 0 !in gone && 0 < c < r < |all| && c !in gone && r !in gone
    requires Distinct(all) && Linked(all, gone + {c} + {r}) && Dangling(all, gone, c, r)
    requires entry == all[c] && entry.matching == all[r]
    modifies all
    ensures Linked(all, gone)
    ensures Untouched(all, gone)
  {
    UnliftReturn(entry.matching, all, gone + {c}, r);
    UnliftCall(entry, all, gone, c);
  }

  /** Links are determined by what is gone: coming back to the same set restores every link. */
  twostate lemma Restored<V>(all: seq<Node<V>>, new gone: set<nat>)
    requires 0 !in gone && old(Linked(all, gone)) && Linked(all, gone) && Untouched(all, gone)
    ensures forall p {:trigger all[p].next} | 0 <= p < |all| :: all[p].next == old(all[p].next)
    ensures forall p {:trigger all[p].prev} | 0 < p < |all| :: all[p].prev == old(all[p].prev)
  {
    forall p {:trigger all[p].next} | 0 <= p < |all| ensures all[p].next == old(all[p].next) {
      if p !in gone { assert all[p].next == NodeAt(all, Next(gone, p, |all|)); }
    }
  }

  // ---- building the list

  /** nodes is a whole list: each node is linked to the one before and the one after. */
  ghost predicate Chained<V>(nodes: seq<Node<V>>)
    reads nodes
  {
    && Distinct(nodes)
    && (forall p {:trigger nodes[p].next} | 0 <= p < |nodes| :: nodes[p].next == NodeAt(nodes, p + 1))
    && (forall p {:trigger nodes[p].prev} | 0 <= p < |nodes| :: nodes[p].prev == if p == 0 then null else nodes[p - 1])
  }

  /** insertBefore: nothing to do at the end of a list; otherwise n goes between mark and its predecessor. */
  method InsertBefore<V>(n: Node<V>, mark: Node?<V>) returns (r: Node<V>)
    requires mark != null ==> mark != n && mark.prev != n && mark.prev != mark
    modifies n, if mark != null then {mark} else {}, if mark != null && mark.prev != null then {mark.prev} else {}
    ensures r == n
    ensures mark == null ==> n.next == old(n.next) && n.prev == old(n.prev)
    ensures mark != null ==> n.next == mark && mark.prev == n && mark.next == old(mark.next)
    ensures mark != null && old(mark.prev) == null ==> n.prev == old(n.prev)
    ensures mark != null && old(mark.prev) != null ==> n.prev == old(mark.prev) && old(mark.prev).next == n
  {
    if mark != null {
      var beforeMark := mark.prev;
      mark.prev := n;
      n.next := mark;
      if beforeMark != null {
        n.prev := beforeMark;
        beforeMark.next := n;
      }
    }
    return n;
  }

  /** The node for position p, the nodes beginning at position base. */
  ghost predicate NodeFor<V>(h: seq<Entry<V>>, base: nat, nodes: seq<Node<V>>, p: nat)
    requires WellFormed(h) && base + |nodes| == |h| && base <= p < |h|
  {
    && nodes[p - base].value == Some(h[p].value)
    && nodes[p - base].id == h[p].id
    && nodes[p - base].matching ==
       if h[p].kind == Return then null else (CallsReturn(h, p); nodes[ReturnPos(h, h[p].id) - base])
  }

  lemma CallsReturn<V>(h: seq<Entry<V>>, p: nat)
    requires WellFormed(h) && p < |h| && h[p].kind == Call
    ensures p < ReturnPos(h, h[p].id) < |h|
  {
    assert p == Find(h, h[p].kind, h[p].id);
  }

  /** The nodes stand for the entries of h from position base on, and calls know their returns. */
  ghost predicate Represents<V>(h: seq<Entry<V>>, base: nat, nodes: seq<Node<V>>)
    requires WellFormed(h)
  {
    && base + |nodes| == |h|
    && forall p | base <= p < |h| :: NodeFor(h, base, nodes, p)
  }

  lemma ChainedCons<V>(entry: Node<V>, nodes: seq<Node<V>>)
    requires Distinct(nodes) && entry !in nodes
    requires entry.next == NodeAt(nodes, 0) && entry.prev == null
    requires forall p {:trigger nodes[p].next} | 0 <= p < |nodes| :: nodes[p].next == NodeAt(nodes, p + 1)
    requires forall p {:trigger nodes[p].prev} | 0 <= p < |nodes| ::
               nodes[p].prev == if p == 0 then entry else nodes[p - 1]
    ensures Chained([entry] + nodes)
  {
    var all := [entry] + nodes;
    forall p {:trigger all[p].next} | 0 <= p < |all| ensures all[p].next == NodeAt(all, p + 1) {
      if p > 0 { assert all[p] == nodes[p - 1]; }
    }
    forall p {:trigger all[p].prev} | 0 <= p < |all| ensures all[p].prev == if p == 0 then null else all[p - 1] {
      if p > 0 { assert all[p] == nodes[p - 1]; }
    }
  }

  /** Inserting before the root of a list extends it at the front. */
  method Prepend<V>(entry: Node<V>, root: Node?<V>, ghost nodes: seq<Node<V>>) returns (r: Node<V>)
    requires Chained(nodes) && root == NodeAt(nodes, 0)
    requires entry !in nodes && entry.next == null && entry.prev == null
    modifies entry, nodes
    ensures r == entry && Chained([entry] + nodes)
  {
    r := InsertBefore(entry, root);
    ChainedCons(entry, nodes);
  }

  lemma RepresentsCons<V>(h: seq<Entry<V>>, i: nat, entry: Node<V>, nodes: seq<Node<V>>)
    requires WellFormed(h) && i < |h| && Represents(h, i + 1, nodes)
    requires entry.value == Some(h[i].value) && entry.id == h[i].id
    requires h[i].kind == Return ==> entry.matching == null
    requires h[i].kind == Call ==> i < ReturnPos(h, h[i].id) < |h| && entry.matching == nodes[ReturnPos(h, h[i].id) - i - 1]
    ensures Represents(h, i, [entry] + nodes)
  {
    forall p | i <= p < |h| ensures NodeFor(h, i, [entry] + nodes, p) {
      if p > i { NodeForCons(h, i, entry, nodes, p); }
    }
  }

  /** A node further back stands for its entry as before. */
  lemma NodeForCons<V>(h: seq<Entry<V>>, i: nat, entry: Node<V>, nodes: seq<Node<V>>, p: nat)
    requires WellFormed(h) && i < p < |h| && Represents(h, i + 1, nodes)
    ensures NodeFor(h, i, [entry] + nodes, p)
  {
    assert NodeFor(h, i + 1, nodes, p);
    assert ([entry] + nodes)[p - i] == nodes[p - (i + 1)];
    if h[p].kind == Call { CallsReturn(h, p); }
  }

  /** Every return from position base on can be found under its id. */
  ghost predicate Matched<V>(h: seq<Entry<V>>, base: nat, nodes: seq<Node<V>>, returns_: map<int, Node<V>>)
    requires base + |nodes| == |h|
  {
    forall id | 0 <= id < Size(h) && base <= ReturnPos(h, id) < |h| ::
      id in returns_ && returns_[id] == nodes[ReturnPos(h, id) - base]
  }

  lemma MatchedCons<V>(h: seq<Entry<V>>, i: nat, entry: Node<V>, nodes: seq<Node<V>>,
                       before: map<int, Node<V>>, after: map<int, Node<V>>)
    requires WellFormed(h) && i + 1 + |nodes| == |h| && Matched(h, i + 1, nodes, before)
    requires after == if h[i].kind == Return then before[h[i].id := entry] else before
    ensures Matched(h, i, [entry] + nodes, after)
  {
    var all := [entry] + nodes;
    forall id | 0 <= id < Size(h) && i <= ReturnPos(h, id)
      ensures id in after && after[id] == all[ReturnPos(h, id) - i]
    {
      if ReturnPos(h, id) > i { assert all[ReturnPos(h, id) - i] == nodes[ReturnPos(h, id) - (i + 1)]; }
    }
  }

  /** One round of the loop of makeLinkedEntries: entry i goes to the front. */
  method AddEntry<V>(h: seq<Entry<V>>, i: nat, root: Node?<V>, returns_: map<int, Node<V>>, ghost nodes: seq<Node<V>>)
    returns (entry: Node<V>, returns': map<int, Node<V>>)
    requires WellFormed(h) && i < |h|
    requires Chained(nodes) && Represents(h, i + 1, nodes) && root == NodeAt(nodes, 0)
    requires Matched(h, i + 1, nodes, returns_)
    modifies nodes
    ensures fresh(entry) && Chained([entry] + nodes) && Represents(h, i, [entry] + nodes)
    ensures Matched(h, i, [entry] + nodes, returns')
  {
    var elem := h[i];
    returns' := returns_;
    if elem.kind == Return {
      entry := new Node(Some(elem.value), null, elem.id);
      returns' := returns_[elem.id := entry];
    } else {
      assert i == CallPos(h, elem.id) < ReturnPos(h, elem.id) < |h|;
      entry := new Node(Some(elem.value), returns_[elem.id], elem.id);
    }
    RepresentsCons(h, i, entry, nodes);
    MatchedCons(h, i, entry, nodes, returns_, returns');
    entry := Prepend(entry, root, nodes);
  }

  /** makeLinkedEntries: built from the back, so that a call finds its return. */
  method MakeLinkedEntries<V>(h: seq<Entry<V>>) returns (root: Node?<V>, ghost nodes: seq<Node<V>>)
    requires WellFormed(h)
    ensures fresh(nodes) && Chained(nodes) && Represents(h, 0, nodes)
    ensures root == NodeAt(nodes, 0)
  {
    root := null;
    nodes := [];
    var returns_: map<int, Node<V>> := map[];
    var i := |h|;
    while i > 0
      invariant 0 <= i <= |h|
      invariant fresh(nodes) && Chained(nodes) && Represents(h, i, nodes)
      invariant root == NodeAt(nodes, 0)
      invariant Matched(h, i, nodes, returns_)
    {
      i := i - 1;
      root, returns_ := AddEntry(h, i, root, returns_, nodes);
      nodes := [root] + nodes;
    }
  }

  /** length: the number of nodes reachable through next. */
  method Length<V>(n: Node?<V>, ghost nodes: seq<Node<V>>) returns (l: nat)
    requires Chained(nodes) && n == NodeAt(nodes, 0)
    ensures l == |nodes|
  {
    l := 0;
    var n := n;
    while n != null
      invariant l <= |nodes| && n == NodeAt(nodes, l)
      decreases |nodes| - l
    {
      n := n.next;
      l := l + 1;
    }
  }

  /** Putting a head before a whole list gives a linked list from which nothing is gone. */
  lemma ChainedLinked<V>(all: seq<Node<V>>)
    requires Distinct(all)
    requires forall p {:trigger all[p].next} | 0 <= p < |all| :: all[p].next == NodeAt(all, p + 1)
    requires forall p {:trigger all[p].prev} | 0 < p < |all| :: all[p].prev == all[p - 1]
    ensures Linked(all, {})
  {
  }
}
