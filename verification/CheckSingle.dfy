/**
  checkSingle of src/porcupine/checker.go: the depth-first search for a
  linearization over the linked list, with an undo stack and a cache of visited
  configurations.  The abstract invariant is in module Search; this module ties
  the list, the bitset, the stack and the cache to it.
 */
module CheckSingle {
  import opened Options
  import opened Collections
  import opened Histories
  import opened Search
  import opened LinkedEntries
  import Bitset

  datatype CacheEntry<S> = CacheEntry(linearized: seq<nat>, state: S)

  datatype CallsEntry<S, V> = CallsEntry(entry: Node<V>, state: S)

  type Cache<S> = map<nat, seq<CacheEntry<S>>>

  // ---- the cache

  /** Every cached configuration is filed under the hash of its bitset. */
  ghost predicate Filed<S>(cache: Cache<S>) {
    forall key, i | key in cache && 0 <= i < |cache[key]| ::
      && Bitset.Valid(cache[key][i].linearized)
      && Bitset.Hash(cache[key][i].linearized) == key
  }

  /** Some cached configuration has this bitset and a state the model equates with this one. */
  ghost predicate Hit<S, V>(m: Model<S, V>, cache: Cache<S>, linearized: seq<nat>, state: S) {
    exists key, i :: HitAt(m, cache, linearized, state, key, i)
  }

  ghost predicate HitAt<S, V>(m: Model<S, V>, cache: Cache<S>, linearized: seq<nat>, state: S, key: nat, i: int) {
    && key in cache
    && 0 <= i < |cache[key]|
    && cache[key][i].linearized == linearized
    && m.equal(state, cache[key][i].state)
  }

  /** cacheContains: looking into one bucket finds every hit there is. */
  method CacheContains<S, V>(m: Model<S, V>, cache: Cache<S>, entry: CacheEntry<S>) returns (found: bool)
    requires Filed(cache) && Bitset.Valid(entry.linearized)
    ensures found <==> Hit(m, cache, entry.linearized, entry.state)
  {
    var hash := Bitset.HashOf(entry.linearized);
    var bucket := if hash in cache then cache[hash] else [];
    for i := 0 to |bucket|
      invariant forall j | 0 <= j < i :: !HitAt(m, cache, entry.linearized, entry.state, hash, j)
    {
      var same := Bitset.Equals(entry.linearized, bucket[i].linearized);
      if same && m.equal(entry.state, bucket[i].state) {
        assert HitAt(m, cache, entry.linearized, entry.state, hash, i);
        return true;
      }
    }
    return false;
  }

  /** Every cached configuration is the one some seen path leads to. */
  ghost predicate CachesSeen<S, V>(m: Model<S, V>, h: seq<Entry<V>>, cache: Cache<S>, seen: set<seq<int>>)
    requires WellFormed(h)
  {
    forall key, i | key in cache && 0 <= i < |cache[key]| :: FromPath(m, h, cache[key][i], seen)
  }

  ghost predicate FromPath<S, V>(m: Model<S, V>, h: seq<Entry<V>>, e: CacheEntry<S>, seen: set<seq<int>>)
    requires WellFormed(h)
  {
    exists p | p in seen ::
      && IsPartial(m, h, p)
      && Bitset.Positions(e.linearized) == Elements(p)
      && e.state == Final(m, h, p)
  }

  /** cache[hash] = append(cache[hash], entry) */
  function Insert<S>(cache: Cache<S>, key: nat, e: CacheEntry<S>): Cache<S> {
    cache[key := (if key in cache then cache[key] else []) + [e]]
  }

  lemma InsertKeeps<S, V>(m: Model<S, V>, h: seq<Entry<V>>, cache: Cache<S>, seen: set<seq<int>>,
                          e: CacheEntry<S>, p: seq<int>)
    requires WellFormed(h) && Filed(cache) && CachesSeen(m, h, cache, seen)
    requires Bitset.Valid(e.linearized) && IsPartial(m, h, p)
    requires Bitset.Positions(e.linearized) == Elements(p) && e.state == Final(m, h, p)
    ensures Filed(Insert(cache, Bitset.Hash(e.linearized), e))
    ensures CachesSeen(m, h, Insert(cache, Bitset.Hash(e.linearized), e), seen + {p})
  {
    var after := Insert(cache, Bitset.Hash(e.linearized), e);
    assert p in seen + {p};
    forall key, i | key in after && 0 <= i < |after[key]| ensures FromPath(m, h, after[key][i], seen + {p}) {
      if key in cache && i < |cache[key]| {
        assert after[key][i] == cache[key][i];
        assert FromPath(m, h, cache[key][i], seen);
      }
    }
  }

  /** After a cache hit the new path has nothing to offer. */
  lemma HitExplores<S(!new), V(!new)>(
    m: Model<S, V>, h: seq<Entry<V>>, partials: bool, exact: bool,
    path: seq<int>, pos: nat, seen: set<seq<int>>, longest: Longest, id: int,
    cache: Cache<S>, e: CacheEntry<S>)
    requires Inv(m, h, partials, exact, path, pos, seen, longest) && exact && EqualSimulates(m)
    requires IsPartial(m, h, path + [id]) && e.state == Final(m, h, path + [id])
    requires Bitset.Positions(e.linearized) == Elements(path + [id])
    requires CachesSeen(m, h, cache, seen) && Hit(m, cache, e.linearized, e.state)
    ensures Explored(m, h, partials, path + [id], longest)
  {
    var key, i :| HitAt(m, cache, e.linearized, e.state, key, i);
    assert FromPath(m, h, cache[key][i], seen);
    var q :| q in seen && IsPartial(m, h, q)
             && Bitset.Positions(cache[key][i].linearized) == Elements(q) && cache[key][i].state == Final(m, h, q);
    HitIsExplored(m, h, partials, exact, path, pos, seen, longest, id, q);
  }

  // ---- recording longest partial linearizations

  predicate Better(longest: Option<seq<int>>, p: seq<int>) {
    longest.None? || |p| > |longest.value|
  }

  /** What longest becomes at a return entry, for the operations of path below index k. */
  ghost predicate RecordedUpTo(before: Longest, after: Longest, path: seq<int>, k: nat)
    requires k <= |path|
  {
    && |before| == |after|
    && forall x | 0 <= x < |before| ::
         after[x] == if x in path[..k] && Better(before[x], path) then Some(path) else before[x]
  }

  lemma RecordedSuffices<S, V>(m: Model<S, V>, h: seq<Entry<V>>, before: Longest, after: Longest, path: seq<int>)
    requires WellFormed(h) && IsPartial(m, h, path) && Sound(m, h, before)
    requires RecordedUpTo(before, after, path, |path|)
    ensures Sound(m, h, after) && Improves(before, after) && Recorded(after, path)
  {
    assert path[..|path|] == path;
  }

  /** The ids of the calls stack. */
  method IdsOf<S, V>(calls: seq<CallsEntry<S, V>>, ghost path: seq<int>) returns (ids: seq<int>)
    requires |calls| == |path| && forall k | 0 <= k < |path| :: calls[k].entry.id == path[k]
    ensures ids == path
  {
    ids := [];
    for i := 0 to |calls|
      invariant ids == path[..i]
    {
      ids := ids + [calls[i].entry.id];
    }
  }

  /** Offer the current stack to every operation on it. */
  method Record<S, V>(calls: seq<CallsEntry<S, V>>, longest: Longest, ghost path: seq<int>) returns (after: Longest)
    requires |calls| == |path| && forall k | 0 <= k < |path| :: calls[k].entry.id == path[k]
    requires NoDup(path) && forall k | 0 <= k < |path| :: 0 <= path[k] < |longest|
    ensures RecordedUpTo(longest, after, path, |path|)
  {
    after := longest;
    var ids: Option<seq<int>> := None;
    for k := 0 to |calls|
      invariant RecordedUpTo(longest, after, path, k)
      invariant ids.Some? ==> ids.value == path
    {
      var id := calls[k].entry.id;
      assert path[..k + 1] == path[..k] + [id];
      assert id !in path[..k];
      if after[id].None? || |calls| > |after[id].value| {
        // the sequence is created lazily
        if ids.None? {
          var seqIds := IdsOf(calls, path);
          ids := Some(seqIds);
        }
        after := after[id := ids];
      }
    }
  }

  // ---- the list during the search

  /** The positions, in the list with its head, of the operations on the stack. */
  ghost function Gone<V>(h: seq<Entry<V>>, path: seq<int>): set<nat> {
    set q: nat | q <= |h| && Taken(h, path, q)
  }

  ghost predicate Taken<V>(h: seq<Entry<V>>, path: seq<int>, q: nat)
    requires q <= |h|
  {
    q >= 1 && h[q - 1].id in path
  }

  ghost function CallAt<V>(h: seq<Entry<V>>, id: int): nat {
    CallPos(h, id) + 1
  }

  ghost function ReturnAt<V>(h: seq<Entry<V>>, id: int): nat {
    ReturnPos(h, id) + 1
  }

  lemma GoneSnoc<V>(h: seq<Entry<V>>, path: seq<int>, id: int)
    requires WellFormed(h) && 0 <= id < Size(h)
    ensures Gone(h, path + [id]) == Gone(h, path) + {CallAt(h, id)} + {ReturnAt(h, id)}
  {
    forall q: nat | q <= |h|
      ensures Taken(h, path + [id], q) <==> Taken(h, path, q) || q == CallAt(h, id) || q == ReturnAt(h, id)
    {
      if 1 <= q {
        assert q - 1 == Find(h, h[q - 1].kind, h[q - 1].id);
        assert h[q - 1].id in path + [id] <==> h[q - 1].id in path || h[q - 1].id == id;
      }
    }
  }

  /** The node at q stands for its entry of h, and knows its return if that is a call. */
  ghost predicate NodeOk<V>(h: seq<Entry<V>>, all: seq<Node<V>>, q: nat)
    requires WellFormed(h) && |all| == |h| + 1 && 1 <= q < |all|
  {
    && all[q].value == Some(h[q - 1].value)
    && all[q].id == h[q - 1].id
    && all[q].matching == if h[q - 1].kind == Return then null else all[ReturnAt(h, h[q - 1].id)]
  }

  /** all is a head followed by the nodes of h. */
  ghost predicate Nodes<V>(h: seq<Entry<V>>, all: seq<Node<V>>)
    requires WellFormed(h)
  {
    && |all| == |h| + 1
    && Distinct(all)
    && forall q | 1 <= q < |all| :: NodeOk(h, all, q)
  }

  /** Level k of the stack holds the call taken there and the state before it. */
  ghost predicate LevelOk<S, V>(m: Model<S, V>, h: seq<Entry<V>>, all: seq<Node<V>>,
                                path: seq<int>, calls: seq<CallsEntry<S, V>>, k: nat)
    requires WellFormed(h) && Selection(h, path) && |all| == |h| + 1 && k < |path| == |calls|
  {
    && calls[k].entry == all[CallAt(h, path[k])]
    && IsPartial(m, h, path[..k])
    && calls[k].state == Final(m, h, path[..k])
  }

  ghost predicate Stack<S, V>(m: Model<S, V>, h: seq<Entry<V>>, all: seq<Node<V>>,
                              path: seq<int>, calls: seq<CallsEntry<S, V>>)
    requires WellFormed(h) && IsPartial(m, h, path) && |all| == |h| + 1
  {
    && |calls| == |path|
    && forall k | 0 <= k < |path| :: LevelOk(m, h, all, path, calls, k)
  }

  /** Level k can be put back into the list it was taken from. */
  ghost predicate DanglingAt<V>(h: seq<Entry<V>>, all: seq<Node<V>>, path: seq<int>, k: nat)
    requires WellFormed(h) && Selection(h, path) && k < |path| && |all| == |h| + 1
    reads all
  {
    Dangling(all, Gone(h, path[..k]), CallAt(h, path[k]), ReturnAt(h, path[k]))
  }

  /** The list holds exactly the entries of the operations not on the stack. */
  ghost predicate ListInv<V>(h: seq<Entry<V>>, all: seq<Node<V>>, path: seq<int>)
    requires WellFormed(h) && Selection(h, path)
    reads all
  {
    && Nodes(h, all)
    && Linked(all, Gone(h, path))
    && forall k | 0 <= k < |path| :: DanglingAt(h, all, path, k)
  }

  lemma NextInList<V>(h: seq<Entry<V>>, path: seq<int>, pos: int)
    requires WellFormed(h) && -1 <= pos < |h|
    ensures NextOf(h, path, pos, Next(Gone(h, path), pos + 1, |h| + 1) - 1)
  {
    var next := Next(Gone(h, path), pos + 1, |h| + 1) - 1;
    forall p | pos < p < next ensures h[p].id in path {
      assert p + 1 in Gone(h, path);
    }
  }

  // ---- termination

  /** All sequences of at most len ids below n. */
  ghost function Paths(n: nat, len: nat): set<seq<int>> {
    if len == 0 then {[]}
    else {[]} + set p, id | p in Paths(n, len - 1) && 0 <= id < n :: p + [id]
  }

  lemma {:induction false} InPaths(n: nat, len: nat, p: seq<int>)
    requires |p| <= len && forall i | 0 <= i < |p| :: 0 <= p[i] < n
    ensures p in Paths(n, len)
  {
    if p != [] {
      InPaths(n, len - 1, p[..|p| - 1]);
      assert p == p[..|p| - 1] + [p[|p| - 1]];
    }
  }

  /** There are only finitely many paths, so only finitely many pushes. */
  lemma PathsAreFinite<V>(h: seq<Entry<V>>, p: seq<int>)
    requires Selection(h, p)
    ensures p in Paths(Size(h), Size(h))
  {
    NoDupCard(p);
    SubsetCard(Elements(p), UpTo(Size(h)));
    InPaths(Size(h), Size(h), p);
  }

  // ---- the search

  lemma EndsOf<V>(h: seq<Entry<V>>, path: seq<int>, id: int)
    requires WellFormed(h) && 0 <= id < Size(h)
    ensures 0 < CallAt(h, id) < ReturnAt(h, id) <= |h| && 0 !in Gone(h, path)
    ensures CallAt(h, id) in Gone(h, path) <==> id in path
    ensures ReturnAt(h, id) in Gone(h, path) <==> id in path
  {
  }

  /** A level of the stack survives changes to the links of nodes that are not on it. */
  twostate lemma DanglingKept<V>(all: seq<Node<V>>, new gone: set<nat>, new c: nat, new r: nat, new untouched: set<nat>)
    requires 0 !in gone && 0 < c < r < |all|
    requires old(Dangling(all, gone, c, r)) && Untouched(all, untouched) && c in untouched && r in untouched
    ensures Dangling(all, gone, c, r)
  {
  }

  /** Lifting the call of id keeps every level of the stack and adds one. */
  method Take<V>(entry: Node<V>, ghost h: seq<Entry<V>>, ghost all: seq<Node<V>>, ghost path: seq<int>, ghost id: int)
    requires WellFormed(h) && Selection(h, path) && Selection(h, path + [id])
    requires ListInv(h, all, path)
    requires 0 <= id < Size(h) && id !in path && entry == all[CallAt(h, id)]
    modifies all
    ensures ListInv(h, all, path + [id])
  {
    EndsOf(h, path, id);
    GoneSnoc(h, path, id);
    ghost var q := path + [id];
    assert q[..|path|] == path;
    assert NodeOk(h, all, CallAt(h, id));
    Lift(entry, all, Gone(h, path), CallAt(h, id), ReturnAt(h, id));
    assert DanglingAt(h, all, q, |path|);
    forall k | 0 <= k < |path| ensures DanglingAt(h, all, q, k) {
      assert q[..k] == path[..k];
      assert old(DanglingAt(h, all, path, k));
      EndsOf(h, path, path[k]);
      DanglingKept(all, Gone(h, path[..k]), CallAt(h, path[k]), ReturnAt(h, path[k]), Gone(h, path));
    }
  }

  /** Unlifting the top of the stack restores the list as it was one level below. */
  method PutBack<V>(entry: Node<V>, ghost h: seq<Entry<V>>, ghost all: seq<Node<V>>, ghost path: seq<int>, ghost id: int)
    requires WellFormed(h) && Selection(h, path) && Selection(h, path + [id])
    requires ListInv(h, all, path + [id])
    requires 0 <= id < Size(h) && entry == all[CallAt(h, id)]
    modifies all
    ensures ListInv(h, all, path)
  {
    ghost var q := path + [id];
    assert q[|path|] == id;
    EndsOf(h, path, id);
    GoneSnoc(h, path, id);
    assert q[..|path|] == path;
    assert DanglingAt(h, all, q, |path|);
    assert NodeOk(h, all, CallAt(h, id));
    Unlift(entry, all, Gone(h, path), CallAt(h, id), ReturnAt(h, id));
    forall k | 0 <= k < |path| ensures DanglingAt(h, all, path, k) {
      assert q[..k] == path[..k];
      assert old(DanglingAt(h, all, q, k));
      EndsOf(h, path, path[k]);
      DanglingKept(all, Gone(h, path[..k]), CallAt(h, path[k]), ReturnAt(h, path[k]), Gone(h, path));
    }
  }

  /** The head goes before the list; nothing is gone yet. */
  method AddHead<V>(entry: Node?<V>, ghost h: seq<Entry<V>>, ghost nodes: seq<Node<V>>)
    returns (headEntry: Node<V>, ghost all: seq<Node<V>>)
    requires WellFormed(h) && Chained(nodes) && Represents(h, 0, nodes) && entry == NodeAt(nodes, 0)
    modifies nodes
    ensures fresh(headEntry) && all == [headEntry] + nodes && ListInv(h, all, [])
  {
    var head := new Node<V>(None, null, -1);
    headEntry := Prepend(head, entry, nodes);
    all := [headEntry] + nodes;
    ChainedLinked(all);
    assert Gone(h, []) == {};
    NodesOf(h, headEntry, nodes);
  }

  lemma NodesOf<V>(h: seq<Entry<V>>, headEntry: Node<V>, nodes: seq<Node<V>>)
    requires WellFormed(h) && Represents(h, 0, nodes) && Distinct([headEntry] + nodes)
    ensures Nodes(h, [headEntry] + nodes)
  {
    forall q | 1 <= q < |nodes| + 1 ensures NodeOk(h, [headEntry] + nodes, q) {
      NodeOf(h, headEntry, nodes, q);
    }
  }

  lemma NodeOf<V>(h: seq<Entry<V>>, headEntry: Node<V>, nodes: seq<Node<V>>, q: nat)
    requires WellFormed(h) && Represents(h, 0, nodes) && 1 <= q <= |h|
    ensures NodeOk(h, [headEntry] + nodes, q)
  {
    assert NodeFor(h, 0, nodes, q - 1);
    assert ([headEntry] + nodes)[q] == nodes[q - 1];
  }

  /** The bitset holds exactly the operations on the stack. */
  ghost predicate Bits(words: seq<nat>, n: nat, path: seq<int>) {
    && Bitset.Valid(words)
    && n <= Bitset.WORD * |words|
    && Bitset.Positions(words) == Elements(path)
  }

  /** entry is the node at position pos, which is still in the list, or nil when the list is empty. */
  ghost predicate Here<V>(h: seq<Entry<V>>, all: seq<Node<V>>, path: seq<int>, entry: Node?<V>, pos: nat) {
    && |all| == |h| + 1
    && pos <= |h|
    && entry == NodeAt(all, pos + 1)
    && if pos < |h| then h[pos].id !in path else forall p | 0 <= p < |h| :: h[p].id in path
  }

  ghost predicate CacheInv<S, V>(m: Model<S, V>, h: seq<Entry<V>>, cache: Cache<S>, seen: set<seq<int>>)
    requires WellFormed(h)
  {
    Filed(cache) && CachesSeen(m, h, cache, seen)
  }

  /** What the node under the scan is. */
  lemma EntryAt<V>(h: seq<Entry<V>>, all: seq<Node<V>>, pos: nat)
    requires WellFormed(h) && Nodes(h, all) && pos < |h|
    ensures all[pos + 1].id == h[pos].id && 0 <= h[pos].id < Size(h)
    ensures h[pos].kind == Return ==> all[pos + 1].matching == null && pos == ReturnPos(h, h[pos].id)
    ensures h[pos].kind == Call ==>
              && pos == CallPos(h, h[pos].id)
              && all[pos + 1].value == Some(h[pos].value)
              && all[pos + 1].matching != null
              && all[pos + 1].matching.value == Some(h[ReturnPos(h, h[pos].id)].value)
  {
    assert NodeOk(h, all, pos + 1);
    assert pos == Find(h, h[pos].kind, h[pos].id);
    if h[pos].kind == Call {
      assert NodeOk(h, all, ReturnAt(h, h[pos].id));
    }
  }

  /** The list is empty exactly when every operation is on the stack. */
  lemma FirstOf<V>(h: seq<Entry<V>>, all: seq<Node<V>>, path: seq<int>) returns (pos: nat)
    requires WellFormed(h) && Selection(h, path) && ListInv(h, all, path)
    ensures Here(h, all, path, all[0].next, pos) && NextOf(h, path, -1, pos)
    ensures all[0].next == null <==> forall p | 0 <= p < |h| :: h[p].id in path
  {
    pos := Next(Gone(h, path), 0, |all|) - 1;
    NextInList(h, path, -1);
  }

  /** In the loop the entry under the scan is never nil. */
  lemma EntryPresent<V>(h: seq<Entry<V>>, all: seq<Node<V>>, path: seq<int>, entry: Node?<V>, pos: nat)
    requires WellFormed(h) && Selection(h, path) && ListInv(h, all, path) && Here(h, all, path, entry, pos)
    requires all[0].next != null
    ensures pos < |h| && entry == all[pos + 1] && entry.id == h[pos].id
    ensures 0 <= entry.id < Size(h) && entry.id !in path
    ensures entry.matching == null ==> pos == ReturnPos(h, entry.id)
  {
    var first := FirstOf(h, all, path);
    EntryAt(h, all, pos);
  }

  /** The entry after a call that is in the list; its return is still there, so there is one. */
  lemma AfterCall<V>(h: seq<Entry<V>>, all: seq<Node<V>>, path: seq<int>, id: int) returns (pos: nat)
    requires WellFormed(h) && Selection(h, path) && ListInv(h, all, path)
    requires 0 <= id < Size(h) && id !in path
    ensures Here(h, all, path, all[CallAt(h, id)].next, pos) && NextOf(h, path, CallPos(h, id), pos)
  {
    pos := Next(Gone(h, path), CallAt(h, id), |all|) - 1;
    EndsOf(h, path, id);
    NextInList(h, path, CallPos(h, id));
  }

  /** A level depends on the path up to it only. */
  lemma SameLevel<S, V>(m: Model<S, V>, h: seq<Entry<V>>, all: seq<Node<V>>, path: seq<int>,
                        calls: seq<CallsEntry<S, V>>, q: seq<int>, after: seq<CallsEntry<S, V>>, k: nat)
    requires WellFormed(h) && Selection(h, path) && Selection(h, q) && |all| == |h| + 1
    requires k < |path| == |calls| && k < |q| == |after| && path[..k + 1] == q[..k + 1] && calls[k] == after[k]
    requires LevelOk(m, h, all, path, calls, k)
    ensures LevelOk(m, h, all, q, after, k)
  {
    assert q[..k] == q[..k + 1][..k] == path[..k + 1][..k] == path[..k];
    assert q[k] == q[..k + 1][k] == path[..k + 1][k] == path[k];
  }

  lemma StackPush<S, V>(m: Model<S, V>, h: seq<Entry<V>>, all: seq<Node<V>>,
                        path: seq<int>, calls: seq<CallsEntry<S, V>>, id: int, top: CallsEntry<S, V>)
    requires WellFormed(h) && IsPartial(m, h, path) && IsPartial(m, h, path + [id]) && |all| == |h| + 1
    requires Stack(m, h, all, path, calls) && 0 <= id < Size(h)
    requires top.entry == all[CallAt(h, id)] && top.state == Final(m, h, path)
    ensures Stack(m, h, all, path + [id], calls + [top])
  {
    var q, after := path + [id], calls + [top];
    forall k | 0 <= k < |q| ensures LevelOk(m, h, all, q, after, k) {
      if k < |path| {
        assert q[..k + 1] == path[..k + 1];
        SameLevel(m, h, all, path, calls, q, after, k);
      } else {
        assert q[..k] == path;
      }
    }
  }

  lemma StackPop<S, V>(m: Model<S, V>, h: seq<Entry<V>>, all: seq<Node<V>>,
                       path: seq<int>, calls: seq<CallsEntry<S, V>>, q: seq<int>, id: int)
    requires WellFormed(h) && path == q + [id] && |all| == |h| + 1
    requires IsPartial(m, h, path) && IsPartial(m, h, q) && Stack(m, h, all, path, calls)
    ensures calls[|q|].entry == all[CallAt(h, id)] && calls[|q|].state == Final(m, h, q)
    ensures Stack(m, h, all, q, calls[..|q|])
  {
    assert path[..|q|] == q && LevelOk(m, h, all, path, calls, |q|);
    forall k | 0 <= k < |q| ensures LevelOk(m, h, all, q, calls[..|q|], k) {
      assert q[..k + 1] == path[..k + 1];
      SameLevel(m, h, all, path, calls, q, calls[..|q|], k);
    }
  }

  /** Take the operation under the scan: stack, bitset and list move together. */
  method Descend<S(!new), V(!new)>(
    m: Model<S, V>, headEntry: Node<V>, entry: Node<V>, state: S,
    calls: seq<CallsEntry<S, V>>, linearized: array<nat>,
    ghost h: seq<Entry<V>>, ghost all: seq<Node<V>>, ghost path: seq<int>, ghost id: int)
    returns (entry': Node?<V>, calls': seq<CallsEntry<S, V>>, ghost pos': nat)
    requires WellFormed(h) && IsPartial(m, h, path) && IsPartial(m, h, path + [id])
    requires ListInv(h, all, path) && Stack(m, h, all, path, calls) && Bits(linearized[..], Size(h), path)
    requires headEntry == all[0] && state == Final(m, h, path)
    requires 0 <= id < Size(h) && id !in path && entry == all[CallAt(h, id)] && entry.id == id
    modifies all, linearized
    ensures ListInv(h, all, path + [id]) && Stack(m, h, all, path + [id], calls')
    ensures Bits(linearized[..], Size(h), path + [id])
    ensures Here(h, all, path + [id], entry', pos') && NextOf(h, path + [id], -1, pos')
  {
    StackPush(m, h, all, path, calls, id, CallsEntry(entry, state));
    calls' := calls + [CallsEntry(entry, state)];
    Bitset.Set(linearized, entry.id);
    Take(entry, h, all, path, id);
    pos' := FirstOf(h, all, path + [id]);
    entry' := headEntry.next;
  }

  /** Undo the top of the stack: stack, bitset and list move back together. */
  method Ascend<S(!new), V(!new)>(
    m: Model<S, V>, calls: seq<CallsEntry<S, V>>, linearized: array<nat>,
    ghost h: seq<Entry<V>>, ghost all: seq<Node<V>>, ghost q: seq<int>, ghost id: int)
    returns (entry': Node?<V>, state': S, calls': seq<CallsEntry<S, V>>, ghost pos': nat)
    requires WellFormed(h) && IsPartial(m, h, q) && IsPartial(m, h, q + [id])
    requires 0 <= id < Size(h) && id !in q
    requires ListInv(h, all, q + [id]) && Stack(m, h, all, q + [id], calls) && Bits(linearized[..], Size(h), q + [id])
    modifies all, linearized
    ensures state' == Final(m, h, q)
    ensures ListInv(h, all, q) && Stack(m, h, all, q, calls') && Bits(linearized[..], Size(h), q)
    ensures Here(h, all, q, entry', pos') && NextOf(h, q, CallPos(h, id), pos')
  {
    StackPop(m, h, all, q + [id], calls, q, id);
    var callsTop := calls[|calls| - 1];
    var entry := callsTop.entry;
    state' := callsTop.state;
    EntryAt(h, all, CallPos(h, id));
    assert Elements(q + [id]) - {id} == Elements(q);
    Bitset.Clear(linearized, entry.id);
    calls' := calls[..|calls| - 1];
    PutBack(entry, h, all, q, id);
    pos' := AfterCall(h, all, q, id);
    entry' := entry.next;
  }

  /** Move on to the next entry of the list when the operation under the scan has nothing to offer. */
  method Skip<S(!new), V(!new)>(
    entry: Node<V>,
    ghost m: Model<S, V>, ghost h: seq<Entry<V>>, ghost partials: bool, ghost exact: bool, ghost all: seq<Node<V>>,
    ghost path: seq<int>, ghost pos: nat, ghost seen: set<seq<int>>, ghost longest: Longest, ghost id: int)
    returns (entry': Node?<V>, ghost pos': nat)
    requires Inv(m, h, partials, exact, path, pos, seen, longest) && ListInv(h, all, path)
    requires 0 <= id < Size(h) && id !in path && pos == CallPos(h, id) && entry == all[CallAt(h, id)]
    requires exact ==> Explored(m, h, partials, path + [id], longest)
    ensures Inv(m, h, partials, exact, path, pos', seen, longest)
    ensures Here(h, all, path, entry', pos') && pos < pos'
  {
    pos' := AfterCall(h, all, path, id);
    entry' := entry.next;
    Advance(m, h, partials, exact, path, pos, seen, longest, id, pos');
  }

  /** The operation whose call is under the scan is ready, and its ends are where they should be. */
  lemma ReadyHere<V>(h: seq<Entry<V>>, all: seq<Node<V>>, path: seq<int>, entry: Node<V>, pos: nat)
    requires WellFormed(h) && ScanInv(h, path, pos) && Nodes(h, all)
    requires Here(h, all, path, entry, pos) && pos < |h| && entry.matching != null
    ensures Ready(h, path, entry.id) && pos == CallPos(h, entry.id) && entry == all[CallAt(h, entry.id)]
    ensures entry.value == Some(h[CallPos(h, entry.id)].value)
    ensures entry.matching.value == Some(h[ReturnPos(h, entry.id)].value)
  {
    EntryAt(h, all, pos);
    ScannedIsReady(h, path, pos, entry.id);
  }

  /** What the model says about taking the operation whose call is under the scan. */
  method StepHere<S(!new), V(!new)>(
    m: Model<S, V>, state: S, entry: Node<V>,
    ghost h: seq<Entry<V>>, ghost all: seq<Node<V>>, ghost path: seq<int>, ghost pos: nat)
    returns (accepted: bool, newState: S)
    requires WellFormed(h) && IsPartial(m, h, path) && ScanInv(h, path, pos) && Nodes(h, all)
    requires Here(h, all, path, entry, pos) && pos < |h| && entry.matching != null && state == Final(m, h, path)
    ensures Ready(h, path, entry.id) && pos == CallPos(h, entry.id) && entry == all[CallAt(h, entry.id)]
    ensures accepted <==> IsPartial(m, h, path + [entry.id])
    ensures accepted <==> StepOp(m, h, Final(m, h, path), entry.id).0
    ensures accepted ==> newState == Final(m, h, path + [entry.id])
  {
    ReadyHere(h, all, path, entry, pos);
    var matching := entry.matching;
    accepted, newState := ApplyStep(m, state, entry.value.value, matching.value.value, h, path, entry.id);
  }

  /** One step of the model, by which a partial linearization may grow. */
  method ApplyStep<S, V>(m: Model<S, V>, state: S, input: V, output: V,
                         ghost h: seq<Entry<V>>, ghost path: seq<int>, ghost id: int)
    returns (accepted: bool, newState: S)
    requires WellFormed(h) && IsPartial(m, h, path) && Ready(h, path, id) && state == Final(m, h, path)
    requires input == h[CallPos(h, id)].value && output == h[ReturnPos(h, id)].value
    ensures accepted <==> IsPartial(m, h, path + [id])
    ensures accepted <==> StepOp(m, h, Final(m, h, path), id).0
    ensures accepted ==> newState == Final(m, h, path + [id])
  {
    PartialSnoc(m, h, path, id);
    var (ok, next) := m.step(state, input, output);
    accepted, newState := ok, next;
  }

  /** Is the configuration after taking id cached already?  If so, nothing new can come of it. */
  method Lookup<S(!new), V(!new)>(
    m: Model<S, V>, cache: Cache<S>, linearized: array<nat>, id: int, newState: S,
    ghost h: seq<Entry<V>>, ghost partials: bool, ghost exact: bool,
    ghost path: seq<int>, ghost pos: nat, ghost seen: set<seq<int>>, ghost longest: Longest)
    returns (hit: bool, e: CacheEntry<S>)
    requires Inv(m, h, partials, exact, path, pos, seen, longest) && (exact ==> EqualSimulates(m))
    requires CacheInv(m, h, cache, seen) && Bits(linearized[..], Size(h), path) && 0 <= id < Size(h)
    requires IsPartial(m, h, path + [id]) && newState == Final(m, h, path + [id])
    ensures Bits(e.linearized, Size(h), path + [id]) && e.state == newState
    ensures hit <==> Hit(m, cache, e.linearized, e.state)
    ensures hit && exact ==> Explored(m, h, partials, path + [id], longest)
  {
    var newLinearized := Bitset.Clone(linearized);
    Bitset.Set(newLinearized, id);
    assert Elements(path + [id]) == Elements(path) + {id};
    e := CacheEntry(newLinearized[..], newState);
    hit := CacheContains(m, cache, e);
    if hit && exact {
      HitExplores(m, h, partials, exact, path, pos, seen, longest, id, cache, e);
    }
  }

  /** File the configuration after taking id. */
  method Remember<S, V>(m: Model<S, V>, cache: Cache<S>, e: CacheEntry<S>,
                        ghost h: seq<Entry<V>>, ghost seen: set<seq<int>>, ghost p: seq<int>)
    returns (after: Cache<S>)
    requires WellFormed(h) && CacheInv(m, h, cache, seen) && IsPartial(m, h, p)
    requires Bits(e.linearized, Size(h), p) && e.state == Final(m, h, p)
    ensures CacheInv(m, h, after, seen + {p})
  {
    var hash := Bitset.HashOf(e.linearized);
    InsertKeeps(m, h, cache, seen, e, p);
    after := Insert(cache, hash, e);
  }

  /** Everything that holds at the head of the loop of checkSingle. */
  ghost predicate AtLoop<S, V>(
    m: Model<S, V>, h: seq<Entry<V>>, partials: bool, exact: bool, all: seq<Node<V>>,
    entry: Node?<V>, state: S, calls: seq<CallsEntry<S, V>>, words: seq<nat>, cache: Cache<S>, longest: Longest,
    path: seq<int>, pos: nat, seen: set<seq<int>>)
    reads all
  {
    && Inv(m, h, partials, exact, path, pos, seen, longest)
    && ListInv(h, all, path)
    && Stack(m, h, all, path, calls)
    && Here(h, all, path, entry, pos)
    && state == Final(m, h, path)
    && Bits(words, Size(h), path)
    && CacheInv(m, h, cache, seen)
  }

  /** The branch of the loop at a call entry: take the operation, or move past it. */
  method AtCall<S(!new), V(!new)>(
    m: Model<S, V>, headEntry: Node<V>, entry: Node<V>, state: S, calls: seq<CallsEntry<S, V>>,
    linearized: array<nat>, cache: Cache<S>,
    ghost h: seq<Entry<V>>, ghost partials: bool, ghost exact: bool, ghost all: seq<Node<V>>, ghost longest: Longest,
    ghost path: seq<int>, ghost pos: nat, ghost seen: set<seq<int>>)
    returns (entry': Node?<V>, state': S, calls': seq<CallsEntry<S, V>>, cache': Cache<S>,
             ghost path': seq<int>, ghost pos': nat, ghost seen': set<seq<int>>)
    requires AtLoop(m, h, partials, exact, all, entry, state, calls, linearized[..], cache, longest, path, pos, seen)
    requires exact ==> EqualSimulates(m)
    requires pos < |h| && headEntry == all[0] && entry.matching != null
    modifies all, linearized
    ensures AtLoop(m, h, partials, exact, all, entry', state', calls', linearized[..], cache', longest, path', pos', seen')
    ensures (seen' == seen && path' == path && pos < pos' <= |h|) ||
            Paths(Size(h), Size(h)) - seen' < Paths(Size(h), Size(h)) - seen
  {
    ghost var id := entry.id;
    state', calls', cache', path', seen' := state, calls, cache, path, seen;
    var accepted, newState := StepHere(m, state, entry, h, all, path, pos);
    if accepted {
      var hit, newCacheEntry := Lookup(m, cache, linearized, entry.id, newState,
                                       h, partials, exact, path, pos, seen, longest);
      if !hit {
        path', seen' := path + [id], seen + {path + [id]};
        cache' := Remember(m, cache, newCacheEntry, h, seen, path');
        ScannedIsNew(h, path, pos, seen, id);
        PathsAreFinite(h, path');
        assert path' in Paths(Size(h), Size(h)) - seen && path' !in Paths(Size(h), Size(h)) - seen';
        entry', calls', pos' := Descend(m, headEntry, entry, state, calls, linearized, h, all, path, id);
        state' := newState;
        Push(m, h, partials, exact, path, pos, seen, longest, id, pos');
      } else {
        entry', pos' := Skip(entry, m, h, partials, exact, all, path, pos, seen, longest, id);
      }
    } else {
      RefusedIsExplored(m, h, partials, path + [id], longest);
      entry', pos' := Skip(entry, m, h, partials, exact, all, path, pos, seen, longest, id);
    }
  }

  /** The branch of the loop at a return entry with a nonempty stack: record and backtrack. */
  method AtReturn<S(!new), V(!new)>(
    m: Model<S, V>, computePartial: bool, calls: seq<CallsEntry<S, V>>, linearized: array<nat>, longest: Longest,
    ghost entry: Node<V>, ghost state: S, ghost cache: Cache<S>,
    ghost h: seq<Entry<V>>, ghost exact: bool, ghost all: seq<Node<V>>,
    ghost path: seq<int>, ghost pos: nat, ghost seen: set<seq<int>>)
    returns (entry': Node?<V>, state': S, calls': seq<CallsEntry<S, V>>, longest': Longest, ghost pos': nat)
    requires AtLoop(m, h, computePartial, exact, all, entry, state, calls, linearized[..], cache, longest, path, pos, seen)
    requires 0 <= entry.id < Size(h) && entry.id !in path && pos == ReturnPos(h, entry.id) && path != []
    modifies all, linearized
    ensures AtLoop(m, h, computePartial, exact, all, entry', state', calls', linearized[..], cache, longest',
                   path[..|path| - 1], pos', seen)
  {
    longest' := longest;
    if computePartial {
      longest' := RecordStack(m, calls, longest, h, all, path);
    }
    ghost var q, id := path[..|path| - 1], path[|path| - 1];
    SplitLast(path);
    PartialSnoc(m, h, q, id);
    entry', state', calls', pos' := Ascend(m, calls, linearized, h, all, q, id);
    Pop(m, h, computePartial, exact, path, pos, seen, longest, longest', entry.id, pos');
  }

  method RecordStack<S, V>(m: Model<S, V>, calls: seq<CallsEntry<S, V>>, longest: Longest,
                           ghost h: seq<Entry<V>>, ghost all: seq<Node<V>>, ghost path: seq<int>)
    returns (after: Longest)
    requires WellFormed(h) && Nodes(h, all) && IsPartial(m, h, path) && Stack(m, h, all, path, calls)
    requires Sound(m, h, longest)
    ensures Sound(m, h, after) && Improves(longest, after) && Recorded(after, path)
  {
    StackIds(m, h, all, path, calls);
    after := Record(calls, longest, path);
    RecordedSuffices(m, h, longest, after, path);
  }

  lemma StackId<S, V>(m: Model<S, V>, h: seq<Entry<V>>, all: seq<Node<V>>,
                      path: seq<int>, calls: seq<CallsEntry<S, V>>, k: nat)
    requires WellFormed(h) && Nodes(h, all) && Selection(h, path) && k < |path| == |calls|
    requires LevelOk(m, h, all, path, calls, k)
    ensures calls[k].entry.id == path[k]
  {
    var pos := CallPos(h, path[k]);
    assert pos < ReturnPos(h, path[k]) < |h|;
    assert NodeOk(h, all, pos + 1);
  }

  lemma StackIds<S, V>(m: Model<S, V>, h: seq<Entry<V>>, all: seq<Node<V>>,
                       path: seq<int>, calls: seq<CallsEntry<S, V>>)
    requires WellFormed(h) && Nodes(h, all) && IsPartial(m, h, path) && Stack(m, h, all, path, calls)
    ensures forall k | 0 <= k < |path| :: calls[k].entry.id == path[k]
  {
    forall k | 0 <= k < |path| ensures calls[k].entry.id == path[k] {
      StackId(m, h, all, path, calls, k);
    }
  }

  /** The variables of checkSingle before its loop. */
  method Setup<S(!new), V(!new)>(
    m: Model<S, V>, history: seq<Entry<V>>, ghost partials: bool, ghost exact: bool)
    returns (entry: Node?<V>, headEntry: Node<V>, n: nat, linearized: array<nat>, longest: Longest, ghost all: seq<Node<V>>)
    requires WellFormed(history)
    ensures fresh(all) && fresh(linearized) && |all| > 0 && headEntry == all[0] && n == Size(history)
    ensures AtLoop(m, history, partials, exact, all, entry, m.init, [], linearized[..], map[], longest, [], 0, {})
  {
    ghost var nodes;
    entry, nodes := MakeLinkedEntries(history);
    var len := Length(entry, nodes);
    n := len / 2;
    linearized := Bitset.NewBitset(n);
    longest := seq(n, _ => None);
    headEntry, all := AddHead(entry, history, nodes);
    InitInv(m, history, partials, exact, longest);
  }

  /** An empty list: the stack is a linearization, and the longest one for every operation. */
  method Finish<S(!new), V(!new)>(
    m: Model<S, V>, n: nat, calls: seq<CallsEntry<S, V>>,
    ghost h: seq<Entry<V>>, ghost all: seq<Node<V>>, ghost path: seq<int>)
    returns (longest: Longest)
    requires WellFormed(h) && IsPartial(m, h, path) && n == Size(h)
    requires ListInv(h, all, path) && Stack(m, h, all, path, calls) && all[0].next == null
    ensures Linearizable(m, h) && Sound(m, h, longest)
    ensures forall x | 0 <= x < Size(h) :: Maximal(m, h, x, longest[x])
  {
    ghost var first := FirstOf(h, all, path);
    AllTaken(m, h, path);
    StackIds(m, h, all, path, calls);
    var ids := IdsOf(calls, path);
    longest := seq(n, _ => Some(ids));
  }

  /**
    checkSingle.  kill(i) is what the i-th load of the shared kill flag returns.
    The search terminates for every model; an answer it was not killed for is
    exact provided states that Equal equates behave alike.
   */
  method CheckSingle<S(!new), V(!new)>(
    m: Model<S, V>, history: seq<Entry<V>>, computePartial: bool, kill: nat -> bool)
    returns (ok: bool, longest: Longest, ghost killed: bool)
    requires WellFormed(history)
    ensures killed ==> !ok && exists i :: kill(i)
    ensures ok ==> Linearizable(m, history)
    ensures !ok && !killed && EqualSimulates(m) ==> !Linearizable(m, history)
    ensures Sound(m, history, longest)
    ensures ok || (computePartial && !killed && EqualSimulates(m)) ==>
              forall x | 0 <= x < Size(history) :: Maximal(m, history, x, longest[x])
  {
    ghost var h, exact := history, EqualSimulates(m);
    ghost var all, path: seq<int>, pos: nat, seen: set<seq<int>> := [], [], 0, {};
    var entry, headEntry, n, linearized;
    entry, headEntry, n, linearized, longest, all := Setup(m, history, computePartial, exact);
    var cache: Cache<S> := map[];
    var calls: seq<CallsEntry<S, V>> := [];
    var state := m.init;
    var ticks := 0;
    while headEntry.next != null
      invariant fresh(all) && fresh(linearized)
      invariant AtLoop(m, h, computePartial, exact, all, entry, state, calls, linearized[..], cache, longest, path, pos, seen)
      invariant headEntry == all[0]
      decreases Paths(n, n) - seen, |path|, |h| - pos
    {
      EntryPresent(h, all, path, entry, pos);
      if kill(ticks) {
        return false, longest, true;
      }
      ticks := ticks + 1;
      if entry.matching != null {
        entry, state, calls, cache, path, pos, seen :=
          AtCall(m, headEntry, entry, state, calls, linearized, cache,
                 h, computePartial, exact, all, longest, path, pos, seen);
      } else {
        if |calls| == 0 {
          if exact {
            NothingFound(m, h, computePartial, exact, pos, seen, longest, entry.id);
          }
          return false, longest, false;
        }
        entry, state, calls, longest, pos :=
          AtReturn(m, computePartial, calls, linearized, longest, entry, state, cache, h, exact, all, path, pos, seen);
        path := path[..|path| - 1];
      }
    }
    longest := Finish(m, n, calls, h, all, path);
    return true, longest, false;
  }
}
