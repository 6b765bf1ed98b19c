/**
  The invariant of the backtracking search in checkSingle, independent of the
  linked list, the bitset and the hash buckets that implement it.

  path     the operations on the calls stack, bottom first
  pos      the position in the history of the entry under the scan
  seen     the paths whose configuration has been put into the cache
  exact    whether the cache is trusted: states that Equal equates behave alike
  longest  per operation, the longest partial linearization recorded so far
 */
module Search {
  import opened Options
  import opened Collections
  import opened Histories

  type Longest = seq<Option<seq<int>>>

  /** Every operation of p has a record at least as long as p. */
  ghost predicate Recorded(longest: Longest, p: seq<int>) {
    forall x | x in p ::
      0 <= x < |longest| && longest[x].Some? && |longest[x].value| >= |p|
  }

  /** The search has nothing left to find among the extensions of p. */
  ghost predicate Explored<S, V>(m: Model<S, V>, h: seq<Entry<V>>, partials: bool, p: seq<int>, longest: Longest)
    requires WellFormed(h)
  {
    forall r | p <= r && IsPartial(m, h, r) ::
      !Covers(h, r) && (partials ==> Recorded(longest, r))
  }

  /** Every operation called before pos and not in p has been explored as the next one. */
  ghost predicate Tried<S, V>(m: Model<S, V>, h: seq<Entry<V>>, partials: bool, p: seq<int>, pos: nat, longest: Longest)
    requires WellFormed(h)
  {
    forall id | 0 <= id < Size(h) && id !in p && CallPos(h, id) < pos ::
      Explored(m, h, partials, p + [id], longest)
  }

  /** Among the operations not in p, none returns before pos. */
  ghost predicate NoReturnBefore<V>(h: seq<Entry<V>>, p: seq<int>, pos: nat) {
    forall a | 0 <= a < Size(h) && a !in p :: pos <= ReturnPos(h, a)
  }

  /** Where the scan stands at level k: the entry on the stack, or the current entry on top. */
  ghost function ScanPos<V>(h: seq<Entry<V>>, path: seq<int>, pos: nat, k: nat): nat
    requires k <= |path|
  {
    if k < |path| then CallPos(h, path[k]) else pos
  }

  /** Path p branches off to the left of the current scan at level k. */
  ghost predicate PassedAt<V>(h: seq<Entry<V>>, path: seq<int>, pos: nat, p: seq<int>, k: nat) {
    && k < |p|
    && k <= |path|
    && p[..k] == path[..k]
    && CallPos(h, p[k]) < ScanPos(h, path, pos, k)
  }

  ghost predicate Passed<V>(h: seq<Entry<V>>, path: seq<int>, pos: nat, p: seq<int>) {
    exists k: nat :: PassedAt(h, path, pos, p, k)
  }

  /** A record for an operation is a partial linearization that contains it. */
  ghost predicate Sound<S, V>(m: Model<S, V>, h: seq<Entry<V>>, longest: Longest)
    requires WellFormed(h)
  {
    && |longest| == Size(h)
    && forall x | 0 <= x < |longest| && longest[x].Some? ::
         x in longest[x].value && IsPartial(m, h, longest[x].value)
  }

  /** No partial linearization with x is longer than its record; no record means there is none. */
  ghost predicate Maximal<S, V>(m: Model<S, V>, h: seq<Entry<V>>, x: int, best: Option<seq<int>>)
    requires WellFormed(h)
  {
    && (best.Some? ==> x in best.value && IsPartial(m, h, best.value))
    && (forall p | IsPartial(m, h, p) && x in p :: best.Some? && |p| <= |best.value|)
  }

  /** At every level, nothing that remains returns before the scan. */
  ghost predicate ScanInv<V>(h: seq<Entry<V>>, path: seq<int>, pos: nat) {
    forall k | 0 <= k <= |path| :: NoReturnBefore(h, path[..k], ScanPos(h, path, pos, k))
  }

  /** Every cached path lies on the stack or to the left of the scan. */
  ghost predicate SeenInv<V>(h: seq<Entry<V>>, path: seq<int>, pos: nat, seen: set<seq<int>>) {
    forall p | p in seen :: p <= path || Passed(h, path, pos, p)
  }

  /** Cached paths off the stack, and branches left of the scan, are explored. */
  ghost predicate ExploredInv<S, V>(
    m: Model<S, V>, h: seq<Entry<V>>, partials: bool,
    path: seq<int>, pos: nat, seen: set<seq<int>>, longest: Longest)
    requires WellFormed(h)
  {
    && (forall p | p in seen :: p <= path || Explored(m, h, partials, p, longest))
    && (forall k | 0 <= k <= |path| ::
          Tried(m, h, partials, path[..k], ScanPos(h, path, pos, k), longest))
  }

  ghost predicate Inv<S, V>(
    m: Model<S, V>, h: seq<Entry<V>>, partials: bool, exact: bool,
    path: seq<int>, pos: nat, seen: set<seq<int>>, longest: Longest)
  {
    && WellFormed(h)
    && pos <= |h|
    && IsPartial(m, h, path)
    && (forall p | p in seen :: IsPartial(m, h, p))
    && Sound(m, h, longest)
    && (!partials ==> forall x | 0 <= x < |longest| :: longest[x].None?)
    && ScanInv(h, path, pos)
    && SeenInv(h, path, pos, seen)
    && (exact ==> ExploredInv(m, h, partials, path, pos, seen, longest))
  }

  /** next is the first position after pos whose operation is not in path. */
  ghost predicate NextOf<V>(h: seq<Entry<V>>, path: seq<int>, pos: int, next: nat) {
    && -1 <= pos < next <= |h|
    && (forall p | pos < p < next :: h[p].id in path)
    && (next < |h| ==> h[next].id !in path)
  }

  lemma InitInv<S, V>(m: Model<S, V>, h: seq<Entry<V>>, partials: bool, exact: bool, longest: Longest)
    requires WellFormed(h)
    requires |longest| == Size(h) && forall x | 0 <= x < |longest| :: longest[x].None?
    ensures Inv(m, h, partials, exact, [], 0, {}, longest)
  {
  }

  /** The scan only offers operations all of whose predecessors are on the path. */
  lemma ScannedIsReady<V>(h: seq<Entry<V>>, path: seq<int>, pos: nat, id: int)
    requires WellFormed(h) && ScanInv(h, path, pos)
    requires 0 <= id < Size(h) && id !in path && pos == CallPos(h, id)
    ensures Ready(h, path, id)
  {
    assert path[..|path|] == path;
    assert NoReturnBefore(h, path[..|path|], ScanPos(h, path, pos, |path|));
  }

  /** The search never comes back to a path it has cached. */
  lemma ScannedIsNew<V>(h: seq<Entry<V>>, path: seq<int>, pos: nat, seen: set<seq<int>>, id: int)
    requires SeenInv(h, path, pos, seen) && pos == CallPos(h, id)
    ensures path + [id] !in seen
  {
    var q := path + [id];
    forall k: nat ensures !PassedAt(h, path, pos, q, k) {
      assert k < |path| ==> q[k] == path[k];
    }
  }

  /** Moving right past id keeps the invariant once id has nothing to offer. */
  lemma Advance<S(!new), V(!new)>(
    m: Model<S, V>, h: seq<Entry<V>>, partials: bool, exact: bool,
    path: seq<int>, pos: nat, seen: set<seq<int>>, longest: Longest, id: int, next: nat)
    requires Inv(m, h, partials, exact, path, pos, seen, longest)
    requires 0 <= id < Size(h) && id !in path && pos == CallPos(h, id)
    requires exact ==> Explored(m, h, partials, path + [id], longest)
    requires NextOf(h, path, pos, next)
    ensures Inv(m, h, partials, exact, path, next, seen, longest)
  {
    AdvanceScan(h, path, pos, id, next);
    AdvanceSeen(h, path, pos, seen, next);
    if exact {
      AdvanceExplored(m, h, partials, path, pos, seen, longest, id, next);
    }
  }

  lemma AdvanceScan<V>(h: seq<Entry<V>>, path: seq<int>, pos: nat, id: int, next: nat)
    requires WellFormed(h) && ScanInv(h, path, pos)
    requires 0 <= id < Size(h) && pos == CallPos(h, id) && NextOf(h, path, pos, next)
    ensures ScanInv(h, path, next)
  {
    forall k | 0 <= k <= |path| ensures NoReturnBefore(h, path[..k], ScanPos(h, path, next, k)) {
      assert NoReturnBefore(h, path[..k], ScanPos(h, path, pos, k));
      if k == |path| {
        assert path[..k] == path;
        NoReturnAfterCall(h, path, id, next);
      }
    }
  }

  lemma AdvanceSeen<V>(h: seq<Entry<V>>, path: seq<int>, pos: nat, seen: set<seq<int>>, next: nat)
    requires SeenInv(h, path, pos, seen) && pos < next
    ensures SeenInv(h, path, next, seen)
  {
    forall p | p in seen && !(p <= path) ensures Passed(h, path, next, p) {
      var k: nat :| PassedAt(h, path, pos, p, k);
      assert PassedAt(h, path, next, p, k);
    }
  }

  lemma AdvanceExplored<S, V>(
    m: Model<S, V>, h: seq<Entry<V>>, partials: bool,
    path: seq<int>, pos: nat, seen: set<seq<int>>, longest: Longest, id: int, next: nat)
    requires WellFormed(h) && ExploredInv(m, h, partials, path, pos, seen, longest)
    requires 0 <= id < Size(h) && pos == CallPos(h, id) && NextOf(h, path, pos, next)
    requires Explored(m, h, partials, path + [id], longest)
    ensures ExploredInv(m, h, partials, path, next, seen, longest)
  {
    forall k | 0 <= k <= |path|
      ensures Tried(m, h, partials, path[..k], ScanPos(h, path, next, k), longest)
    {
      assert Tried(m, h, partials, path[..k], ScanPos(h, path, pos, k), longest);
      if k == |path| {
        assert path[..k] == path;
        TriedNext(m, h, partials, path, id, next, longest, longest);
      }
    }
  }

  /** Taking id keeps the invariant; the scan restarts at the first remaining entry. */
  lemma Push<S(!new), V(!new)>(
    m: Model<S, V>, h: seq<Entry<V>>, partials: bool, exact: bool,
    path: seq<int>, pos: nat, seen: set<seq<int>>, longest: Longest, id: int, next: nat)
    requires Inv(m, h, partials, exact, path, pos, seen, longest)
    requires 0 <= id < Size(h) && id !in path && pos == CallPos(h, id)
    requires StepOp(m, h, Final(m, h, path), id).0
    requires NextOf(h, path + [id], -1, next)
    ensures Inv(m, h, partials, exact, path + [id], next, seen + {path + [id]}, longest)
    ensures Final(m, h, path + [id]) == StepOp(m, h, Final(m, h, path), id).1
  {
    ScannedIsReady(h, path, pos, id);
    PartialSnoc(m, h, path, id);
    PushScan(h, path, pos, seen, id, next);
    if exact {
      PushExplored(m, h, partials, path, pos, seen, longest, id, next);
    }
  }

  lemma PushScan<V>(h: seq<Entry<V>>, path: seq<int>, pos: nat, seen: set<seq<int>>, id: int, next: nat)
    requires WellFormed(h) && ScanInv(h, path, pos) && SeenInv(h, path, pos, seen)
    requires 0 <= id < Size(h) && pos == CallPos(h, id) && NextOf(h, path + [id], -1, next)
    ensures ScanInv(h, path + [id], next) && SeenInv(h, path + [id], next, seen + {path + [id]})
  {
    var q := path + [id];
    forall k | 0 <= k <= |path|
      ensures q[..k] == path[..k] && ScanPos(h, q, next, k) == ScanPos(h, path, pos, k)
    {}
    assert q[..|q|] == q;
    assert NoReturnBefore(h, q, next);
    forall p | p in seen && !(p <= path) ensures Passed(h, q, next, p) {
      var k: nat :| PassedAt(h, path, pos, p, k);
      assert PassedAt(h, q, next, p, k);
    }
  }

  lemma PushExplored<S, V>(
    m: Model<S, V>, h: seq<Entry<V>>, partials: bool,
    path: seq<int>, pos: nat, seen: set<seq<int>>, longest: Longest, id: int, next: nat)
    requires WellFormed(h) && ExploredInv(m, h, partials, path, pos, seen, longest)
    requires 0 <= id < Size(h) && pos == CallPos(h, id) && NextOf(h, path + [id], -1, next)
    ensures ExploredInv(m, h, partials, path + [id], next, seen + {path + [id]}, longest)
  {
    var q := path + [id];
    forall k | 0 <= k <= |q| ensures Tried(m, h, partials, q[..k], ScanPos(h, q, next, k), longest) {
      if k <= |path| {
        assert q[..k] == path[..k] && ScanPos(h, q, next, k) == ScanPos(h, path, pos, k);
      } else {
        assert q[..k] == q;
        assert Tried(m, h, partials, q, next, longest);
      }
    }
  }

  /** Two paths over the same operations, ending in states the model equates, go on alike. */
  lemma {:induction false} SameContinuation<S(!new), V(!new)>(
    m: Model<S, V>, h: seq<Entry<V>>, p: seq<int>, q: seq<int>, rest: seq<int>)
    requires WellFormed(h) && EqualSimulates(m)
    requires IsPartial(m, h, p) && IsPartial(m, h, q) && Elements(p) == Elements(q)
    requires m.equal(Final(m, h, p), Final(m, h, q))
    requires IsPartial(m, h, p + rest)
    ensures IsPartial(m, h, q + rest)
    ensures m.equal(Final(m, h, p + rest), Final(m, h, q + rest))
    decreases |rest|
  {
    if rest == [] {
      assert p + rest == p && q + rest == q;
    } else {
      var front, id := rest[..|rest| - 1], rest[|rest| - 1];
      assert p + rest == (p + front) + [id] && q + rest == (q + front) + [id];
      PartialSnoc(m, h, p + front, id);
      SameContinuation(m, h, p, q, front);
      SameElements(p, q, front);
      assert Ready(h, q + front, id);
      PartialSnoc(m, h, q + front, id);
    }
  }

  /** A cache hit prunes nothing: the cached configuration was explored on another path. */
  lemma PruneExplored<S(!new), V(!new)>(
    m: Model<S, V>, h: seq<Entry<V>>, partials: bool, p: seq<int>, q: seq<int>, longest: Longest)
    requires WellFormed(h) && EqualSimulates(m)
    requires IsPartial(m, h, p) && IsPartial(m, h, q) && Elements(p) == Elements(q)
    requires m.equal(Final(m, h, p), Final(m, h, q))
    requires Explored(m, h, partials, q, longest)
    ensures Explored(m, h, partials, p, longest)
  {
    forall r | p <= r && IsPartial(m, h, r)
      ensures !Covers(h, r) && (partials ==> Recorded(longest, r))
    {
      PruneOne(m, h, partials, p, q, longest, r);
    }
  }

  lemma PruneOne<S(!new), V(!new)>(
    m: Model<S, V>, h: seq<Entry<V>>, partials: bool, p: seq<int>, q: seq<int>, longest: Longest, r: seq<int>)
    requires WellFormed(h) && EqualSimulates(m)
    requires IsPartial(m, h, p) && IsPartial(m, h, q) && Elements(p) == Elements(q)
    requires m.equal(Final(m, h, p), Final(m, h, q))
    requires Explored(m, h, partials, q, longest)
    requires p <= r && IsPartial(m, h, r)
    ensures !Covers(h, r) && (partials ==> Recorded(longest, r))
  {
    NoDupCard(p);
    NoDupCard(q);
    var rest := r[|p|..];
    assert r == p + rest;
    SameContinuation(m, h, p, q, rest);
    var r' := q + rest;
    SameElements(p, q, rest);
    assert q <= r';
    assert !Covers(h, r') && (partials ==> Recorded(longest, r'));
  }

  lemma SameElements(p: seq<int>, q: seq<int>, rest: seq<int>)
    requires Elements(p) == Elements(q)
    ensures forall x :: x in p + rest <==> x in q + rest
  {
    forall x ensures x in p + rest <==> x in q + rest {
      assert x in Elements(p) <==> x in p;
      assert x in Elements(q) <==> x in q;
    }
  }

  /** A cached configuration for the same operations can not be one on the stack. */
  lemma HitIsExplored<S(!new), V(!new)>(
    m: Model<S, V>, h: seq<Entry<V>>, partials: bool, exact: bool,
    path: seq<int>, pos: nat, seen: set<seq<int>>, longest: Longest, id: int, q: seq<int>)
    requires Inv(m, h, partials, exact, path, pos, seen, longest) && exact && EqualSimulates(m)
    requires IsPartial(m, h, path + [id])
    requires q in seen && Elements(q) == Elements(path + [id])
    requires m.equal(Final(m, h, path + [id]), Final(m, h, q))
    ensures Explored(m, h, partials, path + [id], longest)
  {
    NoDupCard(q);
    NoDupCard(path + [id]);
    PruneExplored(m, h, partials, path + [id], q, longest);
  }

  /** An operation the model refuses leads nowhere. */
  lemma RefusedIsExplored<S(!new), V(!new)>(
    m: Model<S, V>, h: seq<Entry<V>>, partials: bool, p: seq<int>, longest: Longest)
    requires WellFormed(h) && !IsPartial(m, h, p)
    ensures Explored(m, h, partials, p, longest)
  {
    forall r | p <= r ensures !IsPartial(m, h, r) {
      if IsPartial(m, h, r) {
        PartialPrefix(m, h, r, |p|);
      }
      assert r[..|p|] == p;
    }
  }

  /** No record gets lost or shorter. */
  ghost predicate Improves(before: Longest, after: Longest) {
    && |before| == |after|
    && forall x | 0 <= x < |before| && before[x].Some? ::
         after[x].Some? && |before[x].value| <= |after[x].value|
  }

  lemma ExploredMonotone<S, V>(
    m: Model<S, V>, h: seq<Entry<V>>, partials: bool, p: seq<int>, before: Longest, after: Longest)
    requires WellFormed(h) && Explored(m, h, partials, p, before) && Improves(before, after)
    ensures Explored(m, h, partials, p, after)
  {
    forall r | p <= r && IsPartial(m, h, r) && partials ensures Recorded(after, r) {
      assert Recorded(before, r);
    }
  }

  /** At a return entry every ready operation has been tried, so the whole path is explored. */
  lemma ReturnExploresPath<S(!new), V(!new)>(
    m: Model<S, V>, h: seq<Entry<V>>, partials: bool, exact: bool,
    path: seq<int>, pos: nat, seen: set<seq<int>>, longest: Longest, after: Longest, a: int)
    requires Inv(m, h, partials, exact, path, pos, seen, longest) && exact
    requires 0 <= a < Size(h) && a !in path && pos == ReturnPos(h, a)
    requires Improves(longest, after) && (partials ==> Recorded(after, path))
    ensures Explored(m, h, partials, path, after)
  {
    assert path[..|path|] == path;
    assert Tried(m, h, partials, path[..|path|], ScanPos(h, path, pos, |path|), longest);
    forall r | path <= r && IsPartial(m, h, r)
      ensures !Covers(h, r) && (partials ==> Recorded(after, r))
    {
      if |r| == |path| {
        assert r == path;
      } else {
        var x := r[|path|];
        PartialPrefix(m, h, r, |path| + 1);
        assert r[..|path| + 1] == path + [x];
        PartialSnoc(m, h, path, x);
        assert !Before(h, a, x);
        assert CallPos(h, x) != pos;
        assert Explored(m, h, partials, path + [x], longest);
        ExploredMonotone(m, h, partials, path + [x], longest, after);
        assert path + [x] <= r;
      }
    }
  }

  /** Backtracking over the last operation of the path keeps the invariant. */
  lemma Pop<S(!new), V(!new)>(
    m: Model<S, V>, h: seq<Entry<V>>, partials: bool, exact: bool,
    path: seq<int>, pos: nat, seen: set<seq<int>>, longest: Longest, after: Longest, a: int, next: nat)
    requires Inv(m, h, partials, exact, path, pos, seen, longest) && path != []
    requires 0 <= a < Size(h) && a !in path && pos == ReturnPos(h, a)
    requires Improves(longest, after) && Sound(m, h, after)
    requires partials ==> Recorded(after, path)
    requires !partials ==> after == longest
    requires NextOf(h, path[..|path| - 1], CallPos(h, path[|path| - 1]), next)
    ensures Inv(m, h, partials, exact, path[..|path| - 1], next, seen, after)
  {
    PartialPrefix(m, h, path, |path| - 1);
    PopScan(h, path, pos, seen, next);
    if exact {
      ReturnExploresPath(m, h, partials, exact, path, pos, seen, longest, after, a);
      PopExplored(m, h, partials, path, pos, seen, longest, after, next);
    }
  }

  lemma PopScan<V>(h: seq<Entry<V>>, path: seq<int>, pos: nat, seen: set<seq<int>>, next: nat)
    requires WellFormed(h) && Selection(h, path) && path != []
    requires ScanInv(h, path, pos) && SeenInv(h, path, pos, seen)
    requires NextOf(h, path[..|path| - 1], CallPos(h, path[|path| - 1]), next)
    ensures ScanInv(h, path[..|path| - 1], next) && SeenInv(h, path[..|path| - 1], next, seen)
  {
    var top := |path| - 1;
    var q := path[..top];
    forall k | 0 <= k <= top ensures NoReturnBefore(h, q[..k], ScanPos(h, q, next, k)) {
      assert q[..k] == path[..k];
      assert NoReturnBefore(h, path[..k], ScanPos(h, path, pos, k));
      if k == top {
        assert q[..k] == q;
        NoReturnAfterCall(h, q, path[top], next);
      }
    }
    forall p | p in seen ensures p <= q || Passed(h, q, next, p) {
      PopPassed(h, path, pos, p, next);
    }
  }

  lemma NoReturnAfterCall<V>(h: seq<Entry<V>>, q: seq<int>, id: int, next: nat)
    requires WellFormed(h) && 0 <= id < Size(h)
    requires NoReturnBefore(h, q, CallPos(h, id)) && NextOf(h, q, CallPos(h, id), next)
    ensures NoReturnBefore(h, q, next)
  {
  }

  lemma PopExplored<S, V>(
    m: Model<S, V>, h: seq<Entry<V>>, partials: bool,
    path: seq<int>, pos: nat, seen: set<seq<int>>, longest: Longest, after: Longest, next: nat)
    requires WellFormed(h) && Selection(h, path) && path != []
    requires ExploredInv(m, h, partials, path, pos, seen, longest)
    requires Improves(longest, after) && Explored(m, h, partials, path, after)
    requires NextOf(h, path[..|path| - 1], CallPos(h, path[|path| - 1]), next)
    ensures ExploredInv(m, h, partials, path[..|path| - 1], next, seen, after)
  {
    var top := |path| - 1;
    var q := path[..top];
    forall p | p in seen && !(p <= q) ensures Explored(m, h, partials, p, after) {
      if p <= path {
        assert p == path;
      } else {
        ExploredMonotone(m, h, partials, p, longest, after);
      }
    }
    forall k | 0 <= k <= top ensures Tried(m, h, partials, q[..k], ScanPos(h, q, next, k), after) {
      assert Tried(m, h, partials, path[..k], ScanPos(h, path, pos, k), longest);
      PopLevel(m, h, partials, path, pos, longest, after, next, k);
    }
  }

  lemma PopLevel<S, V>(
    m: Model<S, V>, h: seq<Entry<V>>, partials: bool,
    path: seq<int>, pos: nat, longest: Longest, after: Longest, next: nat, k: nat)
    requires WellFormed(h) && Selection(h, path) && k < |path|
    requires Tried(m, h, partials, path[..k], ScanPos(h, path, pos, k), longest)
    requires Improves(longest, after) && Explored(m, h, partials, path, after)
    requires NextOf(h, path[..|path| - 1], CallPos(h, path[|path| - 1]), next)
    ensures Tried(m, h, partials, path[..|path| - 1][..k], ScanPos(h, path[..|path| - 1], next, k), after)
  {
    var top := |path| - 1;
    var q := path[..top];
    assert q[..k] == path[..k];
    if k < top {
      TriedMonotone(m, h, partials, path[..k], ScanPos(h, path, pos, k), longest, after);
    } else {
      assert q[..k] == q && path == q + [path[top]];
      TriedNext(m, h, partials, q, path[top], next, longest, after);
    }
  }

  lemma TriedMonotone<S, V>(
    m: Model<S, V>, h: seq<Entry<V>>, partials: bool, p: seq<int>, pos: nat, before: Longest, after: Longest)
    requires WellFormed(h) && Tried(m, h, partials, p, pos, before) && Improves(before, after)
    ensures Tried(m, h, partials, p, pos, after)
  {
    forall x | 0 <= x < Size(h) && x !in p && CallPos(h, x) < pos
      ensures Explored(m, h, partials, p + [x], after)
    {
      ExploredMonotone(m, h, partials, p + [x], before, after);
    }
  }

  /** Once id itself is explored, everything up to the entry after it has been tried. */
  lemma TriedNext<S, V>(
    m: Model<S, V>, h: seq<Entry<V>>, partials: bool, q: seq<int>, id: int, next: nat, before: Longest, after: Longest)
    requires WellFormed(h) && 0 <= id < Size(h)
    requires Tried(m, h, partials, q, CallPos(h, id), before) && Improves(before, after)
    requires Explored(m, h, partials, q + [id], after) && NextOf(h, q, CallPos(h, id), next)
    ensures Tried(m, h, partials, q, next, after)
  {
    TriedMonotone(m, h, partials, q, CallPos(h, id), before, after);
    forall x | 0 <= x < Size(h) && x !in q && CallPos(h, id) <= CallPos(h, x) < next ensures x == id {
      assert h[CallPos(h, x)].id == x;
    }
  }

  lemma PopPassed<V>(h: seq<Entry<V>>, path: seq<int>, pos: nat, p: seq<int>, next: nat)
    requires path != [] && (p <= path || Passed(h, path, pos, p))
    requires CallPos(h, path[|path| - 1]) < next
    ensures p <= path[..|path| - 1] || Passed(h, path[..|path| - 1], next, p)
  {
    var top := |path| - 1;
    var q := path[..top];
    if p <= path {
      if p == path {
        assert PassedAt(h, q, next, p, top);
      } else {
        assert p <= q;
      }
    } else {
      var k: nat :| PassedAt(h, path, pos, p, k);
      if k <= top {
        assert q[..k] == path[..k];
        assert PassedAt(h, q, next, p, k);
      } else {
        assert p[..top] == p[..k][..top] == q[..top];
        assert p[top] == p[..k][top] == path[top];
        assert PassedAt(h, q, next, p, top);
      }
    }
  }

  /** A return entry with an empty stack: the search is over and found nothing. */
  lemma NothingFound<S(!new), V(!new)>(
    m: Model<S, V>, h: seq<Entry<V>>, partials: bool, exact: bool,
    pos: nat, seen: set<seq<int>>, longest: Longest, a: int)
    requires Inv(m, h, partials, exact, [], pos, seen, longest) && exact
    requires 0 <= a < Size(h) && pos == ReturnPos(h, a)
    ensures !Linearizable(m, h)
    ensures partials ==> forall x | 0 <= x < Size(h) :: Maximal(m, h, x, longest[x])
  {
    ReturnExploresPath(m, h, partials, exact, [], pos, seen, longest, longest, a);
    forall p ensures !IsLinearization(m, h, p) {
      LinearizationIsCompletePartial(m, h, p);
      assert [] <= p;
    }
    if partials {
      forall x, p | 0 <= x < Size(h) && IsPartial(m, h, p) && x in p
        ensures longest[x].Some? && |p| <= |longest[x].value|
      {
        assert [] <= p;
        assert Recorded(longest, p);
      }
    }
  }

  /** An empty list: the path is a linearization, and nothing is longer. */
  lemma AllTaken<S(!new), V(!new)>(m: Model<S, V>, h: seq<Entry<V>>, path: seq<int>)
    requires WellFormed(h) && IsPartial(m, h, path)
    requires forall p | 0 <= p < |h| :: h[p].id in path
    ensures IsLinearization(m, h, path) && Linearizable(m, h)
    ensures forall x | 0 <= x < Size(h) :: Maximal(m, h, x, Some(path))
  {
    forall id | 0 <= id < Size(h) ensures id in path {
      assert h[CallPos(h, id)].id == id;
    }
    LinearizationIsCompletePartial(m, h, path);
    forall p | IsPartial(m, h, p) ensures |p| <= |path| {
      NoDupCard(p);
      NoDupCard(path);
      SubsetCard(Elements(p), Elements(path));
    }
  }
}
