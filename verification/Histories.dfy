/**
  Histories of calls and returns, sequential models, and what it means for a
  history to be linearizable (src/porcupine/model.go, src/porcupine/checker.go).
 */
module Histories {
  import opened Options
  import opened Collections

  datatype Kind = Call | Return

  // The entry struct: one end of an operation.  Both ends carry the operation's id.
  datatype Entry<V> = Entry(kind: Kind, value: V, id: int, time: int, clientId: int)

  // The part of porcupine.Model that the search uses.
  datatype Model<!S, !V> = Model(init: S, step: (S, V, V) -> (bool, S), equal: (S, S) -> bool)

  /** The number of operations of a history (two entries each). */
  function Size<V>(h: seq<Entry<V>>): nat {
    |h| / 2
  }

  /** A position of an entry with the given kind and id; |h| when there is none. */
  ghost function Find<V>(h: seq<Entry<V>>, kind: Kind, id: int): (p: nat)
    ensures p <= |h|
    ensures p < |h| ==> h[p].kind == kind && h[p].id == id
    ensures p == |h| ==> forall q | 0 <= q < |h| :: !(h[q].kind == kind && h[q].id == id)
  {
    if exists q :: 0 <= q < |h| && h[q].kind == kind && h[q].id == id
    then var q :| 0 <= q < |h| && h[q].kind == kind && h[q].id == id; q
    else |h|
  }

  ghost function CallPos<V>(h: seq<Entry<V>>, id: int): nat {
    Find(h, Call, id)
  }

  ghost function ReturnPos<V>(h: seq<Entry<V>>, id: int): nat {
    Find(h, Return, id)
  }

  /**
    Ids are 0..n-1, every entry is the only one of its kind and id, and each id has
    a call and, at a later position, a return.
   */
  ghost predicate WellFormed<V>(h: seq<Entry<V>>) {
    && (forall p | 0 <= p < |h| :: 0 <= h[p].id < Size(h) && p == Find(h, h[p].kind, h[p].id))
    && (forall id | 0 <= id < Size(h) :: CallPos(h, id) < ReturnPos(h, id) < |h|)
  }

  /** Operation a returned before operation b was called. */
  ghost predicate Before<V>(h: seq<Entry<V>>, a: int, b: int) {
    ReturnPos(h, a) < CallPos(h, b)
  }

  /** p names operations of h, none of them twice. */
  ghost predicate Selection<V>(h: seq<Entry<V>>, p: seq<int>) {
    NoDup(p) && forall i | 0 <= i < |p| :: 0 <= p[i] < Size(h)
  }

  /** p leaves no operation of h out. */
  ghost predicate Covers<V>(h: seq<Entry<V>>, p: seq<int>) {
    forall id | 0 <= id < Size(h) :: id in p
  }

  /** One step of the model on the input and the output of operation id. */
  ghost function StepOp<S, V>(m: Model<S, V>, h: seq<Entry<V>>, s: S, id: int): (bool, S)
    requires WellFormed(h) && 0 <= id < Size(h)
  {
    m.step(s, h[CallPos(h, id)].value, h[ReturnPos(h, id)].value)
  }

  /** The state after executing p from state s, or None when the model refuses a step. */
  ghost function Replay<S, V>(m: Model<S, V>, h: seq<Entry<V>>, s: S, p: seq<int>): Option<S>
    requires WellFormed(h) && Selection(h, p)
  {
    if p == [] then Some(s)
    else
      var before := Replay(m, h, s, p[..|p| - 1]);
      if before.None? then None
      else
        var (ok, next) := StepOp(m, h, before.value, p[|p| - 1]);
        if ok then Some(next) else None
  }

  /**
    A linearization: every operation once, no operation ordered after one that
    was called only after it had returned, and every step accepted from Init.
   */
  ghost predicate IsLinearization<S, V>(m: Model<S, V>, h: seq<Entry<V>>, p: seq<int>)
    requires WellFormed(h)
  {
    && Selection(h, p)
    && Covers(h, p)
    && (forall i, j | 0 <= i < j < |p| :: !Before(h, p[j], p[i]))
    && Replay(m, h, m.init, p).Some?
  }

  ghost predicate Linearizable<S, V>(m: Model<S, V>, h: seq<Entry<V>>)
    requires WellFormed(h)
  {
    exists p :: IsLinearization(m, h, p)
  }

  /**
    A partial linearization: some operations, each taken only after everything
    that must precede it, with every step accepted from Init.
   */
  ghost predicate IsPartial<S, V>(m: Model<S, V>, h: seq<Entry<V>>, p: seq<int>)
    requires WellFormed(h)
  {
    && Selection(h, p)
    && (forall i, a | 0 <= i < |p| && 0 <= a < Size(h) && Before(h, a, p[i]) :: a in p[..i])
    && Replay(m, h, m.init, p).Some?
  }

  /** Accepting from a state implies accepting from every state the model calls equal to it. */
  ghost predicate EqualSimulates<S(!new), V(!new)>(m: Model<S, V>) {
    forall s, t, i, o | m.equal(s, t) && m.step(s, i, o).0 ::
      m.step(t, i, o).0 && m.equal(m.step(s, i, o).1, m.step(t, i, o).1)
  }

  /** The state a partial linearization leads to. */
  ghost function Final<S, V>(m: Model<S, V>, h: seq<Entry<V>>, p: seq<int>): S
    requires WellFormed(h) && IsPartial(m, h, p)
  {
    Replay(m, h, m.init, p).value
  }

  /** Everything that must precede id has been taken, and id itself has not. */
  ghost predicate Ready<V>(h: seq<Entry<V>>, p: seq<int>, id: int) {
    && 0 <= id < Size(h)
    && id !in p
    && forall a | 0 <= a < Size(h) && Before(h, a, id) :: a in p
  }

  /** A partial linearization grows by exactly the ready operations the model accepts. */
  lemma PartialSnoc<S, V>(m: Model<S, V>, h: seq<Entry<V>>, p: seq<int>, id: int)
    requires WellFormed(h)
    ensures IsPartial(m, h, p + [id]) <==>
            IsPartial(m, h, p) && Ready(h, p, id) && StepOp(m, h, Final(m, h, p), id).0
    ensures IsPartial(m, h, p + [id]) ==>
            Final(m, h, p + [id]) == StepOp(m, h, Final(m, h, p), id).1
  {
    var q := p + [id];
    assert q[..|p|] == p;
    if IsPartial(m, h, q) {
      forall i | 0 <= i < |p| ensures q[i] == p[i] && q[..i] == p[..i] {}
      assert q[|p|] == id;
    }
    if IsPartial(m, h, p) && Ready(h, p, id) {
      forall i | 0 <= i < |p| ensures q[i] == p[i] && q[..i] == p[..i] {}
      assert Selection(h, q);
    }
  }

  lemma {:induction false} PartialPrefix<S, V>(m: Model<S, V>, h: seq<Entry<V>>, p: seq<int>, k: nat)
    requires WellFormed(h) && IsPartial(m, h, p) && k <= |p|
    ensures IsPartial(m, h, p[..k])
    decreases |p|
  {
    if k < |p| {
      assert p == p[..|p| - 1] + [p[|p| - 1]];
      PartialSnoc(m, h, p[..|p| - 1], p[|p| - 1]);
      assert p[..|p| - 1][..k] == p[..k];
      PartialPrefix(m, h, p[..|p| - 1], k);
    } else {
      assert p[..k] == p;
    }
  }

  /** On complete orders, the prefix-closed definition is exactly real-time order. */
  lemma LinearizationIsCompletePartial<S, V>(m: Model<S, V>, h: seq<Entry<V>>, p: seq<int>)
    requires WellFormed(h)
    ensures IsLinearization(m, h, p) <==> IsPartial(m, h, p) && Covers(h, p)
  {
    if IsLinearization(m, h, p) {
      forall i, a | 0 <= i < |p| && 0 <= a < Size(h) && Before(h, a, p[i]) ensures a in p[..i] {
        assert a in p;
        var j :| 0 <= j < |p| && p[j] == a;
        assert p[..i][j] == a;
      }
    }
    if IsPartial(m, h, p) {
      forall i, j | 0 <= i < j < |p| ensures !Before(h, p[j], p[i]) {
        assert p[j] !in p[..i];
      }
    }
  }
}
