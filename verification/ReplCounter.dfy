/**
  The replication counter of src/raft/repl.go: for every index the leader watches,
  which peers hold it; indexes are committed in order, by majority.
 */
module ReplCounter {
  import opened Options
  import opened Collections
  import opened BitVec

  // ---- the counter as a value

  datatype Watched = Watched(index: int, acks: set<nat>)

  /** Peer holds the indexes from start up to, not including, end. */
  function Acked(ws: seq<Watched>, peer: nat, start: int, end: int): seq<Watched> {
    seq(|ws|, k requires 0 <= k < |ws| =>
      if start <= ws[k].index < end then ws[k].(acks := ws[k].acks + {peer}) else ws[k])
  }

  /** How many watched indexes, from the first on, a majority holds. */
  function Ready(ws: seq<Watched>, majority: int): (i: nat)
    ensures i <= |ws|
    ensures forall k | 0 <= k < i :: |ws[k].acks| >= majority
    ensures i < |ws| ==> |ws[i].acks| < majority
  {
    ReadyFrom(ws, majority, 0)
  }

  function ReadyFrom(ws: seq<Watched>, majority: int, from: nat): (i: nat)
    requires from <= |ws| && forall k | 0 <= k < from :: |ws[k].acks| >= majority
    ensures from <= i <= |ws|
    ensures forall k | 0 <= k < i :: |ws[k].acks| >= majority
    ensures i < |ws| ==> |ws[i].acks| < majority
    decreases |ws| - from
  {
    if from < |ws| && |ws[from].acks| >= majority then ReadyFrom(ws, majority, from + 1) else from
  }

  lemma ReadyUnique(ws: seq<Watched>, majority: int, i: nat)
    requires i <= |ws|
    requires forall k | 0 <= k < i :: |ws[k].acks| >= majority
    requires i < |ws| ==> |ws[i].acks| < majority
    ensures i == Ready(ws, majority)
  {
  }

  /** The index to commit, if there is one. */
  function CommitIndex(ws: seq<Watched>, majority: int): Option<int> {
    var i := Ready(ws, majority);
    if i > 0 then Some(ws[i - 1].index) else None
  }

  // ---- the counter as the leader keeps it

  datatype ReplEntry = ReplEntry(bitVec: BitVec, index: int)

  class ReplCounter {
    const peers: nat
    const me: nat
    const majorN: int
    var entries: seq<ReplEntry>
    ghost var Repr: set<object>  // the bit vectors and their bytes

    /** Entry k has a bit vector of its own. */
    ghost predicate Owned(k: nat)
      requires k < |entries|
      reads this, Repr
    {
      var v := entries[k].bitVec;
      v in Repr && v.bits in Repr && v.Valid() && v.cap == peers
    }

    ghost predicate Separate()
      reads this
    {
      forall i, j | 0 <= i < j < |entries| ::
        entries[i].bitVec != entries[j].bitVec && entries[i].bitVec.bits != entries[j].bitVec.bits
    }

    ghost predicate Valid()
      reads this, Repr
    {
      && this !in Repr
      && me < peers
      && majorN == peers / 2 + 1
      && Separate()
      && (forall k | 0 <= k < |entries| :: Owned(k))
      && (forall k | 0 <= k < |entries| :: entries[k].index == entries[0].index + k)
    }

    ghost function WatchedAt(k: nat): Watched
      requires k < |entries| && Owned(k)
      reads this, Repr
    {
      Watched(entries[k].index, entries[k].bitVec.Positions())
    }

    ghost function Abs(): (ws: seq<Watched>)
      requires Valid()
      reads this, Repr
      ensures |ws| == |entries| && forall k | 0 <= k < |ws| :: ws[k] == WatchedAt(k)
    {
      seq(|entries|, k requires 0 <= k < |entries| && Valid() reads this, Repr => WatchedAt(k))
    }

    constructor (peers: nat, me: nat)
      requires me < peers
      ensures Valid() && fresh(Repr) && Abs() == [] && this.peers == peers && this.me == me
    {
      this.peers := peers;
      this.me := me;
      this.majorN := peers / 2 + 1;
      entries := [];
      Repr := {};
    }

    /** watchIndex: indexes are watched in order, each confirmed by the leader itself at once. */
    method WatchIndex(idx: int)
      requires Valid() && (Abs() == [] || idx == Abs()[|Abs()| - 1].index + 1)
      modifies this
      ensures Valid() && fresh(Repr - old(Repr))
      ensures Abs() == old(Abs()) + [Watched(idx, {me})]
    {
      var bitVec := new BitVec(peers);
      var _ := bitVec.Set(me);
      entries := entries + [ReplEntry(bitVec, idx)];
      Repr := Repr + {bitVec, bitVec.bits};
      forall k | 0 <= k < |entries| ensures Owned(k) {
        if k < |entries| - 1 { assert old(Owned(k)); }
      }
      forall k | 0 <= k < |entries| - 1 ensures WatchedAt(k) == old(WatchedAt(k)) {
        assert old(Owned(k));
      }
    }

    /** One bit: the other watched indexes are not touched. */
    method MarkOne(offset: nat, peerId: nat)
      requires Valid() && peerId < peers && offset < |entries|
      modifies Repr
      ensures Valid() && entries == old(entries) && Repr == old(Repr)
      ensures Abs() == old(Abs())[offset := old(Abs())[offset].(acks := old(Abs())[offset].acks + {peerId})]
    {
      assert Owned(offset);
      var _ := entries[offset].bitVec.Set(peerId);
      forall k | 0 <= k < |entries| && k != offset ensures Owned(k) && WatchedAt(k) == old(WatchedAt(k)) {
        assert old(Owned(k));
      }
      assert Owned(offset);
    }

    /** confirm, first loop: set the peer's bit in the watched part of [startIdx, endIdx). */
    method MarkConfirmed(peerId: nat, startIdx: int, endIdx: int)
      requires Valid() && peerId < peers && |entries| > 0
      requires endIdx - entries[0].index <= |entries|
      modifies Repr
      ensures Valid() && entries == old(entries) && Repr == old(Repr)
      ensures Abs() == Acked(old(Abs()), peerId, startIdx, endIdx)
    {
      ghost var before := Abs();
      var baseIndex := entries[0].index;
      var endOffset := endIdx - baseIndex;
      var offset := if startIdx - baseIndex >= 0 then startIdx - baseIndex else 0;
      while offset < endOffset
        invariant 0 <= offset && Valid() && entries == old(entries) && Repr == old(Repr)
        invariant Abs() == AckedUpTo(before, peerId, startIdx, endIdx, offset)
      {
        MarkOne(offset, peerId);
        offset := offset + 1;
      }
    }

    /** How many peers hold watched index i. */
    method CountAt(i: nat) returns (n: int)
      requires Valid() && i < |entries|
      ensures n == |Abs()[i].acks|
    {
      assert Owned(i) && Abs()[i] == WatchedAt(i);
      n := entries[i].bitVec.Count();
    }

    /** confirm, second loop: how many indexes from the first on have a majority. */
    method CountReady() returns (i: nat, commit: Option<int>)
      requires Valid()
      ensures i == Ready(Abs(), majorN) && commit == CommitIndex(Abs(), majorN)
    {
      i := 0;
      var n := |entries|;
      ghost var ws := Abs();
      while i < n
        invariant 0 <= i <= n
        invariant forall k | 0 <= k < i :: |ws[k].acks| >= majorN
      {
        var c := CountAt(i);
        if c < majorN {
          break;
        }
        i := i + 1;
      }
      ReadyUnique(ws, majorN, i);
      commit := None;
      if i > 0 {
        assert ws[i - 1] == WatchedAt(i - 1);
        commit := Some(entries[i - 1].index);
      }
    }

    /** confirm: count the peer, then commit and forget everything a majority holds. */
    method Confirm(peerId: nat, startIdx: int, endIdx: int) returns (commit: Option<int>)
      requires Valid() && peerId < peers
      requires Abs() != [] ==> endIdx <= Abs()[|Abs()| - 1].index + 1
      modifies this, Repr
      ensures Valid() && Repr == old(Repr)
      ensures var acked := Acked(old(Abs()), peerId, startIdx, endIdx);
              Abs() == acked[Ready(acked, majorN)..] && commit == CommitIndex(acked, majorN)
    {
      if |entries| == 0 {
        return None;
      }
      LastIndex();
      MarkConfirmed(peerId, startIdx, endIdx);
      var i;
      i, commit := CountReady();
      DropFirst(i);
    }

    lemma LastIndex()
      requires Valid() && |entries| > 0
      ensures Abs()[|entries| - 1].index == entries[0].index + |entries| - 1
    {
      assert Abs()[|entries| - 1] == WatchedAt(|entries| - 1);
    }

    /** Stop watching the first i indexes. */
    method DropFirst(i: nat)
      requires Valid() && i <= |entries|
      modifies this
      ensures Valid() && Repr == old(Repr) && Abs() == old(Abs())[i..]
    {
      ghost var before := Abs();
      entries := entries[i..];
      forall k | 0 <= k < |entries| ensures Owned(k) && WatchedAt(k) == before[i + k] {
        assert old(Owned(i + k)) && before[i + k] == old(WatchedAt(i + k));
      }
    }
  }

  /** Acked for the first k watched indexes only. */
  ghost function AckedUpTo(ws: seq<Watched>, peer: nat, start: int, end: int, k: nat): seq<Watched> {
    seq(|ws|, i requires 0 <= i < |ws| =>
      if start <= ws[i].index < end && i < k then ws[i].(acks := ws[i].acks + {peer}) else ws[i])
  }
}
