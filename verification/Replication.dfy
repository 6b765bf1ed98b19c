/**
  A leader bringing one follower up to date (src/raft/repl.go): a binary search for the
  last index the two logs have in common, then one append of everything behind it.
  The leader's log does not change meanwhile, and the follower answers every request.
 */
module Replication {
  import opened Options
  import opened Words
  import opened LogSpec
  import opened Logs

  lemma SameBelow(leader: seq<LogEntry>, follower: seq<LogEntry>, m: int, k: int)
    requires SameUpTo(leader, follower, m) && 0 <= k <= m
    ensures SameUpTo(leader, follower, k)
  {
    assert leader[..k + 1] == leader[..m + 1][..k + 1];
    assert follower[..k + 1] == follower[..m + 1][..k + 1];
  }

  /** What a leader may rely on: log matching, and that it has what the follower has committed. */
  ghost predicate Compatible(leader: Logs, follower: Logs)
    reads leader, follower
  {
    && leader.Valid()
    && follower.Valid()
    && leader != follower
    && LogMatching(leader.full, follower.full)
    && HoldsCommitted(leader.full, follower.Abs())
  }

  /** The lowest index the search looks at: the snapshot's last, or 0. */
  ghost function Lowest(leader: Logs): int
    reads leader
  {
    if leader.snapshot.Some? then leader.offset - 1 else 0
  }

  /** One round of the search: does the follower have the leader's entry at m? */
  method Query(leader: Logs, follower: Logs, m: int) returns (same: bool)
    requires Compatible(leader, follower) && Lowest(leader) <= m < |leader.full|
    ensures same <==> SameUpTo(leader.full, follower.full, m)
  {
    var mTerm, ok := leader.TryIndexLogTerm(m);
    QueryMeansSamePrefix(leader.full, follower.Abs(), m);
    var status := follower.FollowerAppendEntries(LogInfo(m, mTerm), []);
    same := status == Match;
  }

  /** next is one more than the last common index from lowest on, or 0 when there is none. */
  ghost predicate IsNextIndex(leader: seq<LogEntry>, follower: seq<LogEntry>, lowest: int, next: int) {
    && (next == 0 || (lowest < next && SameUpTo(leader, follower, next - 1)))
    && forall m | lowest <= m < |leader| && next <= m :: !SameUpTo(leader, follower, m)
  }

  /**
    matchIndex.  The number of queries is at most one more than the binary logarithm of the
    number of candidates.
   */
  method MatchIndex(leader: Logs, follower: Logs) returns (nextIndex: nat, queries: nat)
    requires Compatible(leader, follower)
    ensures IsNextIndex(leader.full, follower.full, Lowest(leader), nextIndex)
    ensures queries > 0 ==> Pow2(queries - 1) <= |leader.full| - Lowest(leader)
  {
    var prevLogIndex := -1;
    var l := if leader.snapshot.Some? then leader.snapshot.value.lastIncludeIndex else 0;
    var r := leader.lli;
    queries := 0;
    assert l == Lowest(leader) && r == |leader.full| - 1;
    while l <= r
      invariant Searching(leader.full, follower.full, Lowest(leader), l, r, prevLogIndex, queries)
      decreases r - l
    {
      l, r, prevLogIndex, queries := Probe(leader, follower, l, r, prevLogIndex, queries);
    }
    SearchOver(leader.full, follower.full, Lowest(leader), l, r, prevLogIndex, queries);
    nextIndex := prevLogIndex + 1;
  }

  /** Nothing is left to search: prev is the last common index. */
  lemma SearchOver(leader: seq<LogEntry>, follower: seq<LogEntry>, lowest: int, l: int, r: int, prev: int, q: nat)
    requires Searching(leader, follower, lowest, l, r, prev, q) && l > r
    ensures prev >= -1 && IsNextIndex(leader, follower, lowest, prev + 1)
    ensures q > 0 ==> Pow2(q - 1) <= |leader| - lowest
  {
    if q > 0 { CheapIsLogarithmic(q, r - l + 1, |leader| - lowest); }
  }

  /** The body of the search loop. */
  method Probe(leader: Logs, follower: Logs, l: int, r: int, prevLogIndex: int, queries: nat)
    returns (l': int, r': int, prevLogIndex': int, queries': nat)
    requires Compatible(leader, follower) && l <= r
    requires Searching(leader.full, follower.full, Lowest(leader), l, r, prevLogIndex, queries)
    ensures r' - l' < r - l
    ensures Searching(leader.full, follower.full, Lowest(leader), l', r', prevLogIndex', queries')
  {
    var m := l + (r - l) / 2;
    var same := Query(leader, follower, m);
    if same {
      NarrowRight(leader.full, follower.full, Lowest(leader), l, r, prevLogIndex, queries, m);
      return m + 1, r, m, queries + 1;
    }
    NarrowLeft(leader.full, follower.full, Lowest(leader), l, r, prevLogIndex, queries, m);
    return l, m - 1, prevLogIndex, queries + 1;
  }

  /** Where the search stands after q queries. */
  ghost predicate Searching(leader: seq<LogEntry>, follower: seq<LogEntry>, lowest: int, l: int, r: int, prev: int, q: nat) {
    Narrowed(leader, follower, lowest, l, r, prev) && Cheap(q, r - l + 1, |leader| - lowest)
  }

  /** Below l the logs agree, above r they differ; prev is the last index known to agree. */
  ghost predicate Narrowed(leader: seq<LogEntry>, follower: seq<LogEntry>, lowest: int, l: int, r: int, prev: int) {
    && 0 <= lowest <= l <= r + 1 <= |leader|
    && (if l == lowest then prev == -1 else prev == l - 1 && SameUpTo(leader, follower, prev))
    && forall m | r < m < |leader| :: !SameUpTo(leader, follower, m)
  }

  /** The logs agree at the middle: go on to the right of it. */
  lemma NarrowRight(
    leader: seq<LogEntry>, follower: seq<LogEntry>, lowest: int, l: int, r: int, prev: int, q: nat, m: int)
    requires Searching(leader, follower, lowest, l, r, prev, q) && l <= r && m == l + (r - l) / 2
    requires SameUpTo(leader, follower, m)
    ensures Searching(leader, follower, lowest, m + 1, r, m, q + 1)
  {
    Halved(q, r - l + 1, m - l, r - m, |leader| - lowest);
  }

  /** They differ there: go on to the left of it. */
  lemma NarrowLeft(
    leader: seq<LogEntry>, follower: seq<LogEntry>, lowest: int, l: int, r: int, prev: int, q: nat, m: int)
    requires Searching(leader, follower, lowest, l, r, prev, q) && l <= r && m == l + (r - l) / 2
    requires !SameUpTo(leader, follower, m)
    ensures Searching(leader, follower, lowest, l, m - 1, prev, q + 1)
  {
    Halved(q, r - l + 1, m - l, r - m, |leader| - lowest);
    forall k | m <= k < |leader| ensures !SameUpTo(leader, follower, k) {
      if SameUpTo(leader, follower, k) { SameBelow(leader, follower, k, m); }
    }
  }

  /** n halved q times. */
  ghost function Halves(n: nat, q: nat): nat {
    if q == 0 then n else Halves(n, q - 1) / 2
  }

  /** After q queries about n candidates, no more than size of them are left. */
  ghost predicate Cheap(q: nat, size: int, n: int) {
    n >= 0 && size <= Halves(n, q) && (q > 0 ==> Halves(n, q - 1) >= 1)
  }

  /** Each query leaves at most half of the candidates. */
  lemma Halved(q: nat, size: nat, left: nat, right: nat, n: int)
    requires size > 0 && left == (size - 1) / 2 && right == size - 1 - left
    requires Cheap(q, size, n)
    ensures Cheap(q + 1, left, n) && Cheap(q + 1, right, n)
  {
  }

  lemma {:induction false} HalvesBound(n: nat, q: nat)
    requires Halves(n, q) >= 1
    ensures Pow2(q) * Halves(n, q) <= n
  {
    if q > 0 {
      HalvesBound(n, q - 1);
      var h := Halves(n, q - 1);
      assert Pow2(q - 1) * (2 * (h / 2)) <= Pow2(q - 1) * h;
    }
  }

  /** Logarithmically many queries. */
  lemma CheapIsLogarithmic(q: nat, size: int, n: int)
    requires Cheap(q, size, n) && q > 0
    ensures Pow2(q - 1) <= n
  {
    HalvesBound(n, q - 1);
    var h := Halves(n, q - 1);
    assert Pow2(q - 1) * 1 <= Pow2(q - 1) * h;
  }

  /** The search never stops short of what the follower has committed. */
  lemma NextCoversCommitted(leader: seq<LogEntry>, follower: AbsLog, lowest: int, next: nat, offset: nat)
    requires Inv(follower) && HoldsCommitted(leader, follower)
    requires lowest == if offset > 0 then offset - 1 else 0
    requires IsNextIndex(leader, follower.log, lowest, next) && offset <= next
    ensures follower.committed < next
  {
    if 0 <= follower.committed {
      assert SameUpTo(leader, follower.log, follower.committed);
    }
  }

  /**
    matchIndex followed by one append, with which the follower learns how far the leader has
    committed.  Unless the snapshot has to be sent, the leader's log is a prefix of the follower's
    afterwards, what is confirmed is what the follower holds, the follower has committed whatever
    it or the leader had, and the leader may rely on it as before.
   */
  method CatchUp(leader: Logs, follower: Logs)
    returns (snap: Option<Snapshot>, startIndex: nat, endIndex: nat)
    requires Compatible(leader, follower)
    modifies follower
    ensures snap.Some? ==> unchanged(follower) && startIndex < leader.offset && endIndex == startIndex
    ensures snap.None? ==> leader.full <= follower.full && startIndex <= endIndex == |leader.full|
    ensures snap.None? && startIndex < endIndex ==> follower.full == leader.full
    ensures snap.None? ==> follower.lci == if old(follower.lci) < leader.lci then leader.lci else old(follower.lci)
    ensures Compatible(leader, follower)
  {
    var queries;
    startIndex, queries := MatchIndex(leader, follower);
    var send;
    ghost var before := follower.Abs();
    NextInLog(leader.full, follower.full, Lowest(leader), startIndex);
    snap, send := leader.EntriesAfter(startIndex);
    if snap.Some? {
      return snap, startIndex, startIndex;
    }
    NextCoversCommitted(leader.full, before, Lowest(leader), startIndex, leader.offset);
    endIndex := startIndex + |send.value.entries|;
    AppendRest(leader, follower, startIndex, send.value);
  }

  /** What a follower does with the entries behind a common prefix, and with the leader's commit index. */
  method AppendRest(leader: Logs, follower: Logs, next: nat, send: SendEntries)
    requires Compatible(leader, follower) && follower.lci < next <= |leader.full| && next <= |follower.full|
    requires leader.full[..next] == follower.full[..next]
    requires send == SendEntries(leader.full[next..], PrevOf(leader.full, next))
    modifies follower
    ensures Compatible(leader, follower) && leader.full <= follower.full
    ensures next < |leader.full| ==> follower.full == leader.full
    ensures follower.lci == if old(follower.lci) < leader.lci then leader.lci else old(follower.lci)
  {
    ghost var before := follower.Abs();
    Appended(leader.full, before, next);
    Committed(leader.full, leader.lci, Step(before, Append(send.prevLogInfo, send.entries)));
    var status := follower.FollowerAppendEntries(send.prevLogInfo, send.entries);
    if status == Match {
      follower.UpdateCommit(leader.lci);
    }
  }

  /** The same on values: the append ... */
  lemma Appended(leader: seq<LogEntry>, f: AbsLog, next: nat)
    requires Inv(f) && f.committed < next <= |leader| && next <= |f.log| && leader[..next] == f.log[..next]
    ensures PrevMatches(f, PrevOf(leader, next))
    ensures var t := Step(f, Append(PrevOf(leader, next), leader[next..]));
            && Inv(t) && leader <= t.log && (next < |leader| ==> t.log == leader) && t.committed == f.committed
  {
    MatchesPrev(leader, f, next);
    AppendAgrees(leader, f, next);
    StepInv(f, Append(PrevOf(leader, next), leader[next..]));
  }

  /** ... and then the commit. */
  lemma Committed(leader: seq<LogEntry>, leaderCommit: int, f: AbsLog)
    requires Inv(f) && leader <= f.log && f.committed < |leader| && leaderCommit < |leader|
    ensures var t := Step(f, Commit(leaderCommit));
            && Inv(t) && t.log == f.log && LogMatching(leader, t.log) && HoldsCommitted(leader, t)
            && t.committed == if f.committed < leaderCommit then leaderCommit else f.committed
  {
    StepInv(f, Commit(leaderCommit));
    PrefixIsCompatible(leader, Step(f, Commit(leaderCommit)));
  }

  lemma MatchesPrev(leader: seq<LogEntry>, follower: AbsLog, next: nat)
    requires next <= |leader| && next <= |follower.log| && leader[..next] == follower.log[..next]
    ensures PrevMatches(follower, PrevOf(leader, next))
  {
    if next > 0 {
      assert leader[..next][next - 1] == follower.log[..next][next - 1];
    }
  }

  /** A follower whose log continues the leader's, and has committed no more than the leader has, is one to rely on. */
  lemma PrefixIsCompatible(leader: seq<LogEntry>, follower: AbsLog)
    requires Inv(follower) && leader <= follower.log && follower.committed < |leader|
    ensures LogMatching(leader, follower.log) && HoldsCommitted(leader, follower)
  {
    forall m | 0 <= m < |leader| ensures SameUpTo(leader, follower.log, m) {
      assert leader[..m + 1] == follower.log[..|leader|][..m + 1] == follower.log[..m + 1];
    }
    assert leader[..follower.committed + 1] == follower.log[..|leader|][..follower.committed + 1];
  }

  lemma NextInLog(leader: seq<LogEntry>, follower: seq<LogEntry>, lowest: int, next: nat)
    requires IsNextIndex(leader, follower, lowest, next)
    ensures next <= |leader| && next <= |follower| && leader[..next] == follower[..next]
  {
  }
}
