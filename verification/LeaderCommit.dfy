/**
  A leader from the moment it is activated (src/raft/leader.go, src/raft/repl.go): it
  appends a no-op of its own term, watches it and every command after it, and
  commits what the replication counter tells it to.
 */
module LeaderCommit {
  import opened Options
  import opened Collections
  import opened ReplCounter

  datatype Cluster = Cluster(peers: nat, me: nat)

  function Majority(c: Cluster): int {
    c.peers / 2 + 1
  }

  // StartCommandEvent, and ReplConfirmEvent for the indexes [start, end)
  datatype Event = Start | Confirmed(peer: nat, start: int, end: int)

  // log holds the terms of the leader's log; committed is the greatest index passed to
  // updateCommit, or noop - 1; seen is every event processed so far.
  datatype Leader = Leader(
    term: int, noop: nat, log: seq<int>, ws: seq<Watched>, committed: int, seen: seq<Event>)

  /** activate: the no-op goes to the end of whatever log there is, and is watched. */
  function Activate(c: Cluster, term: int, log: seq<int>): Leader {
    Leader(term, |log|, log + [term], [Watched(|log|, {c.me})], |log| - 1, [])
  }

  /** A confirm is about entries of the leader's log, by one of the other peers. */
  predicate Possible(c: Cluster, s: Leader, ev: Event) {
    ev.Confirmed? ==> ev.peer < c.peers && ev.peer != c.me && ev.end <= |s.log|
  }

  function Process(c: Cluster, s: Leader, ev: Event): Leader {
    match ev
    case Start =>
      s.(log := s.log + [s.term], ws := s.ws + [Watched(|s.log|, {c.me})], seen := s.seen + [ev])
    case Confirmed(peer, start, end) =>
      var acked := Acked(s.ws, peer, start, end);
      var commit := CommitIndex(acked, Majority(c));
      s.(ws := acked[Ready(acked, Majority(c))..],
         committed := if commit.Some? then commit.value else s.committed,
         seen := s.seen + [ev])
  }

  ghost predicate IsRun(c: Cluster, term: int, log: seq<int>, events: seq<Event>, run: seq<Leader>) {
    && c.me < c.peers
    && |run| == |events| + 1
    && run[0] == Activate(c, term, log)
    && forall k | 0 <= k < |events| :: StepAt(c, events, run, k)
  }

  ghost predicate StepAt(c: Cluster, events: seq<Event>, run: seq<Leader>, k: nat)
    requires k < |events| && |run| == |events| + 1
  {
    Possible(c, run[k], events[k]) && run[k + 1] == Process(c, run[k], events[k])
  }

  // ---- who holds an index

  ghost predicate Covers(ev: Event, peer: nat, idx: int) {
    ev.Confirmed? && ev.peer == peer && ev.start <= idx < ev.end
  }

  ghost predicate Confirmer(seen: seq<Event>, peer: nat, idx: int) {
    exists j :: 0 <= j < |seen| && Covers(seen[j], peer, idx)
  }

  ghost predicate Holds(c: Cluster, seen: seq<Event>, peer: nat, idx: int) {
    peer == c.me || Confirmer(seen, peer, idx)
  }

  /** The leader itself and everybody who has confirmed idx. */
  ghost function Holders(c: Cluster, seen: seq<Event>, idx: int): set<nat> {
    set p: nat | p < c.peers && Holds(c, seen, p, idx)
  }

  lemma HoldersSnoc(c: Cluster, seen: seq<Event>, ev: Event, idx: int)
    ensures Holders(c, seen + [ev], idx) ==
            if ev.Confirmed? && ev.peer < c.peers && ev.start <= idx < ev.end
            then Holders(c, seen, idx) + {ev.peer} else Holders(c, seen, idx)
  {
    var more := seen + [ev];
    forall p: nat ensures Holds(c, more, p, idx) <==> Holds(c, seen, p, idx) || Covers(ev, p, idx) {
      if Confirmer(seen, p, idx) {
        var j :| 0 <= j < |seen| && Covers(seen[j], p, idx);
        assert Covers(more[j], p, idx);
      }
      if Covers(ev, p, idx) { assert Covers(more[|seen|], p, idx); }
    }
  }

  // ---- the invariant

  /** More than half of the cluster holds idx. */
  ghost predicate HasMajority(c: Cluster, seen: seq<Event>, idx: int) {
    2 * |Holders(c, seen, idx)| > c.peers
  }

  /** Two sets of peers of which each is more than half of the cluster have a peer in common. */
  lemma MajoritiesMeet(c: Cluster, a: set<nat>, b: set<nat>)
    requires (forall p | p in a + b :: p < c.peers) && 2 * |a| > c.peers && 2 * |b| > c.peers
    ensures a * b != {}
  {
    if a * b == {} {
      assert |a + b| == |a| + |b|;
      SubsetCard<int>(a + b, UpTo(c.peers));
    }
  }

  /** Exactly the indexes after committed are watched, each with exactly its holders. */
  ghost predicate WatchInv(c: Cluster, ws: seq<Watched>, seen: seq<Event>, committed: int, len: nat) {
    && |ws| == len - 1 - committed
    && forall k | 0 <= k < |ws| :: ws[k].index == committed + 1 + k && ws[k].acks == Holders(c, seen, ws[k].index)
  }

  ghost predicate CommittedInv(c: Cluster, seen: seq<Event>, noop: int, committed: int) {
    forall i | noop <= i <= committed :: HasMajority(c, seen, i)
  }

  /** Nothing is held back. */
  ghost predicate PromptInv(c: Cluster, seen: seq<Event>, committed: int, len: nat) {
    c.peers >= 2 && committed + 1 < len ==> !HasMajority(c, seen, committed + 1)
  }

  ghost predicate EndsWithin(seen: seq<Event>, len: nat) {
    forall j | 0 <= j < |seen| && seen[j].Confirmed? :: seen[j].end <= len
  }

  ghost predicate Inv(c: Cluster, s: Leader) {
    && c.me < c.peers
    && s.noop - 1 <= s.committed < |s.log|
    && (forall i | s.noop <= i < |s.log| :: s.log[i] == s.term)
    && EndsWithin(s.seen, |s.log|)
    && WatchInv(c, s.ws, s.seen, s.committed, |s.log|)
    && CommittedInv(c, s.seen, s.noop, s.committed)
    && PromptInv(c, s.seen, s.committed, |s.log|)
  }

  lemma NobodyYet(c: Cluster, seen: seq<Event>, idx: nat)
    requires c.me < c.peers && EndsWithin(seen, idx)
    ensures Holders(c, seen, idx) == {c.me}
  {
    forall p: nat ensures !Confirmer(seen, p, idx) {}
  }

  lemma ActivateInv(c: Cluster, term: int, log: seq<int>)
    requires c.me < c.peers
    ensures Inv(c, Activate(c, term, log))
  {
    NobodyYet(c, [], |log|);
  }

  lemma StartInv(c: Cluster, s: Leader)
    requires Inv(c, s)
    ensures Inv(c, Process(c, s, Start))
  {
    var t := Process(c, s, Start);
    forall i ensures Holders(c, t.seen, i) == Holders(c, s.seen, i) {
      HoldersSnoc(c, s.seen, Start, i);
    }
    NobodyYet(c, s.seen, |s.log|);
    StartCommitted(c, s.seen, t.seen, s.noop, s.committed);
  }

  lemma StartCommitted(c: Cluster, seen: seq<Event>, seen': seq<Event>, noop: int, committed: int)
    requires CommittedInv(c, seen, noop, committed)
    requires forall i :: Holders(c, seen', i) == Holders(c, seen, i)
    ensures CommittedInv(c, seen', noop, committed)
  {
    forall i | noop <= i <= committed ensures HasMajority(c, seen', i) {
      assert HasMajority(c, seen, i);
    }
  }

  /** Acknowledging keeps every watched index's holders exact. */
  lemma AckedInv(c: Cluster, ws: seq<Watched>, seen: seq<Event>, committed: int, len: nat, ev: Event)
    requires WatchInv(c, ws, seen, committed, len) && ev.Confirmed? && ev.peer < c.peers
    ensures WatchInv(c, Acked(ws, ev.peer, ev.start, ev.end), seen + [ev], committed, len)
  {
    var acked := Acked(ws, ev.peer, ev.start, ev.end);
    forall k | 0 <= k < |acked|
      ensures acked[k].index == committed + 1 + k && acked[k].acks == Holders(c, seen + [ev], acked[k].index)
    {
      HoldersSnoc(c, seen, ev, ws[k].index);
    }
  }

  /** Committing the ready prefix moves the boundary and nothing else. */
  lemma CommitReady(c: Cluster, ws: seq<Watched>, seen: seq<Event>, noop: int, committed: int, len: nat)
    requires WatchInv(c, ws, seen, committed, len) && CommittedInv(c, seen, noop, committed)
    ensures var i := Ready(ws, Majority(c));
            && WatchInv(c, ws[i..], seen, committed + i, len)
            && CommittedInv(c, seen, noop, committed + i)
            && PromptInv(c, seen, committed + i, len)
            && CommitIndex(ws, Majority(c)) == if i > 0 then Some(committed + i) else None
  {
    var i := Ready(ws, Majority(c));
    forall idx | noop <= idx <= committed + i ensures HasMajority(c, seen, idx) {
      if idx > committed { assert ws[idx - committed - 1].index == idx; }
    }
    if i < |ws| { assert ws[i].index == committed + i + 1; }
  }

  lemma CommittedGrows(c: Cluster, seen: seq<Event>, ev: Event, noop: int, committed: int)
    requires CommittedInv(c, seen, noop, committed)
    ensures CommittedInv(c, seen + [ev], noop, committed)
  {
    forall i | noop <= i <= committed ensures HasMajority(c, seen + [ev], i) {
      assert HasMajority(c, seen, i);
      HoldersSnoc(c, seen, ev, i);
      SubsetCard(Holders(c, seen, i), Holders(c, seen + [ev], i));
    }
  }

  /** What a confirm makes of the watched and the committed indexes. */
  lemma ConfirmedState(c: Cluster, s: Leader, ev: Event)
    requires ev.Confirmed? && ev.peer < c.peers
    requires WatchInv(c, s.ws, s.seen, s.committed, |s.log|) && CommittedInv(c, s.seen, s.noop, s.committed)
    ensures var t := Process(c, s, ev);
            && t == s.(ws := t.ws, committed := t.committed, seen := s.seen + [ev])
            && s.committed <= t.committed < |s.log|
            && WatchInv(c, t.ws, t.seen, t.committed, |s.log|) && CommittedInv(c, t.seen, s.noop, t.committed)
            && PromptInv(c, t.seen, t.committed, |s.log|)
  {
    AckedInv(c, s.ws, s.seen, s.committed, |s.log|, ev);
    CommittedGrows(c, s.seen, ev, s.noop, s.committed);
    CommitReady(c, Acked(s.ws, ev.peer, ev.start, ev.end), s.seen + [ev], s.noop, s.committed, |s.log|);
  }

  lemma ConfirmInv(c: Cluster, s: Leader, ev: Event)
    requires Inv(c, s) && ev.Confirmed? && Possible(c, s, ev)
    ensures Inv(c, Process(c, s, ev))
  {
    ConfirmedState(c, s, ev);
    EndsSnoc(s.seen, ev, |s.log|);
  }

  lemma EndsSnoc(seen: seq<Event>, ev: Event, len: nat)
    requires EndsWithin(seen, len) && (ev.Confirmed? ==> ev.end <= len)
    ensures EndsWithin(seen + [ev], len)
  {
  }

  /** A commit moves forward and stays within the log. */
  lemma CommitWithin(c: Cluster, s: Leader, ev: Event)
    requires Inv(c, s) && ev.Confirmed? && Possible(c, s, ev)
    ensures var commit := CommitIndex(Acked(s.ws, ev.peer, ev.start, ev.end), Majority(c));
            commit.Some? ==> s.committed < commit.value < |s.log|
  {
    AckedInv(c, s.ws, s.seen, s.committed, |s.log|, ev);
  }

  lemma {:induction false} RunInv(c: Cluster, term: int, log: seq<int>, events: seq<Event>, run: seq<Leader>, k: nat)
    requires IsRun(c, term, log, events, run) && k < |run|
    ensures Inv(c, run[k]) && run[k].noop == |log| && run[k].term == term && run[k].seen == events[..k]
  {
    if k == 0 {
      ActivateInv(c, term, log);
    } else {
      RunInv(c, term, log, events, run, k - 1);
      assert StepAt(c, events, run, k - 1);
      assert events[..k] == events[..k - 1] + [events[k - 1]];
      ProcessInv(c, run[k - 1], events[k - 1]);
    }
  }

  lemma ProcessInv(c: Cluster, s: Leader, ev: Event)
    requires Inv(c, s) && Possible(c, s, ev)
    ensures Inv(c, Process(c, s, ev))
    ensures Process(c, s, ev).noop == s.noop && Process(c, s, ev).term == s.term
    ensures Process(c, s, ev).seen == s.seen + [ev] && Process(c, s, ev).committed >= s.committed
  {
    if ev.Start? { StartInv(c, s); } else { ConfirmInv(c, s, ev); }
  }

  /**
    Commit safety over every run: what is committed is of the leader's own term and, like
    every index of the leader's before it, held by a majority; and nothing that could be
    committed is held back, in a cluster of at least two.
   */
  lemma CommitNeedsMajority(c: Cluster, term: int, log: seq<int>, events: seq<Event>, run: seq<Leader>, k: nat)
    requires IsRun(c, term, log, events, run) && k < |run|
    ensures var s := run[k];
            && |log| - 1 <= s.committed < |s.log|
            && (forall i | |log| <= i <= s.committed :: s.log[i] == term && HasMajority(c, events[..k], i))
            && (c.peers >= 2 && s.committed + 1 < |s.log| ==> !HasMajority(c, events[..k], s.committed + 1))
  {
    RunInv(c, term, log, events, run, k);
  }

  /** Whatever else a majority of the cluster agrees on, one of them holds every committed index. */
  lemma CommittedIsSeen(
    c: Cluster, term: int, log: seq<int>, events: seq<Event>, run: seq<Leader>, k: nat, i: int, quorum: set<nat>)
    requires IsRun(c, term, log, events, run) && k < |run| && |log| <= i <= run[k].committed
    requires (forall p | p in quorum :: p < c.peers) && 2 * |quorum| > c.peers
    ensures exists p :: p in quorum && Holds(c, events[..k], p, i)
  {
    CommitNeedsMajority(c, term, log, events, run, k);
    assert HasMajority(c, events[..k], i);
    MajoritiesMeet(c, quorum, Holders(c, events[..k], i));
    var p :| p in quorum * Holders(c, events[..k], i);
  }

  /** The committed index never goes back. */
  lemma {:induction false} CommitMonotone(c: Cluster, term: int, log: seq<int>, events: seq<Event>, run: seq<Leader>, j: nat, k: nat)
    requires IsRun(c, term, log, events, run) && j <= k < |run|
    ensures run[j].committed <= run[k].committed
    decreases k - j
  {
    if j < k {
      CommitMonotone(c, term, log, events, run, j, k - 1);
      RunInv(c, term, log, events, run, k - 1);
      assert StepAt(c, events, run, k - 1);
      ProcessInv(c, run[k - 1], events[k - 1]);
    }
  }

  /**
    A cluster of one never commits, although the leader alone is a majority there: indexes are
    looked at only when some other peer confirms.
   */
  lemma {:induction false} AloneNeverCommits(c: Cluster, term: int, log: seq<int>, events: seq<Event>, run: seq<Leader>, k: nat)
    requires IsRun(c, term, log, events, run) && k < |run| && c.peers == 1
    ensures run[k].committed == |log| - 1 && HasMajority(c, events[..k], |log|)
  {
    forall i | 0 <= i < k ensures events[i].Start? {
      assert StepAt(c, events, run, i);
    }
    NobodyYet(c, events[..k], |log|);
    if k > 0 {
      AloneNeverCommits(c, term, log, events, run, k - 1);
      assert StepAt(c, events, run, k - 1);
    }
  }

  /** The first n peers, other than the leader, confirm the leader's no-op. */
  lemma {:induction false} PeersConfirm(c: Cluster, term: int, log: seq<int>, n: nat)
    returns (events: seq<Event>, run: seq<Leader>)
    requires c.me < c.peers && n <= c.peers
    ensures IsRun(c, term, log, events, run) && |run[|events|].log| == |log| + 1
    ensures forall p: nat | p < n :: Holds(c, events, p, |log|)
    decreases n
  {
    if n == 0 {
      events, run := [], [Activate(c, term, log)];
    } else {
      events, run := PeersConfirm(c, term, log, n - 1);
      if n - 1 != c.me {
        var ev := Confirmed(n - 1, |log|, |log| + 1);
        ConfirmedToo(c, events, ev, |log|, n);
        run := run + [Process(c, run[|events|], ev)];
        events := events + [ev];
        forall k | 0 <= k < |events| ensures StepAt(c, events, run, k) {
          if k < |events| - 1 { assert StepAt(c, events[..|events| - 1], run[..|events|], k); }
        }
      }
    }
  }

  lemma ConfirmedToo(c: Cluster, seen: seq<Event>, ev: Event, idx: int, n: nat)
    requires n > 0 && ev.Confirmed? && Covers(ev, n - 1, idx)
    requires forall p: nat | p < n - 1 :: Holds(c, seen, p, idx)
    ensures forall p: nat | p < n :: Holds(c, seen + [ev], p, idx)
  {
    assert Covers((seen + [ev])[|seen|], n - 1, idx);
    forall p: nat | p < n - 1 ensures Holds(c, seen + [ev], p, idx) {
      assert Holds(c, seen, p, idx);
      if p != c.me {
        var j :| 0 <= j < |seen| && Covers(seen[j], p, idx);
        assert Covers((seen + [ev])[j], p, idx);
      }
    }
  }

  ghost predicate CanCommit(c: Cluster, term: int, log: seq<int>) {
    exists events: seq<Event>, run: seq<Leader> ::
      IsRun(c, term, log, events, run) && run[|events|].committed >= |log|
  }

  /** A leader can get its own entries committed exactly when it is not alone. */
  lemma CommitsUnlessAlone(c: Cluster, term: int, log: seq<int>)
    requires c.me < c.peers
    ensures CanCommit(c, term, log) <==> c.peers > 1
  {
    if c.peers > 1 {
      var events, run := PeersConfirm(c, term, log, c.peers);
      CommitNeedsMajority(c, term, log, events, run, |events|);
      assert events[..|events|] == events;
      assert UpTo(c.peers) == Holders(c, events, |log|);
      assert HasMajority(c, events, |log|);
    } else if CanCommit(c, term, log) {
      var events: seq<Event>, run: seq<Leader> :|
        IsRun(c, term, log, events, run) && run[|events|].committed >= |log|;
      AloneNeverCommits(c, term, log, events, run, |events|);
    }
  }

  // ---- peers that confirm without gaps

  /** The end of what peer has confirmed. */
  ghost function Reach(seen: seq<Event>, peer: nat, noop: int): (r: int)
    ensures r >= noop
  {
    if seen == [] then noop
    else
      var before := Reach(seen[..|seen| - 1], peer, noop);
      var ev := seen[|seen| - 1];
      if ev.Confirmed? && ev.peer == peer && ev.end > before then ev.end else before
  }

  /** Each confirm of a peer starts no later than where its earlier ones ended. */
  ghost predicate NoGaps(seen: seq<Event>, noop: int) {
    forall j | 0 <= j < |seen| && seen[j].Confirmed? :: seen[j].start <= Reach(seen[..j], seen[j].peer, noop)
  }

  lemma {:induction false} ReachIsConfirmed(seen: seq<Event>, peer: nat, noop: int, idx: int)
    requires NoGaps(seen, noop) && noop <= idx
    ensures Confirmer(seen, peer, idx) <==> idx < Reach(seen, peer, noop)
    decreases |seen|
  {
    if seen != [] {
      var front, ev := seen[..|seen| - 1], seen[|seen| - 1];
      forall j | 0 <= j < |front| ensures front[..j] == seen[..j] {}
      assert NoGaps(front, noop);
      ReachIsConfirmed(front, peer, noop, idx);
      assert Confirmer(seen, peer, idx) <==> Confirmer(front, peer, idx) || Covers(ev, peer, idx) by {
        if Confirmer(front, peer, idx) {
          var j :| 0 <= j < |front| && Covers(front[j], peer, idx);
          assert Covers(seen[j], peer, idx);
        }
        if Covers(ev, peer, idx) { assert Covers(seen[|seen| - 1], peer, idx); }
      }
    }
  }

  /** The peers that hold the log up to and including idx. */
  ghost function Replicas(c: Cluster, seen: seq<Event>, noop: int, idx: int): set<nat> {
    set p: nat | p < c.peers && (p == c.me || idx < Reach(seen, p, noop))
  }

  /**
    When every peer confirms without gaps, the committed index is the greatest one that a
    majority holds together with everything before it.
   */
  lemma CommitIsMajorityIndex(
    c: Cluster, term: int, log: seq<int>, events: seq<Event>, run: seq<Leader>, k: nat, idx: int)
    requires IsRun(c, term, log, events, run) && k < |run| && c.peers >= 2
    requires NoGaps(events[..k], |log|) && |log| <= idx < |run[k].log|
    ensures idx <= run[k].committed <==> 2 * |Replicas(c, events[..k], |log|, idx)| > c.peers
  {
    RunInv(c, term, log, events, run, k);
    ReplicasAreHolders(c, events[..k], |log|, idx);
    if idx <= run[k].committed {
      assert HasMajority(c, events[..k], idx);
    } else {
      LaterHasFewer(c, events[..k], |log|, run[k].committed + 1, idx);
    }
  }

  lemma LaterHasFewer(c: Cluster, seen: seq<Event>, noop: int, first: int, idx: int)
    requires NoGaps(seen, noop) && noop <= first <= idx
    ensures |Replicas(c, seen, noop, idx)| <= |Holders(c, seen, first)|
  {
    ReplicasAreHolders(c, seen, noop, first);
    SubsetCard(Replicas(c, seen, noop, idx), Replicas(c, seen, noop, first));
  }

  lemma ReplicasAreHolders(c: Cluster, seen: seq<Event>, noop: int, idx: int)
    requires NoGaps(seen, noop) && noop <= idx
    ensures Replicas(c, seen, noop, idx) == Holders(c, seen, idx)
  {
    forall p: nat ensures Holds(c, seen, p, idx) <==> p == c.me || idx < Reach(seen, p, noop) {
      ReachIsConfirmed(seen, p, noop, idx);
    }
  }
}
