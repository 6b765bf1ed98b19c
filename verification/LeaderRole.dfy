/**
  The leader's event handlers of src/raft/leader.go on the log and the counter they share:
  every event is a step of the runs in module LeaderCommit.
 */
module LeaderRole {
  import opened Options
  import opened LogSpec
  import opened Logs
  import opened ReplCounter
  import LeaderCommit

  ghost function Terms(log: seq<LogEntry>): seq<int> {
    seq(|log|, i requires 0 <= i < |log| => log[i].term)
  }

  lemma TermsSnoc(log: seq<LogEntry>, e: LogEntry)
    ensures Terms(log + [e]) == Terms(log) + [e.term]
  {
  }

  class LeaderRole {
    const term: int
    const logs: Logs
    const rc: ReplCounter

    ghost function Cluster(): LeaderCommit.Cluster {
      LeaderCommit.Cluster(rc.peers, rc.me)
    }

    /** The last watched index, if any index is watched, is the last index of the log. */
    ghost predicate Valid()
      reads logs, rc, rc.Repr
    {
      logs.Valid() && rc.Valid() && logs !in rc.Repr && Tail(rc.Abs(), |logs.full|)
    }

    /** The log, what is committed of it, and the counter are those of the abstract leader s. */
    ghost predicate Agrees(s: LeaderCommit.Leader)
      requires Valid()
      reads logs, rc, rc.Repr
    {
      s.term == term && s.log == Terms(logs.full) && s.ws == rc.Abs() && CommitAgrees(s, logs.lci)
    }

    /** leaderFromCandidate followed by activate. */
    constructor (term: int, logs: Logs, peers: nat, me: nat)
      requires logs.Valid() && me < peers
      modifies logs
      ensures Valid() && this.logs == logs && fresh(rc) && fresh(rc.Repr)
      ensures Cluster() == LeaderCommit.Cluster(peers, me)
      ensures Agrees(LeaderCommit.Activate(Cluster(), term, Terms(old(logs.full))))
      ensures logs.Abs() == Step(old(logs.Abs()), Push(LogEntry(NOOP_INDEX, term, "")))
      ensures logs.full == old(logs.full) + [LogEntry(NOOP_INDEX, term, "")]
    {
      var counter := new ReplCounter(peers, me);
      this.term := term;
      this.logs := logs;
      this.rc := counter;
      new;
      TermsSnoc(logs.full, LogEntry(NOOP_INDEX, term, ""));
      var _ := AppendAndWatch(logs, rc, LogEntry(NOOP_INDEX, term, ""));
    }

    /**
      Commit safety of the log itself: from the leader's no-op on, what the log has committed is of
      the leader's term and held by a majority, and it is all the leader has committed.
     */
    lemma LogCommitSafe(log: seq<int>, events: seq<LeaderCommit.Event>, run: seq<LeaderCommit.Leader>, k: nat)
      requires Valid() && LeaderCommit.IsRun(Cluster(), term, log, events, run) && k < |run| && Agrees(run[k])
      ensures forall i | |log| <= i <= logs.lci ::
                i < |logs.full| && logs.full[i].term == term && LeaderCommit.HasMajority(Cluster(), events[..k], i)
      ensures logs.lci >= |log| || run[k].committed >= |log| ==> logs.lci == run[k].committed
    {
      LeaderCommit.CommitNeedsMajority(Cluster(), term, log, events, run, k);
      LeaderCommit.RunInv(Cluster(), term, log, events, run, k);
      forall i | |log| <= i <= logs.lci
        ensures i < |logs.full| && logs.full[i].term == term && LeaderCommit.HasMajority(Cluster(), events[..k], i)
      {
        assert run[k].log[i] == term;
      }
    }

    /** StartCommandEvent: the reply is the number of the command, the next one there is. */
    method StartCommand(command: string, ghost s: LeaderCommit.Leader) returns (index: int)
      requires Valid() && Agrees(s)
      modifies logs, rc
      ensures Valid() && fresh(rc.Repr - old(rc.Repr))
      ensures Agrees(LeaderCommit.Process(Cluster(), s, LeaderCommit.Start))
      ensures logs.Abs() == Step(old(logs.Abs()), Push(LogEntry(0, term, command)))
      ensures Pushed(old(logs.full), LogEntry(0, term, command), logs.full)
      ensures index == logs.full[|old(logs.full)|].commandIndex == NextCommand(old(logs.full))
    {
      PushAppends(logs.Abs(), LogEntry(0, term, command));
      TermsSnoc(logs.full, WithNumber(logs.full, LogEntry(0, term, command)));
      index := AppendAndWatch(logs, rc, LogEntry(0, term, command));
    }

    /** ReplConfirmEvent: count it, and commit what a majority has. */
    method ReplConfirm(id: nat, startIndex: int, endIndex: int, ghost s: LeaderCommit.Leader)
      requires Valid() && Agrees(s) && LeaderCommit.Inv(Cluster(), s)
      requires LeaderCommit.Possible(Cluster(), s, LeaderCommit.Confirmed(id, startIndex, endIndex))
      modifies logs`applier, logs`lci, rc, rc.Repr
      ensures Valid() && rc.Repr == old(rc.Repr)
      ensures Agrees(LeaderCommit.Process(Cluster(), s, LeaderCommit.Confirmed(id, startIndex, endIndex)))
      ensures var commit := CommitIndex(Acked(s.ws, id, startIndex, endIndex), LeaderCommit.Majority(Cluster()));
              logs.Abs() == if commit.Some? then Step(old(logs.Abs()), Commit(commit.value)) else old(logs.Abs())
    {
      ghost var ev := LeaderCommit.Confirmed(id, startIndex, endIndex);
      CommitFollows(Cluster(), s, ev, logs.Abs());
      CountThenCommit(logs, rc, id, startIndex, endIndex, s.ws);
    }
  }

  /** The log has committed what the leader has, once that is anything of its own. */
  ghost predicate CommitAgrees(s: LeaderCommit.Leader, lci: int) {
    lci == s.committed || (s.committed == s.noop - 1 && lci < s.noop)
  }

  /** Committing what the counter says brings the log to where the leader is. */
  lemma CommitFollows(c: LeaderCommit.Cluster, s: LeaderCommit.Leader, ev: LeaderCommit.Event, a: AbsLog)
    requires LeaderCommit.Inv(c, s) && ev.Confirmed? && LeaderCommit.Possible(c, s, ev)
    requires Inv(a) && |a.log| == |s.log| && CommitAgrees(s, a.committed)
    ensures var commit := CommitIndex(Acked(s.ws, ev.peer, ev.start, ev.end), LeaderCommit.Majority(c));
            CommitAgrees(LeaderCommit.Process(c, s, ev),
                         (if commit.Some? then Step(a, Commit(commit.value)) else a).committed)
  {
    LeaderCommit.CommitWithin(c, s, ev);
  }

  /** leaderAppendEntry and watchIndex. */
  method AppendAndWatch(logs: Logs, rc: ReplCounter, e: LogEntry) returns (index: int)
    requires logs.Valid() && rc.Valid() && logs !in rc.Repr && Tail(rc.Abs(), |logs.full|)
    modifies logs, rc
    ensures logs.Valid() && rc.Valid() && fresh(rc.Repr - old(rc.Repr)) && logs !in rc.Repr
    ensures logs.Abs() == Step(old(logs.Abs()), Push(e)) && index == WithNumber(old(logs.full), e).commandIndex
    ensures rc.Abs() == old(rc.Abs()) + [Watched(|old(logs.full)|, {rc.me})]
    ensures Tail(rc.Abs(), |logs.full|)
  {
    ghost var ws := rc.Abs();
    index := PushBeside(logs, e, rc, ws);
    rc.WatchIndex(logs.lli);
  }

  /** leaderAppendEntry leaves the counter as it is. */
  method PushBeside(logs: Logs, e: LogEntry, ghost rc: ReplCounter, ghost ws: seq<Watched>) returns (index: int)
    requires logs.Valid() && rc.Valid() && rc.Abs() == ws && logs !in rc.Repr
    modifies logs
    ensures logs.Valid() && rc.Valid() && rc.Abs() == ws && rc.Repr == old(rc.Repr)
    ensures logs.Abs() == Step(old(logs.Abs()), Push(e)) && logs.lli == |old(logs.full)|
    ensures index == WithNumber(old(logs.full), e).commandIndex
  {
    index := logs.PushEntry(e);
  }

  /** confirm and updateCommit: count the peer, then commit what the counter says. */
  method CountThenCommit(logs: Logs, rc: ReplCounter, id: nat, startIndex: int, endIndex: int, ghost ws: seq<Watched>)
    requires logs.Valid() && rc.Valid() && logs !in rc.Repr && rc.Abs() == ws && Tail(ws, |logs.full|)
    requires id < rc.peers && endIndex <= |logs.full|
    modifies logs`applier, logs`lci, rc, rc.Repr
    ensures logs.Valid() && rc.Valid() && rc.Repr == old(rc.Repr) && Tail(rc.Abs(), |logs.full|)
    ensures var acked := Acked(ws, id, startIndex, endIndex);
            var commit := CommitIndex(acked, rc.majorN);
            && rc.Abs() == acked[Ready(acked, rc.majorN)..]
            && logs.Abs() == if commit.Some? then Step(old(logs.Abs()), Commit(commit.value)) else old(logs.Abs())
  {
    ghost var acked := Acked(ws, id, startIndex, endIndex);
    ghost var rest := acked[Ready(acked, rc.majorN)..];
    TailKept(ws, acked, Ready(acked, rc.majorN), |logs.full|);
    var commit := rc.Confirm(id, startIndex, endIndex);
    CommitCounted(logs, commit, rc, rest);
  }

  /** updateCommit, which leaves the counter as it is. */
  method CommitCounted(logs: Logs, commit: Option<int>, ghost rc: ReplCounter, ghost ws: seq<Watched>)
    requires logs.Valid() && rc.Valid() && rc.Abs() == ws && logs !in rc.Repr
    modifies logs`applier, logs`lci
    ensures logs.Valid() && rc.Valid() && rc.Abs() == ws && rc.Repr == old(rc.Repr)
    ensures logs.Abs() == if commit.Some? then Step(old(logs.Abs()), Commit(commit.value)) else old(logs.Abs())
  {
    if commit.Some? {
      logs.UpdateCommit(commit.value);
    }
  }

  ghost predicate Tail(ws: seq<Watched>, len: nat) {
    ws != [] ==> ws[|ws| - 1].index == len - 1
  }

  /** Counting and dropping from the front keep the last watched index. */
  lemma TailKept(ws: seq<Watched>, acked: seq<Watched>, i: nat, len: nat)
    requires Tail(ws, len) && |acked| == |ws| && i <= |ws|
    requires forall k | 0 <= k < |ws| :: acked[k].index == ws[k].index
    ensures Tail(acked[i..], len)
  {
  }
}
