/**
  The log of one raft node as if it were never compacted, and what the operations of
  src/raft/log.go mean for it.
 */
module LogSpec {
  import opened Collections

  const NOOP_INDEX := -1

  datatype LogEntry = LogEntry(commandIndex: int, term: int, content: string)

  datatype LogInfo = LogInfo(index: int, term: int)

  datatype EntryStatus = Match | Unmatch

  predicate IsNoop(e: LogEntry) {
    e.commandIndex == NOOP_INDEX
  }

  /** The number of no-ops in a log. */
  ghost function Noops(log: seq<LogEntry>): (n: nat)
    ensures n <= |log|
  {
    SubsetCard(NoopPositions(log), UpTo(|log|));
    |NoopPositions(log)|
  }

  ghost function NoopPositions(log: seq<LogEntry>): set<int> {
    set i | 0 <= i < |log| && IsNoop(log[i])
  }

  lemma NoopsEmpty()
    ensures Noops([]) == 0
  {
    assert NoopPositions([]) == {};
  }

  lemma NoopsSnoc(log: seq<LogEntry>, e: LogEntry)
    ensures Noops(log + [e]) == Noops(log) + if IsNoop(e) then 1 else 0
  {
    assert NoopPositions(log + [e]) == NoopPositions(log) + if IsNoop(e) then {|log|} else {};
  }

  lemma {:induction false} NoopsConcat(a: seq<LogEntry>, b: seq<LogEntry>)
    ensures Noops(a + b) == Noops(a) + Noops(b)
    decreases |b|
  {
    if b == [] {
      assert a + b == a;
      NoopsEmpty();
    } else {
      var front, e := b[..|b| - 1], b[|b| - 1];
      NoopsConcat(a, front);
      NoopsSnoc(front, e);
      NoopsSnoc(a + front, e);
      assert a + b == (a + front) + [e] && b == front + [e];
    }
  }

  lemma NoopsOne(e: LogEntry)
    ensures Noops([e]) == if IsNoop(e) then 1 else 0
  {
    NoopsEmpty();
    NoopsSnoc([], e);
    assert [] + [e] == [e];
  }

  // ---- command numbers

  /** The number the next command would get. */
  ghost function NextCommand(log: seq<LogEntry>): int {
    |log| - Noops(log) + 1
  }

  /** Every command carries its position among the commands. */
  ghost predicate Numbered(log: seq<LogEntry>) {
    forall i | 0 <= i < |log| :: IsNoop(log[i]) || log[i].commandIndex == NextCommand(log[..i])
  }

  /** The command numbers of a log, in order. */
  function Commands(log: seq<LogEntry>): seq<int> {
    if log == [] then []
    else
      var before := Commands(log[..|log| - 1]);
      var e := log[|log| - 1];
      if IsNoop(e) then before else before + [e.commandIndex]
  }

  lemma {:induction false} CommandsCount(log: seq<LogEntry>)
    ensures |Commands(log)| == |log| - Noops(log)
    decreases |log|
  {
    if log == [] {
      NoopsEmpty();
    } else {
      CommandsCount(log[..|log| - 1]);
      NoopsSnoc(log[..|log| - 1], log[|log| - 1]);
      SplitLast(log);
    }
  }

  lemma NumberedSnoc(log: seq<LogEntry>, e: LogEntry)
    ensures Numbered(log + [e]) <==> Numbered(log) && (IsNoop(e) || e.commandIndex == NextCommand(log))
  {
    var more := log + [e];
    assert more[..|log|] == log;
    forall i | 0 <= i < |log| ensures more[..i] == log[..i] && more[i] == log[i] {}
    if Numbered(more) {
      forall i | 0 <= i < |log| ensures IsNoop(log[i]) || log[i].commandIndex == NextCommand(log[..i]) {
        assert IsNoop(more[i]) || more[i].commandIndex == NextCommand(more[..i]);
      }
    }
  }

  /** 1, 2, 3 and so on, without gap or repeat. */
  ghost predicate Consecutive(cs: seq<int>) {
    forall k | 0 <= k < |cs| :: cs[k] == k + 1
  }

  lemma ConsecutiveSnoc(cs: seq<int>, x: int)
    ensures Consecutive(cs + [x]) <==> Consecutive(cs) && x == |cs| + 1
  {
    var more := cs + [x];
    if Consecutive(more) {
      assert more[|cs|] == x;
      forall k | 0 <= k < |cs| ensures cs[k] == k + 1 { assert more[k] == cs[k]; }
    }
  }

  /** A log is numbered exactly when its commands are 1, 2, 3 and so on. */
  lemma {:induction false} NumberedIsConsecutive(log: seq<LogEntry>)
    ensures Numbered(log) <==> Consecutive(Commands(log))
    decreases |log|
  {
    if log != [] {
      var front, e := log[..|log| - 1], log[|log| - 1];
      SplitLast(log);
      NumberedSnoc(front, e);
      NumberedIsConsecutive(front);
      CommandsCount(front);
      ConsecutiveSnoc(Commands(front), e.commandIndex);
    }
  }

  /** Prefixes of numbered logs are numbered. */
  lemma NumberedPrefix(log: seq<LogEntry>, n: nat)
    requires Numbered(log) && n <= |log|
    ensures Numbered(log[..n])
  {
    forall i | 0 <= i < n ensures log[..n][..i] == log[..i] {}
  }

  // ---- queries

  /** indexLogTerm: -1 outside of the log. */
  function TermAt(log: seq<LogEntry>, idx: int): int {
    if 0 <= idx < |log| then log[idx].term else -1
  }

  /** lastLogInfo */
  function LastInfo(log: seq<LogEntry>): LogInfo {
    if log == [] then LogInfo(-1, 0) else LogInfo(|log| - 1, log[|log| - 1].term)
  }

  /** info is at least as up to date as log: a later last term, or the same and no shorter. */
  predicate AtLeastUpToDate(log: seq<LogEntry>, info: LogInfo) {
    var last := LastInfo(log);
    info.term > last.term || (info.term == last.term && info.index >= last.index)
  }

  // ---- the operations

  datatype AbsLog = AbsLog(log: seq<LogEntry>, committed: int, queued: seq<LogEntry>)

  datatype Op =
    | Push(entry: LogEntry)                             // pushEntry
    | Append(prev: LogInfo, entries: seq<LogEntry>)     // followerAppendEntries
    | Commit(leaderCommit: int)                         // updateCommit
    | Compact                                           // takeSnapshot

  /** A command gets the next number, whatever number it came with. */
  ghost function WithNumber(log: seq<LogEntry>, e: LogEntry): LogEntry {
    if IsNoop(e) then e else e.(commandIndex := NextCommand(log))
  }

  /** The follower has the entry the leader's entries follow, or need not look. */
  predicate PrevMatches(a: AbsLog, prev: LogInfo) {
    prev.index < a.committed || prev.index == -1 ||
    (0 <= prev.index < |a.log| && a.log[prev.index].term == prev.term)
  }

  /** The entries behind prev go into the log. */
  predicate Takes(a: AbsLog, prev: LogInfo) {
    -1 <= prev.index < |a.log| && a.committed <= prev.index && PrevMatches(a, prev)
  }

  function AfterAppend(a: AbsLog, prev: LogInfo, entries: seq<LogEntry>): AbsLog {
    if Takes(a, prev) && entries != []
    then a.(log := a.log[..prev.index + 1] + entries) else a
  }

  function AfterCommit(a: AbsLog, leaderCommit: int): AbsLog {
    var newCommit := if leaderCommit <= |a.log| - 1 then leaderCommit else |a.log| - 1;
    if -1 <= a.committed < newCommit
    then a.(committed := newCommit, queued := a.queued + a.log[a.committed + 1..newCommit + 1]) else a
  }

  ghost function Step(a: AbsLog, op: Op): AbsLog {
    match op
    case Push(e) => a.(log := a.log + [WithNumber(a.log, e)])
    case Append(prev, entries) => AfterAppend(a, prev, entries)
    case Commit(leaderCommit) => AfterCommit(a, leaderCommit)
    case Compact => a
  }

  /** after is log with e behind it, unchanged but for the number of a command, which is the next one. */
  ghost predicate Pushed(log: seq<LogEntry>, e: LogEntry, after: seq<LogEntry>) {
    && |after| == |log| + 1 && log <= after
    && after[|log|].content == e.content && after[|log|].term == e.term
    && after[|log|].commandIndex == if e.commandIndex == NOOP_INDEX then NOOP_INDEX else |Commands(log)| + 1
  }

  lemma PushAppends(a: AbsLog, e: LogEntry)
    ensures Pushed(a.log, e, Step(a, Push(e)).log)
  {
    CommandsCount(a.log);
  }

  /** What has been queued for the service is exactly the committed log. */
  ghost predicate Inv(a: AbsLog) {
    -1 <= a.committed < |a.log| && a.queued == a.log[..a.committed + 1]
  }

  /** The committed part of s is still there, unchanged, in t. */
  ghost predicate Extends(s: AbsLog, t: AbsLog) {
    && -1 <= s.committed <= t.committed
    && s.committed < |s.log| && t.committed < |t.log|
    && s.log[..s.committed + 1] == t.log[..s.committed + 1]
    && s.queued <= t.queued
  }

  lemma StepInv(a: AbsLog, op: Op)
    requires Inv(a)
    ensures Inv(Step(a, op)) && Extends(a, Step(a, op))
  {
    var b := Step(a, op);
    match op
    case Push(e) => assert b.log[..a.committed + 1] == a.log[..a.committed + 1];
    case Append(prev, entries) =>
      if b != a { assert b.log[..a.committed + 1] == a.log[..a.committed + 1]; }
    case Commit(leaderCommit) =>
      if b != a { assert b.queued == a.log[..b.committed + 1]; }
    case Compact =>
  }

  /** Index i is committed afterwards exactly when it was before or the leader says so; what is new is queued. */
  lemma CommitReaches(a: AbsLog, leaderCommit: int, i: nat)
    requires Inv(a) && i < |a.log|
    ensures var b := Step(a, Commit(leaderCommit));
            && (i <= b.committed <==> i <= a.committed || i <= leaderCommit)
            && b.log == a.log && a.queued <= b.queued && |b.queued| == b.committed + 1
  {
    StepInv(a, Commit(leaderCommit));
  }

  ghost predicate IsRun(ops: seq<Op>, run: seq<AbsLog>) {
    && |run| == |ops| + 1
    && Inv(run[0])
    && forall k | 0 <= k < |ops| :: StepAt(ops, run, k)
  }

  ghost predicate StepAt(ops: seq<Op>, run: seq<AbsLog>, k: nat)
    requires k < |ops| && |run| == |ops| + 1
  {
    run[k + 1] == Step(run[k], ops[k])
  }

  /**
    In every run the commit index never decreases and stays within the log, no committed
    entry ever changes, and what has been queued is the committed log, in order.
   */
  lemma {:induction false} CommittedIsForever(ops: seq<Op>, run: seq<AbsLog>, j: nat, k: nat)
    requires IsRun(ops, run) && j <= k < |run|
    ensures Inv(run[k]) && Extends(run[j], run[k])
    decreases k
  {
    if k == 0 {
    } else if j == k {
      CommittedIsForever(ops, run, 0, k - 1);
      assert StepAt(ops, run, k - 1);
      StepInv(run[k - 1], ops[k - 1]);
    } else {
      CommittedIsForever(ops, run, j, k - 1);
      assert StepAt(ops, run, k - 1);
      StepInv(run[k - 1], ops[k - 1]);
      ExtendsTransitive(run[j], run[k - 1], run[k]);
    }
  }

  // ---- where entries come from

  /** Operation j is the one that put entry e at index i: as it was given, but for a command's number. */
  ghost predicate GivenAt(ops: seq<Op>, run: seq<AbsLog>, j: nat, i: nat, e: LogEntry) {
    && j < |ops| && j < |run|
    && match ops[j]
       case Push(x) => i == |run[j].log| && e.content == x.content && e.term == x.term && (IsNoop(e) <==> IsNoop(x))
       case Append(prev, entries) => prev.index < i <= prev.index + |entries| && e == entries[i - prev.index - 1]
       case _ => false
  }

  /** Index i has held the same entry from state j to state k. */
  ghost predicate Kept(run: seq<AbsLog>, j: nat, k: nat, i: nat) {
    && k < |run| && i < |run[k].log|
    && forall m | j <= m <= k :: i < |run[m].log| && run[m].log[i] == run[k].log[i]
  }

  /** Entry i of state k was there from the start, or some operation put it there. */
  ghost predicate HasSource(ops: seq<Op>, run: seq<AbsLog>, k: nat, i: nat)
    requires k < |run| && i < |run[k].log|
  {
    Kept(run, 0, k, i) || exists j: nat :: j < k && GivenAt(ops, run, j, i, run[k].log[i]) && Kept(run, j + 1, k, i)
  }

  /** One step keeps the entry at an index or puts there what it was given. */
  lemma StepGives(ops: seq<Op>, run: seq<AbsLog>, k: nat, i: nat)
    requires IsRun(ops, run) && k < |ops| && i < |run[k + 1].log|
    ensures (i < |run[k].log| && run[k + 1].log[i] == run[k].log[i]) || GivenAt(ops, run, k, i, run[k + 1].log[i])
  {
    assert StepAt(ops, run, k);
  }

  lemma KeptOn(run: seq<AbsLog>, j: nat, k: nat, i: nat)
    requires j <= k && k + 1 < |run| && Kept(run, j, k, i)
    requires i < |run[k + 1].log| && run[k + 1].log[i] == run[k].log[i]
    ensures Kept(run, j, k + 1, i)
  {
  }

  /**
    Over every run, each entry of the log, and so each entry queued for the service, is one that was
    pushed or taken from a leader at that index, with the content and the term it was given.
   */
  lemma {:induction false} EntriesAreGiven(ops: seq<Op>, run: seq<AbsLog>, k: nat, i: nat)
    requires IsRun(ops, run) && k < |run| && i < |run[k].log|
    ensures HasSource(ops, run, k, i)
    ensures i < |run[k].queued| <==> i <= run[k].committed
    ensures i < |run[k].queued| ==> run[k].queued[i] == run[k].log[i]
  {
    CommittedIsForever(ops, run, 0, k);
    if k > 0 {
      StepGives(ops, run, k - 1, i);
      if i < |run[k - 1].log| && run[k].log[i] == run[k - 1].log[i] {
        EntriesAreGiven(ops, run, k - 1, i);
        if Kept(run, 0, k - 1, i) {
          KeptOn(run, 0, k - 1, i);
        } else {
          var j: nat :| j < k - 1 && GivenAt(ops, run, j, i, run[k - 1].log[i]) && Kept(run, j + 1, k - 1, i);
          KeptOn(run, j + 1, k - 1, i);
        }
      } else {
        assert Kept(run, k, k, i);
      }
    }
  }

  lemma ExtendsTransitive(s: AbsLog, t: AbsLog, u: AbsLog)
    requires Extends(s, t) && Extends(t, u)
    ensures Extends(s, u)
  {
    assert t.log[..s.committed + 1] == t.log[..t.committed + 1][..s.committed + 1];
    assert u.log[..s.committed + 1] == u.log[..t.committed + 1][..s.committed + 1];
  }

  /** The commands queued for the service are numbered 1, 2, 3 and so on. */
  lemma AppliedConsecutively(a: AbsLog)
    requires Inv(a) && Numbered(a.log)
    ensures Consecutive(Commands(a.queued))
  {
    NumberedPrefix(a.log, a.committed + 1);
    NumberedIsConsecutive(a.queued);
  }

  // ---- leader and follower

  /** The logs are the same up to and including m. */
  ghost predicate SameUpTo(leader: seq<LogEntry>, follower: seq<LogEntry>, m: int) {
    0 <= m < |leader| && m < |follower| && leader[..m + 1] == follower[..m + 1]
  }

  /** Log matching: entries with the same index and term have the same logs before them. */
  ghost predicate LogMatching(leader: seq<LogEntry>, follower: seq<LogEntry>) {
    forall i {:trigger SameUpTo(leader, follower, i)} |
      0 <= i < |leader| && i < |follower| && leader[i].term == follower[i].term :: SameUpTo(leader, follower, i)
  }

  /** The leader has everything the follower has committed. */
  ghost predicate HoldsCommitted(leader: seq<LogEntry>, follower: AbsLog)
    requires Inv(follower)
  {
    follower.committed < |leader| && leader[..follower.committed + 1] == follower.log[..follower.committed + 1]
  }

  /** What a leader sends from index next on. */
  function PrevOf(leader: seq<LogEntry>, next: nat): LogInfo {
    LogInfo(next - 1, TermAt(leader, next - 1))
  }

  /** A query at m answers whether the two logs are the same up to and including m. */
  lemma QueryMeansSamePrefix(leader: seq<LogEntry>, f: AbsLog, m: nat)
    requires Inv(f) && LogMatching(leader, f.log) && HoldsCommitted(leader, f) && m < |leader|
    ensures PrevMatches(f, LogInfo(m, leader[m].term)) <==>
            SameUpTo(leader, f.log, m)
  {
    if m < f.committed {
      assert leader[..m + 1] == leader[..f.committed + 1][..m + 1];
      assert f.log[..m + 1] == f.log[..f.committed + 1][..m + 1];
    } else if SameUpTo(leader, f.log, m) {
      assert leader[..m + 1][m] == f.log[..m + 1][m];
    }
  }

  /** After the follower takes what follows a matching index, its log is the leader's or continues it. */
  lemma AppendAgrees(leader: seq<LogEntry>, f: AbsLog, next: nat)
    requires Inv(f) && f.committed < next <= |leader| && next <= |f.log| && leader[..next] == f.log[..next]
    ensures leader <= AfterAppend(f, PrevOf(leader, next), leader[next..]).log
    ensures next < |leader| ==> AfterAppend(f, PrevOf(leader, next), leader[next..]).log == leader
  {
    if next < |leader| {
      if next > 0 { assert leader[..next][next - 1] == f.log[..next][next - 1]; }
      assert f.log[..next] + leader[next..] == leader[..next] + leader[next..] == leader;
    } else {
      assert leader[..next] == leader;
    }
  }

  /** Numbers stay right on the leader ... */
  lemma PushNumbered(log: seq<LogEntry>, e: LogEntry)
    requires Numbered(log)
    ensures Numbered(log + [WithNumber(log, e)])
  {
    NumberedSnoc(log, WithNumber(log, e));
  }

  /** ... and on a follower that takes entries from a leader whose numbers are right. */
  lemma AppendNumbered(leader: seq<LogEntry>, f: AbsLog, next: nat, count: nat)
    requires Numbered(leader) && Numbered(f.log) && LogMatching(leader, f.log)
    requires next + count <= |leader|
    ensures Numbered(AfterAppend(f, PrevOf(leader, next), leader[next..next + count]).log)
  {
    var after := AfterAppend(f, PrevOf(leader, next), leader[next..next + count]);
    if after != f {
      if next > 0 { assert SameUpTo(leader, f.log, next - 1); }
      assert after.log == leader[..next + count];
      NumberedPrefix(leader, next + count);
    }
  }

  /** Entries are taken only from leaders whose numbers are right and whose logs match. */
  ghost predicate FromAgreeingLeader(a: AbsLog, op: Op) {
    op.Append? ==> exists leader, next, count :: SentBy(leader, next, count, a, op)
  }

  ghost predicate SentBy(leader: seq<LogEntry>, next: nat, count: nat, a: AbsLog, op: Op) {
    && Numbered(leader) && LogMatching(leader, a.log)
    && next + count <= |leader|
    && op == Append(PrevOf(leader, next), leader[next..next + count])
  }

  /**
    In every run that takes entries only from agreeing leaders, the k-th command of the log is
    number k, and so is the k-th command that the service gets.
   */
  lemma {:induction false} NumberedForever(ops: seq<Op>, run: seq<AbsLog>, k: nat)
    requires IsRun(ops, run) && Numbered(run[0].log) && k < |run|
    requires forall i | 0 <= i < |ops| :: FromAgreeingLeader(run[i], ops[i])
    ensures Numbered(run[k].log) && Consecutive(Commands(run[k].log)) && Consecutive(Commands(run[k].queued))
  {
    if k > 0 {
      NumberedForever(ops, run, k - 1);
      assert StepAt(ops, run, k - 1);
      NumberedStep(run[k - 1], ops[k - 1]);
    }
    CommittedIsForever(ops, run, 0, k);
    NumberedIsConsecutive(run[k].log);
    AppliedConsecutively(run[k]);
  }

  lemma NumberedStep(a: AbsLog, op: Op)
    requires Numbered(a.log) && FromAgreeingLeader(a, op)
    ensures Numbered(Step(a, op).log)
  {
    match op
    case Push(e) => PushNumbered(a.log, e);
    case Append(prev, entries) =>
      var leader, next: nat, count: nat :| SentBy(leader, next, count, a, op);
      AppendNumbered(leader, a, next, count);
    case Commit(_) =>
    case Compact =>
  }
}
