/**
  The voting rule of src/raft/log.go (atLeastUpToDate) as an order on logs: what a voter with one
  log learns about a candidate with another one from the last entry of the candidate alone.
 */
module Voting {
  import opened LogSpec

  /** Terms begin at 0 and never go back, as in the log of every node. */
  ghost predicate TermsAscend(log: seq<LogEntry>) {
    && (forall i | 0 <= i < |log| :: log[i].term >= 0)
    && (forall i, j | 0 <= i <= j < |log| :: log[i].term <= log[j].term)
  }

  /** The vote of a node with log voter for a candidate with log candidate. */
  predicate Grants(voter: seq<LogEntry>, candidate: seq<LogEntry>) {
    AtLeastUpToDate(voter, LastInfo(candidate))
  }

  /** lastLogInfo names the last index there is, and the term there; -1 and 0 for an empty log. */
  lemma LastInfoNames(log: seq<LogEntry>)
    ensures log == [] ==> LastInfo(log) == LogInfo(-1, 0)
    ensures log != [] ==>
              var info := LastInfo(log);
              0 <= info.index < |log| == info.index + 1 && info.term == log[info.index].term
  {
  }

  /** indexLogTerm tells whether there is an entry at an index. */
  lemma TermTells(log: seq<LogEntry>, idx: int)
    requires TermsAscend(log)
    ensures 0 <= idx < |log| ==> TermAt(log, idx) == log[idx].term
    ensures TermAt(log, idx) == -1 <==> !(0 <= idx < |log|)
  {
  }

  /** Entry i of term t is no later than entry j of term u. */
  predicate NoLater(i: int, t: int, j: int, u: int) {
    t < u || (t == u && i <= j)
  }

  /** For every entry of one log there is one in the other that is no earlier. */
  ghost predicate Reaches(candidate: seq<LogEntry>, voter: seq<LogEntry>) {
    forall i | 0 <= i < |voter| :: ReachesEntry(candidate, i, voter[i].term)
  }

  ghost predicate ReachesEntry(candidate: seq<LogEntry>, i: int, t: int) {
    exists j :: 0 <= j < |candidate| && NoLater(i, t, j, candidate[j].term)
  }

  /** The rule looks at the last entries only, and speaks about all of them. */
  lemma GrantsMeans(voter: seq<LogEntry>, candidate: seq<LogEntry>)
    requires TermsAscend(voter) && TermsAscend(candidate)
    ensures Grants(voter, candidate) <==> Reaches(candidate, voter)
  {
    if Grants(voter, candidate) {
      forall i | 0 <= i < |voter| ensures ReachesEntry(candidate, i, voter[i].term) {
        assert NoLater(i, voter[i].term, |candidate| - 1, candidate[|candidate| - 1].term);
      }
    } else {
      assert !ReachesEntry(candidate, |voter| - 1, voter[|voter| - 1].term);
    }
  }

  /** Of two nodes one at least would vote for the other ... */
  lemma GrantsTotal(a: seq<LogEntry>, b: seq<LogEntry>)
    ensures Grants(a, b) || Grants(b, a)
    ensures Grants(a, b) && Grants(b, a) ==> |a| == |b| && (a != [] ==> a[|a| - 1].term == b[|a| - 1].term)
  {
  }

  /** ... and a candidate that is good enough for one is good enough for all behind it. */
  lemma GrantsTransitive(a: seq<LogEntry>, b: seq<LogEntry>, c: seq<LogEntry>)
    requires Grants(a, b) && Grants(b, c)
    ensures Grants(a, c)
  {
  }

  /** Among logs of which one is a prefix of the other: a candidate that lacks an entry is refused. */
  lemma GrantsPrefix(log: seq<LogEntry>, n: nat)
    requires TermsAscend(log) && n <= |log|
    ensures Grants(log[..n], log)
    ensures Grants(log, log[..n]) <==> n == |log|
  {
    assert n == |log| ==> log[..n] == log;
  }

  /** A later last term wins, whatever the lengths are; with the same one the longer log does. */
  lemma GrantsByTerm(voter: seq<LogEntry>, candidate: seq<LogEntry>)
    requires voter != [] && candidate != []
    ensures var mine, theirs := voter[|voter| - 1].term, candidate[|candidate| - 1].term;
            && (mine != theirs ==> (Grants(voter, candidate) <==> mine < theirs))
            && (mine == theirs ==> (Grants(voter, candidate) <==> |voter| <= |candidate|))
  {
  }

  /**
    Given log matching, who gets a vote with the same last term, and shares with the voter some
    entry of that term, such as its leader's first, has everything the voter has.
   */
  lemma GrantedHasAll(voter: seq<LogEntry>, candidate: seq<LogEntry>, first: nat)
    requires first < |voter| && first < |candidate| && LogMatching(candidate, voter) && TermsAscend(candidate)
    requires voter[first].term == voter[|voter| - 1].term == candidate[|candidate| - 1].term == candidate[first].term
    requires Grants(voter, candidate)
    ensures voter <= candidate
  {
    assert candidate[first].term <= candidate[|voter| - 1].term <= candidate[|candidate| - 1].term;
    assert SameUpTo(candidate, voter, |voter| - 1);
    assert voter[..|voter|] == voter;
  }
}
