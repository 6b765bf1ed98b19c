/**
  The Logs object of src/raft/log.go: a compacted log with an offset, a snapshot and
  running counters, changed in place.  The ghost field full is the log as it would be
  without compaction; every answer and every change is stated about it.
 */
module Logs {
  import opened Options
  import opened LogSpec

  datatype Snapshot = Snapshot(
    data: string, lastIncludeIndex: int, lastIncludeTerm: int, lastIncludeCmdIndex: int, noopCount: nat)

  datatype SendEntries = SendEntries(entries: seq<LogEntry>, prevLogInfo: LogInfo)

  // ---- what the fields mean

  ghost predicate SnapshotRep(full: seq<LogEntry>, offset: nat, snapshot: Option<Snapshot>)
    requires offset <= |full|
  {
    && (snapshot.None? <==> offset == 0)
    && (snapshot.Some? ==>
          && snapshot.value.lastIncludeIndex == offset - 1
          && snapshot.value.lastIncludeTerm == full[offset - 1].term
          && snapshot.value.lastIncludeCmdIndex == full[offset - 1].commandIndex
          && snapshot.value.noopCount == Noops(full[..offset]))
  }

  ghost predicate Rep(full: seq<LogEntry>, entries: seq<LogEntry>, offset: nat,
                      lli: int, noopCount: int, snapshot: Option<Snapshot>)
  {
    && offset <= |full|
    && entries == full[offset..]
    && lli == offset + |entries| - 1
    && noopCount == Noops(full)
    && SnapshotRep(full, offset, snapshot)
  }

  lemma RepAppend(full: seq<LogEntry>, entries: seq<LogEntry>, offset: nat, lli: int, noopCount: int,
                  snapshot: Option<Snapshot>, more: seq<LogEntry>)
    requires Rep(full, entries, offset, lli, noopCount, snapshot)
    ensures Rep(full + more, entries + more, offset, lli + |more|, noopCount + Noops(more), snapshot)
  {
    NoopsConcat(full, more);
    assert (full + more)[offset..] == entries + more;
    assert (full + more)[..offset] == full[..offset];
  }

  lemma RepCut(full: seq<LogEntry>, entries: seq<LogEntry>, offset: nat, lli: int, noopCount: int,
               snapshot: Option<Snapshot>, n: nat)
    requires Rep(full, entries, offset, lli, noopCount, snapshot) && offset <= n <= |full|
    ensures Rep(full[..n], entries[..n - offset], offset, n - 1,
                noopCount - Noops(entries[n - offset..]), snapshot)
  {
    assert full == full[..n] + entries[n - offset..];
    NoopsConcat(full[..n], entries[n - offset..]);
    assert full[..n][offset..] == entries[..n - offset];
    assert full[..n][..offset] == full[..offset];
  }

  lemma RepCompact(full: seq<LogEntry>, entries: seq<LogEntry>, offset: nat, lli: int, noopCount: int,
                   snapshot: Option<Snapshot>, idx: nat, data: string)
    requires Rep(full, entries, offset, lli, noopCount, snapshot) && offset <= idx < |full| && !IsNoop(full[idx])
    ensures var before := Noops(full[offset..idx]) + (if snapshot.Some? then snapshot.value.noopCount else 0);
            Rep(full, entries[idx - offset + 1..], idx + 1, lli, noopCount,
                Some(Snapshot(data, idx, full[idx].term, full[idx].commandIndex, before)))
  {
    assert full[..idx] == full[..offset] + full[offset..idx];
    NoopsConcat(full[..offset], full[offset..idx]);
    assert full[..idx + 1] == full[..idx] + [full[idx]];
    NoopsSnoc(full[..idx], full[idx]);
    NoopsEmpty();
    assert entries[idx - offset + 1..] == full[idx + 1..];
  }

  class Logs {
    var entries: seq<LogEntry>
    var lci: int
    var lli: int
    var lai: int
    var noopCount: int
    var offset: nat
    var snapshot: Option<Snapshot>
    var applier: seq<LogEntry>  // what has been put into the apply channel, slice after slice
    ghost var full: seq<LogEntry>

    /** The compacted fields say about full what they are meant to say. */
    ghost predicate Compacted()
      reads this
    {
      Rep(full, entries, offset, lli, noopCount, snapshot)
    }

    ghost predicate Valid()
      reads this
    {
      Compacted() && offset - 1 <= lci && Inv(Abs())
    }

    /** The uncompacted log, the commit index, and everything queued for the service. */
    ghost function Abs(): AbsLog
      reads this
    {
      AbsLog(full, lci, applier)
    }

    constructor ()
      ensures Valid() && Abs() == AbsLog([], -1, [])
    {
      entries, lci, lli, lai, noopCount, offset := [], -1, -1, -1, 0, 0;
      snapshot, applier, full := None, [], [];
      NoopsEmpty();
    }

    // ---- queries

    /** tryIndexLogTerm: fails only for indexes compacted away or beyond the end. */
    method TryIndexLogTerm(idx: int) returns (term: int, ok: bool)
      requires Valid()
      ensures ok <==> (if snapshot.Some? then offset - 1 else 0) <= idx < |full|
      ensures term == if ok then TermAt(full, idx) else 0
    {
      if snapshot.Some? && idx == snapshot.value.lastIncludeIndex {
        return snapshot.value.lastIncludeTerm, true;
      } else if idx < offset || idx > lli {
        return 0, false;
      }
      return entries[idx - offset].term, true;
    }

    /** indexLogTermNoLock; its fatal branch is for indexes before the snapshot's last. */
    method IndexLogTerm(idx: int) returns (term: int)
      requires Valid() && (0 <= idx <= lli ==> offset - 1 <= idx)
      ensures term == TermAt(full, idx)
    {
      if idx < 0 || idx > lli {
        return -1;
      } else if snapshot.Some? && idx == snapshot.value.lastIncludeIndex {
        return snapshot.value.lastIncludeTerm;
      }
      return entries[idx - offset].term;
    }

    method LastLogInfo() returns (info: LogInfo)
      requires Valid()
      ensures info == LastInfo(full)
    {
      if |entries| == 0 {
        if snapshot.None? {
          return LogInfo(-1, 0);
        }
        return LogInfo(snapshot.value.lastIncludeIndex, snapshot.value.lastIncludeTerm);
      }
      return LogInfo(lli, entries[lli - offset].term);
    }

    /** atLeastUpToDate: the voting rule, on the uncompacted log. */
    method UpToDate(lg: LogInfo) returns (yes: bool)
      requires Valid()
      ensures yes <==> AtLeastUpToDate(full, lg)
    {
      var myLast := LastLogInfo();
      if myLast.term == lg.term {
        return myLast.index <= lg.index;
      }
      return myLast.term < lg.term;
    }

    /** entriesAfter: the snapshot when the entries are compacted away, else everything from idx on. */
    method EntriesAfter(idx: nat) returns (snap: Option<Snapshot>, send: Option<SendEntries>)
      requires Valid() && idx <= lli + 1
      ensures idx < offset ==> snap == snapshot && snap.Some? && send == None
      ensures idx >= offset ==> snap == None && send == Some(SendEntries(full[idx..], PrevOf(full, idx)))
    {
      if idx < offset {
        return snapshot, None;
      }
      var term := IndexLogTerm(idx - 1);
      assert entries[idx - offset..] == full[idx..];
      return None, Some(SendEntries(entries[idx - offset..], LogInfo(idx - 1, term)));
    }

    // ---- changes

    /** The log is another one from now on, with the same compacted and committed part. */
    method Become(newEntries: seq<LogEntry>, newLLI: int, newNoop: int, ghost newFull: seq<LogEntry>)
      requires Rep(newFull, newEntries, offset, newLLI, newNoop, snapshot)
      requires offset - 1 <= lci && Inv(AbsLog(newFull, lci, applier))
      modifies `entries, `lli, `noopCount, `full
      ensures Valid() && Abs() == AbsLog(newFull, lci, applier) && lli == newLLI
    {
      entries, lli, noopCount := newEntries, newLLI, newNoop;
      full := newFull;
    }

    /** pushEntry: append one entry; a command is given the next command number. */
    method PushEntry(et: LogEntry) returns (commandIndex: int)
      requires Valid()
      modifies `entries, `lli, `noopCount, `full
      ensures Valid() && Abs() == Step(old(Abs()), Push(et)) && lli == |full| - 1
      ensures Pushed(old(full), et, full) && commandIndex == full[|old(full)|].commandIndex
    {
      PushAppends(Abs(), et);
      var newLLI := lli + 1;
      var numbered, noop := et, noopCount;
      if et.commandIndex == NOOP_INDEX {
        noop := noopCount + 1;
      } else {
        numbered := et.(commandIndex := newLLI - noopCount + 1);
      }
      assert numbered == WithNumber(full, et);
      NoopsOne(numbered);
      RepAppend(full, entries, offset, lli, noopCount, snapshot, [numbered]);
      InvAppend(Abs(), [numbered]);
      Become(entries + [numbered], newLLI, noop, full + [numbered]);
      return numbered.commandIndex;
    }

    /** The counting loop of pushEntries and removeAfter. */
    static method CountNoops(ets: seq<LogEntry>) returns (n: nat)
      ensures n == Noops(ets)
    {
      n := 0;
      NoopsEmpty();
      for i := 0 to |ets|
        invariant n == Noops(ets[..i])
      {
        CountOne(ets, i);
        if ets[i].commandIndex == NOOP_INDEX {
          n := n + 1;
        }
      }
      assert ets[..|ets|] == ets;
    }

    /** pushEntries: append entries as they are. */
    method PushEntries(ets: seq<LogEntry>)
      requires Valid()
      modifies `entries, `lli, `noopCount, `full
      ensures Valid() && Abs() == old(Abs()).(log := old(full) + ets)
    {
      var added := CountNoops(ets);
      RepAppend(full, entries, offset, lli, noopCount, snapshot, ets);
      InvAppend(Abs(), ets);
      Become(entries + ets, |entries + ets| - 1 + offset, noopCount + added, full + ets);
    }

    /** removeAfter: cut the log behind idx, which must be committed or later. */
    method RemoveAfter(idx: int)
      requires Valid() && lci <= idx <= lli
      modifies `entries, `lli, `noopCount, `full
      ensures Valid() && Abs() == old(Abs()).(log := old(full)[..idx + 1])
    {
      var kept := entries[..idx + 1 - offset];
      var removed := CountNoops(entries[idx + 1 - offset..]);
      RepCut(full, entries, offset, lli, noopCount, snapshot, idx + 1);
      InvCut(Abs(), idx + 1);
      Become(kept, |kept| - 1 + offset, noopCount - removed, full[..idx + 1]);
    }

    /** Replace everything behind idx. */
    method ReplaceAfter(idx: int, ets: seq<LogEntry>)
      requires Valid() && lci <= idx <= lli
      modifies `entries, `lli, `noopCount, `full
      ensures Valid() && Abs() == old(Abs()).(log := old(full)[..idx + 1] + ets)
    {
      assert idx == lli ==> full[..idx + 1] == full;
      if idx < lli {
        RemoveAfter(idx);
      }
      PushEntries(ets);
    }

    /** followerAppendEntries, the cases: the status, and whether entries are to be taken. */
    method Locate(prev: LogInfo) returns (status: EntryStatus, here: bool)
      requires Valid()
      ensures status == if PrevMatches(Abs(), prev) then Match else Unmatch
      ensures here <==> Takes(Abs(), prev)
      ensures here ==> lci <= prev.index <= lli
    {
      assert lli == |full| - 1;
      if prev.index < lci {
        return Match, false;
      }
      // prev.index >= lci >= -1, so the fatal branch for indexes below -1 is never taken
      if prev.index > lli {
        return Unmatch, false;
      }
      var term := IndexLogTerm(prev.index);
      if prev.index < 0 || term == prev.term {
        return Match, true;
      }
      return Unmatch, false;
    }

    /** followerAppendEntries; without entries it only answers. */
    method FollowerAppendEntries(prev: LogInfo, ets: seq<LogEntry>) returns (status: EntryStatus)
      requires Valid()
      modifies if ets == [] then {} else {this}
      ensures Valid() && Abs() == Step(old(Abs()), Append(prev, ets))
      ensures status == if PrevMatches(old(Abs()), prev) then Match else Unmatch
      ensures offset == old(offset) && snapshot == old(snapshot) && lai == old(lai)
    {
      var here;
      ghost var before := Abs();
      status, here := Locate(prev);
      if here && |ets| > 0 {
        ReplaceAfter(prev.index, ets);
        assert Abs() == AfterAppend(before, prev, ets);
      } else {
        assert before == AfterAppend(before, prev, ets);
      }
    }

    /** updateCommit: queue what becomes committed. */
    method UpdateCommit(leaderCommit: int)
      requires Valid()
      modifies `applier, `lci
      ensures Valid() && Abs() == Step(old(Abs()), Commit(leaderCommit))
    {
      if leaderCommit <= lci {
        return;
      }
      var newCommit := if leaderCommit <= lli then leaderCommit else lli;
      if newCommit > lci {
        QueueUpTo(newCommit);
      }
    }

    /** Put the entries behind the commit index up to newCommit into the channel. */
    method QueueUpTo(newCommit: int)
      requires Valid() && lci < newCommit <= lli
      modifies `applier, `lci
      ensures Valid() && Abs() == AfterCommit(old(Abs()), newCommit)
    {
      ghost var before := Abs();
      var slice := entries[lci - offset + 1..newCommit - offset + 1];
      assert slice == full[lci + 1..newCommit + 1];
      InvCommit(before, newCommit);
      applier := applier + slice;
      lci := newCommit;
      assert Abs() == AfterCommit(before, newCommit);
    }

    /** A command that is still in the log. */
    ghost predicate Retained(cmdIndex: int)
      reads this
    {
      cmdIndex != NOOP_INDEX && exists e :: e in entries && e.commandIndex == cmdIndex
    }

    /** takeSnapshot, first part: find the command and count the no-ops before it. */
    method FindCommand(cmdIndex: int) returns (logIndex: int, noops: nat)
      requires Valid() && Retained(cmdIndex)
      ensures offset <= logIndex < |full| && full[logIndex].commandIndex == cmdIndex
      ensures forall i | offset <= i < logIndex :: full[i].commandIndex != cmdIndex
      ensures noops == Noops(full[offset..logIndex])
    {
      logIndex, noops := 0, 0;
      var i := 0;
      NoopsEmpty();
      while i < |entries|
        invariant 0 <= i <= |entries| && noops == Noops(entries[..i])
        invariant forall j | 0 <= j < i :: entries[j].commandIndex != cmdIndex
      {
        CountOne(entries, i);
        if entries[i].commandIndex == NOOP_INDEX {
          noops := noops + 1;
        } else if entries[i].commandIndex == cmdIndex {
          logIndex := i + offset;
          assert entries[..i] == full[offset..logIndex];
          return;
        }
        i := i + 1;
      }
      assert false;
    }

    /**
      takeSnapshot: the log means the same, only less of it is kept.  The snapshot stays behind the
      commit index exactly when the command is committed.
     */
    method TakeSnapshot(cmdIndex: int, data: string)
      requires Valid() && Retained(cmdIndex)
      modifies `entries, `offset, `snapshot, `lai
      ensures Compacted() && Abs() == Step(old(Abs()), Compact)
      ensures old(offset) < offset <= |full| && full[offset - 1].commandIndex == cmdIndex && lai == offset - 1
      ensures forall i | old(offset) <= i < offset - 1 :: full[i].commandIndex != cmdIndex
      ensures snapshot.Some? && snapshot.value.data == data && snapshot.value.lastIncludeCmdIndex == cmdIndex
      ensures Valid() <==> offset - 1 <= lci
    {
      var logIndex, noops := FindCommand(cmdIndex);
      CompactTo(logIndex, cmdIndex, data, noops);
    }

    /** takeSnapshot, second part: everything up to logIndex goes into the snapshot. */
    method CompactTo(logIndex: int, cmdIndex: int, data: string, noops: nat)
      requires Valid() && offset <= logIndex < |full| && full[logIndex].commandIndex == cmdIndex != NOOP_INDEX
      requires noops == Noops(full[offset..logIndex])
      modifies `entries, `offset, `snapshot, `lai
      ensures Compacted() && offset == logIndex + 1 && lai == logIndex
      ensures snapshot.Some? && snapshot.value.data == data && snapshot.value.lastIncludeCmdIndex == cmdIndex
    {
      RepCompact(full, entries, offset, lli, noopCount, snapshot, logIndex, data);
      var total := if snapshot.Some? then noops + snapshot.value.noopCount else noops;
      var term := IndexLogTerm(logIndex);
      snapshot := Some(Snapshot(data, logIndex, term, cmdIndex, total));
      entries := entries[logIndex - offset + 1..];
      offset := logIndex + 1;
      lai := logIndex;
    }
  }

  lemma CountOne(ets: seq<LogEntry>, i: nat)
    requires i < |ets|
    ensures Noops(ets[..i + 1]) == Noops(ets[..i]) + if IsNoop(ets[i]) then 1 else 0
  {
    assert ets[..i + 1] == ets[..i] + [ets[i]];
    NoopsSnoc(ets[..i], ets[i]);
  }

  /** Appending leaves the committed part alone ... */
  lemma InvAppend(a: AbsLog, more: seq<LogEntry>)
    requires Inv(a)
    ensures Inv(a.(log := a.log + more))
  {
    assert (a.log + more)[..a.committed + 1] == a.log[..a.committed + 1];
  }

  /** ... and so does cutting behind it. */
  lemma InvCut(a: AbsLog, n: nat)
    requires Inv(a) && a.committed < n <= |a.log|
    ensures Inv(a.(log := a.log[..n]))
  {
    assert a.log[..n][..a.committed + 1] == a.log[..a.committed + 1];
  }

  /** Committing more queues exactly that. */
  lemma InvCommit(a: AbsLog, newCommit: int)
    requires Inv(a) && a.committed < newCommit < |a.log|
    ensures Inv(AfterCommit(a, newCommit))
  {
    assert a.log[..newCommit + 1] == a.log[..a.committed + 1] + a.log[a.committed + 1..newCommit + 1];
  }
}
