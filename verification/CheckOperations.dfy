/**
  checkOperations of src/porcupine/checker.go from end to end, for the key/value
  model: partition, make entries, search the parts in parallel.
 */
module CheckOperations {
  import opened Collections
  import opened Histories
  import opened Search
  import opened Sorting
  import opened Prepass
  import opened KvModel
  import CheckSingle
  import Parallel

  /** Equality of strings is a congruence for Step, so the cache may be trusted. */
  lemma KvEqualSimulates()
    ensures EqualSimulates(Kv())
  {
  }

  /** hs are the histories handed to the goroutines, one per part. */
  ghost predicate Prepared(parts: seq<seq<KvOp>>, hs: seq<seq<Entry<KvValue>>>) {
    && |hs| == |parts|
    && forall i | 0 <= i < |parts| :: WellFormed(hs[i]) && Faithful(parts[i], hs[i])
  }

  /** hs are the histories of the parts of the operations. */
  ghost predicate HandedOut(ops: seq<KvOp>, hs: seq<seq<Entry<KvValue>>>) {
    exists parts :: SortedPartition(ops, parts) && Prepared(parts, hs)
  }

  /** The part of checkOperations before checkParallel. */
  method Prepare(history: seq<KvOp>)
    returns (hs: seq<seq<Entry<KvValue>>>)
    requires Timed(history) && Typed(history)
    ensures HandedOut(history, hs)
  {
    var partitions := Partition(history);
    ghost var keys :| IsPartition(history, keys, partitions) && Sorted(StringLess, keys);
    hs := [];
    for i := 0 to |partitions|
      invariant |hs| == i && forall j | 0 <= j < i :: WellFormed(hs[j]) && Faithful(partitions[j], hs[j])
    {
      PartTimed(history, keys[i]);
      var h := MakeEntries(partitions[i]);
      hs := hs + [h];
    }
    assert Prepared(partitions, hs);
  }

  lemma PartTimed(ops: seq<KvOp>, key: string)
    requires Timed(ops)
    ensures Timed(ForKey(ops, key))
  {
    ForKeyElements(ops, key);
    forall i | 0 <= i < |ForKey(ops, key)| ensures ForKey(ops, key)[i].call <= ForKey(ops, key)[i].ret {
      assert ForKey(ops, key)[i] in ops;
    }
  }

  /**
    One goroutine of checkParallel, for a model that can be trusted with a cache: what it posts is
    what the state machine lets it post, and unless it is killed its records are the longest ones.
   */
  method Goroutine<S(!new), V(!new)>(m: Model<S, V>, h: seq<Entry<V>>, computeInfo: bool, kill: nat -> bool)
    returns (ok: bool, longest: Longest)
    requires WellFormed(h) && EqualSimulates(m)
    ensures Parallel.MayAnswer(Linearizable(m, h), exists i :: kill(i), ok)
    ensures Sound(m, h, longest)
    ensures ok || (computeInfo && forall i :: !kill(i)) ==>
              forall x | 0 <= x < Size(h) :: Maximal(m, h, x, longest[x])
  {
    ghost var killed;
    ok, longest, killed := CheckSingle.CheckSingle(m, h, computeInfo, kill);
  }

  /** A load of the kill flag is true only if the flag is set in some state of the run. */
  ghost predicate Observes(run: seq<Parallel.State>, kill: nat -> bool) {
    forall i | kill(i) :: exists k :: 0 <= k < |run| && run[k].kill
  }

  /** In a run with information wanted and no timer, every goroutine's records are the longest ones. */
  method GoroutineOf<S(!new), V(!new)>(
    m: Model<S, V>, h: seq<Entry<V>>, c: Parallel.Config, kill: nat -> bool, ghost run: seq<Parallel.State>)
    returns (ok: bool, longest: Longest)
    requires WellFormed(h) && EqualSimulates(m) && Parallel.IsRun(c, run) && Observes(run, kill)
    ensures c.computeInfo && !c.hasTimeout ==>
              && (ok <==> Linearizable(m, h))
              && |longest| == Size(h) && forall x | 0 <= x < Size(h) :: Maximal(m, h, x, longest[x])
  {
    ok, longest := Goroutine(m, h, c.computeInfo, kill);
    if c.computeInfo && !c.hasTimeout {
      forall i ensures !kill(i) {
        if kill(i) {
          var k :| 0 <= k < |run| && run[k].kill;
          Parallel.NeverKilled(c, run, k);
        }
      }
    }
  }

  ghost function Truth(hs: seq<seq<Entry<KvValue>>>): seq<bool>
    requires forall i | 0 <= i < |hs| :: WellFormed(hs[i])
  {
    seq(|hs|, i requires 0 <= i < |hs| => Linearizable(Kv(), hs[i]))
  }

  /**
    CheckOperations decides linearizability of the whole store: without a timeout, whatever
    the interleaving, the answer is Ok exactly when the history is linearizable; with one,
    Ok and Illegal can still be relied on, and Unknown means that the timer fired and
    the main loop had not taken the answer of a part that is not linearizable.
   */
  lemma CheckOperationsDecides(
    ops: seq<KvOp>, hs: seq<seq<Entry<KvValue>>>, c: Parallel.Config, run: seq<Parallel.State>, k: nat)
    requires Timed(ops) && HandedOut(ops, hs) && c.lin == Truth(hs)
    requires Parallel.IsRun(c, run) && k < |run| && run[k].phase == Parallel.Finished
    ensures !c.hasTimeout ==>
              (Parallel.Result(run[k]) == Parallel.Ok <==> OpsLinearizable(WholeStore(), ops))
    ensures Parallel.Result(run[k]) == Parallel.Ok ==> OpsLinearizable(WholeStore(), ops)
    ensures Parallel.Result(run[k]) == Parallel.Illegal ==> !OpsLinearizable(WholeStore(), ops)
    ensures Parallel.Result(run[k]) == Parallel.Illegal <==> Parallel.Refused(c, run, k)
    ensures Parallel.Result(run[k]) == Parallel.Unknown <==> !Parallel.Refused(c, run, k) && Parallel.Fired(c, run, k)
  {
    var parts :| SortedPartition(ops, parts) && Prepared(parts, hs);
    var keys :| IsPartition(ops, keys, parts) && Sorted(StringLess, keys);
    Locality(ops, keys, parts);
    forall i | 0 <= i < |parts| ensures c.lin[i] == OpsLinearizable(Kv(), parts[i]) {
      EntriesKeepMeaning(Kv(), parts[i], hs[i]);
    }
    Parallel.AnswerIsTrue(c, run, k);
    Parallel.AnswerByHistory(c, run, k);
  }

  /** Without a timeout, the check of a history comes to an end in every interleaving exactly when the history is not empty. */
  lemma AnswersNonempty(ops: seq<KvOp>, hs: seq<seq<Entry<KvValue>>>, c: Parallel.Config)
    requires HandedOut(ops, hs) && c.lin == Truth(hs)
    ensures Parallel.AlwaysAnswers(c) <==> ops != [] || c.hasTimeout
  {
    var parts :| SortedPartition(ops, parts) && Prepared(parts, hs);
    var keys :| IsPartition(ops, keys, parts) && Sorted(StringLess, keys);
    assert ops != [] ==> ops[0] in ops && KeyOf(ops[0]) in Elements(keys);
    assert keys != [] ==> keys[0] in Elements(keys);
    Parallel.AnswersExactly(c);
  }

  /** What the goroutine for h finds out; only well-formed histories have an answer. */
  ghost predicate Verdict<S, V>(m: Model<S, V>, h: seq<Entry<V>>) {
    WellFormed(h) && Linearizable(m, h)
  }

  /**
    The same for a history given as events, in which every call has its return, and any model that
    can be trusted with a cache; such a history is not cut into parts.
   */
  lemma CheckEventsDecides<S(!new), V(!new)>(
    m: Model<S, V>, events: seq<Event<V>>, e: seq<Event<V>>, h: seq<Entry<V>>,
    c: Parallel.Config, run: seq<Parallel.State>, k: nat)
    requires EqualSimulates(m) && Paired(events) && Renumbered(events, e) && Converted(e, h)
    requires c.lin == [Verdict(m, h)]
    requires Parallel.IsRun(c, run) && k < |run| && run[k].phase == Parallel.Finished
    ensures !c.hasTimeout ==> (Parallel.Result(run[k]) == Parallel.Ok <==> EventsLinearizable(m, events))
    ensures Parallel.Result(run[k]) == Parallel.Ok ==> EventsLinearizable(m, events)
    ensures Parallel.Result(run[k]) == Parallel.Illegal ==> !EventsLinearizable(m, events)
    ensures Parallel.Result(run[k]) == Parallel.Illegal <==> Parallel.Refused(c, run, k)
    ensures Parallel.Result(run[k]) == Parallel.Unknown <==> !Parallel.Refused(c, run, k) && Parallel.Fired(c, run, k)
  {
    RenumberedWellFormed(events, e, h);
    EventsKeepMeaning(m, events, e, h);
    Parallel.AnswerIsTrue(c, run, k);
    Parallel.AnswerByHistory(c, run, k);
    assert c.lin[0] == Linearizable(m, h);
  }
}
