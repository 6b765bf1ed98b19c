/**
  The counter of unfinished map tasks in src/mr/coordinator.go is 16 bits wide.  This module says
  for which jobs that is enough, and builds the runs in which it is not.
 */
module JobSize {
  import opened Options
  import opened Coordinator

  /** No run ends in a handler that finds a task of another stage. */
  ghost predicate NeverMismatched(c: Config) {
    forall steps: seq<Step>, run: seq<State> | IsRun(c, steps, run) :: run[|steps|].panic != Some(StageMismatch)
  }

  /** The container never holds map tasks and reduce tasks at the same time. */
  ghost predicate NeverMixed(c: Config) {
    forall steps: seq<Step>, run: seq<State> | IsRun(c, steps, run) :: !Mixed(run[|steps|])
  }

  ghost predicate Mixed(s: State) {
    (exists t :: t in s.queue && t.Map?) && (exists t :: t in s.queue && t.Reduce?)
  }

  /** A job that is DONE has mapped every file. */
  ghost predicate DoneIsMapped(c: Config) {
    forall steps: seq<Step>, run: seq<State> | IsRun(c, steps, run) ::
      run[|steps|].stage == Done ==> AllMapped(c, run[|steps|])
  }

  // ---- a single worker

  /** There is one worker, with the given id, and nothing is going on. */
  ghost predicate Idle(s: State, id: int) {
    && s.panic.None? && s.stageHolder.None? && s.handlers == map[]
    && s.workers.Keys == {id} && s.workers[id] < |s.objects| && s.objects[s.workers[id]].task.None?
  }

  /** The worker gets the next task and finishes it. */
  lemma Round(c: Config, s: State, id: int) returns (steps: seq<Step>, t: State)
    requires Idle(s, id) && s.queue != [] && s.stage == StageFor(s.queue[0])
    ensures Leads(c, s, steps, t) && Idle(t, id)
    ensures s.queue[0].Map? ==>
              && t.unfinishedMap == Decrement(s.unfinishedMap) && t.unfinishedReduce == s.unfinishedReduce
              && t.queue == s.queue[1..] + (if t.unfinishedMap == 0 then ReduceTasks(c.nReduce) else [])
              && t.stage == if t.unfinishedMap == 0 then Reducing else Mapping
    ensures s.queue[0].Reduce? ==>
              && t.unfinishedReduce == Decrement(s.unfinishedReduce) && t.queue == s.queue[1..]
              && t.stage == if t.unfinishedReduce == 0 then Done else Reducing
  {
    var o := s.workers[id];
    var u := GetEffect(c, s, id);
    t := FinishEffect(c, u, id);
    steps := GetSteps(id, o) + FinishSteps(id, o);
    LeadsConcat(c, s, GetSteps(id, o), u, FinishSteps(id, o), t);
  }

  /** The worker gets the next task and expires; another one registers. */
  lemma Rotate(c: Config, s: State, id: int) returns (steps: seq<Step>, t: State, id': int)
    requires Idle(s, id) && s.queue != []
    ensures Leads(c, s, steps, t) && Idle(t, id') && t.queue == s.queue[1..] + [s.queue[0]]
    ensures t.stage == s.stage && t.unfinishedReduce == s.unfinishedReduce
  {
    var u := GetEffect(c, s, id);
    var gone := Apply(c, u, Expire(id));
    t, id' := Apply(c, gone, Register), NextId(gone);
    LeadsOne(c, gone, Register);
    LeadsCons(c, u, Expire(id), [Register], t);
    steps := GetSteps(id, s.workers[id]) + ([Expire(id)] + [Register]);
    LeadsConcat(c, s, GetSteps(id, s.workers[id]), u, [Expire(id)] + [Register], t);
    assert gone.workers == map[];
  }

  lemma OneFurther(queue: seq<Task>, n: nat)
    requires 0 < n <= |queue|
    ensures var q := queue[n - 1..] + queue[..n - 1]; q[1..] + [q[0]] == queue[n..] + queue[..n]
  {
    var q := queue[n - 1..] + queue[..n - 1];
    assert q[0] == queue[n - 1] && q[1..] == queue[n..] + queue[..n - 1];
  }

  lemma {:induction false} RotateMany(c: Config, s: State, id: int, n: nat)
    returns (steps: seq<Step>, t: State, id': int)
    requires Idle(s, id) && n <= |s.queue|
    ensures Leads(c, s, steps, t) && Idle(t, id') && t.queue == s.queue[n..] + s.queue[..n]
    ensures t.stage == s.stage && t.unfinishedReduce == s.unfinishedReduce
    decreases n
  {
    if n == 0 {
      steps, t, id' := [], s, id;
    } else {
      var before, u, id'' := RotateMany(c, s, id, n - 1);
      var last;
      last, t, id' := Rotate(c, u, id'');
      OneFurther(s.queue, n);
      steps := before + last;
      LeadsConcat(c, s, before, u, last, t);
    }
  }

  // ---- too many files

  /** The worker has finished the first i files. */
  ghost predicate AfterRounds(c: Config, s: State, i: nat) {
    && Idle(s, 1) && i <= c.files && s.queue == MapTasks(c.files)[i..] && s.stage == Mapping
    && s.unfinishedMap == (c.files - i) % UINT16 && s.unfinishedReduce == c.nReduce
  }

  lemma {:induction false} Rounds(c: Config, n: nat) returns (steps: seq<Step>, t: State)
    requires c.files > 0 && n < FirstZero(c) && n <= c.files
    ensures Leads(c, Init(c), steps, t) && AfterRounds(c, t, n)
    decreases n
  {
    if n == 0 {
      steps, t := [Register], Apply(c, Init(c), Register);
      LeadsOne(c, Init(c), Register);
    } else {
      var before, s := Rounds(c, n - 1);
      CounterAfter(c, n - 1);
      var last;
      last, t := Round(c, s, 1);
      steps := before + last;
      LeadsConcat(c, Init(c), before, s, last, t);
    }
  }

  /** With more than 65536 files the reduce stage begins before the last file is mapped. */
  lemma EarlyReduce(c: Config) returns (steps: seq<Step>, t: State)
    requires c.files > UINT16
    ensures Leads(c, Init(c), steps, t) && Idle(t, 1)
    ensures t.stage == Reducing && t.unfinishedReduce == c.nReduce
    ensures t.queue == MapTasks(c.files)[FirstZero(c)..] + ReduceTasks(c.nReduce)
  {
    var n := FirstZero(c);
    var before, s := Rounds(c, n - 1);
    CounterAfter(c, n - 1);
    var last;
    last, t := Round(c, s, 1);
    steps := before + last;
    LeadsConcat(c, Init(c), before, s, last, t);
  }

  lemma BothKinds(c: Config, queue: seq<Task>, n: nat)
    requires n < c.files && c.nReduce > 0 && queue == MapTasks(c.files)[n..] + ReduceTasks(c.nReduce)
    ensures queue[0] == Map(n) && queue[0] in queue
    ensures queue[|queue| - 1].Reduce? && queue[|queue| - 1] in queue
  {
    assert queue[|queue| - 1] == Reduce(c.nReduce - 1);
  }

  /** The next file that is finished then makes the coordinator panic. */
  lemma Overflow(c: Config) returns (steps: seq<Step>, run: seq<State>)
    requires c.files > UINT16
    ensures IsRun(c, steps, run) && run[|steps|].panic == Some(StageMismatch)
  {
    var before, s := EarlyReduce(c);
    var o := s.workers[1];
    assert s.queue[0] == Map(FirstZero(c));
    var u := GetEffect(c, s, 1);
    var locked := Apply(c, u, FinishLock(1));
    var t := Apply(c, locked, FinishStage(o));
    LeadsOne(c, locked, FinishStage(o));
    LeadsCons(c, u, FinishLock(1), [FinishStage(o)], t);
    LeadsConcat(c, s, GetSteps(1, o), u, [FinishLock(1)] + [FinishStage(o)], t);
    steps := before + (GetSteps(1, o) + ([FinishLock(1)] + [FinishStage(o)]));
    LeadsConcat(c, Init(c), before, s, GetSteps(1, o) + ([FinishLock(1)] + [FinishStage(o)]), t);
    run := LeadsRun(c, steps, t);
  }

  /** Reduce tasks in front are finished one after the other, and the job is done. */
  lemma {:induction false} ReduceAll(c: Config, s: State, id: int, n: nat) returns (steps: seq<Step>, t: State)
    requires Idle(s, id) && s.stage == Reducing && 0 < n == s.unfinishedReduce < UINT16 && n <= |s.queue|
    requires forall i | 0 <= i < n :: s.queue[i].Reduce?
    ensures Leads(c, s, steps, t) && t.stage == Done && t.queue == s.queue[n..]
    decreases n
  {
    steps, t := Round(c, s, id);
    if n > 1 {
      var rest, done := ReduceAll(c, t, id, n - 1);
      LeadsConcat(c, s, steps, t, rest, done);
      steps, t := steps + rest, done;
    }
  }

  /** The files that are left are passed on until the reduce tasks come first: the job is done without them. */
  lemma EarlyDone(c: Config) returns (steps: seq<Step>, t: State)
    requires c.files > UINT16 && c.nReduce > 0
    ensures Leads(c, Init(c), steps, t) && t.stage == Done && Map(FirstZero(c)) in t.queue
  {
    var n := c.files - FirstZero(c);
    var first, s := EarlyReduce(c);
    var turns, u, id := RotateMany(c, s, 1, n);
    assert u.queue == ReduceTasks(c.nReduce) + MapTasks(c.files)[FirstZero(c)..];
    var reduces;
    reduces, t := ReduceAll(c, u, id, c.nReduce);
    assert t.queue[0] == Map(FirstZero(c));
    LeadsConcat(c, s, turns, u, reduces, t);
    LeadsConcat(c, Init(c), first, s, turns + reduces, t);
    steps := first + (turns + reduces);
  }

  // ---- which jobs fit

  /** The stage panics are out of reach exactly for jobs of at most 65536 files. */
  lemma FilesFit(c: Config)
    ensures NeverMismatched(c) <==> c.files <= UINT16
  {
    if c.files <= UINT16 {
      forall steps: seq<Step>, run: seq<State> | IsRun(c, steps, run)
        ensures run[|steps|].panic != Some(StageMismatch)
      {
        NoStageMismatch(c, steps, run, |steps|);
      }
    } else {
      var steps, run := Overflow(c);
      assert !NeverMismatched(c);
    }
  }

  lemma NotMixed(c: Config, s: State)
    requires Inv(c, s) && (c.files <= UINT16 || c.nReduce == 0)
    ensures !Mixed(s)
  {
    if c.nReduce > 0 && Released(c, s) {
      ReleasedIsMapped(c, s);
      assert forall t | t in s.queue :: !t.Map?;
    } else {
      assert forall t | t in s.queue :: !t.Reduce?;
    }
  }

  /** And so is a container with tasks of both kinds, unless there is nothing to reduce. */
  lemma ReducesWait(c: Config)
    ensures NeverMixed(c) <==> c.files <= UINT16 || c.nReduce == 0
  {
    if c.files <= UINT16 || c.nReduce == 0 {
      forall steps: seq<Step>, run: seq<State> | IsRun(c, steps, run) ensures !Mixed(run[|steps|]) {
        RunInv(c, steps, run, |steps|);
        NotMixed(c, run[|steps|]);
      }
    } else {
      var steps, t := EarlyReduce(c);
      BothKinds(c, t.queue, FirstZero(c));
      var run := LeadsRun(c, steps, t);
      assert !NeverMixed(c);
    }
  }

  /** DONE means that every file is mapped, for exactly the same jobs. */
  lemma DoneFits(c: Config)
    ensures DoneIsMapped(c) <==> c.files <= UINT16 || c.nReduce == 0
  {
    if c.files <= UINT16 || c.nReduce == 0 {
      forall steps: seq<Step>, run: seq<State> | IsRun(c, steps, run)
        ensures run[|steps|].stage == Done ==> AllMapped(c, run[|steps|])
      {
        DoneMeansReduced(c, steps, run, |steps|);
      }
    } else {
      var steps, t := EarlyDone(c);
      var run := LeadsRun(c, steps, t);
      RunInv(c, steps, run, |steps|);
      assert !IsFinished(t, Map(FirstZero(c)));
      assert !DoneIsMapped(c);
    }
  }
}
