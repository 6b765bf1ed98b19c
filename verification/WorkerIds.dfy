/**
  Worker ids of src/mr are 16 bits wide and are given out again after 65536 registrations.  A
  worker object whose id has gone to another one can not be reached any more, neither by a request
  nor by an expiry: this module says exactly when a task is lost with it.
 */
module WorkerIds {
  import opened Options
  import opened Coordinator

  /** The id of object o still stands for o. */
  predicate Live(s: State, o: nat) {
    o < |s.objects| && s.objects[o].id in s.workers && s.workers[s.objects[o].id] == o
  }

  /** Object o holds t, is not about to finish it, and can not be reached. */
  predicate StrandedAt(s: State, t: Task, o: nat) {
    Holds(s, t, o) && !Live(s, o) && !At(s, o, Finishing)
  }

  ghost predicate Stranded(s: State, t: Task) {
    exists o: nat :: StrandedAt(s, t, o)
  }

  /**
    The step takes t out of reach: the id goes to a new worker while the old one holds t and is
    not about to finish it, or t is given to an object whose id is gone already.
   */
  predicate LosesAt(s: State, step: Step, t: Task, o: nat) {
    match step
    case Register =>
      NextId(s) in s.workers && s.workers[NextId(s)] == o && Holds(s, t, o) && !At(s, o, Finishing)
    case GetAssign(p) => p == o && At(s, o, Took(t)) && !Live(s, o)
    case _ => false
  }

  ghost predicate Loses(s: State, step: Step, t: Task) {
    exists o: nat :: LosesAt(s, step, t, o)
  }

  lemma StrandedByRegister(c: Config, s: State, t: Task, o: nat)
    requires ObjectInv(s) && Enabled(s, Register)
    ensures StrandedAt(Apply(c, s, Register), t, o) <==> StrandedAt(s, t, o) || LosesAt(s, Register, t, o)
  {
    var u := Apply(c, s, Register);
    if o < |s.objects| {
      assert u.objects[o] == s.objects[o];
      assert Live(u, o) <==> Live(s, o) && s.objects[o].id != NextId(s);
    }
  }

  /** A handler can only be started for an object that is in reach, and so is one that expires. */
  lemma StrandedById(c: Config, s: State, step: Step, t: Task, o: nat)
    requires ObjectInv(s) && Enabled(s, step) && (step.GetLock? || step.FinishLock? || step.Expire?)
    ensures StrandedAt(Apply(c, s, step), t, o) <==> StrandedAt(s, t, o)
  {
    var p := s.workers[step.id];
    assert Live(s, p);
    assert p != o ==> (Live(Apply(c, s, step), o) <==> Live(s, o));
  }

  /** The other steps do not change who is in reach. */
  lemma SameReach(c: Config, s: State, step: Step, o: nat)
    requires Enabled(s, step)
    requires step.GetTake? || step.GetAssign? || step.FinishStage? || step.FinishUnstage? || step.FinishClear?
    ensures Live(Apply(c, s, step), o) <==> Live(s, o)
  {
    var u := Apply(c, s, step);
    assert u.workers == s.workers && |u.objects| == |s.objects|;
    assert o < |s.objects| ==> u.objects[o].id == s.objects[o].id;
  }

  lemma StrandedByGet(c: Config, s: State, step: Step, t: Task, o: nat)
    requires HandlerInv(s) && Enabled(s, step) && (step.GetTake? || step.GetAssign?)
    ensures StrandedAt(Apply(c, s, step), t, o) <==> StrandedAt(s, t, o) || LosesAt(s, step, t, o)
  {
    SameReach(c, s, step, o);
  }

  lemma StrandedByFinish(c: Config, s: State, step: Step, t: Task, o: nat)
    requires Enabled(s, step) && (step.FinishStage? || step.FinishUnstage? || step.FinishClear?)
    ensures StrandedAt(Apply(c, s, step), t, o) <==> StrandedAt(s, t, o)
  {
    SameReach(c, s, step, o);
    if o != step.o {
      assert o < |s.objects| ==> Apply(c, s, step).objects[o] == s.objects[o];
      assert Counted(Apply(c, s, step), o) <==> Counted(s, o);
    }
  }

  /** Exactly the losing steps strand a task, and nothing ever brings it back. */
  lemma StrandedStep(c: Config, s: State, step: Step, t: Task)
    requires PlaceInv(s) && Enabled(s, step)
    ensures Stranded(Apply(c, s, step), t) <==> Stranded(s, t) || Loses(s, step, t)
  {
    forall o: nat
      ensures StrandedAt(Apply(c, s, step), t, o) <==> StrandedAt(s, t, o) || LosesAt(s, step, t, o)
    {
      match step
      case Register => StrandedByRegister(c, s, t, o);
      case GetLock(_) => StrandedById(c, s, step, t, o);
      case FinishLock(_) => StrandedById(c, s, step, t, o);
      case Expire(_) => StrandedById(c, s, step, t, o);
      case GetTake(_) => StrandedByGet(c, s, step, t, o);
      case GetAssign(_) => StrandedByGet(c, s, step, t, o);
      case _ => StrandedByFinish(c, s, step, t, o);
    }
  }

  ghost predicate LostAt(steps: seq<Step>, run: seq<State>, t: Task, j: nat) {
    j < |steps| && j < |run| && Loses(run[j], steps[j], t)
  }

  lemma StrandedNext(c: Config, steps: seq<Step>, run: seq<State>, k: nat, t: Task)
    requires IsRun(c, steps, run) && k < |steps|
    ensures Stranded(run[k + 1], t) <==> Stranded(run[k], t) || Loses(run[k], steps[k], t)
  {
    RunInv(c, steps, run, k);
    assert StepAt(c, steps, run, k);
    StrandedStep(c, run[k], steps[k], t);
  }

  /** Over every run, a task is stranded exactly when some step before has lost it. */
  lemma {:induction false} StrandedExactly(c: Config, steps: seq<Step>, run: seq<State>, k: nat, t: Task)
    requires IsRun(c, steps, run) && k < |run|
    ensures Stranded(run[k], t) <==> exists j: nat :: j < k && LostAt(steps, run, t, j)
  {
    if k > 0 {
      StrandedExactly(c, steps, run, k - 1, t);
      StrandedNext(c, steps, run, k - 1, t);
      assert Loses(run[k - 1], steps[k - 1], t) <==> LostAt(steps, run, t, k - 1);
    }
  }

  /**
    Without a losing step every task is in reach: in the container, with a handler, with one worker
    that can be reached or is just finishing it, or finished.
   */
  lemma InReach(c: Config, steps: seq<Step>, run: seq<State>, k: nat, t: Task, o: nat)
    requires IsRun(c, steps, run) && k < |run| && t in run[k].at
    requires forall j: nat | j < k :: !LostAt(steps, run, t, j)
    ensures run[k].at[t] == HeldBy(o) <==> Holds(run[k], t, o)
    ensures run[k].at[t] == HeldBy(o) ==> Live(run[k], o) || At(run[k], o, Finishing)
  {
    StrandedExactly(c, steps, run, k, t);
    Conservation(c, steps, run, k, t);
    assert !StrandedAt(run[k], t, o);
  }

  /** A registration keeps every task in reach exactly when the old worker of the id, if any, is idle or finishing. */
  lemma RegisterKeeps(c: Config, steps: seq<Step>, run: seq<State>, k: nat)
    requires IsRun(c, steps, run) && k < |run| && run[k].panic.None?
    requires forall t :: !Stranded(run[k], t)
    ensures (forall t :: !Stranded(Apply(c, run[k], Register), t)) <==>
            (NextId(run[k]) in run[k].workers ==>
               var o := run[k].workers[NextId(run[k])];
               o < |run[k].objects| && (run[k].objects[o].task.None? || At(run[k], o, Finishing) || Counted(run[k], o)))
  {
    var s := run[k];
    RunInv(c, steps, run, k);
    forall t ensures Stranded(Apply(c, s, Register), t) <==> Loses(s, Register, t) {
      StrandedStep(c, s, Register, t);
    }
    if t :| Loses(s, Register, t) {
      assert Stranded(Apply(c, s, Register), t);
    }
    if NextId(s) in s.workers {
      var o := s.workers[NextId(s)];
      if s.objects[o].task.Some? && !At(s, o, Finishing) && !Counted(s, o) {
        assert LosesAt(s, Register, s.objects[o].task.value, o);
        assert Stranded(Apply(c, s, Register), s.objects[o].task.value);
      }
    }
  }

  /**
    A lost task is never finished.  So a job that has lost a task is never done, except for a map
    task that is not waited for because there are too many files.
   */
  lemma {:induction false} NeverDone(c: Config, steps: seq<Step>, run: seq<State>, j: nat, k: nat, t: Task)
    requires IsRun(c, steps, run) && j <= k < |run| && Stranded(run[j], t)
    ensures Stranded(run[k], t) && !IsFinished(run[k], t)
    ensures run[k].stage == Done ==> t.Map? && c.files > UINT16
    decreases k - j
  {
    if j < k {
      NeverDone(c, steps, run, j, k - 1, t);
      StrandedNext(c, steps, run, k - 1, t);
    }
    StrandedUnfinished(c, steps, run, k, t);
  }

  lemma StrandedUnfinished(c: Config, steps: seq<Step>, run: seq<State>, k: nat, t: Task)
    requires IsRun(c, steps, run) && k < |run| && Stranded(run[k], t)
    ensures !IsFinished(run[k], t) && (run[k].stage == Done ==> t.Map? && c.files > UINT16)
  {
    RunInv(c, steps, run, k);
    var o: nat :| StrandedAt(run[k], t, o);
    assert run[k].at[t] == HeldBy(o);
    DoneMeansReduced(c, steps, run, k);
    if t.Map? { assert t.file < c.files; } else { assert t.id < c.nReduce; }
  }

  // ---- which ids are given out

  /** How many workers have registered. */
  function Registrations(steps: seq<Step>): nat {
    if steps == [] then 0
    else Registrations(steps[..|steps| - 1]) + if steps[|steps| - 1] == Register then 1 else 0
  }

  /** Object o is the worker of registration number o + 1, and has that number as its id, in 16 bits. */
  ghost predicate IdInv(s: State) {
    && s.workerIDAcc == |s.objects|
    && (forall o | 0 <= o < |s.objects| :: s.objects[o].id == (o + 1) % UINT16)
  }

  lemma CutTwice(n: nat)
    ensures n % 0x1_0000_0000 % UINT16 == n % UINT16
  {
  }

  /** Only registrations make worker objects, and no object changes its id. */
  lemma SameIds(c: Config, s: State, step: Step)
    requires Enabled(s, step) && step != Register
    ensures var t := Apply(c, s, step);
            && t.workerIDAcc == s.workerIDAcc && |t.objects| == |s.objects|
            && forall o | 0 <= o < |s.objects| :: t.objects[o].id == s.objects[o].id
  {
  }

  lemma IdStep(c: Config, s: State, step: Step)
    requires IdInv(s) && Enabled(s, step)
    ensures IdInv(Apply(c, s, step))
    ensures |Apply(c, s, step).objects| == |s.objects| + if step == Register then 1 else 0
  {
    if step == Register { CutTwice(s.workerIDAcc + 1); } else { SameIds(c, s, step); }
  }

  lemma {:induction false} RunIds(c: Config, steps: seq<Step>, run: seq<State>, k: nat)
    requires IsRun(c, steps, run) && k < |run|
    ensures IdInv(run[k]) && |run[k].objects| == Registrations(steps[..k])
  {
    if k > 0 {
      RunIds(c, steps, run, k - 1);
      assert StepAt(c, steps, run, k - 1);
      IdStep(c, run[k - 1], steps[k - 1]);
      assert steps[..k][..k - 1] == steps[..k - 1];
    }
  }

  /** The n-th and the m-th registration give out the same id exactly when 65536 divides m - n. */
  lemma SameRemainder(i: nat, j: nat)
    requires i < j
    ensures (i + 1) % UINT16 == (j + 1) % UINT16 <==> (j - i) % UINT16 == 0
  {
  }

  /**
    Over every run: one object per registration, the first with id 1, and two of them with the same
    id exactly when their registrations are a multiple of 65536 apart.
   */
  lemma IdsComeRound(c: Config, steps: seq<Step>, run: seq<State>, k: nat, i: nat, j: nat)
    requires IsRun(c, steps, run) && k < |run| && i < j < |run[k].objects|
    ensures |run[k].objects| == Registrations(steps[..k]) && run[k].objects[0].id == 1
    ensures run[k].objects[i].id == run[k].objects[j].id <==> (j - i) % UINT16 == 0
  {
    RunIds(c, steps, run, k);
    SameRemainder(i, j);
  }

  /** Whoever is being served can be reached. */
  ghost predicate ServedInReach(s: State) {
    forall o | o in s.handlers :: Live(s, o)
  }

  /** Nobody's id is taken away. */
  lemma NewIdIsFree(s: State)
    requires ObjectInv(s) && IdInv(s) && |s.objects| < UINT16
    ensures NextId(s) !in s.workers
  {
    CutTwice(s.workerIDAcc + 1);
    forall o: nat | o < |s.objects| ensures s.objects[o].id != NextId(s) {
      SameRemainder(o, |s.objects|);
    }
  }

  lemma ServedRegister(c: Config, s: State)
    requires ObjectInv(s) && ServedInReach(s) && Enabled(s, Register) && NextId(s) !in s.workers
    ensures ServedInReach(Apply(c, s, Register)) && forall t :: !Loses(s, Register, t)
  {
    var u := Apply(c, s, Register);
    forall o | o in u.handlers ensures Live(u, o) { assert Live(s, o); }
  }

  lemma ServedById(c: Config, s: State, step: Step)
    requires ObjectInv(s) && ServedInReach(s) && Enabled(s, step)
    requires step.GetLock? || step.FinishLock? || step.Expire?
    ensures ServedInReach(Apply(c, s, step))
  {
    var u := Apply(c, s, step);
    assert Live(s, s.workers[step.id]);
    forall o | o in u.handlers ensures Live(u, o) { assert Live(s, o); }
  }

  lemma ServedOther(c: Config, s: State, step: Step)
    requires ServedInReach(s) && Enabled(s, step)
    requires step.GetTake? || step.GetAssign? || step.FinishStage? || step.FinishUnstage? || step.FinishClear?
    ensures ServedInReach(Apply(c, s, step))
  {
    var u := Apply(c, s, step);
    assert u.handlers.Keys <= s.handlers.Keys;
    forall o | o in u.handlers ensures Live(u, o) {
      SameReach(c, s, step, o);
      assert Live(s, o);
    }
  }

  /** As long as ids are new, whoever is being served stays in reach, and no task is lost. */
  lemma ServedStep(c: Config, s: State, step: Step)
    requires ObjectInv(s) && IdInv(s) && ServedInReach(s) && Enabled(s, step) && |Apply(c, s, step).objects| <= UINT16
    ensures ServedInReach(Apply(c, s, step)) && forall t :: !Loses(s, step, t)
  {
    if step == Register {
      NewIdIsFree(s);
      ServedRegister(c, s);
    } else if step.GetLock? || step.FinishLock? || step.Expire? {
      ServedById(c, s, step);
    } else {
      ServedOther(c, s, step);
    }
  }

  lemma {:induction false} RunServed(c: Config, steps: seq<Step>, run: seq<State>, k: nat)
    requires IsRun(c, steps, run) && k < |run| && |run[k].objects| <= UINT16
    ensures ServedInReach(run[k]) && forall t :: !Stranded(run[k], t)
  {
    if k > 0 {
      RunInv(c, steps, run, k - 1);
      RunIds(c, steps, run, k - 1);
      assert StepAt(c, steps, run, k - 1);
      IdStep(c, run[k - 1], steps[k - 1]);
      RunServed(c, steps, run, k - 1);
      ServedStep(c, run[k - 1], steps[k - 1]);
      forall t ensures !Stranded(run[k], t) { StrandedNext(c, steps, run, k - 1, t); }
    }
  }

  /** No run with at most n registrations strands a task. */
  ghost predicate NeverStranded(c: Config, n: int) {
    forall steps: seq<Step>, run: seq<State>, t: Task |
      IsRun(c, steps, run) && Registrations(steps) <= n :: !Stranded(run[|steps|], t)
  }

  // ---- a run that loses a task

  ghost function Registers(n: nat): seq<Step> {
    seq(n, _ => Register)
  }

  /** Registrations leave every object alone, and id 1 with its object until its turn comes again. */
  lemma {:induction false} RegisterMany(c: Config, s: State, n: nat) returns (t: State)
    requires s.panic.None? && 1 <= s.workerIDAcc && s.workerIDAcc + n <= UINT16 && 1 in s.workers
    ensures Leads(c, s, Registers(n), t)
    ensures t.panic.None? && t.workerIDAcc == s.workerIDAcc + n && t.handlers == s.handlers
    ensures s.objects <= t.objects && 1 in t.workers && t.workers[1] == s.workers[1]
    ensures |t.objects| == |s.objects| + n
    decreases n
  {
    if n == 0 {
      t := s;
    } else {
      var u := RegisterMany(c, s, n - 1);
      t := Apply(c, u, Register);
      LeadsOne(c, u, Register);
      LeadsConcat(c, s, Registers(n - 1), u, [Register], t);
      assert Registers(n - 1) + [Register] == Registers(n);
    }
  }

  /** The first worker gets the first file. */
  lemma FirstWorks(c: Config) returns (t: State)
    requires c.files > 0
    ensures Leads(c, Init(c), [Register] + GetSteps(1, 0), t)
    ensures t.panic.None? && t.workerIDAcc == 1 && t.handlers == map[] && t.workers == map[1 := 0]
    ensures t.objects == [CWorker(1, Some(Map(0)))]
  {
    var first := Apply(c, Init(c), Register);
    LeadsOne(c, Init(c), Register);
    t := GetEffect(c, first, 1);
    LeadsConcat(c, Init(c), [Register], first, GetSteps(1, 0), t);
  }

  /** 65535 more workers register, and the next one is given the id of the first. */
  lemma IdsRunOut(c: Config, s: State, n: nat) returns (t: State)
    requires n == UINT16 - 1 && s.panic.None? && s.workerIDAcc == 1 && s.handlers == map[] && s.workers == map[1 := 0]
    requires s.objects == [CWorker(1, Some(Map(0)))]
    ensures Leads(c, s, Registers(n) + [Register], t) && StrandedAt(t, Map(0), 0) && |t.objects| == n + 2
  {
    var full := RegisterMany(c, s, n);
    t := Apply(c, full, Register);
    LeadsOne(c, full, Register);
    LeadsConcat(c, s, Registers(n), full, [Register], t);
    assert full.objects[0] == s.objects[0];
  }

  /** So a task can be lost in any job: nobody can finish the first file any more. */
  lemma ReusedIdLosesTask(c: Config) returns (steps: seq<Step>, run: seq<State>)
    requires c.files > 0
    ensures IsRun(c, steps, run) && Stranded(run[|steps|], Map(0)) && Registrations(steps) == UINT16 + 1
  {
    var working := FirstWorks(c);
    var n := UINT16 - 1;
    var last := IdsRunOut(c, working, n);
    steps := ([Register] + GetSteps(1, 0)) + (Registers(n) + [Register]);
    LeadsConcat(c, Init(c), [Register] + GetSteps(1, 0), working, Registers(n) + [Register], last);
    run := LeadsRun(c, steps, last);
    RunIds(c, steps, run, |steps|);
    assert steps[..|steps|] == steps;
  }

  /** If there is anything to do, tasks stay in reach exactly up to 65536 registrations. */
  lemma IdsFit(c: Config, n: int)
    requires c.files > 0
    ensures NeverStranded(c, n) <==> n <= UINT16
  {
    if n <= UINT16 {
      forall steps: seq<Step>, run: seq<State>, t: Task | IsRun(c, steps, run) && Registrations(steps) <= n
        ensures !Stranded(run[|steps|], t)
      {
        RunIds(c, steps, run, |steps|);
        assert steps[..|steps|] == steps;
        RunServed(c, steps, run, |steps|);
      }
    } else {
      var steps, run := ReusedIdLosesTask(c);
      assert !NeverStranded(c, n);
    }
  }
}
