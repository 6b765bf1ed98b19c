/**
  The panics of the handlers in src/mr/coordinator.go: by which requests they come about, and that
  they do whenever such a request gets to its worker.
 */
module Panics {
  import opened Options
  import opened Coordinator

  /** The handler of a worker that has a task already gets to the container. */
  ghost predicate AsksTwice(s: State, step: Step) {
    step.GetTake? && step.o < |s.objects| && s.objects[step.o].task.Some?
  }

  /** The handler of a worker that has no task gets to the stage section. */
  ghost predicate FinishesNothing(s: State, step: Step) {
    step.FinishStage? && step.o < |s.objects| && s.objects[step.o].task.None?
  }

  /** A task gets to the stage section outside of its stage. */
  ghost predicate FinishesLate(s: State, step: Step) {
    && step.FinishStage? && step.o < |s.objects| && s.objects[step.o].task.Some?
    && !(s.stage == Mapping && s.objects[step.o].task.value.Map?)
    && !(s.stage == Reducing && s.objects[step.o].task.value.Reduce?)
  }

  /** Over every run: the coordinator panics in exactly these steps, each with its own panic, and then stops. */
  lemma PanicsExactly(c: Config, steps: seq<Step>, run: seq<State>, k: nat)
    requires IsRun(c, steps, run) && k < |steps|
    ensures run[k].panic == None
    ensures run[k + 1].panic == Some(Carrying) <==> AsksTwice(run[k], steps[k])
    ensures run[k + 1].panic == Some(NothingAttached) <==> FinishesNothing(run[k], steps[k])
    ensures run[k + 1].panic == Some(StageMismatch) <==> FinishesLate(run[k], steps[k])
  {
    assert StepAt(c, steps, run, k);
  }

  /** GetTask for a worker with a task, when nothing interrupts it. */
  lemma GetWhileCarrying(c: Config, s: State, id: int) returns (t: State)
    requires s.panic.None? && Unlocked(s, id) && s.objects[s.workers[id]].task.Some?
    ensures Leads(c, s, [GetLock(id)] + [GetTake(s.workers[id])], t) && t.panic == Some(Carrying)
  {
    var locked := Apply(c, s, GetLock(id));
    t := Apply(c, locked, GetTake(s.workers[id]));
    LeadsOne(c, locked, GetTake(s.workers[id]));
    LeadsCons(c, s, GetLock(id), [GetTake(s.workers[id])], t);
  }

  /** FinishTask for a worker without one. */
  lemma FinishWithNothing(c: Config, s: State, id: int) returns (t: State)
    requires s.panic.None? && s.stageHolder.None? && Unlocked(s, id) && s.objects[s.workers[id]].task.None?
    ensures Leads(c, s, [FinishLock(id)] + [FinishStage(s.workers[id])], t) && t.panic == Some(NothingAttached)
  {
    var locked := Apply(c, s, FinishLock(id));
    t := Apply(c, locked, FinishStage(s.workers[id]));
    LeadsOne(c, locked, FinishStage(s.workers[id]));
    LeadsCons(c, s, FinishLock(id), [FinishStage(s.workers[id])], t);
  }
}
