/**
  The coordinator as an object (src/mr/coordinator.go, src/mr/cworker.go, src/mr/task.go): what
  a handler or an expiry does when nothing interrupts it is a run of the steps of module
  Coordinator, so the steps are the handlers cut where other handlers can come in between.
 */
module CoordinatorHandlers {
  import opened Options
  import opened Coordinator

  datatype RpcReply = NoMoreTask | InvalidWorker | NoopTask | Assigned(task: Task) | OkReply | WorkerInfo(id: int)

  class TaskContainer {
    var tasks: seq<Task>

    constructor ()
      ensures tasks == []
    {
      tasks := [];
    }

    method AddTask(task: Task)
      modifies this
      ensures tasks == old(tasks) + [task]
    {
      tasks := tasks + [task];
    }

    /** TakeTask: first in, first out. */
    method TakeTask() returns (task: Option<Task>)
      modifies this
      ensures old(tasks) == [] ==> task == None && tasks == []
      ensures old(tasks) != [] ==> task.Some? && old(tasks) == [task.value] + tasks
    {
      if |tasks| == 0 {
        return None;
      }
      task := Some(tasks[0]);
      tasks := tasks[1..];
    }

    method ReleaseMapTasks(files: nat)
      modifies this
      ensures tasks == old(tasks) + MapTasks(files)
    {
      for f := 0 to files
        invariant tasks == old(tasks) + MapTasks(f)
      {
        tasks := tasks + [Map(f)];
      }
    }

    method ReleaseReduceTasks(nReduce: nat)
      modifies this
      ensures tasks == old(tasks) + ReduceTasks(nReduce)
    {
      for i := 0 to nReduce
        invariant tasks == old(tasks) + ReduceTasks(i)
      {
        tasks := tasks + [Reduce(i)];
      }
    }
  }

  class Worker {
    const id: int
    var task: Option<Task>

    constructor (id: int)
      ensures this.id == id && task == None
    {
      this.id := id;
      task := None;
    }
  }

  class MRCoordinator {
    const c: Config
    const taskContainer: TaskContainer
    var workers: map<int, Worker>
    var workingStage: Stage
    var unfinishedMappingCount: int
    var unfinishedReducingCount: int
    var workerIDAcc: nat
    ghost var s: State             // the same as a state of the runs, with the other handlers under way
    ghost var objects: seq<Worker> // every worker object there has been

    /** The objects are those of the state, and ids stand for the same ones. */
    ghost predicate SameObjects()
      reads this, objects
    {
      && |objects| == |s.objects|
      && (forall i, j | 0 <= i < j < |objects| :: objects[i] != objects[j])
      && (forall o | 0 <= o < |objects| :: CWorker(objects[o].id, objects[o].task) == s.objects[o])
      && workers.Keys == s.workers.Keys
      && (forall id | id in workers :: s.workers[id] < |objects| && workers[id] == objects[s.workers[id]])
    }

    ghost predicate Agrees()
      reads this, taskContainer, objects
    {
      && taskContainer.tasks == s.queue && workingStage == s.stage
      && unfinishedMappingCount == s.unfinishedMap && unfinishedReducingCount == s.unfinishedReduce
      && workerIDAcc == s.workerIDAcc && s.panic.None?
      && SameObjects()
    }

    /** No handler has locked the worker that has the id. */
    ghost predicate Free(id: int)
      reads this
    {
      id in s.workers ==> s.workers[id] !in s.handlers
    }

    /** MakeCoordinator: the number of reduce tasks is cut down to 16 bits at once. */
    constructor (files: nat, nReduce: int)
      ensures Agrees() && fresh(taskContainer) && fresh(objects)
      ensures c == Config(files, nReduce % UINT16) && s == Init(c)
    {
      c := Config(files, nReduce % UINT16);
      taskContainer := new TaskContainer();
      workers, workingStage, workerIDAcc := map[], Mapping, 0;
      unfinishedMappingCount, unfinishedReducingCount := files % UINT16, nReduce % UINT16;
      s, objects := Init(Config(files, nReduce % UINT16)), [];
      new;
      taskContainer.ReleaseMapTasks(files);
    }

    method RegisterWorker() returns (reply: RpcReply)
      requires Agrees()
      modifies this
      ensures Agrees() && fresh(Objects() - old(Objects())) && Leads(c, old(s), [Register], s)
      ensures reply == WorkerInfo(NextId(old(s))) && reply.id in workers && workers[reply.id].task == None
    {
      workerIDAcc := workerIDAcc + 1;
      var newWorkerID := workerIDAcc % 0x1_0000_0000 % UINT16;
      var cw := new Worker(newWorkerID);
      workers := workers[newWorkerID := cw];
      s, objects := Apply(c, s, Register), objects + [cw];
      return WorkerInfo(newWorkerID);
    }

    ghost function Objects(): set<Worker>
      reads this
    {
      set w | w in objects
    }

    /** GetTask; a worker that already has a task makes it panic. */
    method GetTask(id: int) returns (reply: RpcReply)
      requires Agrees() && Free(id)
      requires workingStage != Done && id in workers ==> workers[id].task.None?
      modifies this, taskContainer, objects
      ensures Agrees() && objects == old(objects)
      ensures old(workingStage) == Done ==> reply == NoMoreTask && s == old(s)
      ensures old(workingStage) != Done && id !in old(workers) ==> reply == InvalidWorker && s == old(s)
      ensures old(workingStage) != Done && id in old(workers) && old(s).queue == [] ==>
                reply == NoopTask && Leads(c, old(s), [GetLock(id), GetTake(old(s).workers[id])], s)
      ensures old(workingStage) != Done && id in old(workers) && old(s).queue != [] ==>
                reply == Assigned(old(s).queue[0]) && Leads(c, old(s), GetSteps(id, old(s).workers[id]), s)
    {
      if workingStage == Done {
        return NoMoreTask;
      }
      if id !in workers {
        return InvalidWorker;
      }
      var cworker := workers[id];
      assert Unlocked(s, id);
      if |taskContainer.tasks| == 0 {
        Nothing(c, s, id);
      }
      var newTask := taskContainer.TakeTask();
      if newTask.None? {
        return NoopTask;
      }
      ghost var t := GetEffect(c, s, id);
      cworker.task := newTask;
      s := t;
      return Assigned(newTask.value);
    }

    /** The stage section of FinishTask. */
    method CountFinished(task: Task)
      modifies `unfinishedMappingCount, `unfinishedReducingCount, `workingStage, taskContainer
      ensures task.Map? ==>
                var left := Decrement(old(unfinishedMappingCount));
                && unfinishedMappingCount == left && unfinishedReducingCount == old(unfinishedReducingCount)
                && taskContainer.tasks == old(taskContainer.tasks) + (if left == 0 then ReduceTasks(c.nReduce) else [])
                && workingStage == if left == 0 then Reducing else old(workingStage)
      ensures task.Reduce? ==>
                var left := Decrement(old(unfinishedReducingCount));
                && unfinishedMappingCount == old(unfinishedMappingCount) && unfinishedReducingCount == left
                && taskContainer.tasks == old(taskContainer.tasks)
                && workingStage == if left == 0 then Done else old(workingStage)
    {
      match task {
        case Map(_) =>
          unfinishedMappingCount := Decrement(unfinishedMappingCount);
          if unfinishedMappingCount == 0 {
            taskContainer.ReleaseReduceTasks(c.nReduce);
            workingStage := Reducing;
          }
        case Reduce(_) =>
          unfinishedReducingCount := Decrement(unfinishedReducingCount);
          if unfinishedReducingCount == 0 {
            workingStage := Done;
          }
      }
    }

    /**
      FinishTask.  A worker without a task makes it panic; so does a map task in another stage, which
      only jobs of more than 65536 files can run into.
     */
    method FinishTask(id: int) returns (reply: RpcReply)
      requires Agrees() && Free(id) && s.stageHolder.None? && Inv(c, s)
      requires id in workers ==> workers[id].task.Some?
      requires c.files > UINT16 && id in workers && workers[id].task.value.Map? ==> workingStage == Mapping
      modifies this, taskContainer, objects
      ensures Agrees() && objects == old(objects)
      ensures id !in old(workers) ==> reply == InvalidWorker && s == old(s)
      ensures id in old(workers) ==>
                && reply == OkReply && workers == old(workers) && workers[id].task == None
                && Leads(c, old(s), FinishSteps(id, old(s).workers[id]), s)
    {
      if id !in workers {
        return InvalidWorker;
      }
      assert Unlocked(s, id);
      ghost var t := Finishable(c, s, id);
      Complete(workers[id], s.workers[id], t);
      return OkReply;
    }

    /** The rest of FinishTask, for a task of the stage. */
    method Complete(cworker: Worker, ghost o: nat, ghost t: State)
      requires Agrees() && o < |objects| && objects[o] == cworker && cworker.task.Some?
      requires FinishedAs(c, s, o, t)
      modifies this, taskContainer, objects
      ensures Agrees() && objects == old(objects) && workers == old(workers) && cworker.task == None && s == t
    {
      CountFinished(cworker.task.value);
      cworker.task := None;
      s := t;
    }

    /** removeWorker, when a timer for the id has run out: whichever worker has the id now goes. */
    method RemoveWorker(id: int)
      requires Agrees() && Free(id)
      modifies this, taskContainer, objects
      ensures Agrees() && objects == old(objects) && id !in workers
      ensures Leads(c, old(s), if id in old(workers) then [Expire(id)] else [], s)
    {
      if id !in workers {
        return;
      }
      var cw := workers[id];
      if cw.task.Some? {
        taskContainer.AddTask(cw.task.value);
      }
      cw.task := None;
      workers := workers - {id};
      s := Apply(c, s, Expire(id));
    }
  }

  /** In a state of a run of a job that fits, FinishTask finds the stage of its task. */
  lemma Finishable(c: Config, s: State, id: int) returns (t: State)
    requires Inv(c, s) && s.panic.None? && s.stageHolder.None? && Unlocked(s, id)
    requires s.objects[s.workers[id]].task.Some?
    requires c.files > UINT16 && s.objects[s.workers[id]].task.value.Map? ==> s.stage == Mapping
    ensures Leads(c, s, FinishSteps(id, s.workers[id]), t) && FinishedAs(c, s, s.workers[id], t)
  {
    StageFits(c, s, s.workers[id]);
    t := FinishEffect(c, s, id);
  }

  /** GetTask when there is no task. */
  lemma Nothing(c: Config, s: State, id: int)
    requires s.panic.None? && Unlocked(s, id) && s.objects[s.workers[id]].task.None? && s.queue == []
    ensures Leads(c, s, [GetLock(id), GetTake(s.workers[id])], s)
  {
    var o := s.workers[id];
    var locked := Apply(c, s, GetLock(id));
    LeadsOne(c, locked, GetTake(o));
    LeadsCons(c, s, GetLock(id), [GetTake(o)], Apply(c, locked, GetTake(o)));
    assert Apply(c, locked, GetTake(o)).handlers == s.handlers;
  }
}
