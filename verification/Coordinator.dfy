/**
  The coordinator of src/mr: a queue of tasks, workers that hold at most one task each and
  expire when they fall silent, and a stage that moves from mapping over reducing to done.

  A run interleaves the critical sections of any number of RPC handlers and expiry timers.
  A handler looks its worker up by id once, and holds the lock of that worker object from then
  on to its end; the stage lock and the container's lock are held within it.
 */
module Coordinator {
  import opened Options
  import opened Collections

  datatype Task = Map(file: nat) | Reduce(id: nat)

  datatype Stage = Mapping | Reducing | Done

  const UINT16 := 0x1_0000

  type UInt16 = n: nat | n < 0x1_0000

  // What the handler that holds a worker object's lock is about to do.
  datatype Handler =
    | Getting              // GetTask: take a task from the container
    | Took(task: Task)     // GetTask: give it to the worker
    | Finishing            // FinishTask: look at the task and enter the stage section
    | Staging(next: Stage) // FinishTask: assign the stage and leave the stage section
    | Clearing             // FinishTask: take the task from the worker

  datatype Panic = Carrying | NothingAttached | StageMismatch

  // A CWorker object.
  datatype CWorker = CWorker(id: int, task: Option<Task>)

  // Where a task is; kept for the statements only.
  datatype Place = Queued | InHandler(o: nat) | HeldBy(o: nat) | Finished

  // The number of files, and Coordinator.nReduce, which is a uint16.
  datatype Config = Config(files: nat, nReduce: UInt16)

  datatype State = State(
    queue: seq<Task>,                  // TaskContainer.tasks
    objects: seq<CWorker>,             // every worker object there has been, in order of creation
    workers: map<int, nat>,            // WorkerGroup.workers: the object an id stands for
    handlers: map<nat, Handler>,       // the objects whose lock is held by a handler
    stage: Stage,
    stageHolder: Option<nat>,          // stageLock
    unfinishedMap: int,
    unfinishedReduce: int,
    workerIDAcc: nat,
    panic: Option<Panic>,
    at: map<Task, Place>)

  function MapTasks(n: nat): seq<Task> {
    seq(n, i requires 0 <= i < n => Map(i))
  }

  function ReduceTasks(n: nat): seq<Task> {
    seq(n, i requires 0 <= i < n => Reduce(i))
  }

  /** MakeCoordinator */
  function Init(c: Config): State {
    State(MapTasks(c.files), [], map[], map[], Mapping, None, c.files % UINT16, c.nReduce, 0, None,
          map i | 0 <= i < c.files :: Map(i) := Queued)
  }

  datatype Step =
    | Register
    | GetLock(id: int) | GetTake(o: nat) | GetAssign(o: nat)
    | FinishLock(id: int) | FinishStage(o: nat) | FinishUnstage(o: nat) | FinishClear(o: nat)
    | Expire(id: int)

  /** The id the next worker gets: a 32-bit counter cut down to 16 bits. */
  function NextId(s: State): int {
    (s.workerIDAcc + 1) % 0x1_0000_0000 % UINT16
  }

  /** The handler of object o is the given one. */
  predicate At(s: State, o: nat, h: Handler) {
    o in s.handlers && s.handlers[o] == h
  }

  /** An id stands for an object that no handler has locked. */
  predicate Unlocked(s: State, id: int) {
    id in s.workers && s.workers[id] < |s.objects| && s.workers[id] !in s.handlers
  }

  predicate Enabled(s: State, step: Step) {
    s.panic.None? &&
    match step
    case Register => true
    // DONE is looked at before the worker is locked, so it says nothing about what follows
    case GetLock(id) => Unlocked(s, id)
    case GetTake(o) => o < |s.objects| && At(s, o, Getting)
    case GetAssign(o) => o < |s.objects| && o in s.handlers && s.handlers[o].Took?
    case FinishLock(id) => Unlocked(s, id)
    case FinishStage(o) => o < |s.objects| && At(s, o, Finishing) && s.stageHolder.None?
    case FinishUnstage(o) => o < |s.objects| && o in s.handlers && s.handlers[o].Staging?
    case FinishClear(o) => o < |s.objects| && At(s, o, Clearing)
    case Expire(id) => Unlocked(s, id)
  }

  function Decrement(n: int): int {
    (n - 1) % UINT16
  }

  function WithTask(s: State, o: nat, task: Option<Task>): seq<CWorker>
    requires o < |s.objects|
  {
    s.objects[o := s.objects[o].(task := task)]
  }

  /** TakeTask: the first task in the container, if there is one. */
  function TakeTask(s: State, o: nat): State
    requires o < |s.objects|
  {
    if s.objects[o].task.Some? then s.(panic := Some(Carrying))
    else if s.queue == [] then s.(handlers := s.handlers - {o})
    else s.(queue := s.queue[1..], handlers := s.handlers[o := Took(s.queue[0])],
            at := s.at[s.queue[0] := InHandler(o)])
  }

  /** FinishTask up to the assignment of the stage: the counter, and the reduce tasks with the last map. */
  function EnterStage(c: Config, s: State, o: nat): State
    requires o < |s.objects|
  {
    if s.objects[o].task.None? then s.(panic := Some(NothingAttached))
    else
      var t := s.objects[o].task.value;
      var u := s.(stageHolder := Some(o), at := s.at[t := Finished]);
      match t
      case Map(_) =>
        var left := Decrement(s.unfinishedMap);
        if s.stage != Mapping then s.(panic := Some(StageMismatch))
        else if left == 0 then
          u.(unfinishedMap := left, handlers := s.handlers[o := Staging(Reducing)],
             queue := s.queue + ReduceTasks(c.nReduce),
             at := u.at + map i | 0 <= i < c.nReduce :: Reduce(i) := Queued)
        else u.(unfinishedMap := left, handlers := s.handlers[o := Staging(s.stage)])
      case Reduce(_) =>
        var left := Decrement(s.unfinishedReduce);
        if s.stage != Reducing then s.(panic := Some(StageMismatch))
        else u.(unfinishedReduce := left, handlers := s.handlers[o := Staging(if left == 0 then Done else s.stage)])
  }

  /** removeWorker: what the worker holds goes back into the container. */
  function RemoveWorker(s: State, id: int): State
    requires id in s.workers && s.workers[id] < |s.objects|
  {
    var o := s.workers[id];
    var t := s.(workers := s.workers - {id}, objects := WithTask(s, o, None));
    if s.objects[o].task.None? then t
    else t.(queue := s.queue + [s.objects[o].task.value], at := s.at[s.objects[o].task.value := Queued])
  }

  function Apply(c: Config, s: State, step: Step): State
    requires Enabled(s, step)
  {
    match step
    case Register =>
      s.(objects := s.objects + [CWorker(NextId(s), None)], workers := s.workers[NextId(s) := |s.objects|],
         workerIDAcc := s.workerIDAcc + 1)
    case GetLock(id) => s.(handlers := s.handlers[s.workers[id] := Getting])
    case GetTake(o) => TakeTask(s, o)
    case GetAssign(o) =>
      var t := s.handlers[o].task;
      s.(objects := WithTask(s, o, Some(t)), handlers := s.handlers - {o}, at := s.at[t := HeldBy(o)])
    case FinishLock(id) => s.(handlers := s.handlers[s.workers[id] := Finishing])
    case FinishStage(o) => EnterStage(c, s, o)
    case FinishUnstage(o) =>
      s.(stage := s.handlers[o].next, stageHolder := None, handlers := s.handlers[o := Clearing])
    case FinishClear(o) => s.(objects := WithTask(s, o, None), handlers := s.handlers - {o})
    case Expire(id) => RemoveWorker(s, id)
  }

  // ---- the invariant

  /** The task of object o is finished but not yet taken from it. */
  predicate Counted(s: State, o: nat) {
    o in s.handlers && (s.handlers[o].Staging? || s.handlers[o] == Clearing)
  }

  /** The container holds exactly the queued tasks, each once. */
  ghost predicate QueueInv(s: State) {
    && NoDup(s.queue)
    && (forall t | t in s.queue :: t in s.at && s.at[t] == Queued)
    && (forall t | t in s.at && s.at[t] == Queued :: t in s.queue)
  }

  /** Ids stand for objects with that id, and handlers are about objects. */
  ghost predicate ObjectInv(s: State) {
    && (forall id | id in s.workers :: s.workers[id] < |s.objects| && s.objects[s.workers[id]].id == id)
    && (forall o | o in s.handlers :: o < |s.objects|)
  }

  /** A task between container and worker is with exactly one handler. */
  ghost predicate HandlerInv(s: State) {
    && (forall o | o in s.handlers && s.handlers[o].Took? ::
          && o < |s.objects| && s.objects[o].task.None?
          && s.handlers[o].task in s.at && s.at[s.handlers[o].task] == InHandler(o))
    && (forall t | t in s.at && s.at[t].InHandler? :: At(s, s.at[t].o, Took(t)))
    && (forall o: nat | Counted(s, o) :: o < |s.objects| && s.objects[o].task.Some?)
  }

  /** A task being worked on is with exactly one worker object. */
  ghost predicate WorkerInv(s: State) {
    && (forall o | 0 <= o < |s.objects| && s.objects[o].task.Some? ::
          && s.objects[o].task.value in s.at
          && s.at[s.objects[o].task.value] == if Counted(s, o) then Finished else HeldBy(o))
    && (forall t | t in s.at && s.at[t].HeldBy? :: Holds(s, t, s.at[t].o))
  }

  /** Object o holds task t, and nobody has counted it yet. */
  predicate Holds(s: State, t: Task, o: nat) {
    o < |s.objects| && s.objects[o].task == Some(t) && !Counted(s, o)
  }

  ghost predicate LockInv(s: State) {
    && (s.stageHolder.Some? ==> s.stageHolder.value in s.handlers && s.handlers[s.stageHolder.value].Staging?)
    && (forall o | o in s.handlers && s.handlers[o].Staging? :: s.stageHolder == Some(o))
  }

  ghost predicate PlaceInv(s: State) {
    QueueInv(s) && ObjectInv(s) && HandlerInv(s) && WorkerInv(s) && LockInv(s)
  }

  predicate IsFinished(s: State, t: Task) {
    t in s.at && s.at[t] == Finished
  }

  ghost function DoneMaps(c: Config, s: State): set<int> {
    set i | 0 <= i < c.files && IsFinished(s, Map(i))
  }

  ghost function DoneReduces(c: Config, s: State): set<int> {
    set i | 0 <= i < c.nReduce && IsFinished(s, Reduce(i))
  }

  /** After this many files the counter is zero for the first time. */
  function FirstZero(c: Config): (n: nat)
    requires c.files > 0
    ensures 0 < n <= UINT16 && (c.files - n) % UINT16 == 0
    ensures c.files > UINT16 ==> n < c.files
  {
    if c.files % UINT16 == 0 then UINT16 else c.files % UINT16
  }

  lemma Remainder(q: int, r: int)
    requires 0 <= r < UINT16
    ensures (UINT16 * q + r) % UINT16 == r
  {
  }

  lemma CounterAfter(c: Config, i: nat)
    requires c.files > 0 && i < FirstZero(c)
    ensures Decrement((c.files - i) % UINT16) == (c.files - (i + 1)) % UINT16
    ensures (c.files - (i + 1)) % UINT16 == 0 <==> i + 1 == FirstZero(c)
  {
    var q, rest := (c.files - FirstZero(c)) / UINT16, FirstZero(c) - (i + 1);
    Remainder(q, rest);
    if rest + 1 < UINT16 { Remainder(q, rest + 1); } else { Remainder(q + 1, 0); }
  }

  /** The counter of map tasks has come to zero: as many are finished as that takes. */
  ghost predicate Released(c: Config, s: State) {
    c.files > 0 && |DoneMaps(c, s)| == FirstZero(c)
  }

  /** The counters count, and reduce tasks exist from the moment one comes to zero. */
  ghost predicate CountInv(c: Config, s: State) {
    && (c.files > 0 ==> |DoneMaps(c, s)| <= FirstZero(c)) && s.unfinishedMap == (c.files - |DoneMaps(c, s)|) % UINT16
    && 0 <= s.unfinishedReduce == c.nReduce - |DoneReduces(c, s)|
    && (forall i: nat :: Map(i) in s.at <==> i < c.files)
    && (forall i: nat :: Reduce(i) in s.at <==> i < c.nReduce && Released(c, s))
  }

  /** The stage that the finished tasks call for. */
  ghost function StageOf(c: Config, s: State): Stage {
    if !Released(c, s) then Mapping else if c.nReduce == 0 || s.unfinishedReduce > 0 then Reducing else Done
  }

  /** A handler in the stage section is about to assign that stage; otherwise it is assigned already. */
  ghost predicate StageInv(c: Config, s: State) {
    match s.stageHolder
    case None => s.stage == StageOf(c, s)
    case Some(o) =>
      && At(s, o, Staging(StageOf(c, s)))
      && o < |s.objects| && s.objects[o].task.Some?
      && s.stage == if s.objects[o].task.value.Map? then Mapping else Reducing
  }

  ghost predicate Inv(c: Config, s: State) {
    && (s.panic == Some(StageMismatch) ==> c.files > UINT16)
    && PlaceInv(s) && CountInv(c, s) && StageInv(c, s)
  }

  lemma InitInv(c: Config)
    ensures Inv(c, Init(c))
  {
    var s := Init(c);
    assert DoneMaps(c, s) == {} && DoneReduces(c, s) == {};
    forall i | 0 <= i < c.files ensures Map(i) in s.queue { assert s.queue[i] == Map(i); }
  }

  /** When nothing finishes, the same tasks are finished. */
  lemma SameDone(c: Config, s: State, t: State)
    requires forall x :: IsFinished(t, x) <==> IsFinished(s, x)
    ensures DoneMaps(c, t) == DoneMaps(c, s) && DoneReduces(c, t) == DoneReduces(c, s)
  {
  }

  lemma Registered(c: Config, s: State)
    requires PlaceInv(s) && Enabled(s, Register)
    ensures PlaceInv(Apply(c, s, Register))
  {
    assert ObjectInv(Apply(c, s, Register));
  }

  lemma Locked(s: State, id: int, h: Handler)
    requires PlaceInv(s) && Unlocked(s, id) && (h == Getting || h == Finishing)
    ensures PlaceInv(s.(handlers := s.handlers[s.workers[id] := h]))
  {
  }

  lemma Taken(s: State, o: nat)
    requires PlaceInv(s) && o < |s.objects| && At(s, o, Getting)
    ensures PlaceInv(TakeTask(s, o))
  {
    if s.objects[o].task.None? {
      if s.queue == [] { NothingTaken(s, TakeTask(s, o), o); } else { TakenFromQueue(s, TakeTask(s, o), o); }
    }
  }

  lemma NothingTaken(s: State, t: State, o: nat)
    requires PlaceInv(s) && At(s, o, Getting) && t == s.(handlers := s.handlers - {o})
    ensures PlaceInv(t)
  {
    assert forall p: nat :: Counted(t, p) <==> Counted(s, p);
  }

  lemma TakenFromQueue(s: State, t: State, o: nat)
    requires PlaceInv(s) && s.queue != []
    requires o < |s.objects| && At(s, o, Getting) && s.objects[o].task.None?
    requires t == s.(queue := s.queue[1..], handlers := s.handlers[o := Took(s.queue[0])],
                     at := s.at[s.queue[0] := InHandler(o)])
    ensures PlaceInv(t)
  {
    assert s.queue[0] in s.queue;
    TakenQueue(s, t, o);
    TakenHandlers(s, t, o);
    TakenWorkers(s, t, o);
  }

  lemma TakenQueue(s: State, t: State, o: nat)
    requires QueueInv(s) && s.queue != []
    requires t.queue == s.queue[1..] && t.at == s.at[s.queue[0] := InHandler(o)]
    ensures QueueInv(t)
  {
    assert s.queue == [s.queue[0]] + t.queue;
  }

  lemma TakenHandlers(s: State, t: State, o: nat)
    requires HandlerInv(s) && s.queue != [] && s.queue[0] in s.at && s.at[s.queue[0]] == Queued
    requires o < |s.objects| && At(s, o, Getting) && s.objects[o].task.None? && t.objects == s.objects
    requires t.handlers == s.handlers[o := Took(s.queue[0])] && t.at == s.at[s.queue[0] := InHandler(o)]
    ensures HandlerInv(t)
  {
    assert forall p: nat :: Counted(t, p) <==> Counted(s, p);
  }

  lemma TakenWorkers(s: State, t: State, o: nat)
    requires WorkerInv(s) && s.queue != [] && s.queue[0] in s.at && s.at[s.queue[0]] == Queued
    requires At(s, o, Getting) && t.objects == s.objects
    requires t.handlers == s.handlers[o := Took(s.queue[0])] && t.at == s.at[s.queue[0] := InHandler(o)]
    ensures WorkerInv(t)
  {
    assert forall p: nat :: Counted(t, p) <==> Counted(s, p);
  }

  lemma Assigned(s: State, t: State, o: nat, task: Task)
    requires PlaceInv(s) && o < |s.objects| && At(s, o, Took(task))
    requires t == s.(objects := WithTask(s, o, Some(task)), handlers := s.handlers - {o}, at := s.at[task := HeldBy(o)])
    ensures PlaceInv(t)
  {
    assert s.at[task] == InHandler(o);
    AssignedHandlers(s, t, o, task);
    AssignedWorkers(s, t, o, task);
  }

  lemma AssignedHandlers(s: State, t: State, o: nat, task: Task)
    requires HandlerInv(s) && o < |s.objects| && At(s, o, Took(task)) && task in s.at && s.at[task] == InHandler(o)
    requires t.objects == WithTask(s, o, Some(task)) && t.handlers == s.handlers - {o} && t.at == s.at[task := HeldBy(o)]
    ensures HandlerInv(t)
  {
    forall p: nat | Counted(t, p) ensures p < |t.objects| && t.objects[p].task.Some? {
      assert Counted(s, p);
    }
  }

  lemma AssignedWorkers(s: State, t: State, o: nat, task: Task)
    requires WorkerInv(s) && o < |s.objects| && At(s, o, Took(task)) && task in s.at && s.at[task] == InHandler(o)
    requires s.objects[o].task.None?
    requires t.objects == WithTask(s, o, Some(task)) && t.handlers == s.handlers - {o} && t.at == s.at[task := HeldBy(o)]
    ensures WorkerInv(t)
  {
    assert forall p: nat :: Counted(t, p) <==> Counted(s, p);
    forall x | x in t.at && t.at[x].HeldBy? ensures Holds(t, x, t.at[x].o) {
      if x != task { assert Holds(s, x, s.at[x].o); }
    }
  }

  lemma PutBack(s: State, t: State, id: int)
    requires PlaceInv(s) && Unlocked(s, id) && t == RemoveWorker(s, id)
    ensures PlaceInv(t)
  {
    var o := s.workers[id];
    if s.objects[o].task.Some? {
      assert s.at[s.objects[o].task.value] == HeldBy(o);
      assert s.objects[o].task.value !in s.queue;
    }
    PutBackHandlers(s, t, id, o);
    PutBackWorkers(s, t, id, o);
  }

  lemma PutBackHandlers(s: State, t: State, id: int, o: nat)
    requires HandlerInv(s) && Unlocked(s, id) && o == s.workers[id] && t == RemoveWorker(s, id)
    requires s.objects[o].task.Some? ==> s.objects[o].task.value in s.at && s.at[s.objects[o].task.value] == HeldBy(o)
    ensures HandlerInv(t)
  {
    forall p: nat | Counted(t, p) ensures p < |t.objects| && t.objects[p].task.Some? {
      assert Counted(s, p);
    }
  }

  lemma PutBackWorkers(s: State, t: State, id: int, o: nat)
    requires WorkerInv(s) && Unlocked(s, id) && o == s.workers[id] && t == RemoveWorker(s, id)
    ensures WorkerInv(t)
  {
    assert forall p: nat :: Counted(t, p) <==> Counted(s, p);
    forall x | x in t.at && t.at[x].HeldBy? ensures Holds(t, x, t.at[x].o) {
      assert Holds(s, x, s.at[x].o);
    }
  }

  lemma Cleared(s: State, t: State, o: nat)
    requires PlaceInv(s) && o < |s.objects| && At(s, o, Clearing)
    requires t == s.(objects := WithTask(s, o, None), handlers := s.handlers - {o})
    ensures PlaceInv(t)
  {
    forall p: nat | Counted(t, p) ensures p < |t.objects| && t.objects[p].task.Some? {
      assert Counted(s, p);
    }
    forall x | x in t.at && t.at[x].HeldBy? ensures Holds(t, x, t.at[x].o) {
      assert Holds(s, x, s.at[x].o) && !Holds(s, x, o);
    }
  }

  lemma OneMore(done: set<int>, i: int, n: nat)
    requires i !in done && 0 <= i < n && forall x | x in done :: 0 <= x < n
    ensures |done + {i}| == |done| + 1 <= n
  {
    SubsetCard(done + {i}, UpTo(n));
  }

  /** Finishing a task adds that task to the finished ones. */
  lemma DoneGrows(c: Config, s: State, u: State, t: Task)
    requires u.at == s.at[t := Finished]
    ensures DoneMaps(c, u) == DoneMaps(c, s) + (if t.Map? && t.file < c.files then {t.file} else {})
    ensures DoneReduces(c, u) == DoneReduces(c, s) + (if t.Reduce? && t.id < c.nReduce then {t.id} else {})
  {
    forall x: Task ensures IsFinished(u, x) <==> IsFinished(s, x) || x == t {}
  }

  /** One more finished map task. */
  lemma FinishedMap(c: Config, s: State, u: State, i: nat)
    requires CountInv(c, s) && Map(i) in s.at && s.at[Map(i)] != Finished
    requires u.at == s.at[Map(i) := Finished]
    ensures |DoneMaps(c, u)| == |DoneMaps(c, s)| + 1 <= c.files
    ensures DoneReduces(c, u) == DoneReduces(c, s)
    ensures Released(c, s) ==> c.files > UINT16
  {
    DoneGrows(c, s, u, Map(i));
    OneMore(DoneMaps(c, s), i, c.files);
  }

  lemma NoReducesYet(c: Config, s: State)
    requires CountInv(c, s) && !Released(c, s)
    ensures (forall r: nat :: Reduce(r) !in s.at) && DoneReduces(c, s) == {}
  {
    assert forall r: nat :: Reduce(r) !in s.at;
  }

  /** One more finished reduce task. */
  lemma FinishedReduce(c: Config, s: State, u: State, i: nat)
    requires CountInv(c, s) && Reduce(i) in s.at && s.at[Reduce(i)] != Finished
    requires u.at == s.at[Reduce(i) := Finished]
    ensures Released(c, s) && 0 < s.unfinishedReduce <= c.nReduce
    ensures |DoneReduces(c, u)| == |DoneReduces(c, s)| + 1
    ensures DoneMaps(c, u) == DoneMaps(c, s)
  {
    DoneGrows(c, s, u, Reduce(i));
    OneMore(DoneReduces(c, s), i, c.nReduce);
  }

  /** Releasing the reduce tasks, none of which exists yet. */
  lemma Release(c: Config, u: State, v: State)
    requires PlaceInv(u) && (forall i: nat :: Reduce(i) !in u.at)
    requires v == u.(queue := u.queue + ReduceTasks(c.nReduce),
                     at := u.at + map i | 0 <= i < c.nReduce :: Reduce(i) := Queued)
    ensures PlaceInv(v)
    ensures DoneMaps(c, v) == DoneMaps(c, u) && DoneReduces(c, v) == DoneReduces(c, u)
  {
    ReleasedQueue(c, u, v);
    ReleasedRest(c, u, v);
    forall t ensures IsFinished(v, t) <==> IsFinished(u, t) {}
    assert DoneMaps(c, v) == DoneMaps(c, u);
    assert DoneReduces(c, v) == DoneReduces(c, u);
  }

  lemma ReleasedRest(c: Config, u: State, v: State)
    requires ObjectInv(u) && HandlerInv(u) && WorkerInv(u) && LockInv(u) && (forall i: nat :: Reduce(i) !in u.at)
    requires v == u.(queue := v.queue, at := u.at + map i | 0 <= i < c.nReduce :: Reduce(i) := Queued)
    ensures ObjectInv(v) && HandlerInv(v) && WorkerInv(v) && LockInv(v)
  {
    assert forall t | t in u.at :: t in v.at && v.at[t] == u.at[t];
    assert forall t | t in v.at && t !in u.at :: v.at[t] == Queued;
  }

  lemma ReleasedQueue(c: Config, u: State, v: State)
    requires QueueInv(u) && (forall i: nat :: Reduce(i) !in u.at)
    requires v.queue == u.queue + ReduceTasks(c.nReduce)
    requires v.at == u.at + map i | 0 <= i < c.nReduce :: Reduce(i) := Queued
    ensures QueueInv(v)
  {
    var rs := ReduceTasks(c.nReduce);
    forall t | t in v.at && v.at[t] == Queued ensures t in v.queue {
      if t.Reduce? { assert rs[t.id] == t; } else { assert t in u.queue; }
    }
    forall t | t in v.queue ensures t in v.at && v.at[t] == Queued {
      assert t in u.queue || t in rs;
    }
    assert NoDup(v.queue) by {
      forall i, j | 0 <= i < j < |v.queue| ensures v.queue[i] != v.queue[j] {
        if i < |u.queue| <= j { assert u.queue[i] in u.queue; }
      }
    }
  }

  /** The state in which handler o has counted task t as finished, before reduce tasks are released. */
  ghost function WithCounted(s: State, o: nat, t: Task, next: Stage, maps: int, reduces: int): State {
    s.(handlers := s.handlers[o := Staging(next)], stageHolder := Some(o), at := s.at[t := Finished],
       unfinishedMap := maps, unfinishedReduce := reduces)
  }

  /** The places of tasks then. */
  lemma CountedPlaces(s: State, o: nat, t: Task, next: Stage, maps: int, reduces: int)
    requires PlaceInv(s) && s.stageHolder.None?
    requires o < |s.objects| && At(s, o, Finishing) && s.objects[o].task == Some(t)
    ensures PlaceInv(WithCounted(s, o, t, next, maps, reduces))
  {
    var u := WithCounted(s, o, t, next, maps, reduces);
    assert s.at[t] == HeldBy(o);
    CountedHandlers(s, u, o, t, next);
    CountedWorkers(s, u, o, t, next);
  }

  lemma CountedHandlers(s: State, u: State, o: nat, t: Task, next: Stage)
    requires HandlerInv(s) && t in s.at && s.at[t] == HeldBy(o)
    requires o < |s.objects| && At(s, o, Finishing) && s.objects[o].task == Some(t)
    requires u.objects == s.objects && u.handlers == s.handlers[o := Staging(next)] && u.at == s.at[t := Finished]
    ensures HandlerInv(u)
  {
    forall p: nat | Counted(u, p) ensures p < |u.objects| && u.objects[p].task.Some? {
      if p != o { assert Counted(s, p); }
    }
  }

  lemma CountedWorkers(s: State, u: State, o: nat, t: Task, next: Stage)
    requires WorkerInv(s) && t in s.at && s.at[t] == HeldBy(o)
    requires o < |s.objects| && At(s, o, Finishing) && s.objects[o].task == Some(t)
    requires u.objects == s.objects && u.handlers == s.handlers[o := Staging(next)] && u.at == s.at[t := Finished]
    ensures WorkerInv(u)
  {
    assert forall p: nat | p != o :: Counted(u, p) <==> Counted(s, p);
    forall x | x in u.at && u.at[x].HeldBy? ensures Holds(u, x, u.at[x].o) {
      assert Holds(s, x, s.at[x].o);
    }
  }

  /** The counts when a map task has been counted, before the release of reduce tasks. */
  lemma MapCounts(c: Config, s: State, u: State, i: nat)
    requires CountInv(c, s) && !Released(c, s) && Map(i) in s.at && s.at[Map(i)] != Finished
    requires u.at == s.at[Map(i) := Finished] && u.unfinishedMap == Decrement(s.unfinishedMap)
    requires u.unfinishedReduce == s.unfinishedReduce
    ensures c.files > 0 && forall r: nat :: Reduce(r) !in u.at
    ensures |DoneMaps(c, u)| <= FirstZero(c) && u.unfinishedMap == (c.files - |DoneMaps(c, u)|) % UINT16
    ensures u.unfinishedMap == 0 <==> Released(c, u)
    ensures DoneReduces(c, u) == {} && u.unfinishedReduce == c.nReduce
  {
    FinishedMap(c, s, u, i);
    CounterAfter(c, |DoneMaps(c, s)|);
    NoReducesYet(c, s);
  }

  /** The counter is zero: the reduce tasks exist from now on. */
  lemma ReleasedCounts(c: Config, u: State, v: State)
    requires Released(c, u) && u.unfinishedMap == (c.files - |DoneMaps(c, u)|) % UINT16
    requires DoneReduces(c, u) == {} && u.unfinishedReduce == c.nReduce
    requires (forall i: nat :: Map(i) in u.at <==> i < c.files) && (forall r: nat :: Reduce(r) !in u.at)
    requires v.at == u.at + map i | 0 <= i < c.nReduce :: Reduce(i) := Queued
    requires v.unfinishedMap == u.unfinishedMap && v.unfinishedReduce == u.unfinishedReduce
    requires DoneMaps(c, v) == DoneMaps(c, u) && DoneReduces(c, v) == DoneReduces(c, u)
    ensures CountInv(c, v) && StageOf(c, v) == Reducing
  {
  }

  lemma StageMapInv(c: Config, s: State, o: nat, i: nat)
    requires Inv(c, s) && Enabled(s, FinishStage(o)) && s.objects[o].task == Some(Map(i)) && s.stage == Mapping
    ensures Inv(c, Apply(c, s, FinishStage(o)))
  {
    var t := Map(i);
    assert s.at[t] == HeldBy(o) && !Released(c, s);
    var left := Decrement(s.unfinishedMap);
    var next := if left == 0 then Reducing else Mapping;
    var u := WithCounted(s, o, t, next, left, s.unfinishedReduce);
    MapCounts(c, s, u, i);
    CountedPlaces(s, o, t, next, left, s.unfinishedReduce);
    var v := Apply(c, s, FinishStage(o));
    if left == 0 {
      Release(c, u, v);
      ReleasedCounts(c, u, v);
    } else {
      assert v == u;
    }
  }

  /** A panic changes nothing else. */
  lemma PanicKeeps(c: Config, s: State, p: Panic)
    requires PlaceInv(s) && CountInv(c, s) && StageInv(c, s)
    ensures var t := s.(panic := Some(p)); PlaceInv(t) && CountInv(c, t) && StageInv(c, t)
  {
    SameDone(c, s, s.(panic := Some(p)));
  }

  /** A map task that is finished when the counter has been zero already: only with too many files. */
  lemma LateMapInv(c: Config, s: State, o: nat, i: nat)
    requires Inv(c, s) && Enabled(s, FinishStage(o)) && s.objects[o].task == Some(Map(i)) && s.stage != Mapping
    ensures Inv(c, Apply(c, s, FinishStage(o))) && c.files > UINT16
  {
    assert s.at[Map(i)] == HeldBy(o);
    FinishedMap(c, s, s.(at := s.at[Map(i) := Finished]), i);
    PanicKeeps(c, s, StageMismatch);
  }

  lemma StageReduceInv(c: Config, s: State, o: nat, i: nat)
    requires Inv(c, s) && Enabled(s, FinishStage(o)) && s.objects[o].task == Some(Reduce(i))
    ensures Inv(c, Apply(c, s, FinishStage(o)))
  {
    var t := Reduce(i);
    assert s.at[t] == HeldBy(o);
    var left := Decrement(s.unfinishedReduce);
    var next := if left == 0 then Done else Reducing;
    var u := WithCounted(s, o, t, next, s.unfinishedMap, left);
    ReduceCounts(c, s, u, i);
    CountedPlaces(s, o, t, next, s.unfinishedMap, left);
    assert Apply(c, s, FinishStage(o)) == u;
  }

  lemma ReduceCounts(c: Config, s: State, u: State, i: nat)
    requires CountInv(c, s) && Reduce(i) in s.at && s.at[Reduce(i)] != Finished
    requires u.at == s.at[Reduce(i) := Finished] && u.unfinishedMap == s.unfinishedMap
    requires u.unfinishedReduce == Decrement(s.unfinishedReduce)
    ensures StageOf(c, s) == Reducing && CountInv(c, u)
    ensures StageOf(c, u) == if u.unfinishedReduce == 0 then Done else Reducing
  {
    FinishedReduce(c, s, u, i);
    assert u.unfinishedReduce == s.unfinishedReduce - 1;
  }

  lemma Unstaged(c: Config, s: State, o: nat)
    requires PlaceInv(s) && Enabled(s, FinishUnstage(o))
    ensures PlaceInv(Apply(c, s, FinishUnstage(o)))
  {
    assert Counted(s, o) && s.stageHolder == Some(o);
    assert forall p: nat :: Counted(Apply(c, s, FinishUnstage(o)), p) <==> Counted(s, p);
  }

  lemma StepPlaces(c: Config, s: State, step: Step)
    requires PlaceInv(s) && Enabled(s, step) && !step.FinishStage?
    ensures PlaceInv(Apply(c, s, step))
  {
    match step
    case Register => Registered(c, s);
    case GetLock(id) => Locked(s, id, Getting);
    case GetTake(o) => Taken(s, o);
    case GetAssign(o) => Assigned(s, Apply(c, s, step), o, s.handlers[o].task);
    case FinishLock(id) => Locked(s, id, Finishing);
    case FinishUnstage(o) => Unstaged(c, s, o);
    case FinishClear(o) => Cleared(s, Apply(c, s, step), o);
    case Expire(id) => PutBack(s, Apply(c, s, step), id);
  }

  /** Outside of stage sections nothing is finished or counted. */
  lemma StepQuiet(c: Config, s: State, step: Step)
    requires PlaceInv(s) && Enabled(s, step) && !step.FinishStage?
    ensures var t := Apply(c, s, step);
            && (forall x :: IsFinished(t, x) <==> IsFinished(s, x)) && t.at.Keys == s.at.Keys
            && t.unfinishedMap == s.unfinishedMap && t.unfinishedReduce == s.unfinishedReduce
  {
    if step.GetTake? && s.queue != [] { assert s.queue[0] in s.queue; }
  }

  /** Nor is the handler in the stage section disturbed. */
  lemma HolderKept(c: Config, s: State, step: Step)
    requires LockInv(s) && Enabled(s, step) && !step.FinishStage? && !step.FinishUnstage?
    ensures var t := Apply(c, s, step);
            && t.stage == s.stage && t.stageHolder == s.stageHolder
            && forall o: nat | s.stageHolder == Some(o) && o < |s.objects| ::
                 At(t, o, s.handlers[o]) && o < |t.objects| && t.objects[o] == s.objects[o]
  {
  }

  /** The stage is the one that is called for, or about to be assigned. */
  lemma StepStage(c: Config, s: State, step: Step)
    requires LockInv(s) && StageInv(c, s) && Enabled(s, step) && !step.FinishStage?
    requires StageOf(c, Apply(c, s, step)) == StageOf(c, s)
    ensures StageInv(c, Apply(c, s, step))
    ensures Apply(c, s, step).panic == Some(StageMismatch) ==> s.panic == Some(StageMismatch)
  {
    if !step.FinishUnstage? { HolderKept(c, s, step); }
  }

  lemma StepInv(c: Config, s: State, step: Step)
    requires Inv(c, s) && Enabled(s, step)
    ensures Inv(c, Apply(c, s, step))
  {
    if !step.FinishStage? {
      StepPlaces(c, s, step);
      StepQuiet(c, s, step);
      SameDone(c, s, Apply(c, s, step));
      StepStage(c, s, step);
    } else if s.objects[step.o].task.Some? {
      match s.objects[step.o].task.value
      case Map(i) => if s.stage == Mapping { StageMapInv(c, s, step.o, i); } else { LateMapInv(c, s, step.o, i); }
      case Reduce(i) => StageReduceInv(c, s, step.o, i);
    } else {
      PanicKeeps(c, s, NothingAttached);
    }
  }

  // ---- runs

  ghost predicate IsRun(c: Config, steps: seq<Step>, run: seq<State>) {
    && |run| == |steps| + 1
    && run[0] == Init(c)
    && forall k | 0 <= k < |steps| :: StepAt(c, steps, run, k)
  }

  ghost predicate StepAt(c: Config, steps: seq<Step>, run: seq<State>, k: nat)
    requires k < |steps| && |run| == |steps| + 1
  {
    Enabled(run[k], steps[k]) && run[k + 1] == Apply(c, run[k], steps[k])
  }

  lemma {:induction false} RunInv(c: Config, steps: seq<Step>, run: seq<State>, k: nat)
    requires IsRun(c, steps, run) && k < |run|
    ensures Inv(c, run[k])
  {
    if k == 0 {
      InitInv(c);
    } else {
      RunInv(c, steps, run, k - 1);
      assert StepAt(c, steps, run, k - 1);
      StepInv(c, run[k - 1], steps[k - 1]);
    }
  }

  /** Task t is in the container, at position i. */
  predicate QueuedAt(s: State, t: Task, i: int) {
    0 <= i < |s.queue| && s.queue[i] == t
  }

  /**
    Conservation: however requests and expiries interleave, and whatever ids are given out, a task
    that exists is in exactly one place: once in the container, with one handler on its way to a
    worker, with one worker object, or finished.
   */
  lemma Conservation(c: Config, steps: seq<Step>, run: seq<State>, k: nat, t: Task)
    requires IsRun(c, steps, run) && k < |run|
    requires t in run[k].at
    ensures var s := run[k];
            && (s.at[t] == Queued <==> exists i :: QueuedAt(s, t, i))
            && (forall i, j | QueuedAt(s, t, i) && QueuedAt(s, t, j) :: i == j)
            && (forall o :: s.at[t] == InHandler(o) <==> At(s, o, Took(t)))
            && (forall o :: s.at[t] == HeldBy(o) <==> Holds(s, t, o))
  {
    RunInv(c, steps, run, k);
    Placed(run[k], t);
  }

  lemma Placed(s: State, t: Task)
    requires PlaceInv(s) && t in s.at
    ensures s.at[t] == Queued <==> exists i :: QueuedAt(s, t, i)
    ensures forall i, j | QueuedAt(s, t, i) && QueuedAt(s, t, j) :: i == j
    ensures forall o :: s.at[t] == InHandler(o) <==> At(s, o, Took(t))
    ensures forall o :: s.at[t] == HeldBy(o) <==> Holds(s, t, o)
  {
    if s.at[t] == Queued {
      assert t in s.queue;
      var i :| 0 <= i < |s.queue| && s.queue[i] == t;
      assert QueuedAt(s, t, i);
    }
    forall i | QueuedAt(s, t, i) ensures s.at[t] == Queued { assert t in s.queue; }
  }

  /**
    The counters are the numbers of unfinished tasks, the first one modulo 65536.  Map tasks exist
    from the start, reduce tasks exactly from the moment that counter comes to zero; with at most
    65536 files that is when every map task has finished.
   */
  lemma PhaseSafety(c: Config, steps: seq<Step>, run: seq<State>, k: nat)
    requires IsRun(c, steps, run) && k < |run|
    ensures var s := run[k];
            && s.unfinishedMap == (c.files - |DoneMaps(c, s)|) % UINT16
            && s.unfinishedReduce == c.nReduce - |DoneReduces(c, s)|
            && (forall i: nat :: Map(i) in s.at <==> i < c.files)
            && (forall r: nat :: Reduce(r) in s.at <==> r < c.nReduce && Released(c, s))
            && (c.files <= UINT16 ==> (Released(c, s) <==> c.files > 0 && AllMapped(c, s)))
  {
    RunInv(c, steps, run, k);
    if 0 < c.files <= UINT16 { ReleasedIsMapped(c, run[k]); }
  }

  ghost predicate AllMapped(c: Config, s: State) {
    forall i: nat | i < c.files :: IsFinished(s, Map(i))
  }

  ghost predicate AllReduced(c: Config, s: State) {
    forall r: nat | r < c.nReduce :: IsFinished(s, Reduce(r))
  }

  lemma AllDone(done: set<int>, n: nat)
    requires |done| == n && forall x | x in done :: 0 <= x < n
    ensures forall x | 0 <= x < n :: x in done
  {
    if x :| 0 <= x < n && x !in done {
      OneMore(done, x, n);
      assert false;
    }
  }

  lemma ReleasedIsMapped(c: Config, s: State)
    requires 0 < c.files <= UINT16
    ensures Released(c, s) <==> AllMapped(c, s)
  {
    assert FirstZero(c) == c.files;
    if Released(c, s) {
      AllDone(DoneMaps(c, s), c.files);
      forall i: nat | i < c.files ensures IsFinished(s, Map(i)) { assert i in DoneMaps(c, s); }
    }
    if AllMapped(c, s) { assert DoneMaps(c, s) == UpTo(c.files); }
  }

  /** A finished task stays finished, so no task finishes twice. */
  lemma FinishedStep(c: Config, s: State, step: Step, t: Task)
    requires Inv(c, s) && Enabled(s, step) && IsFinished(s, t)
    ensures IsFinished(Apply(c, s, step), t)
  {
    if !step.FinishStage? {
      StepQuiet(c, s, step);
    } else if s.stage == Mapping {
      NoReducesYet(c, s);
    }
  }

  lemma {:induction false} FinishedForever(c: Config, steps: seq<Step>, run: seq<State>, j: nat, k: nat, t: Task)
    requires IsRun(c, steps, run) && j <= k < |run| && IsFinished(run[j], t)
    ensures IsFinished(run[k], t)
    decreases k - j
  {
    if j < k {
      FinishedForever(c, steps, run, j, k - 1, t);
      RunInv(c, steps, run, k - 1);
      assert StepAt(c, steps, run, k - 1);
      FinishedStep(c, run[k - 1], steps[k - 1], t);
    }
  }

  /**
    A task is finished by one step only: the stage section of a handler whose worker holds it, in
    the stage of the task, and it has not been finished before.
   */
  lemma FinishedOnce(c: Config, steps: seq<Step>, run: seq<State>, k: nat, t: Task)
    requires IsRun(c, steps, run) && k < |steps|
    ensures !IsFinished(run[k], t) && IsFinished(run[k + 1], t) <==> Finishes(run[k], steps[k], t)
  {
    RunInv(c, steps, run, k);
    assert StepAt(c, steps, run, k);
    FinishesOnly(c, run[k], steps[k], t);
  }

  /** The step counts task t in its stage. */
  predicate Finishes(s: State, step: Step, t: Task) {
    && step.FinishStage? && step.o < |s.objects|
    && s.objects[step.o].task == Some(t) && s.stage == StageFor(t)
  }

  lemma FinishesOnly(c: Config, s: State, step: Step, t: Task)
    requires PlaceInv(s) && Enabled(s, step)
    ensures !IsFinished(s, t) && IsFinished(Apply(c, s, step), t) <==> Finishes(s, step, t)
  {
    if !step.FinishStage? {
      StepQuiet(c, s, step);
    } else if s.objects[step.o].task.Some? {
      assert s.at[s.objects[step.o].task.value] == HeldBy(step.o);
    }
  }

  /** No handler ever finds a task that does not belong to the stage. */
  lemma NoStageMismatch(c: Config, steps: seq<Step>, run: seq<State>, k: nat)
    requires c.files <= UINT16 && IsRun(c, steps, run) && k < |run|
    ensures run[k].panic != Some(StageMismatch)
  {
    RunInv(c, steps, run, k);
  }

  /**
    Between stage sections, the job is DONE exactly when there is something to map, something
    to reduce, and every reduce task has finished; with at most 65536 files every file is mapped then.
   */
  lemma DoneMeansReduced(c: Config, steps: seq<Step>, run: seq<State>, k: nat)
    requires IsRun(c, steps, run) && k < |run|
    ensures run[k].stage == Done ==> c.files > 0 && c.nReduce > 0 && AllReduced(c, run[k])
    ensures run[k].stageHolder.None? && c.nReduce > 0 && AllReduced(c, run[k]) ==> run[k].stage == Done
    ensures run[k].stage == Done && c.files <= UINT16 ==> AllMapped(c, run[k])
  {
    RunInv(c, steps, run, k);
    var s := run[k];
    if s.stage == Done {
      if c.files <= UINT16 { ReleasedIsMapped(c, s); }
      AllDone(DoneReduces(c, s), c.nReduce);
      forall r: nat | r < c.nReduce ensures IsFinished(s, Reduce(r)) { assert r in DoneReduces(c, s); }
    }
    if c.nReduce > 0 && AllReduced(c, s) {
      assert IsFinished(s, Reduce(0));
      assert DoneReduces(c, s) == UpTo(c.nReduce);
    }
  }

  // ---- several steps in a row

  /** From s, the given steps can be taken one after the other and lead to t. */
  ghost predicate Leads(c: Config, s: State, steps: seq<Step>, t: State)
    decreases |steps|
  {
    if steps == [] then t == s
    else Enabled(s, steps[0]) && Leads(c, Apply(c, s, steps[0]), steps[1..], t)
  }

  lemma LeadsCons(c: Config, s: State, step: Step, steps: seq<Step>, t: State)
    requires Enabled(s, step) && Leads(c, Apply(c, s, step), steps, t)
    ensures Leads(c, s, [step] + steps, t)
  {
    assert ([step] + steps)[1..] == steps;
  }

  lemma {:induction false} LeadsConcat(c: Config, s: State, a: seq<Step>, t: State, b: seq<Step>, u: State)
    requires Leads(c, s, a, t) && Leads(c, t, b, u)
    ensures Leads(c, s, a + b, u)
    decreases |a|
  {
    if a == [] {
      assert a + b == b;
    } else {
      LeadsConcat(c, Apply(c, s, a[0]), a[1..], t, b, u);
      assert (a + b)[1..] == a[1..] + b;
    }
  }

  /** Steps in a row from the beginning are a run. */
  lemma LeadsRun(c: Config, steps: seq<Step>, t: State) returns (run: seq<State>)
    requires Leads(c, Init(c), steps, t)
    ensures IsRun(c, steps, run) && run[|steps|] == t
  {
    run := StatesOf(c, Init(c), steps, t);
  }

  lemma {:induction false} StatesOf(c: Config, s: State, steps: seq<Step>, t: State) returns (run: seq<State>)
    requires Leads(c, s, steps, t)
    ensures |run| == |steps| + 1 && run[0] == s && run[|steps|] == t
    ensures forall k | 0 <= k < |steps| :: StepAt(c, steps, run, k)
    decreases |steps|
  {
    if steps == [] {
      return [s];
    }
    var rest := StatesOf(c, Apply(c, s, steps[0]), steps[1..], t);
    run := [s] + rest;
    forall k | 0 <= k < |steps| ensures StepAt(c, steps, run, k) {
      if k > 0 { assert StepAt(c, steps[1..], rest, k - 1); }
    }
  }

  /** GetTask, uninterrupted, when there is a task. */
  ghost function GetSteps(id: int, o: nat): seq<Step> {
    [GetLock(id)] + ([GetTake(o)] + [GetAssign(o)])
  }

  /** FinishTask, uninterrupted. */
  ghost function FinishSteps(id: int, o: nat): seq<Step> {
    [FinishLock(id)] + ([FinishStage(o)] + ([FinishUnstage(o)] + [FinishClear(o)]))
  }

  lemma LeadsOne(c: Config, s: State, step: Step)
    requires Enabled(s, step)
    ensures Leads(c, s, [step], Apply(c, s, step))
  {
  }

  /** What GetTask comes to. */
  lemma GetEffect(c: Config, s: State, id: int) returns (t: State)
    requires s.panic.None? && Unlocked(s, id) && s.objects[s.workers[id]].task.None? && s.queue != []
    ensures Leads(c, s, GetSteps(id, s.workers[id]), t)
    ensures t == s.(queue := s.queue[1..], objects := WithTask(s, s.workers[id], Some(s.queue[0])), at := t.at)
  {
    var o := s.workers[id];
    var locked := Apply(c, s, GetLock(id));
    var took := Apply(c, locked, GetTake(o));
    t := Apply(c, took, GetAssign(o));
    LeadsOne(c, took, GetAssign(o));
    LeadsCons(c, locked, GetTake(o), [GetAssign(o)], t);
    LeadsCons(c, s, GetLock(id), [GetTake(o)] + [GetAssign(o)], t);
    assert t.handlers == s.handlers;
  }

  /** The stage that the task belongs to. */
  function StageFor(t: Task): Stage {
    if t.Map? then Mapping else Reducing
  }

  /** From the stage section of a handler to its end. */
  lemma LeaveEffect(c: Config, s: State, o: nat, next: Stage) returns (t: State)
    requires s.panic.None? && o < |s.objects| && At(s, o, Staging(next))
    ensures Leads(c, s, [FinishUnstage(o)] + [FinishClear(o)], t)
    ensures t == s.(stage := next, stageHolder := None, objects := WithTask(s, o, None), handlers := s.handlers - {o})
  {
    var unstaged := Apply(c, s, FinishUnstage(o));
    t := Apply(c, unstaged, FinishClear(o));
    LeadsOne(c, unstaged, FinishClear(o));
    LeadsCons(c, s, FinishUnstage(o), [FinishClear(o)], t);
    assert t.handlers == s.handlers - {o};
  }

  /** What FinishTask for object o makes of s. */
  ghost predicate FinishedAs(c: Config, s: State, o: nat, t: State)
    requires o < |s.objects| && s.objects[o].task.Some?
  {
    && t == s.(queue := t.queue, objects := WithTask(s, o, None), stage := t.stage,
               unfinishedMap := t.unfinishedMap, unfinishedReduce := t.unfinishedReduce, at := t.at)
    && match s.objects[o].task.value
       case Map(_) =>
         var left := Decrement(s.unfinishedMap);
         && t.unfinishedMap == left && t.unfinishedReduce == s.unfinishedReduce
         && t.queue == s.queue + (if left == 0 then ReduceTasks(c.nReduce) else [])
         && t.stage == if left == 0 then Reducing else s.stage
       case Reduce(_) =>
         var left := Decrement(s.unfinishedReduce);
         && t.unfinishedMap == s.unfinishedMap && t.unfinishedReduce == left
         && t.queue == s.queue && t.stage == if left == 0 then Done else s.stage
  }

  /** What FinishTask comes to in the stage of its task. */
  lemma FinishEffect(c: Config, s: State, id: int) returns (t: State)
    requires s.panic.None? && s.stageHolder.None? && Unlocked(s, id) && s.objects[s.workers[id]].task.Some?
    requires s.stage == StageFor(s.objects[s.workers[id]].task.value)
    ensures Leads(c, s, FinishSteps(id, s.workers[id]), t)
    ensures FinishedAs(c, s, s.workers[id], t)
  {
    var o := s.workers[id];
    var locked := Apply(c, s, FinishLock(id));
    var staged := Apply(c, locked, FinishStage(o));
    t := LeaveEffect(c, staged, o, staged.handlers[o].next);
    LeadsCons(c, locked, FinishStage(o), [FinishUnstage(o)] + [FinishClear(o)], t);
    LeadsCons(c, s, FinishLock(id), [FinishStage(o)] + ([FinishUnstage(o)] + [FinishClear(o)]), t);
    assert staged.handlers - {o} == s.handlers;
    assert s.queue + [] == s.queue;
  }

  /** A worker outside of the stage section holds a task of the stage, unless there are too many files. */
  lemma StageFits(c: Config, s: State, o: nat)
    requires Inv(c, s) && s.stageHolder.None? && o < |s.objects| && !Counted(s, o) && s.objects[o].task.Some?
    ensures s.stage == StageFor(s.objects[o].task.value) || (s.objects[o].task.value.Map? && c.files > UINT16)
  {
    var t := s.objects[o].task.value;
    assert s.at[t] == HeldBy(o);
    var u := s.(at := s.at[t := Finished]);
    if t.Map? { FinishedMap(c, s, u, t.file); } else { FinishedReduce(c, s, u, t.id); }
  }
}
