/**
  Role switching in src/raft/raft.go and the three role files: one processor goroutine takes
  events from a channel and hands them to the current role object; timers, vote requests and
  replicators belong to one role object and post their events through tryPutEv; stop and
  activate bracket the change of roles with a flag and a read/write lock.

  A run interleaves the atomic actions of the processor and of any number of posting
  goroutines.  transRole is called by the processor only, and the channel has room.
 */
module Roles {
  import opened Options

  datatype Kind = Follower | Candidate | Leader

  // The four functions handed to transRole.
  datatype Trans = CandidateFromFollower | FollowerFromCandidate | LeaderFromCandidate | FollowerFromLeader

  /** The type each function asserts its argument to have. */
  function Source(f: Trans): Kind {
    match f
    case CandidateFromFollower => Follower
    case FollowerFromCandidate => Candidate
    case LeaderFromCandidate => Candidate
    case FollowerFromLeader => Leader
  }

  function Target(f: Trans): Kind {
    match f
    case CandidateFromFollower => Candidate
    case FollowerFromCandidate => Follower
    case LeaderFromCandidate => Leader
    case FollowerFromLeader => Follower
  }

  // Role objects are numbered in the order of their creation.
  datatype Event =
    | Private(poster: nat)      // posted through tryPutEv on behalf of a role object
    | Public                    // an RPC, a command, a snapshot or a state request
    | TransEvent(f: Option<Trans>)
    | Kill

  // Where a goroutine stands that holds the lock for reading: in tryPutEv for some role object,
  // before or after it has seen that object active, or on behalf of everybody.
  datatype Reader = Trying(poster: nat) | Sure(poster: nat) | Anyone | Leaving

  // What the processor is about to do.
  datatype Pc =
    | Idle                      // take the next event
    | Stopping(f: Trans)        // in stop: the flag is cleared, the lock not yet taken
    | Stopped(f: Trans)         // put the TransEvent into the channel
    | Activating                // in activate: set the flag
    | Unlocking                 // in activate: release the lock
    | Dying                     // in stop, because of a KillEvent
    | Dead
    | Panicked                  // a type assertion failed, or an unheld lock was released

  datatype State = State(
    kinds: seq<Kind>,           // of every role object there has been
    active: seq<bool>,          // their flags
    queue: seq<Event>,          // the event channel
    writeHeld: bool,            // chLock is held for writing
    readers: seq<Reader>,       // the goroutines that hold it for reading
    pc: Pc,
    handled: seq<(nat, nat)>)   // private events processed so far: poster, processing role object

  /** The current role object is the latest one. */
  function Role(s: State): nat
    requires s.kinds != []
  {
    |s.kinds| - 1
  }

  /** Make: an inactive follower, the lock held, and a TransEvent to activate it. */
  const Init := State([Follower], [false], [TransEvent(None)], true, [], Idle, [])

  datatype Step =
    | TryLock(poster: nat)              // tryPutEv takes the read lock
    | LockAnyone                        // a public sender takes the read lock
    | Check(i: nat)                     // tryPutEv looks at the flag
    | Send(i: nat)                      // the event goes into the channel
    | Release(i: nat)                   // the read lock is released
    | SendUnlocked(ev: Event)           // GetState and Kill do not take the lock
    | Take(trans: Option<Trans>)        // the processor handles one event; trans is what the role asks for
    | TakeLock                          // stop gets the write lock
    | SendTrans
    | SetActive
    | Unlock

  predicate Enabled(s: State, step: Step) {
    s.kinds != [] && |s.active| == |s.kinds| &&
    match step
    case TryLock(p) => !s.writeHeld && p < |s.kinds|
    case LockAnyone => !s.writeHeld
    case Check(i) => i < |s.readers| && s.readers[i].Trying? && s.readers[i].poster < |s.active|
    case Send(i) => i < |s.readers| && (s.readers[i].Sure? || s.readers[i].Anyone?)
    case Release(i) => i < |s.readers| && s.readers[i].Leaving?
    case SendUnlocked(ev) => ev == Public || ev == Kill
    case Take(trans) =>
      && s.pc == Idle && s.queue != []
      && (trans.Some? ==> (s.queue[0].Private? || s.queue[0].Public?) && Source(trans.value) == s.kinds[Role(s)])
    case TakeLock => (s.pc.Stopping? || s.pc.Dying?) && !s.writeHeld && s.readers == []
    case SendTrans => s.pc.Stopped?
    case SetActive => s.pc == Activating
    case Unlock => s.pc == Unlocking
  }

  /** The processor takes the first event out of the channel and handles it. */
  function Handle(s: State, trans: Option<Trans>): State
    requires Enabled(s, Take(trans))
  {
    var t := s.(queue := s.queue[1..]);
    var me := Role(s);
    match s.queue[0]
    case TransEvent(f) =>
      if f.None? then t.(pc := Activating)
      else if s.kinds[me] != Source(f.value) then t.(pc := Panicked)
      else t.(kinds := s.kinds + [Target(f.value)], active := s.active + [false], pc := Activating)
    case Kill =>
      if s.active[me] then t.(active := s.active[me := false], pc := Dying) else t.(pc := Dead)
    case ev =>
      if !s.active[me] then t  // discarded
      else
        var u := if ev.Private? then t.(handled := s.handled + [(ev.poster, me)]) else t;
        if trans.None? then u else u.(active := s.active[me := false], pc := Stopping(trans.value))
  }

  function Apply(s: State, step: Step): State
    requires Enabled(s, step)
  {
    match step
    case TryLock(p) => s.(readers := s.readers + [Trying(p)])
    case LockAnyone => s.(readers := s.readers + [Anyone])
    case Check(i) =>
      var p := s.readers[i].poster;
      s.(readers := s.readers[i := if s.active[p] then Sure(p) else Leaving])
    case Send(i) =>
      s.(queue := s.queue + [if s.readers[i].Sure? then Private(s.readers[i].poster) else Public],
         readers := s.readers[i := Leaving])
    case Release(i) => s.(readers := s.readers[..i] + s.readers[i + 1..])
    case SendUnlocked(ev) => s.(queue := s.queue + [ev])
    case Take(trans) => Handle(s, trans)
    case TakeLock => s.(writeHeld := true, pc := if s.pc.Stopping? then Stopped(s.pc.f) else Dead)
    case SendTrans => s.(queue := s.queue + [TransEvent(Some(s.pc.f))], pc := Idle)
    case SetActive =>
      // compare-and-swap for followers and candidates, a plain store for leaders
      if s.kinds[Role(s)] != Leader && s.active[Role(s)] then s.(pc := Idle)
      else s.(active := s.active[Role(s) := true], pc := Unlocking)
    case Unlock => if s.writeHeld then s.(writeHeld := false, pc := Idle) else s.(pc := Panicked)
  }

  // ---- the invariant

  /** The flag of the current role, the lock, and the processor move together. */
  ghost predicate LockInv(s: State)
    requires s.kinds != [] && |s.active| == |s.kinds|
  {
    var on := s.active[Role(s)];
    match s.pc
    case Idle => s.writeHeld == !on
    case Stopping(f) => !s.writeHeld && !on && Source(f) == s.kinds[Role(s)]
    case Stopped(f) => s.writeHeld && !on && Source(f) == s.kinds[Role(s)]
    case Activating => s.writeHeld && !on
    case Unlocking => s.writeHeld && on
    case Dying => !s.writeHeld && !on
    case Dead => !on
    case Panicked => false
  }

  /** Only the current role can be active. */
  ghost predicate OnlyLatest(s: State)
    requires |s.active| == |s.kinds|
  {
    forall p | 0 <= p < |s.kinds| - 1 :: !s.active[p]
  }

  /** Nobody reads while the lock is held for writing, and who saw an active role saw the current one. */
  ghost predicate ReadersInv(s: State)
    requires s.kinds != []
  {
    && (s.writeHeld ==> s.readers == [])
    && (forall i | 0 <= i < |s.readers| ::
          && (s.readers[i].Trying? ==> s.readers[i].poster < |s.kinds|)
          && (s.readers[i].Sure? ==> s.readers[i].poster == Role(s)))
  }

  ghost predicate NoTrans(q: seq<Event>) {
    forall i | 0 <= i < |q| :: !q[i].TransEvent?
  }

  /** Private events in the channel are from the current role and come before any TransEvent. */
  ghost predicate PrivateInv(s: State)
    requires s.kinds != []
  {
    && (forall i | 0 <= i < |s.queue| && s.queue[i].Private? :: s.queue[i].poster == Role(s))
    && (forall i, j | 0 <= i < j < |s.queue| && s.queue[i].TransEvent? ::
          !s.queue[j].Private? && !s.queue[j].TransEvent?)
  }

  /** A TransEvent waits only for an idle processor of a stopped role, and fits that role. */
  ghost predicate TransInv(s: State)
    requires s.kinds != [] && |s.active| == |s.kinds|
  {
    forall i | 0 <= i < |s.queue| && s.queue[i].TransEvent? ::
      && (s.pc == Idle || s.pc == Dead) && s.writeHeld && !s.active[Role(s)]
      && (s.queue[i].f.Some? ==> Source(s.queue[i].f.value) == s.kinds[Role(s)])
  }

  /** An idle processor of a stopped role has a TransEvent to look forward to. */
  ghost predicate PendingInv(s: State)
    requires s.kinds != [] && |s.active| == |s.kinds|
  {
    s.pc == Idle && !s.active[Role(s)] ==> exists i :: 0 <= i < |s.queue| && s.queue[i].TransEvent?
  }

  ghost predicate HandledInv(s: State) {
    forall i | 0 <= i < |s.handled| :: s.handled[i].0 == s.handled[i].1
  }

  ghost predicate Inv(s: State) {
    && s.kinds != []
    && |s.active| == |s.kinds|
    && LockInv(s) && OnlyLatest(s) && ReadersInv(s)
    && PrivateInv(s) && TransInv(s) && PendingInv(s) && HandledInv(s)
  }

  lemma StepInv(s: State, step: Step)
    requires Inv(s) && Enabled(s, step)
    ensures Inv(Apply(s, step))
  {
    match step
    case Take(trans) => HandleInv(s, trans);
    case Send(i) => SendInv(s, step);
    case SendUnlocked(ev) => SendInv(s, step);
    case TakeLock => SwitchInv(s, step);
    case SendTrans => SwitchInv(s, step);
    case SetActive => SwitchInv(s, step);
    case Unlock => SwitchInv(s, step);
    case _ => ReaderInv(s, step);
  }

  /** Getting, checking and releasing the read lock. */
  lemma ReaderInv(s: State, step: Step)
    requires Inv(s) && Enabled(s, step) && (step.TryLock? || step.LockAnyone? || step.Check? || step.Release?)
    ensures Inv(Apply(s, step))
  {
    var t := Apply(s, step);
    assert t == s.(readers := t.readers);
  }

  /** Events that go into the channel. */
  lemma SendInv(s: State, step: Step)
    requires Inv(s) && Enabled(s, step) && (step.Send? || step.SendUnlocked?)
    ensures Inv(Apply(s, step))
  {
    PendingKept(s, Apply(s, step));
  }

  /** The actions of stop and activate. */
  lemma SwitchInv(s: State, step: Step)
    requires Inv(s) && Enabled(s, step) && (step.TakeLock? || step.SendTrans? || step.SetActive? || step.Unlock?)
    ensures Inv(Apply(s, step))
  {
    if step.SendTrans? { assert Apply(s, step).queue[|s.queue|].TransEvent?; }
  }

  lemma PendingKept(s: State, t: State)
    requires s.kinds != [] && |s.active| == |s.kinds| && PendingInv(s)
    requires t.kinds == s.kinds && t.active == s.active && t.pc == s.pc && s.queue <= t.queue
    ensures PendingInv(t)
  {
    if s.pc == Idle && !s.active[Role(s)] {
      var i :| 0 <= i < |s.queue| && s.queue[i].TransEvent?;
      assert t.queue[i].TransEvent?;
    }
  }

  lemma HandleInv(s: State, trans: Option<Trans>)
    requires Inv(s) && Enabled(s, Take(trans))
    ensures Inv(Handle(s, trans))
  {
    var t := Handle(s, trans);
    assert forall i | 0 <= i < |t.queue| :: t.queue[i] == s.queue[i + 1];
    if t.pc == Idle && !s.active[Role(s)] {
      var i :| 0 <= i < |s.queue| && s.queue[i].TransEvent?;
      assert t.queue[i - 1].TransEvent?;
    }
  }

  // ---- runs

  ghost predicate IsRun(steps: seq<Step>, run: seq<State>) {
    && |run| == |steps| + 1
    && run[0] == Init
    && forall k | 0 <= k < |steps| :: StepAt(steps, run, k)
  }

  ghost predicate StepAt(steps: seq<Step>, run: seq<State>, k: nat)
    requires k < |steps| && |run| == |steps| + 1
  {
    Enabled(run[k], steps[k]) && run[k + 1] == Apply(run[k], steps[k])
  }

  lemma {:induction false} RunInv(steps: seq<Step>, run: seq<State>, k: nat)
    requires IsRun(steps, run) && k < |run|
    ensures Inv(run[k])
  {
    if k == 0 {
      assert run[0].queue[0].TransEvent?;
    } else {
      RunInv(steps, run, k - 1);
      assert StepAt(steps, run, k - 1);
      StepInv(run[k - 1], steps[k - 1]);
    }
  }

  /** A private event is only ever processed by the role object on whose behalf it was posted. */
  lemma RoleIsolation(steps: seq<Step>, run: seq<State>, k: nat, i: nat)
    requires IsRun(steps, run) && k < |run| && i < |run[k].handled|
    ensures run[k].handled[i].0 == run[k].handled[i].1
  {
    RunInv(steps, run, k);
  }

  /** No type assertion in a transition function fails, and no lock is released that is not held. */
  lemma NeverPanics(steps: seq<Step>, run: seq<State>, k: nat)
    requires IsRun(steps, run) && k < |run|
    ensures run[k].pc != Panicked
  {
    RunInv(steps, run, k);
  }

  /**
    The current role is stopped and the processor idle exactly when there is a TransEvent in the
    channel, there is never more than one, and none while the processor is still stopping a role.
   */
  lemma OneTransEvent(steps: seq<Step>, run: seq<State>, k: nat)
    requires IsRun(steps, run) && k < |run| && run[k].pc != Dead
    ensures var s := run[k];
            && s.kinds != [] && |s.active| == |s.kinds|
            && (NoTrans(s.queue) <==> s.pc != Idle || s.active[Role(s)])
            && forall i, j | 0 <= i < j < |s.queue| :: !s.queue[i].TransEvent? || !s.queue[j].TransEvent?
  {
    RunInv(steps, run, k);
  }

  /** The lock is held for writing exactly from the moment stop has it to the moment activate lets go. */
  lemma LockBracketsStop(steps: seq<Step>, run: seq<State>, k: nat)
    requires IsRun(steps, run) && k < |run| && run[k].pc != Dead
    ensures var s := run[k];
            && s.kinds != [] && |s.active| == |s.kinds|
            && (s.writeHeld <==>
                  s.pc.Stopped? || s.pc == Activating || s.pc == Unlocking || (s.pc == Idle && !s.active[Role(s)]))
            && (s.writeHeld ==> s.readers == [])
            && forall p | 0 <= p < Role(s) :: !s.active[p]
  {
    RunInv(steps, run, k);
  }
}
