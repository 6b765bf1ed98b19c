/**
  What has happened in a run of the role switching of src/raft/raft.go: which events went through
  the channel and who processed them, who asked for which change of roles, and which sequences of
  roles there can be.
 */
module RoleHistory {
  import opened Options
  import opened Roles

  // ---- events

  /** What a step puts into the channel. */
  ghost function PostedIn(s: State, step: Step): seq<Event> {
    match step
    case Send(i) =>
      if i >= |s.readers| then [] else [if s.readers[i].Sure? then Private(s.readers[i].poster) else Public]
    case SendUnlocked(ev) => [ev]
    case SendTrans => if s.pc.Stopped? then [TransEvent(Some(s.pc.f))] else []
    case _ => []
  }

  /** What it takes out of it. */
  ghost function TakenIn(s: State, step: Step): seq<Event> {
    if step.Take? && s.queue != [] then [s.queue[0]] else []
  }

  /** The events put into the channel by the first k steps, in order. */
  ghost function PostedBy(steps: seq<Step>, run: seq<State>, k: nat): seq<Event>
    requires k <= |steps| && |run| == |steps| + 1
  {
    if k == 0 then [] else PostedBy(steps, run, k - 1) + PostedIn(run[k - 1], steps[k - 1])
  }

  /** The events taken out of it, in order. */
  ghost function TakenBy(steps: seq<Step>, run: seq<State>, k: nat): seq<Event>
    requires k <= |steps| && |run| == |steps| + 1
  {
    if k == 0 then [] else TakenBy(steps, run, k - 1) + TakenIn(run[k - 1], steps[k - 1])
  }

  lemma ChannelStep(s: State, step: Step)
    requires Enabled(s, step)
    ensures TakenIn(s, step) + Apply(s, step).queue == s.queue + PostedIn(s, step)
  {
    if step.Take? { assert s.queue == [s.queue[0]] + s.queue[1..]; }
  }

  lemma ChannelJoin(
    taken: seq<Event>, queue: seq<Event>, posted: seq<Event>, first: seq<Event>,
    out: seq<Event>, queue': seq<Event>, more: seq<Event>)
    requires taken + queue == first + posted && out + queue' == queue + more
    ensures taken + out + queue' == first + (posted + more)
  {
    calc {
      taken + out + queue';
      taken + (out + queue');
      taken + (queue + more);
      (taken + queue) + more;
      (first + posted) + more;
      first + (posted + more);
    }
  }

  /** Nothing is lost in the channel, repeated or overtaken. */
  lemma {:induction false} ChannelInOrder(steps: seq<Step>, run: seq<State>, k: nat)
    requires IsRun(steps, run) && k < |run|
    ensures TakenBy(steps, run, k) + run[k].queue == [TransEvent(None)] + PostedBy(steps, run, k)
  {
    if k > 0 {
      ChannelInOrder(steps, run, k - 1);
      assert StepAt(steps, run, k - 1);
      ChannelStep(run[k - 1], steps[k - 1]);
      ChannelJoin(
        TakenBy(steps, run, k - 1), run[k - 1].queue, PostedBy(steps, run, k - 1), [TransEvent(None)],
        TakenIn(run[k - 1], steps[k - 1]), run[k].queue, PostedIn(run[k - 1], steps[k - 1]));
    }
  }

  /** The processor takes a private event in step k while the current role is active. */
  ghost predicate ProcessesAt(steps: seq<Step>, run: seq<State>, k: nat) {
    && k < |steps| && k < |run| && steps[k].Take?
    && run[k].queue != [] && run[k].queue[0].Private?
    && run[k].kinds != [] && |run[k].active| == |run[k].kinds| && run[k].active[Role(run[k])]
  }

  /** Who posted and who processed the private events taken by the first k steps. */
  ghost function ProcessedBy(steps: seq<Step>, run: seq<State>, k: nat): seq<(nat, nat)> {
    if k == 0 then []
    else
      ProcessedBy(steps, run, k - 1) +
      if ProcessesAt(steps, run, k - 1) then [(run[k - 1].queue[0].poster, Role(run[k - 1]))] else []
  }

  /**
    Exactly the private events that are taken while the current role is active are processed, in the
    order of the channel.
   */
  lemma {:induction false} ProcessedExactly(steps: seq<Step>, run: seq<State>, k: nat)
    requires IsRun(steps, run) && k < |run|
    ensures run[k].handled == ProcessedBy(steps, run, k)
  {
    if k > 0 {
      ProcessedExactly(steps, run, k - 1);
      assert StepAt(steps, run, k - 1);
      RunInv(steps, run, k - 1);
    }
  }

  /** Every private event that is taken, even one that is discarded, is from the current role object. */
  lemma TakenFromCurrent(steps: seq<Step>, run: seq<State>, k: nat)
    requires IsRun(steps, run) && k < |steps| && steps[k].Take?
    requires run[k].queue != [] && run[k].queue[0].Private?
    ensures run[k].kinds != [] && run[k].queue[0].poster == Role(run[k])
  {
    RunInv(steps, run, k);
  }

  // ---- roles

  /** What each of the four functions makes of which role. */
  predicate Makes(f: Trans, from: Kind, to: Kind) {
    match f
    case CandidateFromFollower => from == Follower && to == Candidate
    case FollowerFromCandidate => from == Candidate && to == Follower
    case LeaderFromCandidate => from == Candidate && to == Leader
    case FollowerFromLeader => from == Leader && to == Follower
  }

  /** Role object p - 1, being current and active, asks for f in step j. */
  ghost predicate AskedAt(steps: seq<Step>, run: seq<State>, j: nat, p: nat, f: Trans) {
    && j < |steps| && j < |run| && steps[j] == Take(Some(f))
    && 0 < p == |run[j].kinds| == |run[j].active| && run[j].active[p - 1]
  }

  ghost predicate AskedBefore(steps: seq<Step>, run: seq<State>, k: nat, p: nat, f: Trans) {
    exists j: nat :: j < k && AskedAt(steps, run, j, p, f)
  }

  lemma AskedNext(steps: seq<Step>, run: seq<State>, k: nat, p: nat, f: Trans)
    requires k > 0
    ensures AskedBefore(steps, run, k, p, f) <==>
            AskedBefore(steps, run, k - 1, p, f) || AskedAt(steps, run, k - 1, p, f)
  {
  }

  /** The change of roles f is under way. */
  ghost predicate Pending(s: State, f: Trans) {
    s.pc == Stopping(f) || s.pc == Stopped(f) || TransEvent(Some(f)) in s.queue
  }

  /** Taking an event puts a change under way exactly when the active role asks for it. */
  lemma PendingTaken(s: State, trans: Option<Trans>, f: Trans)
    requires Inv(s) && Enabled(s, Take(trans))
    ensures var t := Apply(s, Take(trans));
            && (t.kinds == s.kinds ==> (Pending(t, f) <==> Pending(s, f) || (trans == Some(f) && s.active[Role(s)])))
            && (t.kinds != s.kinds ==> !Pending(t, f))
  {
    var t := Apply(s, Take(trans));
    assert s.queue == [s.queue[0]] + s.queue[1..];
    assert t.queue == s.queue[1..];
  }

  /** The other steps only move it on. */
  lemma PendingMoved(s: State, step: Step, f: Trans)
    requires Inv(s) && Enabled(s, step) && !step.Take?
    ensures Apply(s, step).kinds == s.kinds && (Pending(Apply(s, step), f) <==> Pending(s, f))
  {
    var t := Apply(s, step);
    if step.Send? || step.SendUnlocked? || step.SendTrans? {
      assert t.queue == s.queue + [t.queue[|s.queue|]];
    } else {
      assert t.queue == s.queue;
    }
  }

  /** Role objects do not go away, and nobody has asked for a role that is not there yet. */
  lemma {:induction false} KindsGrow(steps: seq<Step>, run: seq<State>, j: nat, k: nat)
    requires IsRun(steps, run) && j <= k < |run|
    ensures run[j].kinds <= run[k].kinds
    decreases k - j
  {
    if j < k {
      KindsGrow(steps, run, j, k - 1);
      assert StepAt(steps, run, k - 1);
    }
  }

  /** A change of roles is under way exactly when the current role has asked for it. */
  lemma {:induction false} PendingIsAsked(steps: seq<Step>, run: seq<State>, k: nat, f: Trans)
    requires IsRun(steps, run) && k < |run|
    ensures Pending(run[k], f) <==> AskedBefore(steps, run, k, |run[k].kinds|, f)
  {
    if k > 0 {
      PendingIsAsked(steps, run, k - 1, f);
      RunInv(steps, run, k - 1);
      assert StepAt(steps, run, k - 1);
      AskedNext(steps, run, k, |run[k].kinds|, f);
      var s := run[k - 1];
      if steps[k - 1].Take? {
        PendingTaken(s, steps[k - 1].trans, f);
        if run[k].kinds != s.kinds { NotAskedYet(steps, run, k, |run[k].kinds|, f); }
      } else {
        PendingMoved(s, steps[k - 1], f);
      }
    }
  }

  lemma NotAskedYet(steps: seq<Step>, run: seq<State>, k: nat, p: nat, f: Trans)
    requires IsRun(steps, run) && 0 < k < |run| && |run[k - 1].kinds| < p
    ensures !AskedBefore(steps, run, k, p, f)
  {
    if AskedBefore(steps, run, k, p, f) {
      var j: nat :| j < k && AskedAt(steps, run, j, p, f);
      KindsGrow(steps, run, j, k - 1);
    }
  }

  /** A role object asks at most once. */
  lemma AsksOnce(steps: seq<Step>, run: seq<State>, i: nat, j: nat, p: nat, f: Trans, g: Trans)
    requires IsRun(steps, run) && i < j && AskedAt(steps, run, i, p, f)
    ensures !AskedAt(steps, run, j, p, g)
  {
    if AskedAt(steps, run, j, p, g) {
      PendingIsAsked(steps, run, j, f);
      RunInv(steps, run, j);
    }
  }

  /** Step k makes a new role object: the one that the TransEvent at the head of the channel asks for. */
  lemma NewRole(steps: seq<Step>, run: seq<State>, k: nat)
    requires IsRun(steps, run) && k < |steps|
    ensures var s, t := run[k], run[k + 1];
            && s.kinds != []
            && (t.kinds == s.kinds <==>
                  !steps[k].Take? || s.queue == [] || !s.queue[0].TransEvent? || s.queue[0].f.None?)
            && (t.kinds != s.kinds ==>
                  && |t.kinds| == |s.kinds| + 1 && s.kinds <= t.kinds
                  && Makes(s.queue[0].f.value, s.kinds[Role(s)], t.kinds[Role(t)]))
  {
    RunInv(steps, run, k);
    assert StepAt(steps, run, k);
  }

  /** Role object p was asked for by the one before it, by the function that makes it. */
  ghost predicate AskedFor(steps: seq<Step>, run: seq<State>, k: nat, p: nat)
    requires k < |run| && 0 < p < |run[k].kinds|
  {
    exists f :: AskedBefore(steps, run, k, p, f) && Makes(f, run[k].kinds[p - 1], run[k].kinds[p])
  }

  /**
    Over every run: the first role is a follower, and every later role object is there because the
    one before it, being active, asked for it, and is of the kind it asked for.
   */
  lemma {:induction false} RolesAskedFor(steps: seq<Step>, run: seq<State>, k: nat)
    requires IsRun(steps, run) && k < |run|
    ensures run[k].kinds != [] && run[k].kinds[0] == Follower
    ensures forall p: nat | 0 < p < |run[k].kinds| :: AskedFor(steps, run, k, p)
  {
    if k > 0 {
      RolesAskedFor(steps, run, k - 1);
      NewRole(steps, run, k - 1);
      forall p: nat | 0 < p < |run[k].kinds| ensures AskedFor(steps, run, k, p) {
        if p < |run[k - 1].kinds| {
          assert AskedFor(steps, run, k - 1, p);
          var f :| AskedBefore(steps, run, k - 1, p, f) && Makes(f, run[k - 1].kinds[p - 1], run[k - 1].kinds[p]);
          AskedNext(steps, run, k, p, f);
        } else {
          var f := run[k - 1].queue[0].f.value;
          assert run[k - 1].queue[0] in run[k - 1].queue && Pending(run[k - 1], f);
          PendingIsAsked(steps, run, k - 1, f);
          AskedNext(steps, run, k, p, f);
        }
      }
    }
  }

  /** A KillEvent, once taken, is the last event: nothing is processed and no role is active any more. */
  lemma {:induction false} KilledForever(steps: seq<Step>, run: seq<State>, j: nat, k: nat)
    requires IsRun(steps, run) && j < k < |run| && steps[j].Take? && run[j].queue != [] && run[j].queue[0] == Kill
    ensures run[k].pc == Dying || run[k].pc == Dead
    ensures run[k].kinds == run[j].kinds && run[k].handled == run[j].handled
    ensures forall p | 0 <= p < |run[k].active| :: !run[k].active[p]
    ensures k < |steps| ==> !steps[k].Take?
    decreases k - j
  {
    if j + 1 < k { KilledForever(steps, run, j, k - 1); }
    RunInv(steps, run, k - 1);
    RunInv(steps, run, k);
    assert StepAt(steps, run, k - 1);
    if k < |steps| { assert StepAt(steps, run, k); }
  }

  // ---- which sequences of roles there are

  /** One role after another. */
  predicate Succeeds(from: Kind, to: Kind) {
    match from
    case Follower => to == Candidate
    case Candidate => to == Follower || to == Leader
    case Leader => to == Follower
  }

  ghost predicate Sequence(kinds: seq<Kind>) {
    kinds != [] && kinds[0] == Follower && forall p | 0 < p < |kinds| :: Succeeds(kinds[p - 1], kinds[p])
  }

  /** The roles for which own says that they asked on account of an event of their own. */
  function Owners(own: seq<bool>): seq<(nat, nat)> {
    if own == [] then []
    else Owners(own[..|own| - 1]) + if own[|own| - 1] then [(|own| - 1, |own| - 1)] else []
  }

  /** There is a run with these roles, in which exactly those roles asked on account of an event of their own. */
  ghost predicate Reachable(kinds: seq<Kind>, own: seq<bool>) {
    exists steps: seq<Step>, run: seq<State> ::
      IsRun(steps, run) && run[|steps|].kinds == kinds && run[|steps|].handled == Owners(own)
  }

  /** The current role is active, and nothing is going on. */
  ghost predicate Quiet(s: State) {
    && s.kinds != [] && |s.active| == |s.kinds| && s.active[Role(s)]
    && s.queue == [] && s.readers == [] && !s.writeHeld && s.pc == Idle
  }

  lemma ExtendRun(steps: seq<Step>, run: seq<State>, step: Step) returns (steps': seq<Step>, run': seq<State>)
    requires IsRun(steps, run) && Enabled(run[|steps|], step)
    ensures IsRun(steps', run') && steps' == steps + [step] && run'[|steps'|] == Apply(run[|steps|], step)
  {
    steps', run' := steps + [step], run + [Apply(run[|steps|], step)];
    forall k | 0 <= k < |steps'| ensures StepAt(steps', run', k) {
      if k < |steps| { assert StepAt(steps, run, k); }
    }
  }

  /** A TransEvent is waiting, and the role it makes is activated. */
  lemma Activates(steps: seq<Step>, run: seq<State>, f: Option<Trans>) returns (steps': seq<Step>, run': seq<State>)
    requires IsRun(steps, run)
    requires var s := run[|steps|];
             Inv(s) && s.pc == Idle && s.queue == [TransEvent(f)] && s.readers == []
    ensures IsRun(steps', run')
    ensures var s, t := run[|steps|], run'[|steps'|];
            && Quiet(t) && t.handled == s.handled
            && s.kinds <= t.kinds && |t.kinds| == |s.kinds| + (if f.Some? then 1 else 0)
            && (f.Some? ==> Makes(f.value, s.kinds[Role(s)], t.kinds[Role(t)]))
  {
    steps', run' := ExtendRun(steps, run, Take(None));
    steps', run' := ExtendRun(steps', run', SetActive);
    steps', run' := ExtendRun(steps', run', Unlock);
  }

  /** An event gets into the channel: one of the current role's own, or an RPC. */
  lemma Posts(steps: seq<Step>, run: seq<State>, own: bool) returns (steps': seq<Step>, run': seq<State>)
    requires IsRun(steps, run) && Quiet(run[|steps|])
    ensures IsRun(steps', run')
    ensures var s, t := run[|steps|], run'[|steps'|];
            t == s.(queue := [if own then Private(Role(s)) else Public])
  {
    if own {
      steps', run' := ExtendRun(steps, run, TryLock(Role(run[|steps|])));
      steps', run' := ExtendRun(steps', run', Check(0));
    } else {
      steps', run' := ExtendRun(steps, run, LockAnyone);
    }
    steps', run' := ExtendRun(steps', run', Send(0));
    steps', run' := ExtendRun(steps', run', Release(0));
  }

  /** The current role takes it and asks for f. */
  lemma Asks(steps: seq<Step>, run: seq<State>, f: Trans, own: bool) returns (steps': seq<Step>, run': seq<State>)
    requires IsRun(steps, run) && Quiet(run[|steps|]) && Source(f) == run[|steps|].kinds[Role(run[|steps|])]
    ensures IsRun(steps', run')
    ensures var s, t := run[|steps|], run'[|steps'|];
            && t.kinds == s.kinds && t.handled == s.handled + (if own then [(Role(s), Role(s))] else [])
            && t.queue == [TransEvent(Some(f))] && t.readers == [] && t.pc == Idle
  {
    steps', run' := Posts(steps, run, own);
    steps', run' := ExtendRun(steps', run', Take(Some(f)));
    steps', run' := ExtendRun(steps', run', TakeLock);
    steps', run' := ExtendRun(steps', run', SendTrans);
  }

  /** A former role object tries to post an event: nothing gets into the channel. */
  lemma FormerRefused(steps: seq<Step>, run: seq<State>, p: nat) returns (steps': seq<Step>, run': seq<State>)
    requires IsRun(steps, run) && Quiet(run[|steps|]) && p < Role(run[|steps|])
    ensures IsRun(steps', run') && |steps'| == |steps| + 3 && steps'[|steps|] == TryLock(p)
    ensures run'[|steps'|] == run[|steps|]
  {
    RunInv(steps, run, |steps|);
    steps', run' := ExtendRun(steps, run, TryLock(p));
    steps', run' := ExtendRun(steps', run', Check(0));
    steps', run' := ExtendRun(steps', run', Release(0));
  }

  /** Kill ends any role. */
  lemma CanBeKilled(steps: seq<Step>, run: seq<State>) returns (steps': seq<Step>, run': seq<State>)
    requires IsRun(steps, run) && Quiet(run[|steps|])
    ensures IsRun(steps', run') && run'[|steps'|].pc == Dead && run'[|steps'|].kinds == run[|steps|].kinds
  {
    steps', run' := ExtendRun(steps, run, SendUnlocked(Kill));
    steps', run' := ExtendRun(steps', run', Take(None));
    steps', run' := ExtendRun(steps', run', TakeLock);
  }

  /** The function that makes one role of another. */
  function Between(from: Kind, to: Kind): (f: Trans)
    requires Succeeds(from, to)
    ensures Makes(f, from, to) && forall to' | Makes(f, from, to') :: to' == to
    ensures Source(f) == from
  {
    match from
    case Follower => CandidateFromFollower
    case Candidate => if to == Follower then FollowerFromCandidate else LeaderFromCandidate
    case Leader => FollowerFromLeader
  }

  lemma {:induction false} Realized(kinds: seq<Kind>, own: seq<bool>) returns (steps: seq<Step>, run: seq<State>)
    requires Sequence(kinds) && |own| == |kinds| - 1
    ensures IsRun(steps, run) && Quiet(run[|steps|])
    ensures run[|steps|].kinds == kinds && run[|steps|].handled == Owners(own)
    decreases |kinds|
  {
    if |kinds| == 1 {
      steps, run := [], [Init];
      RunInv(steps, run, 0);
      steps, run := Activates(steps, run, None);
      assert run[|steps|].kinds == kinds;
    } else {
      var n := |kinds| - 1;
      steps, run := Realized(kinds[..n], own[..n - 1]);
      var f := Between(kinds[n - 1], kinds[n]);
      steps, run := Asks(steps, run, f, own[n - 1]);
      RunInv(steps, run, |steps|);
      steps, run := Activates(steps, run, Some(f));
      assert run[|steps|].kinds == kinds[..n] + [kinds[n]] == kinds;
    }
  }

  /**
    The roles of a node are, over all runs, exactly the sequences that begin with a follower and in
    which every role succeeds the one before it, whichever of them asked on account of an event of
    their own and which because of somebody else.
   */
  lemma RoleSequences(kinds: seq<Kind>, own: seq<bool>)
    requires |own| == |kinds| - 1
    ensures Reachable(kinds, own) <==> Sequence(kinds)
  {
    if Reachable(kinds, own) {
      var steps: seq<Step>, run: seq<State> :|
        IsRun(steps, run) && run[|steps|].kinds == kinds && run[|steps|].handled == Owners(own);
      RolesAskedFor(steps, run, |steps|);
      forall p | 0 < p < |kinds| ensures Succeeds(kinds[p - 1], kinds[p]) {
        assert AskedFor(steps, run, |steps|, p);
      }
    }
    if Sequence(kinds) {
      var steps, run := Realized(kinds, own);
    }
  }
}
