/**
  checkParallel of src/porcupine/checker.go: one goroutine per partition runs
  checkSingle, a main loop collects answers, stops everybody as soon as it knows
  enough, and may be interrupted by a timer.

  A run is a sequence of states; the environment decides which enabled step comes
  next.  lin[i] says whether partition i is linearizable.
 */
module Parallel {

  datatype CheckResult = Unknown | Ok | Illegal

  datatype Config = Config(lin: seq<bool>, computeInfo: bool, hasTimeout: bool)

  // What has become of a goroutine: its answer is still to come, in the channel, or taken out.
  datatype Worker = Running | Posted(answer: bool) | Received

  datatype Phase = Looping | Draining | Finished

  datatype State = State(
    workers: seq<Worker>, count: nat, ok: bool, timedOut: bool, kill: bool, phase: Phase)

  datatype Step = Post(i: nat, answer: bool) | Receive(i: nat) | Timeout | Drain(i: nat) | Finish

  /** What checkSingle may answer: a killed search may say false, any other answer is exact. */
  predicate MayAnswer(linearizable: bool, killed: bool, answer: bool) {
    answer == linearizable || (!answer && killed)
  }

  predicate Init(c: Config, s: State) {
    s == State(seq(|c.lin|, _ => Running), 0, true, false, false, Looping)
  }

  /** The body of the select loop for one result. */
  function AfterResult(c: Config, s: State, i: nat, answer: bool): State
    requires i < |s.workers|
  {
    var taken := s.(workers := s.workers[i := Received], count := s.count + 1, ok := s.ok && answer);
    if !taken.ok && !c.computeInfo then taken.(kill := true, phase := Draining)
    else if taken.count >= |c.lin| then taken.(phase := Draining)
    else taken
  }

  predicate Enabled(c: Config, s: State, step: Step) {
    match step
    case Post(i, answer) => i < |c.lin| == |s.workers| && s.workers[i] == Running && MayAnswer(c.lin[i], s.kill, answer)
    case Receive(i) => s.phase == Looping && i < |s.workers| && s.workers[i].Posted?
    case Timeout => s.phase == Looping && c.hasTimeout
    case Drain(i) =>
      s.phase == Draining && c.computeInfo && s.count < |c.lin| && i < |s.workers| && s.workers[i].Posted?
    case Finish => s.phase == Draining && (c.computeInfo ==> s.count >= |c.lin|)
  }

  function Apply(c: Config, s: State, step: Step): State
    requires Enabled(c, s, step)
  {
    match step
    case Post(i, answer) => s.(workers := s.workers[i := Posted(answer)])
    case Receive(i) => AfterResult(c, s, i, s.workers[i].answer)
    case Timeout => s.(timedOut := true, kill := true, phase := Draining)
    case Drain(i) => s.(workers := s.workers[i := Received], count := s.count + 1)
    case Finish => s.(phase := Finished)
  }

  function Result(s: State): CheckResult {
    if !s.ok then Illegal else if s.timedOut then Unknown else Ok
  }

  /** A run: the first state is initial and each state follows from the one before it by some step. */
  ghost predicate IsRun(c: Config, run: seq<State>) {
    && run != []
    && Init(c, run[0])
    && forall k | 0 < k < |run| :: StepAt(c, run, k)
  }

  ghost predicate StepAt(c: Config, run: seq<State>, k: nat)
    requires 0 < k < |run|
  {
    Follows(c, run[k - 1], run[k])
  }

  ghost predicate Follows(c: Config, s: State, t: State) {
    exists step :: Enabled(c, s, step) && t == Apply(c, s, step)
  }

  // ---- the invariant

  function Weight(w: Worker): nat {
    match w
    case Running => 2
    case Posted(_) => 1
    case Received => 0
  }

  function TotalWeight(ws: seq<Worker>): nat {
    if ws == [] then 0 else TotalWeight(ws[..|ws| - 1]) + Weight(ws[|ws| - 1])
  }

  function Missing(ws: seq<Worker>): nat {
    if ws == [] then 0
    else Missing(ws[..|ws| - 1]) + (if ws[|ws| - 1] == Received then 0 else 1)
  }

  lemma {:induction false} Updated(ws: seq<Worker>, i: nat, w: Worker)
    requires i < |ws|
    ensures TotalWeight(ws[i := w]) == TotalWeight(ws) - Weight(ws[i]) + Weight(w)
    ensures Missing(ws[i := w]) ==
            Missing(ws) - (if ws[i] == Received then 0 else 1) + (if w == Received then 0 else 1)
    decreases |ws|
  {
    var front := ws[..|ws| - 1];
    if i < |front| {
      Updated(front, i, w);
      assert ws[i := w][..|ws| - 1] == front[i := w];
    } else {
      assert ws[i := w][..|ws| - 1] == front;
    }
  }

  lemma {:induction false} AllRunning(n: nat)
    ensures Missing(seq(n, _ => Running)) == n && TotalWeight(seq(n, _ => Running)) == 2 * n
  {
    if n > 0 {
      AllRunning(n - 1);
      assert seq(n, _ => Running)[..n - 1] == seq(n - 1, _ => Running);
    }
  }

  lemma {:induction false} NoneMissing(ws: seq<Worker>)
    ensures Missing(ws) == 0 <==> forall i | 0 <= i < |ws| :: ws[i] == Received
    decreases |ws|
  {
    if ws != [] {
      var front := ws[..|ws| - 1];
      NoneMissing(front);
      assert ws == front + [ws[|ws| - 1]];
    }
  }

  /** Until the loop is left every answer in the channel is exact and every answer taken was true or noted. */
  ghost predicate Inv(c: Config, s: State) {
    && |s.workers| == |c.lin|
    && s.count + Missing(s.workers) == |c.lin|
    && (s.phase == Looping ==>
          && !s.kill && !s.timedOut
          && (s.ok || c.computeInfo)
          && (|c.lin| > 0 ==> s.count < |c.lin|)
          && forall i | 0 <= i < |c.lin| && s.workers[i].Posted? :: s.workers[i].answer == c.lin[i])
    && (s.timedOut ==> c.hasTimeout)
    && (!s.ok ==> exists i :: 0 <= i < |c.lin| && !c.lin[i])
    && (s.ok && !s.timedOut ==> forall i | 0 <= i < |c.lin| && s.workers[i] == Received :: c.lin[i])
    && (s.phase != Looping && s.ok && !s.timedOut ==> s.count == |c.lin|)
  }

  lemma InitInv(c: Config, s: State)
    requires Init(c, s)
    ensures Inv(c, s)
  {
    AllRunning(|c.lin|);
  }

  lemma ReceiveInv(c: Config, s: State, i: nat)
    requires Inv(c, s) && Enabled(c, s, Receive(i))
    ensures Inv(c, Apply(c, s, Receive(i)))
  {
    Updated(s.workers, i, Received);
    if !s.workers[i].answer { assert !c.lin[i]; }
  }

  lemma StepInv(c: Config, s: State, step: Step)
    requires Inv(c, s) && Enabled(c, s, step)
    ensures Inv(c, Apply(c, s, step))
  {
    match step
    case Post(i, answer) => Updated(s.workers, i, Posted(answer));
    case Receive(i) => ReceiveInv(c, s, i);
    case Timeout =>
    case Drain(i) => Updated(s.workers, i, Received);
    case Finish =>
  }

  /** Every state of every run satisfies the invariant. */
  lemma {:induction false} RunInv(c: Config, run: seq<State>, k: nat)
    requires IsRun(c, run) && k < |run|
    ensures Inv(c, run[k])
  {
    if k == 0 {
      InitInv(c, run[0]);
    } else {
      RunInv(c, run, k - 1);
      assert StepAt(c, run, k);
      var step :| Enabled(c, run[k - 1], step) && run[k] == Apply(c, run[k - 1], step);
      StepInv(c, run[k - 1], step);
    }
  }

  /**
    The answer of checkParallel, over every interleaving: Ok only if every partition is
    linearizable, Illegal only if one is not, Unknown only with a timer; without one the
    answer is exact.
   */
  lemma AnswerIsTrue(c: Config, run: seq<State>, k: nat)
    requires IsRun(c, run) && k < |run| && run[k].phase == Finished
    ensures Result(run[k]) == Ok ==> forall i | 0 <= i < |c.lin| :: c.lin[i]
    ensures Result(run[k]) == Illegal ==> exists i :: 0 <= i < |c.lin| && !c.lin[i]
    ensures Result(run[k]) == Unknown ==> c.hasTimeout
    ensures !c.hasTimeout ==> (Result(run[k]) == Ok <==> forall i | 0 <= i < |c.lin| :: c.lin[i])
  {
    RunInv(c, run, k);
    NoneMissing(run[k].workers);
  }

  /** State k came about because the timer fired. */
  ghost predicate FiredAt(c: Config, run: seq<State>, k: int) {
    0 < k < |run| && Enabled(c, run[k - 1], Timeout) && run[k] == Apply(c, run[k - 1], Timeout)
  }

  /** On the way to state k the main loop took the answer false out of the channel. */
  ghost predicate RefusedAt(c: Config, run: seq<State>, k: int) {
    0 < k < |run| && exists i: nat ::
      && Enabled(c, run[k - 1], Receive(i)) && run[k] == Apply(c, run[k - 1], Receive(i))
      && run[k - 1].workers[i] == Posted(false)
  }

  ghost predicate Fired(c: Config, run: seq<State>, k: int) {
    exists j :: j <= k && FiredAt(c, run, j)
  }

  ghost predicate Refused(c: Config, run: seq<State>, k: int) {
    exists j :: j <= k && RefusedAt(c, run, j)
  }

  lemma HappenedBefore(c: Config, run: seq<State>, k: nat)
    requires 0 < k < |run|
    ensures Fired(c, run, k) <==> Fired(c, run, k - 1) || FiredAt(c, run, k)
    ensures Refused(c, run, k) <==> Refused(c, run, k - 1) || RefusedAt(c, run, k)
  {
    if Fired(c, run, k) { var j :| j <= k && FiredAt(c, run, j); }
    if Refused(c, run, k) { var j :| j <= k && RefusedAt(c, run, j); }
  }

  /** What one step does to the variables of the main loop, by what happened in it. */
  lemma StepRecords(c: Config, run: seq<State>, k: nat, step: Step)
    requires 0 < k < |run| && Inv(c, run[k - 1]) && Enabled(c, run[k - 1], step)
    requires run[k] == Apply(c, run[k - 1], step)
    ensures run[k].timedOut <==> run[k - 1].timedOut || FiredAt(c, run, k)
    ensures !run[k].ok <==> !run[k - 1].ok || RefusedAt(c, run, k)
    ensures run[k].kill <==> run[k - 1].kill || FiredAt(c, run, k) || (!c.computeInfo && RefusedAt(c, run, k))
  {
    if step.Receive? && !run[k - 1].workers[step.i].answer { assert RefusedAt(c, run, k); }
    if RefusedAt(c, run, k) {
      var i: nat :| Enabled(c, run[k - 1], Receive(i)) && run[k] == Apply(c, run[k - 1], Receive(i))
                    && run[k - 1].workers[i] == Posted(false);
    }
    if step == Timeout { assert FiredAt(c, run, k); }
  }

  /**
    Over every run: the loop has noted a timeout exactly when the timer has fired, a failure exactly
    when it took the answer false, and tells everybody to stop exactly after a timeout or, without
    information wanted, a failure.
   */
  lemma {:induction false} RunRecords(c: Config, run: seq<State>, k: nat)
    requires IsRun(c, run) && k < |run|
    ensures run[k].timedOut <==> Fired(c, run, k)
    ensures !run[k].ok <==> Refused(c, run, k)
    ensures run[k].kill <==> Fired(c, run, k) || (!c.computeInfo && Refused(c, run, k))
  {
    if k > 0 {
      RunRecords(c, run, k - 1);
      RunInv(c, run, k - 1);
      HappenedBefore(c, run, k);
      assert StepAt(c, run, k);
      var step :| Enabled(c, run[k - 1], step) && run[k] == Apply(c, run[k - 1], step);
      StepRecords(c, run, k, step);
    }
  }

  /**
    The answer, by what has happened in the run: Illegal exactly when the loop took the answer false,
    even if the timer fired later; Unknown exactly when it did not and the timer fired.
   */
  lemma AnswerByHistory(c: Config, run: seq<State>, k: nat)
    requires IsRun(c, run) && k < |run| && run[k].phase == Finished
    ensures Result(run[k]) == Illegal <==> Refused(c, run, k)
    ensures Result(run[k]) == Unknown <==> !Refused(c, run, k) && Fired(c, run, k)
    ensures Result(run[k]) == Ok <==> !Refused(c, run, k) && !Fired(c, run, k)
  {
    RunRecords(c, run, k);
  }

  /** When the loop is left, and what is waited for afterwards. */
  ghost predicate LoopInv(c: Config, s: State) {
    && (s.phase == Looping <==> !s.timedOut && (c.computeInfo || s.ok) && (c.lin == [] || Missing(s.workers) > 0))
    && (s.phase == Finished && c.computeInfo ==> Missing(s.workers) == 0)
  }

  lemma StepLoop(c: Config, s: State, step: Step)
    requires Inv(c, s) && LoopInv(c, s) && Enabled(c, s, step)
    ensures LoopInv(c, Apply(c, s, step))
  {
    match step
    case Post(i, answer) => Updated(s.workers, i, Posted(answer));
    case Receive(i) => Updated(s.workers, i, Received);
    case Timeout =>
    case Drain(i) => Updated(s.workers, i, Received);
    case Finish =>
  }

  lemma {:induction false} RunLoop(c: Config, run: seq<State>, k: nat)
    requires IsRun(c, run) && k < |run|
    ensures LoopInv(c, run[k])
  {
    if k == 0 {
      AllRunning(|c.lin|);
    } else {
      RunLoop(c, run, k - 1);
      RunInv(c, run, k - 1);
      assert StepAt(c, run, k);
      var step :| Enabled(c, run[k - 1], step) && run[k] == Apply(c, run[k - 1], step);
      StepLoop(c, run[k - 1], step);
    }
  }

  /**
    The loop goes on exactly until the timer fires, the answer false makes the others unnecessary, or
    there was something to wait for and all answers are taken; with information wanted, checkParallel
    returns only when all goroutines have answered.
   */
  lemma LoopUntil(c: Config, run: seq<State>, k: nat)
    requires IsRun(c, run) && k < |run|
    ensures run[k].phase == Looping <==>
            && !Fired(c, run, k) && (c.computeInfo || !Refused(c, run, k))
            && (c.lin == [] || exists i :: 0 <= i < |run[k].workers| && run[k].workers[i] != Received)
    ensures run[k].phase == Finished && c.computeInfo ==>
              forall i | 0 <= i < |run[k].workers| :: run[k].workers[i] == Received
  {
    RunRecords(c, run, k);
    RunLoop(c, run, k);
    NoneMissing(run[k].workers);
  }

  /** With information wanted and no timer nobody is ever told to stop. */
  lemma {:induction false} NeverKilled(c: Config, run: seq<State>, k: nat)
    requires IsRun(c, run) && k < |run| && c.computeInfo && !c.hasTimeout
    ensures !run[k].kill
  {
    if k > 0 {
      NeverKilled(c, run, k - 1);
      assert StepAt(c, run, k);
    }
  }

  // ---- termination

  ghost function Measure(s: State): nat {
    TotalWeight(s.workers) + match s.phase { case Looping => 2 case Draining => 1 case Finished => 0 }
  }

  /** Every step brings the end nearer ... */
  lemma StepProgress(c: Config, s: State, step: Step)
    requires Enabled(c, s, step) && |s.workers| == |c.lin|
    ensures Measure(Apply(c, s, step)) < Measure(s)
  {
    match step
    case Post(i, answer) => Updated(s.workers, i, Posted(answer));
    case Receive(i) => Updated(s.workers, i, Received);
    case Timeout =>
    case Drain(i) => Updated(s.workers, i, Received);
    case Finish =>
  }

  /** ... so no run has more than 2n + 3 states ... */
  lemma RunLength(c: Config, run: seq<State>)
    requires IsRun(c, run)
    ensures |run| <= 2 * |c.lin| + 3
  {
    RunMeasure(c, run, |run| - 1);
    AllRunning(|c.lin|);
  }

  lemma {:induction false} RunMeasure(c: Config, run: seq<State>, k: nat)
    requires IsRun(c, run) && k < |run|
    ensures Measure(run[k]) + k <= Measure(run[0])
  {
    if k > 0 {
      RunMeasure(c, run, k - 1);
      RunInv(c, run, k - 1);
      assert StepAt(c, run, k);
      var step :| Enabled(c, run[k - 1], step) && run[k] == Apply(c, run[k - 1], step);
      StepProgress(c, run[k - 1], step);
    }
  }

  /** ... and with a partition or a timer no run gets stuck before it has finished. */
  lemma NeverStuck(c: Config, s: State) returns (step: Step)
    requires Inv(c, s) && s.phase != Finished && (|c.lin| > 0 || c.hasTimeout)
    ensures Enabled(c, s, step) && (step == Timeout ==> c.lin == [])
  {
    NoneMissing(s.workers);
    if s.phase == Draining && (c.computeInfo ==> s.count >= |c.lin|) {
      return Finish;
    }
    if c.lin == [] {
      return Timeout;
    }
    var i :| 0 <= i < |s.workers| && s.workers[i] != Received;
    match s.workers[i]
    case Running => return Post(i, c.lin[i]);
    case Posted(_) => return if s.phase == Looping then Receive(i) else Drain(i);
  }

  // ---- which answers there can be

  lemma ExtendRun(c: Config, run: seq<State>, step: Step) returns (run': seq<State>)
    requires IsRun(c, run) && Enabled(c, run[|run| - 1], step)
    ensures IsRun(c, run') && run < run' && run'[|run'| - 1] == Apply(c, run[|run| - 1], step)
    ensures |run'| == |run| + 1
  {
    run' := run + [Apply(c, run[|run| - 1], step)];
    forall k | 0 < k < |run'| ensures StepAt(c, run', k) {
      if k < |run| { assert StepAt(c, run, k); }
    }
  }

  /** A run can be brought to its end, without the timer unless there is nothing else to wait for. */
  lemma {:induction false} Complete(c: Config, run: seq<State>) returns (run': seq<State>)
    requires IsRun(c, run) && (c.lin != [] || c.hasTimeout)
    ensures IsRun(c, run') && run <= run' && run'[|run'| - 1].phase == Finished
    ensures var s, t := run[|run| - 1], run'[|run'| - 1];
            && (!s.ok ==> !t.ok) && (s.timedOut ==> t.timedOut)
            && (s.phase != Looping ==> t.ok == s.ok)
            && (c.lin != [] ==> t.timedOut == s.timedOut)
    decreases Measure(run[|run| - 1])
  {
    var s := run[|run| - 1];
    if s.phase == Finished {
      run' := run;
    } else {
      RunInv(c, run, |run| - 1);
      var step := NeverStuck(c, s);
      StepProgress(c, s, step);
      var more := ExtendRun(c, run, step);
      run' := Complete(c, more);
    }
  }

  ghost predicate CanAnswer(c: Config, r: CheckResult) {
    exists run: seq<State> :: IsRun(c, run) && run[|run| - 1].phase == Finished && Result(run[|run| - 1]) == r
  }

  lemma Starts(c: Config) returns (run: seq<State>)
    ensures IsRun(c, run) && |run| == 1
  {
    run := [State(seq(|c.lin|, _ => Running), 0, true, false, false, Looping)];
  }

  lemma FindsNone(c: Config) returns (run: seq<State>)
    requires c.lin != [] && forall i | 0 <= i < |c.lin| :: c.lin[i]
    ensures IsRun(c, run) && run[|run| - 1].phase == Finished && Result(run[|run| - 1]) == Ok
  {
    run := Starts(c);
    run := Complete(c, run);
    RunInv(c, run, |run| - 1);
  }

  lemma TimesOut(c: Config) returns (run: seq<State>)
    requires c.hasTimeout
    ensures IsRun(c, run) && run[|run| - 1].phase == Finished && Result(run[|run| - 1]) == Unknown
  {
    run := Starts(c);
    run := ExtendRun(c, run, Timeout);
    run := Complete(c, run);
  }

  /** The loop takes the answer of partition i first; then the timer may fire if it is still waiting. */
  lemma FindsFalse(c: Config, i: nat, late: bool) returns (run: seq<State>)
    requires i < |c.lin| && !c.lin[i] && (late ==> c.hasTimeout && c.computeInfo && |c.lin| > 1)
    ensures IsRun(c, run) && run[|run| - 1].phase == Finished && Result(run[|run| - 1]) == Illegal
    ensures late ==> run[|run| - 1].timedOut
  {
    run := Starts(c);
    run := ExtendRun(c, run, Post(i, false));
    run := ExtendRun(c, run, Receive(i));
    if late { run := ExtendRun(c, run, Timeout); }
    run := Complete(c, run);
  }

  /**
    Illegal can be the answer exactly when some partition is not linearizable, Ok exactly when there
    are partitions and all are, and Unknown exactly when there is a timer.
   */
  lemma PossibleAnswers(c: Config)
    ensures CanAnswer(c, Illegal) <==> exists i :: 0 <= i < |c.lin| && !c.lin[i]
    ensures CanAnswer(c, Ok) <==> c.lin != [] && forall i | 0 <= i < |c.lin| :: c.lin[i]
    ensures CanAnswer(c, Unknown) <==> c.hasTimeout
  {
    forall run: seq<State> | IsRun(c, run) && run[|run| - 1].phase == Finished
      ensures Result(run[|run| - 1]) == Illegal ==> exists i :: 0 <= i < |c.lin| && !c.lin[i]
      ensures Result(run[|run| - 1]) == Ok ==> c.lin != [] && forall i | 0 <= i < |c.lin| :: c.lin[i]
      ensures Result(run[|run| - 1]) == Unknown ==> c.hasTimeout
    {
      AnswerIsTrue(c, run, |run| - 1);
      RunLoop(c, run, |run| - 1);
    }
    if i :| 0 <= i < |c.lin| && !c.lin[i] { var run := FindsFalse(c, i, false); }
    if c.lin != [] && forall i | 0 <= i < |c.lin| :: c.lin[i] { var run := FindsNone(c); }
    if c.hasTimeout { var run := TimesOut(c); }
  }

  lemma {:induction false} RefusedIsCounted(c: Config, run: seq<State>, k: nat)
    requires IsRun(c, run) && k < |run|
    ensures !run[k].ok ==> run[k].count > 0
  {
    if k > 0 {
      RefusedIsCounted(c, run, k - 1);
      assert StepAt(c, run, k);
    }
  }

  /** After the timer nothing is taken by the loop. */
  lemma RefusedFirst(c: Config, run: seq<State>, r: int, j: int)
    requires IsRun(c, run) && RefusedAt(c, run, r) && FiredAt(c, run, j)
    ensures r < j
  {
    RunInv(c, run, r - 1);
    if j <= r - 1 { assert Fired(c, run, r - 1); }
    RunRecords(c, run, r - 1);
  }

  lemma WaitsForMore(c: Config, s: State)
    requires Inv(c, s) && s.phase == Looping && !s.ok && s.count > 0
    ensures c.computeInfo && |c.lin| > 1
  {
  }

  /** When the timer fires after a false answer, the loop was still waiting for another one. */
  lemma FiredWhileWaiting(c: Config, run: seq<State>, r: int, j: int)
    requires IsRun(c, run) && RefusedAt(c, run, r) && FiredAt(c, run, j)
    ensures c.hasTimeout && c.computeInfo && |c.lin| > 1
  {
    RefusedFirst(c, run, r, j);
    assert !run[j - 1].ok by {
      assert Refused(c, run, j - 1);
      RunRecords(c, run, j - 1);
    }
    RefusedIsCounted(c, run, j - 1);
    RunInv(c, run, j - 1);
    WaitsForMore(c, run[j - 1]);
  }

  /** The answer false and a timeout in the same run. */
  ghost predicate FailsAndTimesOut(c: Config, run: seq<State>) {
    IsRun(c, run) && run[|run| - 1].phase == Finished && Refused(c, run, |run| - 1) && Fired(c, run, |run| - 1)
  }

  /** That is possible exactly when there is a timer and information is wanted on more than one partition. */
  lemma FailsThenTimesOut(c: Config)
    ensures (exists run :: FailsAndTimesOut(c, run)) <==>
            c.hasTimeout && c.computeInfo && |c.lin| > 1 && exists i :: 0 <= i < |c.lin| && !c.lin[i]
  {
    if run :| FailsAndTimesOut(c, run) {
      var j :| j <= |run| - 1 && FiredAt(c, run, j);
      var r :| r <= |run| - 1 && RefusedAt(c, run, r);
      FiredWhileWaiting(c, run, r, j);
      AnswerByHistory(c, run, |run| - 1);
      AnswerIsTrue(c, run, |run| - 1);
    }
    if c.hasTimeout && c.computeInfo && |c.lin| > 1 && exists i :: 0 <= i < |c.lin| && !c.lin[i] {
      var i :| 0 <= i < |c.lin| && !c.lin[i];
      var run := FindsFalse(c, i, true);
      RunRecords(c, run, |run| - 1);
      assert FailsAndTimesOut(c, run);
    }
  }

  ghost predicate CanGoOn(c: Config, s: State) {
    s.phase == Finished || exists step :: Enabled(c, s, step)
  }

  /** Every run goes on until it has finished. */
  ghost predicate AlwaysAnswers(c: Config) {
    forall run: seq<State> | IsRun(c, run) :: CanGoOn(c, run[|run| - 1])
  }

  /**
    checkParallel always answers exactly when there is a partition or a timer; otherwise the main
    loop waits for a result that never comes.
   */
  lemma AnswersExactly(c: Config)
    ensures AlwaysAnswers(c) <==> |c.lin| > 0 || c.hasTimeout
  {
    if |c.lin| > 0 || c.hasTimeout {
      forall run: seq<State> | IsRun(c, run) ensures CanGoOn(c, run[|run| - 1]) {
        RunInv(c, run, |run| - 1);
        if run[|run| - 1].phase != Finished {
          var step := NeverStuck(c, run[|run| - 1]);
        }
      }
    } else {
      var s := State([], 0, true, false, false, Looping);
      assert seq(0, _ => Running) == [];
      assert IsRun(c, [s]) && [s][|[s]| - 1] == s;
      assert !CanGoOn(c, s);
    }
  }
}
