/**
  Clerks and the key/value server (src/kvsrv/client.go, src/kvsrv/server.go) over a network
  that loses, delays and duplicates messages.  A clerk has one call outstanding at a time and
  resends it, unchanged, until a reply to that call arrives.

  Whatever has been sent may be delivered any number of times, or never; whatever the server
  has answered to a call may reach the clerk while it waits for that call.
 */
module Dedup {
  import opened Options
  import opened KvServer

  // rpcid and the call under way, if any
  datatype Clerk = Clerk(rpcid: int, pending: Option<Args>)

  datatype State = State(
    server: Server,
    clerks: seq<Clerk>,
    sent: set<Args>,
    replies: set<(Args, Reply)>,
    panicked: bool,
    issued: seq<seq<Args>>,   // by each clerk, in order
    executed: seq<Args>)      // by the server, in order

  function Init(clerks: nat): State {
    State(Server(map[], map[]), seq(clerks, _ => Clerk(0, None)), {}, {}, false, seq(clerks, _ => []), [])
  }

  datatype Step =
    | Call(c: nat, op: Op, key: string, value: string)
    | Deliver(args: Args)
    | Return(c: nat, reply: Reply)

  predicate Enabled(s: State, step: Step) {
    !s.panicked && |s.issued| == |s.clerks| &&
    match step
    case Call(c, _, _, _) => c < |s.clerks| && s.clerks[c].pending.None?
    case Deliver(a) => a in s.sent
    case Return(c, r) => c < |s.clerks| && s.clerks[c].pending.Some? && (s.clerks[c].pending.value, r) in s.replies
  }

  function Apply(s: State, step: Step): State
    requires Enabled(s, step)
  {
    match step
    case Call(c, op, key, value) =>
      var id := (s.clerks[c].rpcid + 1) % UINT32;
      var a := Args(op, key, value, c, id);
      s.(clerks := s.clerks[c := Clerk(id, Some(a))], sent := s.sent + {a},
         issued := s.issued[c := s.issued[c] + [a]])
    case Deliver(a) =>
      (match Handle(s.server, a)
       case Panic => s.(panicked := true)
       case Handled(server, reply) =>
         s.(server := server, replies := s.replies + {(a, reply)},
            executed := if InfoOf(s.server, a.client).rpcId == a.rpcId then s.executed + [a] else s.executed))
    case Return(c, r) => s.(clerks := s.clerks[c := Clerk(r.rpcId, None)])
  }

  // ---- histories

  /** The requests of one client, in order. */
  function Of(ops: seq<Args>, c: nat): seq<Args> {
    if ops == [] then []
    else
      var front := Of(ops[..|ops| - 1], c);
      if ops[|ops| - 1].client == c then front + [ops[|ops| - 1]] else front
  }

  /** The table after executing ops from nothing. */
  function Fold(ops: seq<Args>): map<string, string> {
    if ops == [] then map[] else Effect(Fold(ops[..|ops| - 1]), ops[|ops| - 1])
  }

  lemma Snoc(ops: seq<Args>, a: Args)
    ensures Fold(ops + [a]) == Effect(Fold(ops), a)
    ensures forall c :: Of(ops + [a], c) == if a.client == c then Of(ops, c) + [a] else Of(ops, c)
  {
    assert (ops + [a])[..|ops|] == ops;
  }

  // ---- the invariant

  /** How many requests of c the server has executed. */
  function Count(s: State, c: nat): int {
    InfoOf(s.server, c).rpcId - 1
  }

  /** Clerk c has made the calls mine, of which the server has executed done, count of them. */
  ghost predicate ClerkOk(c: nat, clerk: Clerk, mine: seq<Args>, count: int, done: seq<Args>) {
    && |mine| < UINT32 - 1
    && clerk.rpcid == |mine|
    && (forall i | 0 <= i < |mine| :: mine[i].client == c && mine[i].rpcId == i + 1)
    && 0 <= count <= |mine|
    && (clerk.pending.None? ==> count == |mine|)
    && (clerk.pending.Some? ==> |mine| > 0 && clerk.pending.value == mine[|mine| - 1] && |mine| - 1 <= count)
    && done == mine[..count]
  }

  /** Clerk c: its calls are numbered 1, 2, 3 ..., and all but perhaps the one under way are executed. */
  ghost predicate ClerkInv(s: State, c: nat)
    requires c < |s.clerks| == |s.issued|
  {
    ClerkOk(c, s.clerks[c], s.issued[c], Count(s, c), Of(s.executed, c))
  }

  lemma ClerkCalls(c: nat, clerk: Clerk, mine: seq<Args>, count: int, done: seq<Args>, a: Args)
    requires ClerkOk(c, clerk, mine, count, done) && clerk.pending.None? && |mine| < UINT32 - 2
    requires a.client == c && a.rpcId == |mine| + 1
    ensures ClerkOk(c, Clerk(|mine| + 1, Some(a)), mine + [a], count, done)
  {
    assert (mine + [a])[..count] == mine[..count];
  }

  lemma ClerkExecutes(c: nat, clerk: Clerk, mine: seq<Args>, count: int, done: seq<Args>)
    requires ClerkOk(c, clerk, mine, count, done) && count < |mine|
    ensures ClerkOk(c, clerk, mine, count + 1, done + [mine[count]])
  {
    assert mine[..count + 1] == mine[..count] + [mine[count]];
  }

  /** Only calls that have been made are in the network. */
  ghost predicate SentInv(s: State)
    requires |s.clerks| == |s.issued|
  {
    forall a | a in s.sent ::
      a.client < |s.clerks| && 1 <= a.rpcId <= |s.issued[a.client]| && s.issued[a.client][a.rpcId - 1] == a
  }

  /** Replies are to executed calls, and a reply to the latest call of a clerk carries its number. */
  ghost predicate RepliesInv(s: State)
    requires |s.clerks| == |s.issued|
  {
    forall a, r | (a, r) in s.replies ::
      && a in s.sent && a.client < |s.clerks|
      && a.rpcId <= Count(s, a.client)
      && (a.rpcId == |s.issued[a.client]| ==> r.rpcId == a.rpcId)
  }

  ghost predicate Inv(s: State) {
    && !s.panicked
    && |s.clerks| == |s.issued|
    && (forall c | 0 <= c < |s.clerks| :: ClerkInv(s, c))
    && SentInv(s) && RepliesInv(s)
    && s.server.data == Fold(s.executed)
  }

  /** No clerk has made more than n calls. */
  ghost predicate Bounded(s: State, n: int) {
    forall c | 0 <= c < |s.issued| :: |s.issued[c]| <= n
  }

  lemma CallInv(s: State, c: nat, op: Op, key: string, value: string)
    requires Inv(s) && Enabled(s, Call(c, op, key, value)) && |s.issued[c]| < UINT32 - 2
    ensures Inv(Apply(s, Call(c, op, key, value)))
  {
    var t := Apply(s, Call(c, op, key, value));
    assert ClerkInv(s, c);
    var a := Args(op, key, value, c, |s.issued[c]| + 1);
    assert t.clerks == s.clerks[c := Clerk(a.rpcId, Some(a))];
    CallClerks(s, t, a);
    CallNetwork(s, t, a);
  }

  lemma CallClerks(s: State, t: State, a: Args)
    requires |s.clerks| == |s.issued| && a.client < |s.clerks|
    requires forall c | 0 <= c < |s.clerks| :: ClerkInv(s, c)
    requires s.clerks[a.client].pending.None? && a.rpcId == |s.issued[a.client]| + 1 < UINT32 - 1
    requires t.clerks == s.clerks[a.client := Clerk(a.rpcId, Some(a))]
    requires t.issued == s.issued[a.client := s.issued[a.client] + [a]]
    requires t.server == s.server && t.executed == s.executed
    ensures forall c | 0 <= c < |t.clerks| :: ClerkInv(t, c)
  {
    assert ClerkInv(s, a.client);
    ClerkCalls(a.client, s.clerks[a.client], s.issued[a.client], Count(s, a.client), Of(s.executed, a.client), a);
    forall c | 0 <= c < |t.clerks| ensures ClerkInv(t, c) {
      assert ClerkInv(s, c);
    }
  }

  lemma CallNetwork(s: State, t: State, a: Args)
    requires |s.clerks| == |s.issued| && SentInv(s) && RepliesInv(s)
    requires a.client < |s.clerks| && a.rpcId == |s.issued[a.client]| + 1
    requires |t.clerks| == |s.clerks| && t.server == s.server && t.replies == s.replies
    requires t.sent == s.sent + {a} && t.issued == s.issued[a.client := s.issued[a.client] + [a]]
    ensures SentInv(t) && RepliesInv(t)
  {
  }

  /** A request that is delivered has either been executed or is the next one of its client. */
  lemma NeverAhead(s: State, a: Args)
    requires Inv(s) && a in s.sent
    ensures a.rpcId <= InfoOf(s.server, a.client).rpcId
    ensures a.rpcId == InfoOf(s.server, a.client).rpcId ==>
              s.clerks[a.client].pending == Some(a) && |s.issued[a.client]| == a.rpcId
  {
    assert ClerkInv(s, a.client);
  }

  /** Nothing new is in the network. */
  lemma SameSent(s: State, t: State)
    requires |s.clerks| == |s.issued| && SentInv(s)
    requires |t.clerks| == |s.clerks| && t.issued == s.issued && t.sent == s.sent
    ensures SentInv(t)
  {
  }

  lemma ExecuteInv(s: State, a: Args)
    requires Inv(s) && Enabled(s, Deliver(a)) && InfoOf(s.server, a.client).rpcId == a.rpcId
    ensures Inv(Apply(s, Deliver(a)))
  {
    var t := Apply(s, Deliver(a));
    NeverAhead(s, a);
    assert ClerkInv(s, a.client);
    ExecuteHasEffect(s.server, a);
    Executed(s, t, a, Handle(s.server, a).reply);
  }

  lemma Executed(s: State, t: State, a: Args, r: Reply)
    requires Inv(s) && a in s.sent && a.client < |s.clerks| && r.rpcId == a.rpcId
    requires t == s.(server := t.server, replies := s.replies + {(a, r)}, executed := s.executed + [a])
    requires t.server.data == Effect(s.server.data, a)
    requires 0 <= Count(s, a.client) < |s.issued[a.client]| && a == s.issued[a.client][Count(s, a.client)]
    requires Count(t, a.client) == Count(s, a.client) + 1 == a.rpcId
    requires forall c: nat | c != a.client :: Count(t, c) == Count(s, c)
    ensures Inv(t)
  {
    Snoc(s.executed, a);
    SameSent(s, t);
    ExecuteClerks(s, t, a);
    ExecuteReplies(s, t, a, r);
  }

  lemma ExecuteReplies(s: State, t: State, a: Args, r: Reply)
    requires |s.clerks| == |s.issued| && RepliesInv(s) && a in s.sent && a.client < |s.clerks| && r.rpcId == a.rpcId
    requires t.clerks == s.clerks && t.issued == s.issued && t.sent == s.sent && t.replies == s.replies + {(a, r)}
    requires Count(t, a.client) == Count(s, a.client) + 1 && a.rpcId <= Count(t, a.client)
    requires forall c: nat | c != a.client :: Count(t, c) == Count(s, c)
    ensures RepliesInv(t)
  {
  }

  lemma ExecuteClerks(s: State, t: State, a: Args)
    requires |s.clerks| == |s.issued| && a.client < |s.clerks|
    requires forall c | 0 <= c < |s.clerks| :: ClerkInv(s, c)
    requires t.clerks == s.clerks && t.issued == s.issued && t.executed == s.executed + [a]
    requires 0 <= Count(s, a.client) < |s.issued[a.client]| && a == s.issued[a.client][Count(s, a.client)]
    requires Count(t, a.client) == Count(s, a.client) + 1
    requires forall c: nat | c != a.client :: Count(t, c) == Count(s, c)
    ensures forall c | 0 <= c < |t.clerks| :: ClerkInv(t, c)
  {
    Snoc(s.executed, a);
    assert ClerkInv(s, a.client);
    ClerkExecutes(a.client, s.clerks[a.client], s.issued[a.client], Count(s, a.client), Of(s.executed, a.client));
    forall c | 0 <= c < |t.clerks| ensures ClerkInv(t, c) {
      assert ClerkInv(s, c);
    }
  }

  lemma ResendInv(s: State, a: Args)
    requires Inv(s) && Enabled(s, Deliver(a)) && InfoOf(s.server, a.client).rpcId > a.rpcId
    ensures Inv(Apply(s, Deliver(a)))
  {
    var t := Apply(s, Deliver(a));
    ResendHasNoEffect(s.server, a);
    assert ClerkInv(s, a.client);
    forall d | 0 <= d < |t.clerks| ensures ClerkInv(t, d) {
      assert ClerkInv(s, d);
    }
  }

  lemma ReturnInv(s: State, c: nat, r: Reply)
    requires Inv(s) && Enabled(s, Return(c, r))
    ensures Inv(Apply(s, Return(c, r)))
  {
    var t := Apply(s, Return(c, r));
    assert ClerkInv(s, c);
    forall d | 0 <= d < |t.clerks| ensures ClerkInv(t, d) {
      assert ClerkInv(s, d);
    }
  }

  lemma StepInv(s: State, step: Step)
    requires Inv(s) && Enabled(s, step) && Bounded(Apply(s, step), UINT32 - 2)
    ensures Inv(Apply(s, step))
  {
    match step
    case Call(c, op, key, value) =>
      assert |Apply(s, step).issued[c]| == |s.issued[c]| + 1;
      CallInv(s, c, op, key, value);
    case Deliver(a) =>
      NeverAhead(s, a);
      if InfoOf(s.server, a.client).rpcId == a.rpcId { ExecuteInv(s, a); } else { ResendInv(s, a); }
    case Return(c, r) => ReturnInv(s, c, r);
  }

  // ---- runs

  ghost predicate IsRun(clerks: nat, steps: seq<Step>, run: seq<State>) {
    && |run| == |steps| + 1
    && run[0] == Init(clerks)
    && forall k | 0 <= k < |steps| :: StepAt(steps, run, k)
  }

  ghost predicate StepAt(steps: seq<Step>, run: seq<State>, k: nat)
    requires k < |steps| && |run| == |steps| + 1
  {
    Enabled(run[k], steps[k]) && run[k + 1] == Apply(run[k], steps[k])
  }

  /** Calls that have been made are not forgotten. */
  lemma BoundedBefore(s: State, step: Step, n: int)
    requires Enabled(s, step) && Bounded(Apply(s, step), n)
    ensures Bounded(s, n)
  {
    forall c | 0 <= c < |s.issued| ensures |s.issued[c]| <= n {
      assert |s.issued[c]| <= |Apply(s, step).issued[c]|;
    }
  }

  lemma {:induction false} RunInv(clerks: nat, steps: seq<Step>, run: seq<State>, k: nat)
    requires IsRun(clerks, steps, run) && k < |run| && Bounded(run[k], UINT32 - 2)
    ensures Inv(run[k]) && |run[k].clerks| == clerks
  {
    if k > 0 {
      assert StepAt(steps, run, k - 1);
      BoundedBefore(run[k - 1], steps[k - 1], UINT32 - 2);
      RunInv(clerks, steps, run, k - 1);
      StepInv(run[k - 1], steps[k - 1]);
    }
  }

  /**
    Clerk c's calls take effect at most once, in the order in which they were made, and exactly once
    as soon as they have returned; the table is the result of the calls that have taken effect; and
    no request has been ahead of the server.
   */
  ghost predicate Once(clerks: nat, s: State, c: nat) {
    && c < |s.clerks| == |s.issued| == clerks
    && Of(s.executed, c) <= s.issued[c]
    && |s.issued[c]| - 1 <= |Of(s.executed, c)|
    && (s.clerks[c].pending.None? ==> Of(s.executed, c) == s.issued[c])
    && (forall i, j | 0 <= i < j < |s.issued[c]| :: s.issued[c][i] != s.issued[c][j])
    && s.server.data == Fold(s.executed)
    && !s.panicked
  }

  /** This holds in every run in which no clerk makes more than 2^32 - 2 calls. */
  lemma ExactlyOnce(clerks: nat, steps: seq<Step>, run: seq<State>, k: nat, c: nat)
    requires IsRun(clerks, steps, run) && k < |run| && c < clerks && Bounded(run[k], UINT32 - 2)
    ensures Once(clerks, run[k], c)
  {
    RunInv(clerks, steps, run, k);
    assert ClerkInv(run[k], c);
    var mine := run[k].issued[c];
    assert mine[..|mine|] == mine;
  }

  // ---- what an append returns

  /** Position p of executed holds an append to a key that was there. */
  ghost predicate AppendedAt(s: State, a: Args, p: int) {
    && 0 <= p < |s.executed| && s.executed[p] == a && a.op == Append
    && a.key in Fold(s.executed[..p])
  }

  /** Every reply to the latest call of a clerk, if it appended to something, is what was there. */
  ghost predicate ValuesInv(s: State)
    requires |s.clerks| == |s.issued|
  {
    forall a, p | AppendedAt(s, a, p) && a.client < |s.clerks| && a.rpcId == |s.issued[a.client]| ::
      && InfoOf(s.server, a.client).lastValue == Fold(s.executed[..p])[a.key]
      && forall r | (a, r) in s.replies :: r.value == Fold(s.executed[..p])[a.key]
  }

  /** The latest call of a clerk has been executed at one position only. */
  lemma {:induction false} ExecutedIsOwn(ops: seq<Args>, p: nat)
    requires p < |ops|
    ensures ops[p] in Of(ops, ops[p].client)
    decreases |ops|
  {
    if p < |ops| - 1 {
      ExecutedIsOwn(ops[..|ops| - 1], p);
    }
  }

  /** Only executed requests are at a position of executed. */
  lemma ExecutedBefore(s: State, p: nat)
    requires Inv(s) && p < |s.executed| && s.executed[p].client < |s.clerks|
    ensures s.executed[p].rpcId <= Count(s, s.executed[p].client)
  {
    var a := s.executed[p];
    assert ClerkInv(s, a.client);
    ExecutedIsOwn(s.executed, p);
    var i :| 0 <= i < Count(s, a.client) && s.issued[a.client][i] == a;
  }

  lemma ValuesCall(s: State, c: nat, op: Op, key: string, value: string)
    requires Inv(s) && ValuesInv(s) && Enabled(s, Call(c, op, key, value)) && |s.issued[c]| < UINT32 - 2
    ensures ValuesInv(Apply(s, Call(c, op, key, value)))
  {
    var t := Apply(s, Call(c, op, key, value));
    assert ClerkInv(s, c);
    forall a, p | AppendedAt(t, a, p) && a.client < |t.clerks| && a.rpcId == |t.issued[a.client]|
      ensures a.client != c && AppendedAt(s, a, p)
    {
      ExecutedBefore(s, p);
    }
  }

  lemma ValuesExecute(s: State, a: Args)
    requires Inv(s) && ValuesInv(s) && Enabled(s, Deliver(a)) && InfoOf(s.server, a.client).rpcId == a.rpcId
    ensures ValuesInv(Apply(s, Deliver(a)))
  {
    var t := Apply(s, Deliver(a));
    NeverAhead(s, a);
    ExecuteHasEffect(s.server, a);
    assert t.executed[..|s.executed|] == s.executed;
    assert forall r | (a, r) in s.replies :: false;
    forall b, p | AppendedAt(t, b, p) && b.client < |t.clerks| && b.rpcId == |t.issued[b.client]|
      ensures InfoOf(t.server, b.client).lastValue == Fold(t.executed[..p])[b.key]
      ensures forall r | (b, r) in t.replies :: r.value == Fold(t.executed[..p])[b.key]
    {
      if p < |s.executed| {
        assert t.executed[..p] == s.executed[..p];
        assert AppendedAt(s, b, p);
        ExecutedBefore(s, p);
        assert b.client != a.client;
      }
    }
  }

  lemma ValuesResend(s: State, a: Args)
    requires Inv(s) && ValuesInv(s) && Enabled(s, Deliver(a)) && InfoOf(s.server, a.client).rpcId > a.rpcId
    ensures ValuesInv(Apply(s, Deliver(a)))
  {
    var t := Apply(s, Deliver(a));
    ResendHasNoEffect(s.server, a);
    forall b, p | AppendedAt(t, b, p) && b.client < |t.clerks| && b.rpcId == |t.issued[b.client]|
      ensures AppendedAt(s, b, p)
    {}
  }

  lemma {:induction false} RunValues(clerks: nat, steps: seq<Step>, run: seq<State>, k: nat)
    requires IsRun(clerks, steps, run) && k < |run| && Bounded(run[k], UINT32 - 2)
    ensures |run[k].clerks| == |run[k].issued| && ValuesInv(run[k])
  {
    RunInv(clerks, steps, run, k);
    if k > 0 {
      assert StepAt(steps, run, k - 1);
      BoundedBefore(run[k - 1], steps[k - 1], UINT32 - 2);
      RunInv(clerks, steps, run, k - 1);
      RunValues(clerks, steps, run, k - 1);
      ValuesStep(run[k - 1], steps[k - 1]);
    }
  }

  lemma ValuesStep(s: State, step: Step)
    requires Inv(s) && ValuesInv(s) && Enabled(s, step) && Bounded(Apply(s, step), UINT32 - 2)
    ensures |Apply(s, step).clerks| == |Apply(s, step).issued| && ValuesInv(Apply(s, step))
  {
    match step
    case Call(c, op, key, value) =>
      assert |Apply(s, step).issued[c]| == |s.issued[c]| + 1;
      ValuesCall(s, c, op, key, value);
    case Deliver(a) =>
      NeverAhead(s, a);
      if InfoOf(s.server, a.client).rpcId == a.rpcId { ValuesExecute(s, a); } else { ValuesResend(s, a); }
    case Return(c, r) =>
      forall a, p | AppendedAt(Apply(s, step), a, p) ensures AppendedAt(s, a, p) {}
  }

  /**
    A clerk whose append found the key there gets the value it found, however often the append was
    sent and whichever of the answers arrives.
   */
  lemma AppendReturnsOldValue(clerks: nat, steps: seq<Step>, run: seq<State>, k: nat, c: nat, r: Reply, p: int)
    requires IsRun(clerks, steps, run) && k < |steps| && steps[k] == Return(c, r) && Bounded(run[k], UINT32 - 2)
    requires c < |run[k].clerks| && run[k].clerks[c].pending.Some?
    requires AppendedAt(run[k], run[k].clerks[c].pending.value, p)
    ensures r.value == Fold(run[k].executed[..p])[run[k].clerks[c].pending.value.key]
  {
    RunInv(clerks, steps, run, k);
    RunValues(clerks, steps, run, k);
    assert StepAt(steps, run, k);
    assert ClerkInv(run[k], c);
  }

  // ---- how many calls are safe

  /** No run in which every clerk makes at most n calls ends in a panic. */
  ghost predicate NeverPanics(clerks: nat, n: int) {
    forall steps: seq<Step>, run: seq<State> | IsRun(clerks, steps, run) && Bounded(run[|steps|], n) ::
      !run[|steps|].panicked
  }

  /** In every such run all calls take effect once and in order. */
  ghost predicate AlwaysOnce(clerks: nat, n: int) {
    forall steps: seq<Step>, run: seq<State>, c: nat |
      IsRun(clerks, steps, run) && Bounded(run[|steps|], n) && c < clerks ::
      Once(clerks, run[|steps|], c)
  }

  lemma ExtendRun(clerks: nat, steps: seq<Step>, run: seq<State>, step: Step)
    returns (steps': seq<Step>, run': seq<State>)
    requires IsRun(clerks, steps, run) && Enabled(run[|steps|], step)
    ensures IsRun(clerks, steps', run') && |steps'| == |steps| + 1
    ensures run'[|steps'|] == Apply(run[|steps|], step)
  {
    steps', run' := steps + [step], run + [Apply(run[|steps|], step)];
    forall k | 0 <= k < |steps'| ensures StepAt(steps', run', k) {
      if k < |steps| { assert StepAt(steps, run, k); }
    }
  }

  /** The first clerk has made i calls, all executed; the others have made none. */
  ghost predicate Made(clerks: nat, s: State, i: nat) {
    && !s.panicked && |s.clerks| == |s.issued| == clerks && InfoOf(s.server, 0).rpcId == (i + 1) % UINT32
    && (forall c | 0 <= c < clerks :: |s.issued[c]| == if c == 0 then i else 0)
  }

  const NOTHING := Call(0, Put, "", "")

  ghost function Number(i: nat): Args {
    Args(Put, "", "", 0, i)
  }

  /** The first clerk makes its next call, which is executed. */
  lemma NextCall(clerks: nat, steps: seq<Step>, run: seq<State>, i: nat)
    returns (steps': seq<Step>, run': seq<State>)
    requires IsRun(clerks, steps, run) && clerks > 0 && i + 1 < UINT32
    requires Made(clerks, run[|steps|], i) && run[|steps|].clerks[0] == Clerk(i, None)
    ensures IsRun(clerks, steps', run') && Made(clerks, run'[|steps'|], i + 1)
    ensures run'[|steps'|].clerks[0] == Clerk(i + 1, Some(Number(i + 1))) && Number(i + 1) in run'[|steps'|].sent
    ensures (Number(i + 1), Reply(i + 1, "")) in run'[|steps'|].replies
  {
    steps', run' := ExtendRun(clerks, steps, run, NOTHING);
    var called := run'[|steps'|];
    ExecuteHasEffect(called.server, Number(i + 1));
    steps', run' := ExtendRun(clerks, steps', run', Deliver(Number(i + 1)));
  }

  /** Call after call, each returning. */
  lemma {:induction false} ManyCalls(clerks: nat, i: nat) returns (steps: seq<Step>, run: seq<State>)
    requires clerks > 0 && i < UINT32
    ensures IsRun(clerks, steps, run) && Made(clerks, run[|steps|], i) && run[|steps|].clerks[0] == Clerk(i, None)
    decreases i
  {
    if i == 0 {
      steps, run := [], [Init(clerks)];
    } else {
      steps, run := ManyCalls(clerks, i - 1);
      steps, run := NextCall(clerks, steps, run, i - 1);
      steps, run := ExtendRun(clerks, steps, run, Return(0, Reply(i, "")));
    }
  }

  /** Call number 2^32 - 1 makes the server start again from 0, and its duplicate makes it panic. */
  lemma WrapPanics(clerks: nat) returns (steps: seq<Step>, run: seq<State>)
    requires clerks > 0
    ensures IsRun(clerks, steps, run) && Bounded(run[|steps|], UINT32 - 1) && run[|steps|].panicked
  {
    var last := UINT32 - 2;
    steps, run := ManyCalls(clerks, last);
    steps, run := NextCall(clerks, steps, run, last);
    steps, run := ExtendRun(clerks, steps, run, Deliver(Number(last + 1)));
  }

  /** Up to 2^32 - 2 calls of each clerk everything is as it should be, with one more it need not be. */
  lemma CallsFit(clerks: nat, n: int)
    requires clerks > 0
    ensures NeverPanics(clerks, n) <==> n <= UINT32 - 2
    ensures AlwaysOnce(clerks, n) <==> n <= UINT32 - 2
  {
    if n <= UINT32 - 2 {
      forall steps: seq<Step>, run: seq<State>, c: nat |
        IsRun(clerks, steps, run) && Bounded(run[|steps|], n) && c < clerks
        ensures Once(clerks, run[|steps|], c)
      {
        ExactlyOnce(clerks, steps, run, |steps|, c);
      }
      forall steps: seq<Step>, run: seq<State> | IsRun(clerks, steps, run) && Bounded(run[|steps|], n)
        ensures !run[|steps|].panicked
      {
        assert Once(clerks, run[|steps|], 0);
      }
    } else {
      var steps, run := WrapPanics(clerks);
      assert Bounded(run[|steps|], n) && !Once(clerks, run[|steps|], 0);
    }
  }
}
