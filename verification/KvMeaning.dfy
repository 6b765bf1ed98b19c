/**
  What is in a key/value store: the value of a key is what the last put wrote there, followed by
  what has been appended since, in order.  Both the model that histories are checked against
  (src/models/kv.go) and the server (src/kvsrv/server.go) are stores in this sense, so a step of
  the server is a step of the model.
 */
module KvMeaning {
  import opened Options
  import opened Collections
  import opened Prepass
  import opened KvModel
  import KvServer
  import Dedup

  /** One string after the other. */
  function Join(parts: seq<string>): string {
    if parts == [] then "" else Join(parts[..|parts| - 1]) + parts[|parts| - 1]
  }

  /** What has been written to key: the value of the last put, if any, and all values appended since. */
  function Written(order: seq<KvOp>, key: string): seq<string> {
    if order == [] then []
    else
      var before, last := Written(order[..|order| - 1], key), order[|order| - 1].input;
      if !last.Input? || last.key != key || last.op == GET then before
      else if last.op == PUT then [last.value]
      else before + [last.value]
  }

  /** The operation returns the value of its key: a get, or an append with return value. */
  predicate Reads(op: KvOp) {
    op.input.Input? && (op.input.op == GET || op.input.op > APPEND)
  }

  /** What op returns, if anything, is what the operations before it have written. */
  predicate ReadsRight(before: seq<KvOp>, op: KvOp) {
    Reads(op) && op.output.Output? ==> op.output.value == Join(Written(before, op.input.key))
  }

  ghost predicate Explained(order: seq<KvOp>) {
    Typed(order) && forall i | 0 <= i < |order| :: ReadsRight(order[..i], order[i])
  }

  lemma ExplainedSnoc(front: seq<KvOp>, op: KvOp)
    ensures Explained(front + [op]) <==>
            Explained(front) && op.input.Input? && op.output.Output? && ReadsRight(front, op)
  {
    var order := front + [op];
    assert order[|front|] == op && order[..|front|] == front;
    forall i | 0 <= i < |front| ensures order[i] == front[i] && order[..i] == front[..i] {}
    if Explained(order) {
      forall i | 0 <= i < |front| ensures ReadsRight(front[..i], front[i]) { assert ReadsRight(order[..i], order[i]); }
      forall i | 0 <= i < |front| ensures front[i].input.Input? && front[i].output.Output? {
        assert order[i] == front[i];
      }
    }
  }

  lemma JoinSnoc(parts: seq<string>, last: string)
    ensures Join(parts + [last]) == Join(parts) + last && Join([last]) == last
  {
    assert (parts + [last])[..|parts|] == parts;
    assert [last][..0] == [];
  }

  /** The store holds what the order has written. */
  ghost predicate StoreHolds(store: Store, order: seq<KvOp>) {
    forall key :: Lookup(store, key) == Join(Written(order, key))
  }

  lemma WrittenSnoc(front: seq<KvOp>, op: KvOp, key: string)
    requires op.input.Input?
    ensures Written(front + [op], key) ==
            if op.input.key != key || op.input.op == GET then Written(front, key)
            else if op.input.op == PUT then [op.input.value]
            else Written(front, key) + [op.input.value]
  {
    assert (front + [op])[..|front|] == front;
  }

  lemma StepHolds(store: Store, front: seq<KvOp>, op: KvOp, key: string)
    requires op.input.Input? && op.output.Output? && Lookup(store, key) == Join(Written(front, key))
    ensures Lookup(StoreStep(store, op.input, op.output).1, key) == Join(Written(front + [op], key))
  {
    WrittenSnoc(front, op, key);
    JoinSnoc(Written(front, key), op.input.value);
  }

  lemma StepAccepts(store: Store, op: KvOp)
    requires op.input.Input? && op.output.Output?
    ensures StoreStep(store, op.input, op.output).0 <==> !Reads(op) || op.output.value == Lookup(store, op.input.key)
  {
  }

  /** One step of the store. */
  lemma StepExplains(store: Store, front: seq<KvOp>, op: KvOp)
    requires op.input.Input? && op.output.Output? && StoreHolds(store, front)
    ensures StoreStep(store, op.input, op.output).0 <==> ReadsRight(front, op)
    ensures StoreHolds(StoreStep(store, op.input, op.output).1, front + [op])
  {
    StepAccepts(store, op);
    forall key ensures Lookup(StoreStep(store, op.input, op.output).1, key) == Join(Written(front + [op], key)) {
      StepHolds(store, front, op, key);
    }
  }

  /**
    The whole store accepts an order of operations exactly when every read in it returns what has
    been written before it, and then it holds exactly that.
   */
  lemma {:induction false} StoreExplains(order: seq<KvOp>)
    ensures Run(WholeStore(), map[], order).Some? <==> Explained(order)
    ensures Explained(order) ==> StoreHolds(Run(WholeStore(), map[], order).value, order)
    decreases |order|
  {
    if order != [] {
      var front, op := order[..|order| - 1], order[|order| - 1];
      StoreExplains(front);
      ExplainedSnoc(front, op);
      assert order == front + [op];
      if Explained(front) && op.input.Input? && op.output.Output? {
        StepExplains(Run(WholeStore(), map[], front).value, front, op);
      }
    }
  }

  // ---- the server

  /** The operation that a request to the server is recorded as. */
  function Recorded(a: KvServer.Args, answer: string): KvOp {
    var code := match a.op case Put => PUT case Append => APPEND + 1;
    Operation(a.client, Input(code, a.key, a.value), 0, Output(answer), 0)
  }

  /** Executing a request is a step of the model, with the answer that it returns. */
  lemma ServerIsStore(s: KvServer.Server, a: KvServer.Args)
    requires KvServer.InfoOf(s, a.client).rpcId == a.rpcId
    ensures var o, op := KvServer.Handle(s, a), Recorded(a, KvServer.Handle(s, a).reply.value);
            o.Handled? && StoreStep(s.data, op.input, op.output) == (true, o.server.data)
  {
    KvServer.ExecuteHasEffect(s, a);
  }

  /** A get of the server returns the one value that the model accepts. */
  lemma GetIsStore(data: map<string, string>, key: string, answer: string)
    ensures StoreStep(data, Input(GET, key, ""), Output(answer)).0 <==> answer == KvServer.Lookup(data, key)
    ensures StoreStep(data, Input(GET, key, ""), Output(answer)).1 == data
  {
  }

  function RecordedAll(ops: seq<KvServer.Args>): seq<KvOp> {
    seq(|ops|, i requires 0 <= i < |ops| => Recorded(ops[i], ""))
  }

  lemma EffectIsWritten(data: map<string, string>, front: seq<KvOp>, a: KvServer.Args, key: string)
    requires KvServer.Lookup(data, key) == Join(Written(front, key))
    ensures KvServer.Lookup(KvServer.Effect(data, a), key) == Join(Written(front + [Recorded(a, "")], key))
  {
    WrittenSnoc(front, Recorded(a, ""), key);
    JoinSnoc(Written(front, key), a.value);
  }

  lemma {:induction false} FoldIsWritten(ops: seq<KvServer.Args>, key: string)
    ensures KvServer.Lookup(Dedup.Fold(ops), key) == Join(Written(RecordedAll(ops), key))
    decreases |ops|
  {
    if ops != [] {
      var front, a := ops[..|ops| - 1], ops[|ops| - 1];
      FoldIsWritten(front, key);
      assert RecordedAll(ops) == RecordedAll(front) + [Recorded(a, "")];
      EffectIsWritten(Dedup.Fold(front), RecordedAll(front), a, key);
    }
  }

  /** In every run of clerks and server, the table holds what the calls executed so far have written. */
  lemma TableHolds(clerks: nat, steps: seq<Dedup.Step>, run: seq<Dedup.State>, k: nat, key: string)
    requires Dedup.IsRun(clerks, steps, run) && k < |run| && Dedup.Bounded(run[k], KvServer.UINT32 - 2)
    ensures KvServer.Lookup(run[k].server.data, key) == Join(Written(RecordedAll(run[k].executed), key))
  {
    Dedup.RunInv(clerks, steps, run, k);
    FoldIsWritten(run[k].executed, key);
  }
}
