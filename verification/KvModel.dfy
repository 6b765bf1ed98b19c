/**
  The key/value model of src/models/kv.go: Step describes a single key, and
  Partition cuts a history by key.  The claim that makes this sound
  (src/porcupine/model.go) is proved here against a model of the whole store.
 */
module KvModel {
  import opened Options
  import opened Collections
  import opened Histories
  import opened Sorting
  import opened Prepass

  // KvInput and KvOutput
  datatype KvValue =
    | Input(op: nat, key: string, value: string)
    | Output(value: string)

  type KvOp = Operation<KvValue>

  const GET := 0
  const PUT := 1
  const APPEND := 2

  /** The values have the types that Step and Partition assert them to have. */
  ghost predicate Typed(ops: seq<KvOp>) {
    forall i | 0 <= i < |ops| :: ops[i].input.Input? && ops[i].output.Output?
  }

  // ---- one key

  /** Step: every op code above APPEND is an append that also returns the old value. */
  function Step(state: string, input: KvValue, output: KvValue): (bool, string) {
    if !input.Input? || !output.Output? then (false, state)
    else if input.op == GET then (output.value == state, state)
    else if input.op == PUT then (true, input.value)
    else if input.op == APPEND then (true, state + input.value)
    else (output.value == state, state + input.value)
  }

  predicate SameString(s: string, t: string) {
    s == t
  }

  function Kv(): Model<string, KvValue> {
    Model("", Step, SameString)
  }

  // ---- the whole store

  type Store = map<string, string>

  function Lookup(store: Store, key: string): string {
    if key in store then store[key] else ""
  }

  datatype Request = Get | Put | Append | AppendOld

  function RequestOf(op: nat): Request {
    match op
    case 0 => Get
    case 1 => Put
    case 2 => Append
    case _ => AppendOld
  }

  /** A store of many keys, a missing key reading as the empty string. */
  function StoreStep(store: Store, input: KvValue, output: KvValue): (bool, Store) {
    if !input.Input? || !output.Output? then (false, store)
    else
      var old_ := Lookup(store, input.key);
      match RequestOf(input.op)
      case Get => (output.value == old_, store)
      case Put => (true, store[input.key := input.value])
      case Append => (true, store[input.key := old_ + input.value])
      case AppendOld => (output.value == old_, store[input.key := old_ + input.value])
  }

  predicate SameStore(s: Store, t: Store) {
    s == t
  }

  function WholeStore(): Model<Store, KvValue> {
    Model(map[], StoreStep, SameStore)
  }

  // ---- Partition

  function KeyOf(op: KvOp): string {
    if op.input.Input? then op.input.key else ""
  }

  /** The operations on one key, in the order of the history. */
  function ForKey(ops: seq<KvOp>, key: string): seq<KvOp> {
    if ops == [] then []
    else
      var front := ForKey(ops[..|ops| - 1], key);
      var last := ops[|ops| - 1];
      if KeyOf(last) == key then front + [last] else front
  }

  ghost function KeysOf(ops: seq<KvOp>): set<string> {
    set op | op in ops :: KeyOf(op)
  }

  /** parts is the history cut by key: one part for each key that occurs. */
  ghost predicate IsPartition(ops: seq<KvOp>, keys: seq<string>, parts: seq<seq<KvOp>>) {
    && NoDup(keys)
    && Elements(keys) == KeysOf(ops)
    && |parts| == |keys|
    && forall i | 0 <= i < |keys| :: parts[i] == ForKey(ops, keys[i])
  }

  /** The same, with the parts in the order of their keys. */
  ghost predicate SortedPartition(ops: seq<KvOp>, parts: seq<seq<KvOp>>) {
    exists keys :: IsPartition(ops, keys, parts) && Sorted(StringLess, keys)
  }

  lemma KeysSnoc(ops: seq<KvOp>, i: nat)
    requires i < |ops|
    ensures ops[..i + 1][..i] == ops[..i]
    ensures KeysOf(ops[..i + 1]) == KeysOf(ops[..i]) + {KeyOf(ops[i])}
  {
    assert ops[..i + 1] == ops[..i] + [ops[i]];
    assert forall op :: op in ops[..i + 1] <==> op in ops[..i] || op == ops[i];
  }

  /** Keys not seen yet have no operations. */
  lemma {:induction false} NoneForKey(ops: seq<KvOp>, key: string)
    requires key !in KeysOf(ops)
    ensures ForKey(ops, key) == []
  {
    if ops != [] {
      assert ops[..|ops|] == ops;
      KeysSnoc(ops, |ops| - 1);
      NoneForKey(ops[..|ops| - 1], key);
    }
  }

  method CutByKey(history: seq<KvOp>) returns (m: map<string, seq<KvOp>>)
    ensures m.Keys == KeysOf(history)
    ensures forall k | k in m :: m[k] == ForKey(history, k)
  {
    m := map[];
    for i := 0 to |history|
      invariant m.Keys == KeysOf(history[..i])
      invariant forall k | k in m :: m[k] == ForKey(history[..i], k)
    {
      var v := history[i];
      var key := KeyOf(v);
      KeysSnoc(history, i);
      if key !in m { NoneForKey(history[..i], key); }
      m := m[key := (if key in m then m[key] else []) + [v]];
    }
    assert history[..|history|] == history;
  }

  method SortedKeys(s: set<string>) returns (keys: seq<string>)
    ensures NoDup(keys) && Elements(keys) == s && Sorted(StringLess, keys)
  {
    var unsorted := SomeOrder(s);
    StringLessWeakOrder();
    keys := Sort(StringLess, unsorted);
    PermNoDup(unsorted, keys);
    PermElements(unsorted, keys);
    assert Elements(keys) == Elements(unsorted);
  }

  method Partition(history: seq<KvOp>) returns (ret: seq<seq<KvOp>>)
    requires Typed(history)
    ensures SortedPartition(history, ret)
  {
    var m := CutByKey(history);
    var keys := SortedKeys(m.Keys);
    ret := [];
    for i := 0 to |keys|
      invariant |ret| == i && forall j | 0 <= j < i :: ret[j] == ForKey(history, keys[j])
    {
      assert keys[i] in Elements(keys);
      ret := ret + [m[keys[i]]];
    }
    assert IsPartition(history, keys, ret);
  }

  /** Ranging over a map yields its keys in no particular order. */
  method SomeOrder(s: set<string>) returns (keys: seq<string>)
    ensures NoDup(keys) && Elements(keys) == s
  {
    keys := [];
    var rest := s;
    while rest != {}
      invariant rest <= s && NoDup(keys) && Elements(keys) == s - rest
      decreases rest
    {
      var k :| k in rest;
      assert k !in Elements(keys);
      assert Elements(keys + [k]) == Elements(keys) + {k};
      keys := keys + [k];
      rest := rest - {k};
    }
  }

  // ---- locality

  ghost predicate KeyRuns(order: seq<KvOp>, key: string) {
    Run(Kv(), "", ForKey(order, key)).Some?
  }

  /** What the store says about a key is what the model of that key says. */
  ghost predicate KeyAgrees(order: seq<KvOp>, store: Store, key: string) {
    Run(Kv(), "", ForKey(order, key)) == Some(Lookup(store, key))
  }

  /** Executing an order on the store executes, key by key, the operations on that key. */
  lemma {:induction false} StoreRunsEachKey(order: seq<KvOp>)
    ensures Run(WholeStore(), map[], order).Some? <==> forall key :: KeyRuns(order, key)
    ensures Run(WholeStore(), map[], order).Some? ==>
            forall key :: KeyAgrees(order, Run(WholeStore(), map[], order).value, key)
    decreases |order|
  {
    if order != [] {
      var front, op := order[..|order| - 1], order[|order| - 1];
      StoreRunsEachKey(front);
      var whole := Run(WholeStore(), map[], front);
      if whole.None? {
        var key :| !KeyRuns(front, key);
        OneMore(front, op, key);
        assert order == front + [op];
        assert !KeyRuns(order, key);
      } else {
        StoreStepsEachKey(front, op, whole.value);
        assert order == front + [op];
      }
    }
  }

  lemma OneMore(front: seq<KvOp>, op: KvOp, key: string)
    ensures Run(Kv(), "", ForKey(front + [op], key)) ==
            if key == KeyOf(op) then RunLast(ForKey(front, key), op) else Run(Kv(), "", ForKey(front, key))
  {
    assert (front + [op])[..|front|] == front;
    RunSnoc(ForKey(front, key), op);
  }

  /** A request changes at most its own key, and that key as the model of one key says. */
  lemma StoreStepIsLocal(store: Store, op: KvOp, key: string)
    ensures var (ok, next) := StoreStep(store, op.input, op.output);
            var (keyOk, value) := Step(Lookup(store, KeyOf(op)), op.input, op.output);
            ok == keyOk && (ok ==> Lookup(next, key) == if key == KeyOf(op) then value else Lookup(store, key))
  {
  }

  lemma StoreStepsKey(front: seq<KvOp>, op: KvOp, store: Store, key: string)
    requires KeyAgrees(front, store, key)
    ensures var (ok, next) := StoreStep(store, op.input, op.output);
            && (KeyRuns(front + [op], key) <==> ok || key != KeyOf(op))
            && (ok ==> KeyAgrees(front + [op], next, key))
  {
    OneMore(front, op, key);
    StoreStepIsLocal(store, op, key);
  }

  lemma StoreStepsEachKey(front: seq<KvOp>, op: KvOp, store: Store)
    requires forall key :: KeyAgrees(front, store, key)
    ensures var (ok, next) := StoreStep(store, op.input, op.output);
            && (ok <==> forall key :: KeyRuns(front + [op], key))
            && (ok ==> forall key :: KeyAgrees(front + [op], next, key))
  {
    var (ok, next) := StoreStep(store, op.input, op.output);
    forall key
      ensures KeyRuns(front + [op], key) <==> ok || key != KeyOf(op)
      ensures ok ==> KeyAgrees(front + [op], next, key)
    {
      assert KeyAgrees(front, store, key);
      StoreStepsKey(front, op, store, key);
    }
    assert KeyRuns(front + [op], KeyOf(op)) <==> ok;
  }

  /** The state of one key after one more operation. */
  ghost function RunLast(order: seq<KvOp>, op: KvOp): Option<string> {
    var before := Run(Kv(), "", order);
    if before.None? then None
    else
      var (ok, next) := Step(before.value, op.input, op.output);
      if ok then Some(next) else None
  }

  lemma RunSnoc(order: seq<KvOp>, op: KvOp)
    ensures Run(Kv(), "", order + [op]) == RunLast(order, op)
  {
    assert (order + [op])[..|order|] == order;
  }

  lemma {:induction false} ForKeyElements(ops: seq<KvOp>, key: string)
    ensures forall op :: op in ForKey(ops, key) <==> op in ops && KeyOf(op) == key
    ensures forall op :: multiset(ForKey(ops, key))[op] == if KeyOf(op) == key then multiset(ops)[op] else 0
    decreases |ops|
  {
    if ops != [] {
      ForKeyElements(ops[..|ops| - 1], key);
      assert ops == ops[..|ops| - 1] + [ops[|ops| - 1]];
    }
  }

  /** Orders of the same operations give, for each key, orders of the same operations. */
  lemma ForKeyPermuted(ops: seq<KvOp>, order: seq<KvOp>, key: string)
    requires multiset(ops) == multiset(order)
    ensures multiset(ForKey(ops, key)) == multiset(ForKey(order, key))
  {
    ForKeyElements(ops, key);
    ForKeyElements(order, key);
    forall op ensures multiset(ForKey(ops, key))[op] == multiset(ForKey(order, key))[op] {}
  }

  lemma {:induction false} ForKeyRealTime(order: seq<KvOp>, key: string)
    requires RealTime(order)
    ensures RealTime(ForKey(order, key))
    decreases |order|
  {
    if order != [] {
      var front, last := order[..|order| - 1], order[|order| - 1];
      ForKeyRealTime(front, key);
      ForKeyElements(front, key);
      var mine := ForKey(front, key);
      forall op | op in mine ensures op.call <= last.ret {
        assert op in front;
        var j :| 0 <= j < |front| && front[j] == op;
        assert order[j] == op;
      }
    }
  }

  /** A linearization of the store restricts to one of every key. */
  lemma StoreToKey(ops: seq<KvOp>, order: seq<KvOp>, key: string)
    requires IsOrder(WholeStore(), ops, order)
    ensures IsOrder(Kv(), ForKey(ops, key), ForKey(order, key))
  {
    ForKeyPermuted(ops, order, key);
    ForKeyRealTime(order, key);
    StoreRunsEachKey(order);
    assert KeyRuns(order, key);
  }

  // ---- merging orders of single keys

  /** The latest call in an order. */
  ghost function LastCall(order: seq<KvOp>): (t: int)
    requires order != []
    ensures forall op | op in order :: op.call <= t
    ensures exists op :: op in order && op.call == t
  {
    var front, last := order[..|order| - 1], order[|order| - 1];
    assert order == front + [last];
    if front == [] then (assert last in order; last.call)
    else
      var t := LastCall(front);
      if t < last.call then (assert last in order; last.call)
      else
        var op :| op in front && op.call == t;
        assert op in order;
        t
  }

  /** The last operation of an order returns no earlier than any operation of the order is called. */
  lemma LastReturn(order: seq<KvOp>)
    requires order != [] && RealTime(order) && Timed(order)
    ensures LastCall(order) <= order[|order| - 1].ret
  {
    var t := LastCall(order);
    var op :| op in order && op.call == t;
    var i :| 0 <= i < |order| && order[i] == op;
    assert i < |order| - 1 ==> order[i].call <= order[|order| - 1].ret;
  }

  /** Some key of a nonempty set has the latest last call. */
  lemma {:induction false} LatestKey(keys: set<string>, orders: map<string, seq<KvOp>>) returns (key: string)
    requires keys != {} && forall k | k in keys :: k in orders && orders[k] != []
    ensures key in keys
    ensures forall k | k in keys :: LastCall(orders[k]) <= LastCall(orders[key])
    decreases keys
  {
    key :| key in keys;
    var rest := keys - {key};
    if rest != {} {
      var other := LatestKey(rest, orders);
      if LastCall(orders[key]) < LastCall(orders[other]) {
        key := other;
      }
    }
  }

  /** ops holds exactly the operations of the given orders, each order those of one key. */
  ghost predicate Splits(ops: multiset<KvOp>, orders: map<string, seq<KvOp>>) {
    forall op :: ops[op] == if KeyOf(op) in orders then multiset(orders[KeyOf(op)])[op] else 0
  }

  ghost predicate OrdersOk(orders: map<string, seq<KvOp>>) {
    forall key | key in orders :: OrderOk(orders[key], key)
  }

  ghost predicate OrderOk(order: seq<KvOp>, key: string) {
    RealTime(order) && Timed(order) && forall op | op in order :: KeyOf(op) == key
  }

  /** No busy key has a later last call than key. */
  ghost predicate Latest(orders: map<string, seq<KvOp>>, key: string) {
    && key in orders && orders[key] != []
    && forall k | k in orders && orders[k] != [] :: LastCall(orders[k]) <= LastCall(orders[key])
  }

  /** order is an order of ops that respects real time and contains each given order. */
  ghost predicate Merged(ops: multiset<KvOp>, orders: map<string, seq<KvOp>>, order: seq<KvOp>) {
    && multiset(order) == ops
    && RealTime(order)
    && Contains(order, orders)
  }

  ghost predicate Contains(order: seq<KvOp>, orders: map<string, seq<KvOp>>) {
    forall key | key in orders :: ForKey(order, key) == orders[key]
  }

  /** Real-time orders of single keys merge into a real-time order of all their operations. */
  lemma {:induction false} Merge(ops: multiset<KvOp>, orders: map<string, seq<KvOp>>) returns (order: seq<KvOp>)
    requires Splits(ops, orders) && OrdersOk(orders)
    ensures Merged(ops, orders, order)
    decreases |ops|
  {
    if Busy(orders) == {} {
      NothingLeft(ops, orders);
      return [];
    }
    var key := LatestBusy(orders);
    var front, last := orders[key][..|orders[key]| - 1], orders[key][|orders[key]| - 1];
    SplitLast(orders[key]);
    MergeStep(ops, orders, key, front, last);
    var before := Merge(ops - multiset{last}, orders[key := front]);
    order := before + [last];
    MergeLast(ops, orders, key, front, last, before);
  }

  lemma MergeLast(ops: multiset<KvOp>, orders: map<string, seq<KvOp>>,
                  key: string, front: seq<KvOp>, last: KvOp, before: seq<KvOp>)
    requires Splits(ops, orders) && OrdersOk(orders) && Latest(orders, key)
    requires orders[key] == front + [last] && KeyOf(last) == key && last in ops
    requires Merged(ops - multiset{last}, orders[key := front], before)
    ensures Merged(ops, orders, before + [last])
  {
    assert ops == multiset(before) + multiset{last};
    MergeRealTime(ops, orders, key, before);
    MergeForKey(orders, key, front, last, before);
  }

  /** The keys whose order is not empty. */
  ghost function Busy(orders: map<string, seq<KvOp>>): set<string> {
    set key | key in orders && orders[key] != []
  }

  lemma LatestBusy(orders: map<string, seq<KvOp>>) returns (key: string)
    requires Busy(orders) != {}
    ensures Latest(orders, key)
  {
    key := LatestKey(Busy(orders), orders);
    forall k | k in orders && orders[k] != [] ensures LastCall(orders[k]) <= LastCall(orders[key]) {
      assert k in Busy(orders);
    }
  }

  lemma NothingLeft(ops: multiset<KvOp>, orders: map<string, seq<KvOp>>)
    requires Splits(ops, orders) && Busy(orders) == {}
    ensures ops == multiset{}
    ensures forall key | key in orders :: orders[key] == []
  {
    forall key | key in orders ensures orders[key] == [] {
      assert key !in Busy(orders);
    }
    forall op ensures ops[op] == 0 {}
  }

  lemma MergeForKey(orders: map<string, seq<KvOp>>, key: string, front: seq<KvOp>, last: KvOp, before: seq<KvOp>)
    requires key in orders && orders[key] == front + [last] && KeyOf(last) == key
    requires Contains(before, orders[key := front])
    ensures Contains(before + [last], orders)
  {
    assert (before + [last])[..|before|] == before;
  }

  /** Taking the last operation of one key's order away leaves orders that can be merged. */
  lemma MergeStep(ops: multiset<KvOp>, orders: map<string, seq<KvOp>>, key: string, front: seq<KvOp>, last: KvOp)
    requires Splits(ops, orders) && OrdersOk(orders) && key in orders && orders[key] == front + [last]
    ensures KeyOf(last) == key && last in ops
    ensures Splits(ops - multiset{last}, orders[key := front])
    ensures OrdersOk(orders[key := front])
  {
    assert last in orders[key];
    assert multiset(orders[key]) == multiset(front) + multiset{last};
    SplitsWithout(ops, orders, key, front, last);
    OrderOkFront(front, last, key);
  }

  lemma OrderOkFront(front: seq<KvOp>, last: KvOp, key: string)
    requires OrderOk(front + [last], key)
    ensures OrderOk(front, key)
  {
    forall i | 0 <= i < |front| ensures front[i] == (front + [last])[i] {}
    assert forall op | op in front :: op in front + [last];
  }

  lemma SplitsWithout(ops: multiset<KvOp>, orders: map<string, seq<KvOp>>, key: string, front: seq<KvOp>, last: KvOp)
    requires Splits(ops, orders) && key in orders && KeyOf(last) == key && last in ops
    requires multiset(orders[key]) == multiset(front) + multiset{last}
    requires forall op | op in front :: KeyOf(op) == key
    ensures Splits(ops - multiset{last}, orders[key := front])
  {
    var rest := orders[key := front];
    forall op ensures (ops - multiset{last})[op] == if KeyOf(op) in rest then multiset(rest[KeyOf(op)])[op] else 0 {
      if KeyOf(op) == key {
        assert ops[op] == multiset(front)[op] + multiset{last}[op];
      }
    }
  }

  /** The last operation of the key with the latest last call may come last of all. */
  lemma MergeRealTime(ops: multiset<KvOp>, orders: map<string, seq<KvOp>>, key: string, before: seq<KvOp>)
    requires Splits(ops, orders) && OrdersOk(orders)
    requires Latest(orders, key)
    requires multiset(before) <= ops && RealTime(before)
    ensures RealTime(before + [orders[key][|orders[key]| - 1]])
  {
    var last := orders[key][|orders[key]| - 1];
    assert OrderOk(orders[key], key);
    LastReturn(orders[key]);
    forall i | 0 <= i < |before| ensures before[i].call <= last.ret {
      var op := before[i];
      assert op in multiset(before);
      assert ops[op] > 0;
      assert op in orders[KeyOf(op)];
    }
  }

  /** Linearizations of every key give one of the store. */
  lemma KeysToStore(ops: seq<KvOp>, orders: map<string, seq<KvOp>>)
    requires Timed(ops) && orders.Keys == KeysOf(ops)
    requires forall key | key in orders :: IsOrder(Kv(), ForKey(ops, key), orders[key])
    ensures OpsLinearizable(WholeStore(), ops)
  {
    forall key | key in orders
      ensures Timed(orders[key]) && forall op | op in orders[key] :: KeyOf(op) == key
    {
      PermElements(ForKey(ops, key), orders[key]);
      ForKeyElements(ops, key);
      forall op | op in orders[key] ensures op.call <= op.ret && KeyOf(op) == key {
        assert op in ops;
      }
    }
    forall op ensures multiset(ops)[op] == if KeyOf(op) in orders then multiset(orders[KeyOf(op)])[op] else 0 {
      ForKeyElements(ops, KeyOf(op));
      if KeyOf(op) in orders {
        assert multiset(orders[KeyOf(op)]) == multiset(ForKey(ops, KeyOf(op)));
      } else {
        assert op !in ops;
      }
    }
    var order := Merge(multiset(ops), orders);
    forall key ensures KeyRuns(order, key) {
      if key !in orders {
        NoneForKey(ops, key);
        ForKeyPermuted(ops, order, key);
        PermElements(ForKey(ops, key), ForKey(order, key));
        assert ForKey(order, key) == [];
      }
    }
    StoreRunsEachKey(order);
    assert IsOrder(WholeStore(), ops, order);
  }

  /**
    Locality: a history is linearizable against the store exactly when every
    part that Partition makes is linearizable against the model of one key.
   */
  lemma Locality(ops: seq<KvOp>, keys: seq<string>, parts: seq<seq<KvOp>>)
    requires Timed(ops) && IsPartition(ops, keys, parts)
    ensures OpsLinearizable(WholeStore(), ops) <==>
            forall i | 0 <= i < |parts| :: OpsLinearizable(Kv(), parts[i])
  {
    if OpsLinearizable(WholeStore(), ops) {
      var order :| IsOrder(WholeStore(), ops, order);
      forall i | 0 <= i < |parts| ensures OpsLinearizable(Kv(), parts[i]) {
        StoreToKey(ops, order, keys[i]);
      }
    }
    if forall i | 0 <= i < |parts| :: OpsLinearizable(Kv(), parts[i]) {
      forall key | key in KeysOf(ops) ensures OpsLinearizable(Kv(), ForKey(ops, key)) {
        assert key in Elements(keys);
        var i :| 0 <= i < |keys| && keys[i] == key;
        assert OpsLinearizable(Kv(), parts[i]);
      }
      var orders := map key | key in KeysOf(ops) :: (var order :| IsOrder(Kv(), ForKey(ops, key), order); order);
      KeysToStore(ops, orders);
    }
  }
}
