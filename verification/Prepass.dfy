/**
  What happens to a history before the search (src/porcupine/checker.go):
  makeEntries cuts operations into timed calls and returns and sorts them;
  renumber and convertEntries do the same for a history given as events.
 */
module Prepass {
  import opened Options
  import opened Collections
  import opened Histories
  import opened Sorting

  datatype Operation<V> = Operation(clientId: int, input: V, call: int, output: V, ret: int)

  // ---- linearizability of operations, in terms of their times only

  /** The state after executing the operations of order from state s. */
  ghost function Run<S, V>(m: Model<S, V>, s: S, order: seq<Operation<V>>): Option<S> {
    if order == [] then Some(s)
    else
      var before := Run(m, s, order[..|order| - 1]);
      if before.None? then None
      else
        var op := order[|order| - 1];
        var (ok, next) := m.step(before.value, op.input, op.output);
        if ok then Some(next) else None
  }

  /** No operation is ordered before one that returned before it was called. */
  ghost predicate RealTime<V>(order: seq<Operation<V>>) {
    forall i, j | 0 <= i < j < |order| :: order[i].call <= order[j].ret
  }

  ghost predicate IsOrder<S, V>(m: Model<S, V>, ops: seq<Operation<V>>, order: seq<Operation<V>>) {
    multiset(order) == multiset(ops) && RealTime(order) && Run(m, m.init, order).Some?
  }

  /** Some order of the operations respects real time and is accepted by the model. */
  ghost predicate OpsLinearizable<S, V(!new)>(m: Model<S, V>, ops: seq<Operation<V>>) {
    exists order :: IsOrder(m, ops, order)
  }

  /** Every operation is called no later than it returns. */
  ghost predicate Timed<V>(ops: seq<Operation<V>>) {
    forall i | 0 <= i < |ops| :: ops[i].call <= ops[i].ret
  }

  // ---- makeEntries

  /** byTime.Less */
  predicate Less<V>(a: Entry<V>, b: Entry<V>) {
    if a.time != b.time then a.time < b.time else a.kind == Call && b.kind == Return
  }

  function CallEntry<V>(ops: seq<Operation<V>>, id: nat): Entry<V>
    requires id < |ops|
  {
    Entry(Call, ops[id].input, id, ops[id].call, ops[id].clientId)
  }

  function ReturnEntry<V>(ops: seq<Operation<V>>, id: nat): Entry<V>
    requires id < |ops|
  {
    Entry(Return, ops[id].output, id, ops[id].ret, ops[id].clientId)
  }

  /** The unsorted entries: call and return of operation 0, of operation 1, and so on. */
  ghost predicate Raw<V>(ops: seq<Operation<V>>, n: nat, raw: seq<Entry<V>>)
    requires n <= |ops|
  {
    && |raw| == 2 * n
    && forall p | 0 <= p < |raw| ::
         raw[p] == if p % 2 == 0 then CallEntry(ops, p / 2) else ReturnEntry(ops, p / 2)
  }

  /** A history in which operation id of ops is operation id, and order is order in time. */
  ghost predicate Faithful<V>(ops: seq<Operation<V>>, h: seq<Entry<V>>) {
    && Size(h) == |ops|
    && (forall id | 0 <= id < |ops| ::
          && CallPos(h, id) < |h| && h[CallPos(h, id)] == CallEntry(ops, id)
          && ReturnPos(h, id) < |h| && h[ReturnPos(h, id)] == ReturnEntry(ops, id))
    && (forall a, b | 0 <= a < |ops| && 0 <= b < |ops| :: Before(h, a, b) <==> ops[a].ret < ops[b].call)
  }

  /** Call and return of an operation carry its input and output, its times and its client. */
  lemma FaithfulCarries<V>(ops: seq<Operation<V>>, h: seq<Entry<V>>, id: nat)
    requires Faithful(ops, h) && id < |ops|
    ensures CallPos(h, id) < |h| && ReturnPos(h, id) < |h|
    ensures var op, a, b := ops[id], h[CallPos(h, id)], h[ReturnPos(h, id)];
            && a.kind == Call && b.kind == Return && a.id == id == b.id
            && a.value == op.input && b.value == op.output && a.time == op.call && b.time == op.ret
            && a.clientId == op.clientId == b.clientId
  {
  }

  lemma LessWeakOrder<V(!new)>()
    ensures WeakOrder<Entry<V>>(Less)
  {
  }

  method MakeEntries<V(!new)>(history: seq<Operation<V>>) returns (entries: seq<Entry<V>>)
    ensures Faithful(history, entries)
    ensures WellFormed(entries) <==> Timed(history)
  {
    var raw: seq<Entry<V>> := [];
    var id := 0;
    while id < |history|
      invariant 0 <= id <= |history| && Raw(history, id, raw)
    {
      var elem := history[id];
      raw := raw + [Entry(Call, elem.input, id, elem.call, elem.clientId)];
      raw := raw + [Entry(Return, elem.output, id, elem.ret, elem.clientId)];
      id := id + 1;
    }
    LessWeakOrder<V>();
    entries := Sort(Less, raw);
    AnySortIsFaithful(history, raw, entries);
  }

  /** Sorting in whatever way the ties fall gives every entry its one place. */
  lemma SortedPlaces<V>(ops: seq<Operation<V>>, raw: seq<Entry<V>>, h: seq<Entry<V>>)
    requires Raw(ops, |ops|, raw) && IsSortOf(Less, raw, h)
    ensures Size(h) == |ops|
    ensures forall p | 0 <= p < |h| :: 0 <= h[p].id < |ops| && p == Find(h, h[p].kind, h[p].id)
    ensures forall id | 0 <= id < |ops| ::
              && CallPos(h, id) < |h| && h[CallPos(h, id)] == CallEntry(ops, id)
              && ReturnPos(h, id) < |h| && h[ReturnPos(h, id)] == ReturnEntry(ops, id)
  {
    PermElements(raw, h);
    PermNoDup(raw, h);
    forall p | 0 <= p < |h|
      ensures 0 <= h[p].id < |ops|
      ensures h[p] == if h[p].kind == Call then CallEntry(ops, h[p].id) else ReturnEntry(ops, h[p].id)
    {
      assert h[p] in raw;
    }
    forall id | 0 <= id < |ops|
      ensures CallPos(h, id) < |h| && ReturnPos(h, id) < |h|
    {
      assert raw[2 * id] == CallEntry(ops, id) && raw[2 * id + 1] == ReturnEntry(ops, id);
      assert raw[2 * id] in h && raw[2 * id + 1] in h;
    }
  }

  /** Equal times put calls first, so positions order returns and calls exactly as times do. */
  lemma AnySortIsFaithful<V>(ops: seq<Operation<V>>, raw: seq<Entry<V>>, h: seq<Entry<V>>)
    requires Raw(ops, |ops|, raw) && IsSortOf(Less, raw, h)
    ensures Faithful(ops, h)
    ensures WellFormed(h) <==> Timed(ops)
  {
    SortedPlaces(ops, raw, h);
    forall a, b | 0 <= a < |ops| && 0 <= b < |ops|
      ensures Before(h, a, b) <==> ops[a].ret < ops[b].call
    {
      assert ReturnPos(h, a) != CallPos(h, b);
    }
    forall id | 0 <= id < |ops| ensures CallPos(h, id) < ReturnPos(h, id) <==> ops[id].call <= ops[id].ret {
      assert Before(h, id, id) <==> ops[id].ret < ops[id].call;
    }
  }

  // ---- positions in the sorted history against times of the operations

  ghost function Pick<T>(s: seq<T>, p: seq<int>): seq<T>
    requires forall i | 0 <= i < |p| :: 0 <= p[i] < |s|
  {
    seq(|p|, i requires 0 <= i < |p| => s[p[i]])
  }

  lemma {:induction false} PickPermuted<T>(s: seq<T>, p: seq<int>, q: seq<int>)
    requires forall i | 0 <= i < |p| :: 0 <= p[i] < |s|
    requires forall i | 0 <= i < |q| :: 0 <= q[i] < |s|
    requires multiset(p) == multiset(q)
    ensures multiset(Pick(s, p)) == multiset(Pick(s, q))
    decreases |p|
  {
    PermElements(p, q);
    if p != [] {
      var front, last := p[..|p| - 1], p[|p| - 1];
      assert p == front + [last];
      assert last in q;
      var k :| 0 <= k < |q| && q[k] == last;
      var rest := q[..k] + q[k + 1..];
      RemoveOne(q, front, k);
      PickPermuted(s, front, rest);
      assert Pick(s, p) == Pick(s, front) + [s[last]];
      PickWithout(s, q, k);
    }
  }

  lemma PickWithout<T>(s: seq<T>, q: seq<int>, k: nat)
    requires k < |q| && forall i | 0 <= i < |q| :: 0 <= q[i] < |s|
    ensures multiset(Pick(s, q)) == multiset(Pick(s, q[..k] + q[k + 1..])) + multiset{s[q[k]]}
  {
    var a, b := q[..k], q[k + 1..];
    assert Pick(s, q) == Pick(s, a) + [s[q[k]]] + Pick(s, b);
    assert Pick(s, a + b) == Pick(s, a) + Pick(s, b);
  }

  /** Picking every position once is a permutation. */
  lemma PickAll<T>(s: seq<T>, p: seq<int>)
    requires NoDup(p) && (forall i | 0 <= i < |p| :: 0 <= p[i] < |s|)
    requires forall x | 0 <= x < |s| :: x in p
    ensures multiset(Pick(s, p)) == multiset(s)
  {
    var all := seq(|s|, i => i);
    forall x ensures multiset(p)[x] == multiset(all)[x] {
      CountOnce(p, x);
      CountOnce(all, x);
      if 0 <= x < |s| { assert all[x] == x; }
      assert x in all <==> 0 <= x < |s|;
      assert x in p <==> 0 <= x < |s|;
      assert x in multiset(p) <==> x in multiset(all);
    }
    PickPermuted(s, p, all);
    assert Pick(s, all) == s;
  }

  /** As many distinct positions as there are: all of them. */
  lemma CoversAll(p: seq<int>, n: nat)
    requires NoDup(p) && |p| == n && forall i | 0 <= i < |p| :: 0 <= p[i] < n
    ensures forall x | 0 <= x < n :: x in p
  {
    NoDupCard(p);
    var all := UpTo(n);
    if x :| 0 <= x < n && x !in p {
      assert Elements(p) <= all - {x};
      SubsetCard(Elements(p), all - {x});
      assert false;
    }
  }

  lemma {:induction false} ReplayIsRun<S, V>(m: Model<S, V>, ops: seq<Operation<V>>, h: seq<Entry<V>>, p: seq<int>)
    requires WellFormed(h) && Faithful(ops, h) && Selection(h, p)
    ensures Replay(m, h, m.init, p) == Run(m, m.init, Pick(ops, p))
    decreases |p|
  {
    if p != [] {
      var front, last := p[..|p| - 1], p[|p| - 1];
      ReplayIsRun(m, ops, h, front);
      assert Pick(ops, p)[..|p| - 1] == Pick(ops, front);
    }
  }

  /** A linearization of the entries orders the operations ... */
  lemma LinearizationIsOrder<S, V>(m: Model<S, V>, ops: seq<Operation<V>>, h: seq<Entry<V>>, p: seq<int>)
    requires WellFormed(h) && Faithful(ops, h) && IsLinearization(m, h, p)
    ensures IsOrder(m, ops, Pick(ops, p))
  {
    ReplayIsRun(m, ops, h, p);
    PickAll(ops, p);
    var order := Pick(ops, p);
    forall i, j | 0 <= i < j < |order| ensures order[i].call <= order[j].ret {
      assert !Before(h, p[j], p[i]);
    }
  }

  /** ... and an order of the operations, by their positions, is a linearization of the entries. */
  lemma OrderIsLinearization<S, V>(m: Model<S, V>, ops: seq<Operation<V>>, h: seq<Entry<V>>, p: seq<int>)
    requires WellFormed(h) && Faithful(ops, h) && Selection(h, p) && Covers(h, p) && IsOrder(m, ops, Pick(ops, p))
    ensures IsLinearization(m, h, p)
  {
    ReplayIsRun(m, ops, h, p);
    var order := Pick(ops, p);
    forall i, j | 0 <= i < j < |p| ensures !Before(h, p[j], p[i]) {
      assert order[i].call <= order[j].ret;
    }
  }

  /** The history the search works on is linearizable exactly when the operations are. */
  lemma EntriesKeepMeaning<S, V(!new)>(m: Model<S, V>, ops: seq<Operation<V>>, h: seq<Entry<V>>)
    requires WellFormed(h) && Faithful(ops, h)
    ensures Linearizable(m, h) <==> OpsLinearizable(m, ops)
  {
    if Linearizable(m, h) {
      var p :| IsLinearization(m, h, p);
      LinearizationIsOrder(m, ops, h, p);
    }
    if OpsLinearizable(m, ops) {
      var order: seq<Operation<V>> :| IsOrder(m, ops, order);
      var p := PermIndices(ops, order);
      CoversAll(p, |ops|);
      assert Pick(ops, p) == order;
      OrderIsLinearization(m, ops, h, p);
    }
  }

  // ---- renumber and convertEntries

  datatype Event<V> = Event(clientId: int, kind: Kind, value: V, id: int)

  ghost predicate Occurs<V>(events: seq<Event<V>>, id: int) {
    exists i :: 0 <= i < |events| && events[i].id == id
  }

  /** names lists the ids that occur, each once: new id r stands for old id names[r]. */
  ghost predicate Names<V>(events: seq<Event<V>>, names: seq<int>) {
    && NoDup(names)
    && (forall r | 0 <= r < |names| :: Occurs(events, names[r]))
  }

  /** Only the ids differ, and they differ as names says. */
  ghost predicate Renamed<V>(events: seq<Event<V>>, names: seq<int>, e: seq<Event<V>>) {
    && |e| == |events|
    && forall i | 0 <= i < |e| ::
         0 <= e[i].id < |names| && names[e[i].id] == events[i].id && e[i] == events[i].(id := e[i].id)
  }

  /** The renumbering map is the inverse of names. */
  ghost predicate Inverse(names: seq<int>, m: map<int, int>) {
    && (forall x | x in m :: 0 <= m[x] < |names| && names[m[x]] == x)
    && (forall r | 0 <= r < |names| :: names[r] in m)
  }

  /** The ids of e are 0..n-1, each for one of the ids of events. */
  ghost predicate Renumbered<V>(events: seq<Event<V>>, e: seq<Event<V>>) {
    exists names :: Names(events, names) && Renamed(events, names, e)
  }

  method Renumber<V>(events: seq<Event<V>>) returns (e: seq<Event<V>>)
    ensures Renumbered(events, e)
  {
    e := [];
    var m: map<int, int> := map[];
    var id := 0;
    ghost var names: seq<int> := [];
    for i := 0 to |events|
      invariant id == |names| && Inverse(names, m)
      invariant Names(events[..i], names) && Renamed(events[..i], names, e)
    {
      var v := events[i];
      NamesSnoc(events, i, names);
      if v.id in m {
        RenamedSnoc(events, i, names, e, names, m[v.id]);
        e := e + [v.(id := m[v.id])];
      } else {
        RenamedSnoc(events, i, names, e, names + [v.id], id);
        e := e + [v.(id := id)];
        m := m[v.id := id];
        names := names + [v.id];
        id := id + 1;
      }
    }
    assert events[..|events|] == events;
  }

  /** One more event gets the name r. */
  lemma RenamedSnoc<V>(events: seq<Event<V>>, i: nat, names: seq<int>, e: seq<Event<V>>, more: seq<int>, r: int)
    requires i < |events| && Renamed(events[..i], names, e) && names <= more
    requires 0 <= r < |more| && more[r] == events[i].id
    ensures Renamed(events[..i + 1], more, e + [events[i].(id := r)])
  {
    var all, after := events[..i + 1], e + [events[i].(id := r)];
    forall k | 0 <= k < |after|
      ensures 0 <= after[k].id < |more| && more[after[k].id] == all[k].id && after[k] == all[k].(id := after[k].id)
    {
      if k < i { assert after[k] == e[k] && all[k] == events[..i][k]; }
    }
  }

  lemma NamesSnoc<V>(events: seq<Event<V>>, i: nat, names: seq<int>)
    requires i < |events| && Names(events[..i], names)
    ensures Names(events[..i + 1], names)
    ensures events[i].id !in names ==> Names(events[..i + 1], names + [events[i].id])
  {
    var more := events[..i + 1];
    assert more[i].id == events[i].id;
    forall r | 0 <= r < |names| ensures Occurs(more, names[r]) {
      var k :| 0 <= k < i && events[..i][k].id == names[r];
      assert more[k].id == names[r];
    }
  }

  /** Each id that occurs has exactly one call and, later, exactly one return. */
  ghost predicate Paired<V>(events: seq<Event<V>>) {
    && (forall i, j | 0 <= i < j < |events| && events[i].id == events[j].id ::
          events[i].kind == Call && events[j].kind == Return)
    && (forall i | 0 <= i < |events| :: Mated(events, i))
  }

  ghost predicate Mated<V>(events: seq<Event<V>>, i: int) {
    exists j :: Partner(events, i, j)
  }

  ghost predicate Partner<V>(events: seq<Event<V>>, i: int, j: int) {
    0 <= i < |events| && 0 <= j < |events| && i != j && events[i].id == events[j].id
  }

  ghost predicate Converted<V>(events: seq<Event<V>>, entries: seq<Entry<V>>) {
    && |entries| == |events|
    && forall i | 0 <= i < |entries| ::
         entries[i] == Entry(events[i].kind, events[i].value, events[i].id, i, events[i].clientId)
  }

  method ConvertEntries<V>(events: seq<Event<V>>) returns (entries: seq<Entry<V>>)
    ensures Converted(events, entries)
  {
    entries := [];
    for i := 0 to |events|
      invariant Converted(events[..i], entries)
    {
      var elem := events[i];
      entries := entries + [Entry(elem.kind, elem.value, elem.id, i, elem.clientId)];
    }
    assert events[..|events|] == events;
  }

  /** Times go with positions, so the entries are in the order of byTime, and nothing else is changed. */
  lemma ConvertedInOrder<V>(events: seq<Event<V>>, h: seq<Entry<V>>, i: nat, j: nat)
    requires Converted(events, h) && i < j < |h|
    ensures |h| == |events| && Less(h[i], h[j]) && !Less(h[j], h[i])
    ensures h[i].kind == events[i].kind && h[i].value == events[i].value
    ensures h[i].id == events[i].id && h[i].clientId == events[i].clientId
  {
  }

  /** ends holds, for every r below n, the positions of the call and of the return of r. */
  ghost predicate Ends<V>(e: seq<Event<V>>, n: nat, ends: seq<int>) {
    && |ends| == 2 * n
    && forall k | 0 <= k < |ends| ::
         && 0 <= ends[k] < |e|
         && e[ends[k]].id == k / 2
         && e[ends[k]].kind == if k % 2 == 0 then Call else Return
  }

  lemma {:induction false} FindEnds<V>(e: seq<Event<V>>, n: nat) returns (ends: seq<int>)
    requires Paired(e)
    requires forall r | 0 <= r < n :: Occurs(e, r)
    ensures Ends(e, n, ends)
    decreases n
  {
    if n == 0 {
      return [];
    }
    var before := FindEnds(e, n - 1);
    assert Occurs(e, n - 1);
    var i :| 0 <= i < |e| && e[i].id == n - 1;
    assert Mated(e, i);
    var j :| Partner(e, i, j);
    ends := before + (if i < j then [i, j] else [j, i]);
  }

  /** n ids with two events each: 2n events. */
  lemma CountEvents<V>(e: seq<Event<V>>, n: nat, ends: seq<int>)
    requires Paired(e) && Ends(e, n, ends)
    requires forall i | 0 <= i < |e| :: 0 <= e[i].id < n
    ensures |e| == 2 * n
  {
    forall k, l | 0 <= k < l < |ends| ensures ends[k] != ends[l] {
      assert k == 2 * (k / 2) + k % 2 && l == 2 * (l / 2) + l % 2;
    }
    forall i | 0 <= i < |e| ensures i in ends {
      var k := 2 * e[i].id + (if e[i].kind == Call then 0 else 1);
      assert ends[k] == i;
    }
    NoDupCard(ends);
    assert Elements(ends) == UpTo(|e|);
  }

  /** The entries of a renumbered event history are well formed exactly when its events pair up. */
  lemma RenumberedWellFormed<V>(events: seq<Event<V>>, e: seq<Event<V>>, h: seq<Entry<V>>)
    requires Renumbered(events, e) && Converted(e, h)
    ensures WellFormed(h) <==> Paired(events)
  {
    var names :| Names(events, names) && Renamed(events, names, e);
    RenamedPairs(events, names, e);
    if WellFormed(h) {
      WellFormedPaired(e, h);
    }
    if Paired(e) {
      var ends := FindEnds(e, |names|);
      CountEvents(e, |names|, ends);
      PairedWellFormed(e, |names|, ends, h);
    }
  }

  /** Renaming ids one to one keeps the pairing, and every new id is in use. */
  lemma RenamedPairs<V>(events: seq<Event<V>>, names: seq<int>, e: seq<Event<V>>)
    requires Names(events, names) && Renamed(events, names, e)
    ensures Paired(e) <==> Paired(events)
    ensures forall r | 0 <= r < |names| :: Occurs(e, r)
  {
    forall i, j | 0 <= i < |e| && 0 <= j < |e| ensures e[i].id == e[j].id <==> events[i].id == events[j].id {
      assert names[e[i].id] == events[i].id && names[e[j].id] == events[j].id;
    }
    forall i | 0 <= i < |e| ensures Mated(e, i) <==> Mated(events, i) {
      assert forall j :: Partner(e, i, j) <==> Partner(events, i, j);
    }
    forall r | 0 <= r < |names| ensures Occurs(e, r) {
      assert Occurs(events, names[r]);
      var i :| 0 <= i < |events| && events[i].id == names[r];
      assert names[e[i].id] == names[r];
      assert e[i].id == r;
    }
  }

  lemma PairedWellFormed<V>(e: seq<Event<V>>, n: nat, ends: seq<int>, h: seq<Entry<V>>)
    requires Paired(e) && Ends(e, n, ends) && |e| == 2 * n && Converted(e, h)
    requires forall i | 0 <= i < |e| :: 0 <= e[i].id < n
    ensures WellFormed(h)
  {
    forall id | 0 <= id < Size(h) ensures CallPos(h, id) < ReturnPos(h, id) < |h| {
      var i, j := ends[2 * id], ends[2 * id + 1];
      assert h[i].kind == Call && h[i].id == id && h[j].kind == Return && h[j].id == id;
      var c, r := CallPos(h, id), ReturnPos(h, id);
      assert e[c].id == e[r].id;
    }
  }

  lemma WellFormedPaired<V>(e: seq<Event<V>>, h: seq<Entry<V>>)
    requires Converted(e, h) && WellFormed(h)
    ensures Paired(e)
  {
    forall i | 0 <= i < |e| ensures Mated(e, i) {
      var id := h[i].id;
      assert i == Find(h, h[i].kind, id);
      assert Partner(e, i, if h[i].kind == Call then ReturnPos(h, id) else CallPos(h, id));
    }
    forall i, j | 0 <= i < j < |e| && e[i].id == e[j].id ensures e[i].kind == Call && e[j].kind == Return {
      assert i == Find(h, h[i].kind, h[i].id) && j == Find(h, h[j].kind, h[j].id);
      assert CallPos(h, h[i].id) < ReturnPos(h, h[i].id);
    }
  }

  // ---- linearizability of events, by their positions

  /** The events as entries, under the ids they have. */
  ghost function AsEntries<V>(events: seq<Event<V>>): seq<Entry<V>> {
    seq(|events|, i requires 0 <= i < |events| =>
      Entry(events[i].kind, events[i].value, events[i].id, i, events[i].clientId))
  }

  /** Where the call or the return of an operation is; |events| when it is missing. */
  ghost function EventAt<V>(events: seq<Event<V>>, kind: Kind, id: int): nat {
    Find(AsEntries(events), kind, id)
  }

  /** The operations of p all have a call and a return. */
  ghost predicate Ended<V>(events: seq<Event<V>>, p: seq<int>) {
    forall i | 0 <= i < |p| :: EventAt(events, Call, p[i]) < |events| && EventAt(events, Return, p[i]) < |events|
  }

  /** The state after executing the operations of p from state s. */
  ghost function RunEvents<S, V>(m: Model<S, V>, events: seq<Event<V>>, s: S, p: seq<int>): Option<S>
    requires Ended(events, p)
  {
    if p == [] then Some(s)
    else
      var before := RunEvents(m, events, s, p[..|p| - 1]);
      if before.None? then None
      else
        var id := p[|p| - 1];
        var (ok, next) := m.step(before.value, events[EventAt(events, Call, id)].value,
                                 events[EventAt(events, Return, id)].value);
        if ok then Some(next) else None
  }

  /** No operation of p comes after one that was called only after it had returned. */
  ghost predicate EventRealTime<V>(events: seq<Event<V>>, p: seq<int>) {
    forall i, j | 0 <= i < j < |p| :: !(EventAt(events, Return, p[j]) < EventAt(events, Call, p[i]))
  }

  /** Every operation once, none before one that returned before it was called, every step accepted. */
  ghost predicate IsEventOrder<S, V>(m: Model<S, V>, events: seq<Event<V>>, p: seq<int>) {
    && NoDup(p) && Ended(events, p)
    && (forall i | 0 <= i < |events| :: events[i].id in p)
    && EventRealTime(events, p)
    && RunEvents(m, events, m.init, p).Some?
  }

  ghost predicate EventsLinearizable<S, V>(m: Model<S, V>, events: seq<Event<V>>) {
    exists p :: IsEventOrder(m, events, p)
  }

  /** h is the history made of events by way of names. */
  ghost predicate Stands<V>(events: seq<Event<V>>, names: seq<int>, h: seq<Entry<V>>) {
    && WellFormed(h) && Size(h) == |names| && NoDup(names)
    && |h| == |events|
    && forall i | 0 <= i < |h| ::
         && 0 <= h[i].id < |names| && names[h[i].id] == events[i].id
         && h[i].kind == events[i].kind && h[i].value == events[i].value
  }

  lemma ConvertedStands<V>(events: seq<Event<V>>, names: seq<int>, e: seq<Event<V>>, h: seq<Entry<V>>)
    requires Names(events, names) && Renamed(events, names, e) && Converted(e, h) && WellFormed(h)
    ensures Stands(events, names, h)
  {
    RenamedPairs(events, names, e);
    WellFormedPaired(e, h);
    var ends := FindEnds(e, |names|);
    CountEvents(e, |names|, ends);
  }

  /** The ends of an operation are where its events are. */
  lemma SameEnd<V>(events: seq<Event<V>>, names: seq<int>, h: seq<Entry<V>>, kind: Kind, r: int)
    requires Stands(events, names, h) && 0 <= r < |names|
    ensures Find(h, kind, r) < |h| && EventAt(events, kind, names[r]) == Find(h, kind, r)
  {
    assert CallPos(h, r) < ReturnPos(h, r) < |h|;
    var p, q := Find(h, kind, r), EventAt(events, kind, names[r]);
    assert AsEntries(events)[p].kind == kind && AsEntries(events)[p].id == names[r];
    assert q < |events| && names[h[q].id] == names[r];
    assert q == Find(h, h[q].kind, h[q].id);
  }

  /** Operation r of h has the input and the output of operation names[r] of the events. */
  ghost predicate SameValues<V>(events: seq<Event<V>>, x: int, h: seq<Entry<V>>, r: int)
    requires WellFormed(h) && 0 <= r < Size(h)
  {
    && EventAt(events, Call, x) < |events| && EventAt(events, Return, x) < |events|
    && events[EventAt(events, Call, x)].value == h[CallPos(h, r)].value
    && events[EventAt(events, Return, x)].value == h[ReturnPos(h, r)].value
  }

  lemma NamedValues<V>(events: seq<Event<V>>, names: seq<int>, h: seq<Entry<V>>, r: int)
    requires Stands(events, names, h) && 0 <= r < |names|
    ensures SameValues(events, names[r], h, r)
  {
    SameEnd(events, names, h, Call, r);
    SameEnd(events, names, h, Return, r);
  }

  /** Two orders of operations with the same values run alike. */
  lemma {:induction false} ReplayIsRunEvents<S, V>(
    m: Model<S, V>, events: seq<Event<V>>, h: seq<Entry<V>>, p: seq<int>, q: seq<int>)
    requires WellFormed(h) && Selection(h, p) && Ended(events, q) && |q| == |p|
    requires forall i | 0 <= i < |p| :: SameValues(events, q[i], h, p[i])
    ensures Replay(m, h, m.init, p) == RunEvents(m, events, m.init, q)
    decreases |p|
  {
    if p != [] {
      ReplayIsRunEvents(m, events, h, p[..|p| - 1], q[..|q| - 1]);
      assert SameValues(events, q[|q| - 1], h, p[|p| - 1]);
    }
  }

  /** Renaming keeps the operations apart and their ends where they are. */
  lemma SameEnds<V>(events: seq<Event<V>>, names: seq<int>, h: seq<Entry<V>>, p: seq<int>)
    requires Stands(events, names, h) && Selection(h, p)
    ensures NoDup(Pick(names, p)) && Ended(events, Pick(names, p))
    ensures forall i | 0 <= i < |p| ::
              && EventAt(events, Call, Pick(names, p)[i]) == CallPos(h, p[i])
              && EventAt(events, Return, Pick(names, p)[i]) == ReturnPos(h, p[i])
  {
    forall i | 0 <= i < |p|
      ensures CallPos(h, p[i]) < |h| && EventAt(events, Call, Pick(names, p)[i]) == CallPos(h, p[i])
      ensures ReturnPos(h, p[i]) < |h| && EventAt(events, Return, Pick(names, p)[i]) == ReturnPos(h, p[i])
    {
      SameEnd(events, names, h, Call, p[i]);
      SameEnd(events, names, h, Return, p[i]);
    }
  }

  lemma SameRealTime<V>(events: seq<Event<V>>, names: seq<int>, h: seq<Entry<V>>, p: seq<int>)
    requires Stands(events, names, h) && Selection(h, p)
    ensures (forall i, j | 0 <= i < j < |p| :: !Before(h, p[j], p[i])) <==> EventRealTime(events, Pick(names, p))
  {
    SameEnds(events, names, h, p);
    var q := Pick(names, p);
    forall i, j | 0 <= i < j < |p|
      ensures Before(h, p[j], p[i]) <==> EventAt(events, Return, q[j]) < EventAt(events, Call, q[i])
    {}
  }

  /** Renaming the operations of an order back and forth. */
  lemma RenamedOrder<S, V>(m: Model<S, V>, events: seq<Event<V>>, names: seq<int>, h: seq<Entry<V>>, p: seq<int>)
    requires Stands(events, names, h) && Selection(h, p)
    ensures IsLinearization(m, h, p) <==> IsEventOrder(m, events, Pick(names, p))
  {
    SameEnds(events, names, h, p);
    SameCover(events, names, h, p);
    SameRealTime(events, names, h, p);
    forall i | 0 <= i < |p| ensures SameValues(events, Pick(names, p)[i], h, p[i]) {
      NamedValues(events, names, h, p[i]);
    }
    ReplayIsRunEvents(m, events, h, p, Pick(names, p));
  }

  lemma SameCover<V>(events: seq<Event<V>>, names: seq<int>, h: seq<Entry<V>>, p: seq<int>)
    requires Stands(events, names, h) && Selection(h, p)
    ensures Covers(h, p) <==> forall i | 0 <= i < |events| :: events[i].id in Pick(names, p)
  {
    var q := Pick(names, p);
    forall r | 0 <= r < |names| ensures r in p <==> names[r] in q {
      if r in p {
        var k :| 0 <= k < |p| && p[k] == r;
        assert q[k] == names[r];
      }
      if names[r] in q {
        var k :| 0 <= k < |q| && q[k] == names[r];
        assert names[p[k]] == names[r];
      }
    }
    if forall i | 0 <= i < |events| :: events[i].id in q {
      forall r | 0 <= r < Size(h) ensures r in p {
        assert CallPos(h, r) < ReturnPos(h, r) < |h|;
        assert events[CallPos(h, r)].id == names[r];
      }
    }
  }

  /** Every order of the events renames an order of the history. */
  lemma OrderIsNamed<S, V>(m: Model<S, V>, events: seq<Event<V>>, names: seq<int>, h: seq<Entry<V>>, q: seq<int>)
    returns (p: seq<int>)
    requires Stands(events, names, h) && IsEventOrder(m, events, q)
    ensures Selection(h, p) && Pick(names, p) == q
  {
    forall i | 0 <= i < |q| ensures q[i] in names {
      var c := EventAt(events, Call, q[i]);
      assert names[h[c].id] == q[i];
    }
    p := seq(|q|, i requires 0 <= i < |q| => IndexOf(names, q[i]));
    forall i, j | 0 <= i < j < |p| ensures p[i] != p[j] {
      assert names[p[i]] == q[i] && names[p[j]] == q[j];
    }
  }

  ghost function IndexOf(names: seq<int>, x: int): (r: int)
    ensures x in names ==> 0 <= r < |names| && names[r] == x
  {
    if x in names then (var r :| 0 <= r < |names| && names[r] == x; r) else 0
  }

  /** The history made of events is linearizable exactly when the events are. */
  lemma EventsKeepMeaning<S, V>(m: Model<S, V>, events: seq<Event<V>>, e: seq<Event<V>>, h: seq<Entry<V>>)
    requires Renumbered(events, e) && Converted(e, h) && WellFormed(h)
    ensures Linearizable(m, h) <==> EventsLinearizable(m, events)
  {
    var names :| Names(events, names) && Renamed(events, names, e);
    ConvertedStands(events, names, e, h);
    if Linearizable(m, h) {
      var p :| IsLinearization(m, h, p);
      RenamedOrder(m, events, names, h, p);
    }
    if EventsLinearizable(m, events) {
      var q :| IsEventOrder(m, events, q);
      var p := OrderIsNamed(m, events, names, h, q);
      RenamedOrder(m, events, names, h, p);
    }
  }
}
