/**
  The data path of src/mr/worker.go against the sequential program src/main/mrsequential.go:
  mapped pairs are spread over R buckets by a hash of the key, every reduce task sorts and
  groups one bucket of every worker.
 */
module Pipeline {
  import opened Collections
  import opened Sorting

  datatype KeyValue = KeyValue(key: string, value: string)

  // One line of an output file: a key and what the reduce function made of its values.
  datatype Line = Line(key: string, output: string)

  // The application's reduce function and the hash function.
  type ReduceFunc = (string, seq<string>) -> string
  type HashFunc = string -> nat

  /** The reduce function does not care in which order it gets the values. */
  ghost predicate IgnoresOrder(reducef: ReduceFunc) {
    forall k, vs, ws | multiset(vs) == multiset(ws) :: reducef(k, vs) == reducef(k, ws)
  }

  /** ByKey.Less */
  predicate ByKey(a: KeyValue, b: KeyValue) {
    StringLess(a.key, b.key)
  }

  lemma ByKeyWeakOrder()
    ensures WeakOrder(ByKey)
  {
    StringLessWeakOrder();
  }

  // ---- what the output of a set of pairs is

  /** The values of one key, in order of appearance. */
  function ValuesFor(kvs: seq<KeyValue>, key: string): seq<string> {
    if kvs == [] then []
    else
      var front := ValuesFor(kvs[..|kvs| - 1], key);
      var last := kvs[|kvs| - 1];
      if last.key == key then front + [last.value] else front
  }

  lemma {:induction false} ValuesConcat(a: seq<KeyValue>, b: seq<KeyValue>, key: string)
    ensures ValuesFor(a + b, key) == ValuesFor(a, key) + ValuesFor(b, key)
    decreases |b|
  {
    if b == [] {
      assert a + b == a;
    } else {
      ValuesConcat(a, b[..|b| - 1], key);
      assert (a + b)[..|a + b| - 1] == a + b[..|b| - 1];
    }
  }

  ghost predicate HasKey(kvs: seq<KeyValue>, key: string) {
    exists kv :: kv in kvs && kv.key == key
  }

  lemma {:induction false} ValuesNone(kvs: seq<KeyValue>, key: string)
    requires !HasKey(kvs, key)
    ensures ValuesFor(kvs, key) == []
    decreases |kvs|
  {
    if kvs != [] {
      assert kvs[|kvs| - 1] in kvs;
      ValuesNone(kvs[..|kvs| - 1], key);
    }
  }

  lemma {:induction false} ValuesAll(kvs: seq<KeyValue>, key: string)
    requires forall i | 0 <= i < |kvs| :: kvs[i].key == key
    ensures |ValuesFor(kvs, key)| == |kvs|
    ensures forall i | 0 <= i < |kvs| :: ValuesFor(kvs, key)[i] == kvs[i].value
    decreases |kvs|
  {
    if kvs != [] { ValuesAll(kvs[..|kvs| - 1], key); }
  }

  ghost function ValueIf(kv: KeyValue, key: string): multiset<string> {
    if kv.key == key then multiset{kv.value} else multiset{}
  }

  lemma ValuesSnoc(front: seq<KeyValue>, last: KeyValue, key: string)
    ensures multiset(ValuesFor(front + [last], key)) == multiset(ValuesFor(front, key)) + ValueIf(last, key)
  {
    assert (front + [last])[..|front|] == front;
  }

  /** Taking one pair out takes its value out. */
  lemma ValuesWithout(b: seq<KeyValue>, k: nat, key: string)
    requires k < |b|
    ensures multiset(ValuesFor(b, key)) == multiset(ValuesFor(b[..k] + b[k + 1..], key)) + ValueIf(b[k], key)
  {
    var front, rest := b[..k], b[k + 1..];
    assert b == (front + [b[k]]) + rest;
    ValuesConcat(front + [b[k]], rest, key);
    ValuesConcat(front, rest, key);
    ValuesSnoc(front, b[k], key);
  }

  lemma {:induction false} ValuesPermuted(a: seq<KeyValue>, b: seq<KeyValue>, key: string)
    requires multiset(a) == multiset(b)
    ensures multiset(ValuesFor(a, key)) == multiset(ValuesFor(b, key))
    decreases |a|
  {
    PermElements(a, b);
    if a != [] {
      var front, last := a[..|a| - 1], a[|a| - 1];
      SplitLast(a);
      assert last in b;
      var k :| 0 <= k < |b| && b[k] == last;
      RemoveOne(b, front, k);
      ValuesPermuted(front, b[..k] + b[k + 1..], key);
      ValuesWithout(b, k, key);
      ValuesSnoc(front, last, key);
    }
  }

  /** The line of a key. */
  ghost function LineFor(reducef: ReduceFunc, kvs: seq<KeyValue>, key: string): Line {
    Line(key, reducef(key, ValuesFor(kvs, key)))
  }

  ghost predicate DistinctKeys(lines: seq<Line>) {
    forall i, j | 0 <= i < j < |lines| :: lines[i].key != lines[j].key
  }

  /** One line for each key that occurs: what the reduce function makes of all its values. */
  ghost predicate IsOutput(reducef: ReduceFunc, kvs: seq<KeyValue>, lines: seq<Line>) {
    && DistinctKeys(lines)
    && (forall l | l in lines :: HasKey(kvs, l.key) && l == LineFor(reducef, kvs, l.key))
    && (forall key | HasKey(kvs, key) :: LineFor(reducef, kvs, key) in lines)
  }

  /** Permuted pairs have the same outputs. */
  lemma OutputPermuted(reducef: ReduceFunc, a: seq<KeyValue>, b: seq<KeyValue>, lines: seq<Line>)
    requires IgnoresOrder(reducef) && multiset(a) == multiset(b) && IsOutput(reducef, a, lines)
    ensures IsOutput(reducef, b, lines)
  {
    PermElements(a, b);
    forall key ensures LineFor(reducef, a, key) == LineFor(reducef, b, key) {
      ValuesPermuted(a, b, key);
    }
    assert forall key :: HasKey(a, key) <==> HasKey(b, key);
  }

  /** Two outputs of the same pairs are permutations of each other. */
  lemma OutputUnique(reducef: ReduceFunc, kvs: seq<KeyValue>, a: seq<Line>, b: seq<Line>)
    requires IsOutput(reducef, kvs, a) && IsOutput(reducef, kvs, b)
    ensures multiset(a) == multiset(b)
  {
    forall l ensures multiset(a)[l] == multiset(b)[l] {
      CountOnce(a, l);
      CountOnce(b, l);
      assert l in a <==> l in b;
      assert l in multiset(a) <==> l in multiset(b);
    }
  }

  // ---- sort and group

  /** Everything before i has been grouped, and no group reaches across i. */
  ghost predicate Boundary(kvs: seq<KeyValue>, i: nat) {
    i <= |kvs| && forall p, q | 0 <= p < i <= q < |kvs| :: kvs[p].key != kvs[q].key
  }

  /** In sorted pairs, a change of key is a boundary. */
  lemma ChangeIsBoundary(kvs: seq<KeyValue>, i: nat, j: nat)
    requires Sorted(ByKey, kvs) && i < j <= |kvs| && Boundary(kvs, i)
    requires forall k | i <= k < j :: kvs[k].key == kvs[i].key
    requires j < |kvs| ==> kvs[j].key != kvs[i].key
    ensures Boundary(kvs, j)
  {
    forall p, q | 0 <= p < j <= q < |kvs| ensures kvs[p].key != kvs[q].key {
      if p >= i { NotAgain(kvs, i, j, q); }
    }
  }

  /** A key that has been left does not come back. */
  lemma NotAgain(kvs: seq<KeyValue>, i: nat, j: nat, q: nat)
    requires Sorted(ByKey, kvs) && i < j <= q < |kvs| && kvs[j].key != kvs[i].key
    ensures kvs[q].key != kvs[i].key
  {
    assert !ByKey(kvs[j], kvs[i]) && (j < q ==> !ByKey(kvs[q], kvs[j]));
    StringOrder(kvs[i].key, kvs[j].key, kvs[q].key);
  }

  lemma StringOrder(a: string, b: string, c: string)
    requires a != b && !StringLess(b, a) && (b == c || !StringLess(c, b))
    ensures a != c
  {
    if a == c { StringLessTotal(a, b); }
  }

  /** A group of one key that has not occurred before changes the values of that key only. */
  lemma GroupValues(before: seq<KeyValue>, group: seq<KeyValue>, key: string, k: string)
    requires !HasKey(before, key) && forall i | 0 <= i < |group| :: group[i].key == key
    ensures k == key ==> ValuesFor(before + group, k) == ValuesFor(group, key)
    ensures k != key ==> ValuesFor(before + group, k) == ValuesFor(before, k)
  {
    ValuesConcat(before, group, k);
    if k == key { ValuesNone(before, key); } else { ValuesNone(group, k); }
  }

  lemma GroupKeys(before: seq<KeyValue>, group: seq<KeyValue>, key: string, k: string)
    requires group != [] && forall i | 0 <= i < |group| :: group[i].key == key
    ensures HasKey(before + group, k) <==> HasKey(before, k) || k == key
  {
    assert group[0] in before + group;
    if HasKey(before, k) {
      var kv :| kv in before && kv.key == k;
      assert kv in before + group;
    }
  }

  lemma AddLine(reducef: ReduceFunc, before: seq<KeyValue>, group: seq<KeyValue>, key: string, lines: seq<Line>)
    requires IsOutput(reducef, before, lines) && !HasKey(before, key)
    requires group != [] && forall i | 0 <= i < |group| :: group[i].key == key
    ensures IsOutput(reducef, before + group, lines + [Line(key, reducef(key, ValuesFor(group, key)))])
  {
    var now, line := before + group, Line(key, reducef(key, ValuesFor(group, key)));
    forall k ensures LineFor(reducef, now, k) == if k == key then line else LineFor(reducef, before, k) {
      GroupValues(before, group, key, k);
    }
    forall k ensures HasKey(now, k) <==> HasKey(before, k) || k == key {
      GroupKeys(before, group, key, k);
    }
    forall a | 0 <= a < |lines| ensures lines[a].key != key { assert lines[a] in lines; }
    assert line in lines + [line];
  }

  /** The next group gives the next line. */
  lemma NextGroup(reducef: ReduceFunc, kvs: seq<KeyValue>, i: nat, j: nat, values: seq<string>, lines: seq<Line>)
    requires Boundary(kvs, i) && i < j <= |kvs| && IsOutput(reducef, kvs[..i], lines)
    requires forall k | i <= k < j :: kvs[k].key == kvs[i].key
    requires |values| == j - i && forall k | 0 <= k < j - i :: values[k] == kvs[i + k].value
    ensures IsOutput(reducef, kvs[..j], lines + [Line(kvs[i].key, reducef(kvs[i].key, values))])
  {
    var before, group, key := kvs[..i], kvs[i..j], kvs[i].key;
    assert kvs[..j] == before + group;
    ValuesAll(group, key);
    assert values == ValuesFor(group, key);
    assert !HasKey(before, key);
    AddLine(reducef, before, group, key, lines);
  }

  ghost predicate Ascending(lines: seq<Line>) {
    forall a, b | 0 <= a < b < |lines| :: StringLess(lines[a].key, lines[b].key)
  }

  /** Every key of the lines comes before the keys of kvs from i on. */
  ghost predicate Behind(lines: seq<Line>, kvs: seq<KeyValue>, i: nat) {
    forall a, q | 0 <= a < |lines| && i <= q < |kvs| :: StringLess(lines[a].key, kvs[q].key)
  }

  lemma KeyAscends(kvs: seq<KeyValue>, p: nat, q: nat)
    requires Sorted(ByKey, kvs) && p < q < |kvs| && kvs[p].key != kvs[q].key
    ensures StringLess(kvs[p].key, kvs[q].key)
  {
    assert !ByKey(kvs[q], kvs[p]);
    if !StringLess(kvs[p].key, kvs[q].key) { StringLessTotal(kvs[p].key, kvs[q].key); }
  }

  /** The line of the next group comes behind the lines there are, and before the keys to come. */
  lemma NextAscends(kvs: seq<KeyValue>, i: nat, j: nat, lines: seq<Line>, line: Line)
    requires Sorted(ByKey, kvs) && i < j <= |kvs| && Boundary(kvs, j) && line.key == kvs[i].key
    requires Ascending(lines) && Behind(lines, kvs, i)
    ensures Ascending(lines + [line]) && Behind(lines + [line], kvs, j)
  {
    forall q | j <= q < |kvs| ensures StringLess(line.key, kvs[q].key) {
      KeyAscends(kvs, i, q);
    }
  }

  /** The grouping loop, the same in doReduceTask and in mrsequential. */
  method Group(reducef: ReduceFunc, intermediate: seq<KeyValue>) returns (lines: seq<Line>)
    requires Sorted(ByKey, intermediate)
    ensures IsOutput(reducef, intermediate, lines) && Ascending(lines)
  {
    lines := [];
    var i := 0;
    while i < |intermediate|
      invariant 0 <= i <= |intermediate| && Boundary(intermediate, i)
      invariant IsOutput(reducef, intermediate[..i], lines)
      invariant Ascending(lines) && Behind(lines, intermediate, i)
    {
      var reduceKey := intermediate[i].key;
      var j := i + 1;
      while j < |intermediate| && reduceKey == intermediate[j].key
        invariant i < j <= |intermediate|
        invariant forall k | i <= k < j :: intermediate[k].key == reduceKey
      {
        j := j + 1;
      }
      var values: seq<string> := [];
      for k := i to j
        invariant |values| == k - i && forall x | 0 <= x < k - i :: values[x] == intermediate[i + x].value
      {
        values := values + [intermediate[k].value];
      }
      var reduceOut := reducef(reduceKey, values);
      NextGroup(reducef, intermediate, i, j, values, lines);
      ChangeIsBoundary(intermediate, i, j);
      NextAscends(intermediate, i, j, lines, Line(reduceKey, reduceOut));
      lines := lines + [Line(reduceKey, reduceOut)];
      i := j;
    }
    assert intermediate[..|intermediate|] == intermediate;
  }

  /** What the pairs come to in some order in which equal keys are together. */
  ghost predicate IsSomeOutput(reducef: ReduceFunc, kvs: seq<KeyValue>, lines: seq<Line>) {
    exists sorted :: IsSortOf(ByKey, kvs, sorted) && IsOutput(reducef, sorted, lines)
  }

  /** Sort and group, for any sort; the order of values matters only to reduce functions that look at it. */
  method SortAndGroup(reducef: ReduceFunc, kvs: seq<KeyValue>) returns (lines: seq<Line>)
    ensures IsSomeOutput(reducef, kvs, lines) && Ascending(lines)
    ensures IgnoresOrder(reducef) ==> IsOutput(reducef, kvs, lines)
  {
    ByKeyWeakOrder();
    var intermediate := Sort(ByKey, kvs);
    lines := Group(reducef, intermediate);
    if IgnoresOrder(reducef) {
      OutputPermuted(reducef, intermediate, kvs, lines);
    }
  }

  // ---- the sequential program

  ghost function Concat<T>(ss: seq<seq<T>>): seq<T> {
    if ss == [] then [] else Concat(ss[..|ss| - 1]) + ss[|ss| - 1]
  }

  lemma ConcatSnoc<T>(ss: seq<seq<T>>, i: nat)
    requires i < |ss|
    ensures Concat(ss[..i + 1]) == Concat(ss[..i]) + ss[i]
  {
    assert ss[..i + 1][..i] == ss[..i];
  }

  /** mrsequential, from the mapped files on. */
  method Sequential(reducef: ReduceFunc, mapped: seq<seq<KeyValue>>) returns (lines: seq<Line>)
    ensures IsSomeOutput(reducef, Concat(mapped), lines) && Ascending(lines)
    ensures IgnoresOrder(reducef) ==> IsOutput(reducef, Concat(mapped), lines)
  {
    var intermediate: seq<KeyValue> := [];
    for i := 0 to |mapped|
      invariant intermediate == Concat(mapped[..i])
    {
      ConcatSnoc(mapped, i);
      intermediate := intermediate + mapped[i];
    }
    assert mapped[..|mapped|] == mapped;
    lines := SortAndGroup(reducef, intermediate);
  }

  // ---- the distributed program

  /** The pairs whose key belongs to reduce task r. */
  function InBucket(hash: HashFunc, R: nat, kvs: seq<KeyValue>, r: nat): seq<KeyValue>
    requires R > 0
  {
    if kvs == [] then []
    else
      var front := InBucket(hash, R, kvs[..|kvs| - 1], r);
      var last := kvs[|kvs| - 1];
      if hash(last.key) % R == r then front + [last] else front
  }

  lemma {:induction false} BucketConcat(hash: HashFunc, R: nat, a: seq<KeyValue>, b: seq<KeyValue>, r: nat)
    requires R > 0
    ensures InBucket(hash, R, a + b, r) == InBucket(hash, R, a, r) + InBucket(hash, R, b, r)
    decreases |b|
  {
    if b == [] {
      assert a + b == a;
    } else {
      BucketConcat(hash, R, a, b[..|b| - 1], r);
      assert (a + b)[..|a + b| - 1] == a + b[..|b| - 1];
    }
  }

  /** A bucket has all the values of its keys and nothing else. */
  lemma {:induction false} BucketValues(hash: HashFunc, R: nat, kvs: seq<KeyValue>, r: nat, key: string)
    requires R > 0
    ensures HasKey(InBucket(hash, R, kvs, r), key) <==> HasKey(kvs, key) && hash(key) % R == r
    ensures hash(key) % R == r ==> ValuesFor(InBucket(hash, R, kvs, r), key) == ValuesFor(kvs, key)
    decreases |kvs|
  {
    if kvs != [] {
      var front, last := kvs[..|kvs| - 1], kvs[|kvs| - 1];
      BucketValues(hash, R, front, r, key);
      SplitLast(kvs);
      KeysSnoc(front, last, key);
      var bucket := InBucket(hash, R, front, r);
      if hash(last.key) % R == r {
        KeysSnoc(bucket, last, key);
        assert (bucket + [last])[..|bucket|] == bucket;
      }
    }
  }

  lemma KeysSnoc(kvs: seq<KeyValue>, last: KeyValue, key: string)
    ensures HasKey(kvs + [last], key) <==> HasKey(kvs, key) || last.key == key
  {
    assert last in kvs + [last];
    if HasKey(kvs, key) {
      var kv :| kv in kvs && kv.key == key;
      assert kv in kvs + [last];
    }
  }

  /** The partition loop of doMapWork. */
  method DoMapWork(hash: HashFunc, R: nat, kva: seq<KeyValue>) returns (reduceList: seq<seq<KeyValue>>)
    requires R > 0
    ensures |reduceList| == R && forall r | 0 <= r < R :: reduceList[r] == InBucket(hash, R, kva, r)
  {
    reduceList := seq(R, _ => []);
    for i := 0 to |kva|
      invariant |reduceList| == R && forall r | 0 <= r < R :: reduceList[r] == InBucket(hash, R, kva[..i], r)
    {
      var kv := kva[i];
      assert kva[..i + 1][..i] == kva[..i];
      var reduceID := hash(kv.key) % R;
      reduceList := reduceList[reduceID := reduceList[reduceID] + [kv]];
    }
    assert kva[..|kva|] == kva;
  }

  // The intermediate files: for each worker, one for each reduce task.
  type Files = map<nat, seq<seq<KeyValue>>>

  ghost predicate WellShaped(files: Files, dir: seq<nat>, R: nat) {
    forall w | w in dir :: w in files && |files[w]| == R
  }

  /** What a reduce task reads: its file of every worker, in the order of the directory. */
  ghost function Gather(files: Files, dir: seq<nat>, R: nat, r: nat): seq<KeyValue>
    requires r < R && WellShaped(files, dir, R)
  {
    if dir == [] then []
    else Gather(files, dir[..|dir| - 1], R, r) + files[dir[|dir| - 1]][r]
  }

  /** Files of other workers do not matter. */
  lemma {:induction false} GatherOther(files: Files, files': Files, dir: seq<nat>, R: nat, r: nat)
    requires r < R && WellShaped(files, dir, R) && WellShaped(files', dir, R)
    requires forall w | w in dir :: files[w] == files'[w]
    ensures Gather(files, dir, R, r) == Gather(files', dir, R, r)
    decreases |dir|
  {
    if dir != [] { GatherOther(files, files', dir[..|dir| - 1], R, r); }
  }

  /** Appending to one worker's file adds just that to what is read. */
  lemma {:induction false} GatherAppend(files: Files, files': Files, dir: seq<nat>, R: nat, r: nat, w: nat, more: seq<KeyValue>)
    requires r < R && NoDup(dir) && w in dir && WellShaped(files, dir, R) && WellShaped(files', dir, R)
    requires files'[w][r] == files[w][r] + more && forall x | x in dir && x != w :: files'[x] == files[x]
    ensures multiset(Gather(files', dir, R, r)) == multiset(Gather(files, dir, R, r)) + multiset(more)
    decreases |dir|
  {
    var front, last := dir[..|dir| - 1], dir[|dir| - 1];
    SplitLast(dir);
    if last == w {
      GatherOther(files, files', front, R, r);
    } else {
      GatherAppend(files, files', front, R, r, w, more);
    }
  }

  /** Every reduce task would read a permutation of its bucket of what has been mapped. */
  ghost predicate FilesHold(files: Files, dir: seq<nat>, hash: HashFunc, R: nat, kvs: seq<KeyValue>) {
    && R > 0
    && WellShaped(files, dir, R)
    && forall r: nat | r < R :: ReadsBucket(files, dir, hash, R, kvs, r)
  }

  ghost predicate ReadsBucket(files: Files, dir: seq<nat>, hash: HashFunc, R: nat, kvs: seq<KeyValue>, r: nat)
    requires r < R && WellShaped(files, dir, R)
  {
    multiset(Gather(files, dir, R, r)) == multiset(InBucket(hash, R, kvs, r))
  }

  /** One map task: worker w appends the buckets of kva to its files. */
  method AppendBuckets(files: Files, w: nat, buckets: seq<seq<KeyValue>>, R: nat) returns (files': Files)
    requires w in files && |files[w]| == R == |buckets|
    ensures files'.Keys == files.Keys && |files'[w]| == R
    ensures forall r | 0 <= r < R :: files'[w][r] == files[w][r] + buckets[r]
    ensures forall x | x in files && x != w :: files'[x] == files[x]
  {
    var mine := files[w];
    for rid := 0 to R
      invariant |mine| == R
      invariant forall r | 0 <= r < R :: mine[r] == files[w][r] + if r < rid then buckets[r] else []
    {
      mine := mine[rid := mine[rid] + buckets[rid]];
    }
    files' := files[w := mine];
  }

  method MapOne(hash: HashFunc, R: nat, files: Files, w: nat, kva: seq<KeyValue>, ghost dir: seq<nat>, ghost kvs: seq<KeyValue>)
    returns (files': Files)
    requires NoDup(dir) && w in dir && FilesHold(files, dir, hash, R, kvs)
    ensures FilesHold(files', dir, hash, R, kvs + kva)
  {
    var reduceList := DoMapWork(hash, R, kva);
    files' := AppendBuckets(files, w, reduceList, R);
    assert WellShaped(files', dir, R);
    forall r: nat | r < R ensures ReadsBucket(files', dir, hash, R, kvs + kva, r) {
      assert ReadsBucket(files, dir, hash, R, kvs, r);
      GatherAppend(files, files', dir, R, r, w, reduceList[r]);
      BucketConcat(hash, R, kvs, kva, r);
    }
  }

  /** Registration creates a worker's files, empty. */
  method CreateFiles(dir: seq<nat>, hash: HashFunc, R: nat) returns (files: Files)
    requires R > 0
    ensures FilesHold(files, dir, hash, R, [])
  {
    files := map w | w in dir :: seq(R, _ => []);
    forall r: nat | r < R ensures ReadsBucket(files, dir, hash, R, [], r) {
      GatherEmpty(files, dir, R, r);
    }
  }

  lemma {:induction false} GatherEmpty(files: Files, dir: seq<nat>, R: nat, r: nat)
    requires r < R && WellShaped(files, dir, R) && forall w | w in dir :: files[w][r] == []
    ensures Gather(files, dir, R, r) == []
    decreases |dir|
  {
    if dir != [] {
      GatherEmpty(files, dir[..|dir| - 1], R, r);
    }
  }

  /** The reading loop of doReduceTask. */
  method ReadBucket(files: Files, dir: seq<nat>, R: nat, r: nat) returns (intermediate: seq<KeyValue>)
    requires r < R && WellShaped(files, dir, R)
    ensures intermediate == Gather(files, dir, R, r)
  {
    intermediate := [];
    for i := 0 to |dir|
      invariant intermediate == Gather(files, dir[..i], R, r)
    {
      assert dir[..i + 1][..i] == dir[..i];
      intermediate := intermediate + files[dir[i]][r];
    }
    assert dir[..|dir|] == dir;
  }

  /** out[r] is the output of bucket r. */
  ghost predicate BucketOutputs(reducef: ReduceFunc, hash: HashFunc, R: nat, kvs: seq<KeyValue>, out: seq<seq<Line>>)
    requires R > 0
  {
    forall r: nat | r < |out| :: IsOutput(reducef, InBucket(hash, R, kvs, r), out[r])
  }

  /**
    The outputs of all buckets together are an output of all pairs: every key is in one bucket,
    with all of its values.
   */
  lemma AllBuckets(reducef: ReduceFunc, hash: HashFunc, R: nat, kvs: seq<KeyValue>, out: seq<seq<Line>>)
    requires R > 0 && |out| == R && BucketOutputs(reducef, hash, R, kvs, out)
    ensures IsOutput(reducef, kvs, Concat(out))
  {
    SomeBuckets(reducef, hash, R, kvs, out);
    forall key | HasKey(kvs, key) ensures LineFor(reducef, kvs, key) in Concat(out) {
      assert hash(key) % R < |out|;
    }
  }

  /** The same for the first buckets: they cover the keys that hash below their number. */
  lemma {:induction false} SomeBuckets(reducef: ReduceFunc, hash: HashFunc, R: nat, kvs: seq<KeyValue>, out: seq<seq<Line>>)
    requires R > 0 && |out| <= R && BucketOutputs(reducef, hash, R, kvs, out)
    ensures DistinctKeys(Concat(out))
    ensures forall l | l in Concat(out) ::
              HasKey(kvs, l.key) && hash(l.key) % R < |out| && l == LineFor(reducef, kvs, l.key)
    ensures forall key | HasKey(kvs, key) && hash(key) % R < |out| :: LineFor(reducef, kvs, key) in Concat(out)
    decreases |out|
  {
    if out != [] {
      var r := |out| - 1;
      var front, last := out[..r], out[r];
      SomeBuckets(reducef, hash, R, kvs, front);
      OneBucket(reducef, hash, R, kvs, r, last);
      JoinBuckets(reducef, hash, R, kvs, Concat(front), last, r);
    }
  }

  lemma OneBucket(reducef: ReduceFunc, hash: HashFunc, R: nat, kvs: seq<KeyValue>, r: nat, lines: seq<Line>)
    requires R > 0 && IsOutput(reducef, InBucket(hash, R, kvs, r), lines)
    ensures forall l | l in lines :: HasKey(kvs, l.key) && hash(l.key) % R == r && l == LineFor(reducef, kvs, l.key)
    ensures forall key | HasKey(kvs, key) && hash(key) % R == r :: LineFor(reducef, kvs, key) in lines
  {
    forall l | l in lines ensures HasKey(kvs, l.key) && hash(l.key) % R == r && l == LineFor(reducef, kvs, l.key) {
      BucketValues(hash, R, kvs, r, l.key);
    }
    forall key | HasKey(kvs, key) && hash(key) % R == r ensures LineFor(reducef, kvs, key) in lines {
      BucketValues(hash, R, kvs, r, key);
    }
  }

  lemma JoinBuckets(reducef: ReduceFunc, hash: HashFunc, R: nat, kvs: seq<KeyValue>, a: seq<Line>, b: seq<Line>, r: nat)
    requires R > 0 && DistinctKeys(a) && DistinctKeys(b)
    requires forall l | l in a :: hash(l.key) % R < r
    requires forall l | l in b :: hash(l.key) % R == r
    ensures DistinctKeys(a + b)
  {
    var lines := a + b;
    forall i, j | 0 <= i < j < |lines| ensures lines[i].key != lines[j].key {
      if i < |a| <= j {
        assert lines[i] in a && lines[j] in b;
      }
    }
  }

  /**
    A job without failures.  owner[i] is the worker that maps file i, dir the workers in the order
    in which their files are found, hash and R spread the keys.  Whatever they are, the reduce
    outputs together are a permutation of every output the sequential program can have.
   */
  method RunJob(reducef: ReduceFunc, hash: HashFunc, R: nat, mapped: seq<seq<KeyValue>>, owner: seq<nat>, dir: seq<nat>)
    returns (out: seq<seq<Line>>)
    requires IgnoresOrder(reducef) && R > 0 && NoDup(dir)
    requires |owner| == |mapped| && forall i | 0 <= i < |owner| :: owner[i] in dir
    ensures |out| == R && IsOutput(reducef, Concat(mapped), Concat(out))
    ensures forall lines | IsOutput(reducef, Concat(mapped), lines) :: multiset(Concat(out)) == multiset(lines)
  {
    var files := CreateFiles(dir, hash, R);
    for i := 0 to |mapped|
      invariant FilesHold(files, dir, hash, R, Concat(mapped[..i]))
    {
      ConcatSnoc(mapped, i);
      files := MapOne(hash, R, files, owner[i], mapped[i], dir, Concat(mapped[..i]));
    }
    assert mapped[..|mapped|] == mapped;
    ghost var all := Concat(mapped);
    out := [];
    for r := 0 to R
      invariant |out| == r && BucketOutputs(reducef, hash, R, all, out)
    {
      assert ReadsBucket(files, dir, hash, R, all, r);
      var intermediate := ReadBucket(files, dir, R, r);
      var lines := SortAndGroup(reducef, intermediate);
      OutputPermuted(reducef, intermediate, InBucket(hash, R, all, r), lines);
      out := out + [lines];
    }
    AllBuckets(reducef, hash, R, all, out);
    forall lines | IsOutput(reducef, all, lines) ensures multiset(Concat(out)) == multiset(lines) {
      OutputUnique(reducef, all, Concat(out), lines);
    }
  }
}
