/**
  What Go's sort package promises, and no more: some permutation of the input
  without inversions.  The sort is not stable, so nothing is said about ties.
 */
module Sorting {
  import opened Collections

  /** less is a strict weak order: not-less is total and transitive. */
  ghost predicate WeakOrder<T(!new)>(less: (T, T) -> bool) {
    && (forall a, b :: !less(a, b) || !less(b, a))
    && (forall a, b, c :: !less(b, a) && !less(c, b) ==> !less(c, a))
  }

  ghost predicate Sorted<T>(less: (T, T) -> bool, s: seq<T>) {
    forall i, j | 0 <= i < j < |s| :: !less(s[j], s[i])
  }

  /** t is a possible result of sorting s. */
  ghost predicate IsSortOf<T>(less: (T, T) -> bool, s: seq<T>, t: seq<T>) {
    Sorted(less, t) && multiset(t) == multiset(s)
  }

  /** Putting x behind a sorted prefix of elements not after it and before the rest keeps order. */
  lemma InsertSorted<T(!new)>(less: (T, T) -> bool, s: seq<T>, x: T, i: nat)
    requires Sorted(less, s) && i <= |s|
    requires forall j | 0 <= j < i :: !less(x, s[j])
    requires forall j | i <= j < |s| :: !less(s[j], x)
    ensures IsSortOf(less, s + [x], s[..i] + [x] + s[i..])
  {
    var t := s[..i] + [x] + s[i..];
    assert s == s[..i] + s[i..];
    forall a, b | 0 <= a < b < |t| ensures !less(t[b], t[a]) {
      assert t[a] == if a < i then s[a] else if a == i then x else s[a - 1];
      assert t[b] == if b < i then s[b] else if b == i then x else s[b - 1];
    }
  }

  method Insert<T(!new)>(less: (T, T) -> bool, s: seq<T>, x: T) returns (t: seq<T>)
    requires WeakOrder(less) && Sorted(less, s)
    ensures IsSortOf(less, s + [x], t)
  {
    var i := |s|;
    while i > 0 && less(x, s[i - 1])
      invariant 0 <= i <= |s|
      invariant forall j | i <= j < |s| :: less(x, s[j])
    {
      i := i - 1;
    }
    t := s[..i] + [x] + s[i..];
    forall j | 0 <= j < i ensures !less(x, s[j]) {
      assert j < i - 1 ==> !less(s[i - 1], s[j]);
    }
    InsertSorted(less, s, x, i);
  }

  /** Stands for sort.Sort: callers learn only that the result is a sort of the input. */
  method Sort<T(!new)>(less: (T, T) -> bool, s: seq<T>) returns (t: seq<T>)
    requires WeakOrder(less)
    ensures IsSortOf(less, s, t)
  {
    t := [];
    for i := 0 to |s|
      invariant IsSortOf(less, s[..i], t)
    {
      assert s[..i + 1] == s[..i] + [s[i]];
      t := Insert(less, t, s[i]);
    }
    assert s[..|s|] == s;
  }

  lemma CountTwo<T>(s: seq<T>, i: nat, j: nat)
    requires i < j < |s| && s[i] == s[j]
    ensures multiset(s)[s[i]] >= 2
  {
    assert s == s[..j] + [s[j]] + s[j + 1..];
    assert s[..j][i] == s[i];
    assert multiset(s) == multiset(s[..j]) + multiset{s[j]} + multiset(s[j + 1..]);
  }

  lemma {:induction false} CountOnce<T>(s: seq<T>, x: T)
    requires NoDup(s)
    ensures multiset(s)[x] <= 1
  {
    if s != [] {
      var front, last := s[..|s| - 1], s[|s| - 1];
      assert s == front + [last];
      CountOnce(front, x);
      if x == last {
        assert x !in front;
        assert x !in multiset(front);
      }
    }
  }

  /** A permutation of a sequence without repetitions has none. */
  lemma PermNoDup<T>(s: seq<T>, t: seq<T>)
    requires NoDup(s) && multiset(s) == multiset(t)
    ensures NoDup(t)
  {
    forall i, j | 0 <= i < j < |t| ensures t[i] != t[j] {
      CountOnce(s, t[i]);
      if t[i] == t[j] { CountTwo(t, i, j); }
    }
  }

  lemma PermElements<T>(s: seq<T>, t: seq<T>)
    requires multiset(s) == multiset(t)
    ensures |s| == |t| && forall x :: x in s <==> x in t
  {
    assert |s| == |multiset(s)| && |t| == |multiset(t)|;
    forall x ensures x in s <==> x in t {
      assert x in s <==> x in multiset(s);
      assert x in t <==> x in multiset(t);
    }
  }

  /** Two permutations of each other are related by an injective renaming of positions. */
  lemma {:induction false} PermIndices<T>(s: seq<T>, t: seq<T>) returns (p: seq<int>)
    requires multiset(s) == multiset(t)
    ensures |p| == |t| == |s| && NoDup(p)
    ensures forall i | 0 <= i < |p| :: 0 <= p[i] < |s| && s[p[i]] == t[i]
    decreases |t|
  {
    PermElements(s, t);
    if t == [] {
      return [];
    }
    var front, last := t[..|t| - 1], t[|t| - 1];
    assert t == front + [last];
    assert last in s;
    var k :| 0 <= k < |s| && s[k] == last;
    var rest := s[..k] + s[k + 1..];
    RemoveOne(s, front, k);
    var q := PermIndices(rest, front);
    var r := ShiftPast(s, front, q, k);
    p := r + [k];
  }

  lemma RemoveOne<T>(s: seq<T>, front: seq<T>, k: nat)
    requires k < |s| && multiset(s) == multiset(front + [s[k]])
    ensures multiset(s[..k] + s[k + 1..]) == multiset(front)
  {
    assert s == s[..k] + [s[k]] + s[k + 1..];
    assert multiset(s) == multiset(s[..k] + s[k + 1..]) + multiset{s[k]};
    assert multiset(front + [s[k]]) == multiset(front) + multiset{s[k]};
    assert multiset(front) + multiset{s[k]} - multiset{s[k]} == multiset(front);
  }

  /** Positions in s without position k, as positions in s. */
  lemma ShiftPast<T>(s: seq<T>, t: seq<T>, q: seq<int>, k: nat) returns (r: seq<int>)
    requires k < |s| && |q| == |t| == |s| - 1 && NoDup(q)
    requires forall i | 0 <= i < |q| :: 0 <= q[i] < |s| - 1 && (s[..k] + s[k + 1..])[q[i]] == t[i]
    ensures |r| == |q| && NoDup(r) && k !in r
    ensures forall i | 0 <= i < |r| :: 0 <= r[i] < |s| && s[r[i]] == t[i]
  {
    r := seq(|q|, i requires 0 <= i < |q| => if q[i] < k then q[i] else q[i] + 1);
  }

  // ---- strings

  /** Go's order on strings. */
  predicate StringLess(s: string, t: string) {
    t != [] && (s == [] || s[0] < t[0] || (s[0] == t[0] && StringLess(s[1..], t[1..])))
  }

  /** s and t are the same before place n, where s ends or has the smaller character. */
  ghost predicate SmallerAt(s: string, t: string, n: nat) {
    && n <= |s| && n < |t| && s[..n] == t[..n]
    && (n == |s| || s[n] < t[n])
  }

  /** The order is that of the first place where the strings differ, a proper prefix being less. */
  lemma {:induction false} StringLessMeans(s: string, t: string)
    ensures StringLess(s, t) <==> exists n: nat :: SmallerAt(s, t, n)
    decreases |s|
  {
    if s == [] || t == [] || s[0] != t[0] {
      if StringLess(s, t) { assert SmallerAt(s, t, 0); }
      if n: nat :| SmallerAt(s, t, n) {
        assert n > 0 ==> s[..n][0] == t[..n][0];
      }
    } else {
      StringLessMeans(s[1..], t[1..]);
      if n: nat :| SmallerAt(s[1..], t[1..], n) {
        assert s[..n + 1] == [s[0]] + s[1..][..n] && t[..n + 1] == [t[0]] + t[1..][..n];
        assert SmallerAt(s, t, n + 1);
      }
      if n: nat :| SmallerAt(s, t, n) {
        assert n > 0;
        assert s[1..][..n - 1] == s[..n][1..] && t[1..][..n - 1] == t[..n][1..];
        assert SmallerAt(s[1..], t[1..], n - 1);
      }
    }
  }

  lemma {:induction false} StringLessAsymmetric(s: string, t: string)
    ensures !StringLess(s, t) || !StringLess(t, s)
  {
    if s != [] && t != [] { StringLessAsymmetric(s[1..], t[1..]); }
  }

  lemma {:induction false} StringLessCotransitive(s: string, t: string, u: string)
    requires !StringLess(t, s) && !StringLess(u, t)
    ensures !StringLess(u, s)
  {
    if s != [] && t != [] && u != [] && s[0] == t[0] == u[0] {
      StringLessCotransitive(s[1..], t[1..], u[1..]);
    }
  }

  lemma StringLessWeakOrder()
    ensures WeakOrder(StringLess)
  {
    forall s, t ensures !StringLess(s, t) || !StringLess(t, s) {
      StringLessAsymmetric(s, t);
    }
    forall s, t, u | !StringLess(t, s) && !StringLess(u, t) ensures !StringLess(u, s) {
      StringLessCotransitive(s, t, u);
    }
  }

  /** Strings of which neither is less are equal. */
  lemma {:induction false} StringLessTotal(s: string, t: string)
    requires !StringLess(s, t) && !StringLess(t, s)
    ensures s == t
  {
    if s != [] && t != [] {
      StringLessTotal(s[1..], t[1..]);
      assert s == [s[0]] + s[1..] && t == [t[0]] + t[1..];
    }
  }
}
