/**
  The bitset of src/porcupine/bitset.go: a slice of 64-bit words, changed in
  place by set and clear, read as a set of positions.
 */
module Bitset {
  import opened Words

  const WORD: nat := 64

  ghost function Positions(s: seq<nat>): set<nat> {
    Members(WORD, s)
  }

  /** The words of a slice are 64-bit words. */
  ghost predicate Valid(s: seq<nat>) {
    Fits(WORD, s)
  }

  // ---- counting and hashing

  /** bits.OnesCount64 of the Go library, on the lowest k digits. */
  function OnesCount(w: nat, k: nat): nat {
    if k == 0 then 0 else OnesCount(w, k - 1) + (if Test(w, k - 1) then 1 else 0)
  }

  function Popcnt(s: seq<nat>): nat {
    if s == [] then 0 else Popcnt(s[..|s| - 1]) + OnesCount(s[|s| - 1], WORD)
  }

  /** The positions below n. */
  ghost function Below(s: seq<nat>, n: nat): set<nat>
    requires n <= WORD * |s|
  {
    set i: nat | i < n && Has(WORD, s, i)
  }

  lemma BelowNext(s: seq<nat>, n: nat)
    requires n < WORD * |s|
    ensures Below(s, n + 1) == Below(s, n) + (if Has(WORD, s, n) then {n} else {})
  {
    forall i: nat ensures i in Below(s, n + 1) <==> i in Below(s, n) || (i == n && Has(WORD, s, n)) {}
  }

  /** The positions before the last word are those of the other words. */
  lemma BelowLast(s: seq<nat>)
    requires s != []
    ensures Below(s, WORD * (|s| - 1)) == Positions(s[..|s| - 1])
  {
    var front := s[..|s| - 1];
    forall i: nat | i < WORD * (|s| - 1) ensures Has(WORD, s, i) <==> Has(WORD, front, i) {
      assert i / WORD < |s| - 1;
    }
  }

  lemma {:induction false} CountWithin(s: seq<nat>, k: nat)
    requires s != [] && k <= WORD
    ensures |Below(s, WORD * (|s| - 1) + k)| == |Positions(s[..|s| - 1])| + OnesCount(s[|s| - 1], k)
    decreases k
  {
    if k == 0 {
      BelowLast(s);
    } else {
      var last := WORD * (|s| - 1) + (k - 1);
      CountWithin(s, k - 1);
      BelowNext(s, last);
      assert last / WORD == |s| - 1 && last % WORD == k - 1;
    }
  }

  /** popcnt is the size of the set. */
  lemma {:induction false} PopcntIsCard(s: seq<nat>)
    ensures Popcnt(s) == |Positions(s)|
    decreases |s|
  {
    if s == [] {
      assert Positions(s) == {};
    } else {
      PopcntIsCard(s[..|s| - 1]);
      CountWithin(s, WORD);
      assert Positions(s) == Below(s, WORD * (|s| - 1) + WORD);
    }
  }

  function XorAll(start: nat, s: seq<nat>): nat {
    if s == [] then start else Xor(XorAll(start, s[..|s| - 1]), s[|s| - 1])
  }

  /** hash: the count, as a 64-bit word, xor every word. */
  function Hash(s: seq<nat>): nat {
    XorAll(Popcnt(s) % 0x1_0000_0000_0000_0000, s)
  }

  /** The words that have digit b. */
  ghost function WithDigit(s: seq<nat>, b: nat): set<int> {
    set i | 0 <= i < |s| && Test(s[i], b)
  }

  lemma WithDigitSnoc(front: seq<nat>, w: nat, b: nat)
    ensures |WithDigit(front + [w], b)| == |WithDigit(front, b)| + if Test(w, b) then 1 else 0
  {
    assert WithDigit(front + [w], b) == WithDigit(front, b) + if Test(w, b) then {|front|} else {};
  }

  lemma {:induction false} XorAllDigit(start: nat, s: seq<nat>, b: nat)
    ensures Test(XorAll(start, s), b) <==> (Test(start, b) <==> |WithDigit(s, b)| % 2 == 0)
    decreases |s|
  {
    if s == [] {
      assert WithDigit(s, b) == {};
    } else {
      var front, w := s[..|s| - 1], s[|s| - 1];
      XorAllDigit(start, front, b);
      TestBitwise(XorBit, XorAll(start, front), w, b);
      WithDigitSnoc(front, w, b);
      assert s == front + [w];
    }
  }

  /** Digit b of the hash says whether the size of the set and the words have that digit an odd number of times. */
  lemma HashDigit(s: seq<nat>, b: nat)
    ensures Test(Hash(s), b) <==>
            (Test(|Positions(s)| % 0x1_0000_0000_0000_0000, b) <==> |WithDigit(s, b)| % 2 == 0)
  {
    PopcntIsCard(s);
    XorAllDigit(Popcnt(s) % 0x1_0000_0000_0000_0000, s, b);
  }

  // ---- the operations

  method NewBitset(bits: nat) returns (b: array<nat>)
    ensures fresh(b) && bits <= WORD * b.Length < bits + WORD
    ensures Valid(b[..]) && Positions(b[..]) == {}
  {
    var extra := if bits % WORD != 0 then 1 else 0;
    b := new nat[bits / WORD + extra](_ => 0);
    ZeroIsEmpty(WORD, b[..]);
  }

  method Clone(b: array<nat>) returns (c: array<nat>)
    ensures fresh(c) && c[..] == b[..]
  {
    c := new nat[b.Length](i requires 0 <= i < b.Length reads b => b[i]);
  }

  method Set(b: array<nat>, pos: nat)
    requires pos < WORD * b.Length && Valid(b[..])
    modifies b
    ensures Valid(b[..]) && Positions(b[..]) == old(Positions(b[..])) + {pos}
  {
    CombineFits(OrBit, WORD, b[..], pos);
    CombineMembers(OrBit, WORD, b[..], pos);
    ghost var after := Combine(OrBit, WORD, b[..], pos);
    b[pos / WORD] := Or(b[pos / WORD], Pow2(pos % WORD));
    assert b[..] == after;
  }

  method Clear(b: array<nat>, pos: nat)
    requires pos < WORD * b.Length && Valid(b[..])
    modifies b
    ensures Valid(b[..]) && Positions(b[..]) == old(Positions(b[..])) - {pos}
  {
    CombineFits(AndNotBit, WORD, b[..], pos);
    CombineMembers(AndNotBit, WORD, b[..], pos);
    ghost var after := Combine(AndNotBit, WORD, b[..], pos);
    b[pos / WORD] := AndNot(b[pos / WORD], Pow2(pos % WORD));
    assert b[..] == after;
  }

  method Get(b: array<nat>, pos: nat) returns (r: bool)
    requires pos < WORD * b.Length
    ensures r <==> pos in Positions(b[..])
  {
    r := Test(b[pos / WORD], pos % WORD);
  }

  method PopcntOf(b: seq<nat>) returns (total: nat)
    ensures total == |Positions(b)| == Popcnt(b)
  {
    total := 0;
    for i := 0 to |b|
      invariant total == Popcnt(b[..i])
    {
      assert b[..i + 1][..i] == b[..i];
      total := total + OnesCount(b[i], WORD);
    }
    assert b[..|b|] == b;
    PopcntIsCard(b);
  }

  method HashOf(b: seq<nat>) returns (hash: nat)
    ensures hash == Hash(b)
  {
    var count := PopcntOf(b);
    hash := count % 0x1_0000_0000_0000_0000;
    for i := 0 to |b|
      invariant hash == XorAll(Popcnt(b) % 0x1_0000_0000_0000_0000, b[..i])
    {
      assert b[..i + 1][..i] == b[..i];
      hash := Xor(hash, b[i]);
    }
    assert b[..|b|] == b;
  }

  /** equals decides whether two bitsets of the same length are the same set. */
  method Equals(b: seq<nat>, c: seq<nat>) returns (r: bool)
    requires Valid(b) && Valid(c)
    ensures r <==> |b| == |c| && Positions(b) == Positions(c)
    ensures r <==> b == c
  {
    if |b| != |c| {
      return false;
    }
    EqualWordsEqualSets(WORD, b, c);
    for i := 0 to |b|
      invariant b[..i] == c[..i]
    {
      if b[i] != c[i] {
        return false;
      }
    }
    assert b[..|b|] == b && c[..|c|] == c;
    return true;
  }
}
