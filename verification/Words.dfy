/**
  Machine words as natural numbers, with the bitwise operators written out on
  binary digits.  Used by the 64-bit bitset of porcupine and the 8-bit vector of raft.
 */
module Words {

  function Pow2(k: nat): (r: nat)
    ensures r > 0
  {
    if k == 0 then 1 else 2 * Pow2(k - 1)
  }

  /** Digit k of w, that is w & (1 << k) != 0. */
  predicate Test(w: nat, k: nat) {
    if k == 0 then w % 2 == 1 else Test(w / 2, k - 1)
  }

  /** The operator op applied digit by digit. */
  function Bitwise(op: (bool, bool) -> bool, x: nat, y: nat): nat
    requires !op(false, false)
    decreases x + y
  {
    if x == 0 && y == 0 then 0
    else 2 * Bitwise(op, x / 2, y / 2) + (if op(x % 2 == 1, y % 2 == 1) then 1 else 0)
  }

  predicate OrBit(a: bool, b: bool) { a || b }

  predicate AndNotBit(a: bool, b: bool) { a && !b }

  predicate XorBit(a: bool, b: bool) { a != b }

  function Or(x: nat, y: nat): nat { Bitwise(OrBit, x, y) }

  function AndNot(x: nat, y: nat): nat { Bitwise(AndNotBit, x, y) }

  function Xor(x: nat, y: nat): nat { Bitwise(XorBit, x, y) }

  lemma {:induction false} TestZero(k: nat)
    ensures !Test(0, k)
  {
    if k > 0 { TestZero(k - 1); }
  }

  lemma {:induction false} TestBitwise(op: (bool, bool) -> bool, x: nat, y: nat, k: nat)
    requires !op(false, false)
    ensures Test(Bitwise(op, x, y), k) == op(Test(x, k), Test(y, k))
    decreases k
  {
    if x == 0 && y == 0 {
      TestZero(k);
    } else if k > 0 {
      TestBitwise(op, x / 2, y / 2, k - 1);
    }
  }

  /** 1 << m has digit m and no other. */
  lemma {:induction false} TestPow2(m: nat, k: nat)
    ensures Test(Pow2(m), k) <==> k == m
  {
    if m == 0 {
      if k > 0 { TestZero(k - 1); }
    } else if k > 0 {
      TestPow2(m - 1, k - 1);
    }
  }

  /** Words of a given width are closed under the operators. */
  lemma {:induction false} BitwiseBound(op: (bool, bool) -> bool, x: nat, y: nat, width: nat)
    requires !op(false, false) && x < Pow2(width) && y < Pow2(width)
    ensures Bitwise(op, x, y) < Pow2(width)
    decreases width
  {
    if width > 0 {
      BitwiseBound(op, x / 2, y / 2, width - 1);
    }
  }

  lemma {:induction false} Pow2Monotone(k: nat, n: nat)
    requires k <= n
    ensures Pow2(k) <= Pow2(n)
    decreases n - k
  {
    if k < n { Pow2Monotone(k + 1, n); }
  }

  /** A word is determined by its digits. */
  lemma {:induction false} WordExtensional(v: nat, w: nat, width: nat)
    requires v < Pow2(width) && w < Pow2(width)
    requires forall k: nat | k < width :: Test(v, k) <==> Test(w, k)
    ensures v == w
    decreases width
  {
    if width > 0 {
      assert Test(v, 0) <==> Test(w, 0);
      forall k: nat | k < width - 1 ensures Test(v / 2, k) <==> Test(w / 2, k) {
        assert Test(v, k + 1) <==> Test(w, k + 1);
      }
      WordExtensional(v / 2, w / 2, width - 1);
    }
  }

  // ---- slices of words of a given width, read as sets of positions

  /** Every word fits into the width. */
  ghost predicate Fits(width: nat, s: seq<nat>) {
    forall i | 0 <= i < |s| :: s[i] < Pow2(width)
  }

  /** Position i of the slice is set. */
  predicate Has(width: nat, s: seq<nat>, i: nat)
    requires width > 0
  {
    i / width < |s| && Test(s[i / width], i % width)
  }

  ghost function Members(width: nat, s: seq<nat>): set<nat>
    requires width > 0
  {
    set i: nat | i < width * |s| && Has(width, s, i)
  }

  lemma Joined(width: nat, k: nat, b: nat)
    requires b < width
    ensures (width * k + b) / width == k && (width * k + b) % width == b
  {
    var i := width * k + b;
    assert i == width * (i / width) + i % width;
    var q := i / width;
    assert q < k ==> width * q <= width * (k - 1);
    assert q > k ==> width * q >= width * (k + 1);
  }

  /** The slice with position pos combined by op with a word whose only digit is pos's. */
  function Combine(op: (bool, bool) -> bool, width: nat, s: seq<nat>, pos: nat): seq<nat>
    requires !op(false, false) && width > 0 && pos / width < |s|
  {
    s[pos / width := Bitwise(op, s[pos / width], Pow2(pos % width))]
  }

  /** Combining keeps every word within the width. */
  lemma CombineFits(op: (bool, bool) -> bool, width: nat, s: seq<nat>, pos: nat)
    requires !op(false, false) && width > 0 && pos / width < |s| && Fits(width, s)
    ensures Fits(width, Combine(op, width, s, pos))
  {
    Pow2Monotone(pos % width + 1, width);
    BitwiseBound(op, s[pos / width], Pow2(pos % width), width);
  }

  /** Combining with an op that keeps its left argument against false changes only one digit. */
  lemma CombineWord(op: (bool, bool) -> bool, w: nat, minor: nat, k: nat)
    requires !op(false, false) && op(true, false)
    ensures Test(Bitwise(op, w, Pow2(minor)), k) == if k == minor then op(Test(w, k), true) else Test(w, k)
  {
    TestBitwise(op, w, Pow2(minor), k);
    TestPow2(minor, k);
  }

  lemma SameDigit(width: nat, i: nat, j: nat)
    requires width > 0
    ensures i / width == j / width && i % width == j % width <==> i == j
  {
    assert i == width * (i / width) + i % width && j == width * (j / width) + j % width;
  }

  /** Digit b of word k after combining digit minor of word major. */
  lemma CombineDigit(op: (bool, bool) -> bool, s: seq<nat>, major: nat, minor: nat, k: nat, b: nat)
    requires !op(false, false) && op(true, false) && major < |s| && k < |s|
    ensures Test(s[major := Bitwise(op, s[major], Pow2(minor))][k], b) ==
            if k == major && b == minor then op(Test(s[k], b), true) else Test(s[k], b)
  {
    CombineWord(op, s[major], minor, b);
  }

  lemma CombineAt(op: (bool, bool) -> bool, width: nat, s: seq<nat>, pos: nat, i: nat)
    requires !op(false, false) && op(true, false) && width > 0 && pos / width < |s|
    ensures Has(width, Combine(op, width, s, pos), i) ==
            if i == pos then op(Has(width, s, pos), true) else Has(width, s, i)
  {
    SameDigit(width, i, pos);
    var k, b := i / width, i % width;
    if k < |s| { CombineDigit(op, s, pos / width, pos % width, k, b); }
  }

  lemma CombineMember(op: (bool, bool) -> bool, width: nat, s: seq<nat>, pos: nat, i: nat)
    requires !op(false, false) && op(true, false) && width > 0 && pos < width * |s| && pos / width < |s|
    ensures i in Members(width, Combine(op, width, s, pos)) <==>
            if i == pos then op(pos in Members(width, s), true) else i in Members(width, s)
  {
    var t, bound := Combine(op, width, s, pos), width * |s|;
    CombineAt(op, width, s, pos, i);
    assert |t| == |s|;
    assert i in Members(width, t) <==> i < bound && Has(width, t, i);
  }

  /** Combining changes position pos as op says, and no other position. */
  lemma CombineMembers(op: (bool, bool) -> bool, width: nat, s: seq<nat>, pos: nat)
    requires !op(false, false) && op(true, false) && width > 0 && pos < width * |s| && pos / width < |s|
    ensures Members(width, Combine(op, width, s, pos)) ==
            (Members(width, s) - {pos}) + (if op(pos in Members(width, s), true) then {pos} else {})
  {
    var before, after := Members(width, s), Members(width, Combine(op, width, s, pos));
    forall i: nat ensures i in after <==> if i == pos then op(pos in before, true) else i in before {
      CombineMember(op, width, s, pos, i);
    }
  }

  /** Comparing words compares sets. */
  lemma EqualWordsEqualSets(width: nat, s: seq<nat>, t: seq<nat>)
    requires width > 0 && |s| == |t| && Fits(width, s) && Fits(width, t)
    ensures s == t <==> Members(width, s) == Members(width, t)
  {
    if Members(width, s) == Members(width, t) {
      forall k | 0 <= k < |s| ensures s[k] == t[k] {
        forall b: nat | b < width ensures Test(s[k], b) <==> Test(t[k], b) {
          var i := width * k + b;
          Joined(width, k, b);
          assert width * (k + 1) <= width * |s|;
          assert i in Members(width, s) <==> i in Members(width, t);
        }
        WordExtensional(s[k], t[k], width);
      }
    }
  }

  lemma ZeroIsEmpty(width: nat, s: seq<nat>)
    requires width > 0 && forall k | 0 <= k < |s| :: s[k] == 0
    ensures Members(width, s) == {} && Fits(width, s)
  {
    forall i: nat ensures !Has(width, s, i) {
      TestZero(i % width);
    }
  }
}
