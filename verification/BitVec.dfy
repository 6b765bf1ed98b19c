/** The bit vector of src/raft/bitvec.go: bytes changed in place and a running count of one bits. */
module BitVec {
  import opened Words

  const BYTE: nat := 8

  class BitVec {
    const cap: nat
    var count: int
    const bits: array<nat>

    /** The positions that are set. */
    ghost function Positions(): set<nat>
      reads bits
    {
      Members(BYTE, bits[..])
    }

    /** The bytes are bytes, there are enough of them, and count is the number of one bits. */
    ghost predicate Valid()
      reads this, bits
    {
      && Fits(BYTE, bits[..])
      && cap <= BYTE * bits.Length
      && count == |Positions()|
    }

    constructor (cap: nat)
      ensures this.cap == cap && fresh(bits)
      ensures Valid() && Positions() == {}
    {
      var off := if cap % BYTE != 0 then 1 else 0;
      this.cap := cap;
      count := 0;
      bits := new nat[cap / BYTE + off](_ => 0);
      new;
      ZeroIsEmpty(BYTE, bits[..]);
    }

    /** Set: true exactly when idx was not set before. */
    method Set(idx: nat) returns (changed: bool)
      requires Valid() && idx < BYTE * bits.Length
      modifies this, bits
      ensures Valid() && Positions() == old(Positions()) + {idx}
      ensures changed <==> idx !in old(Positions())
    {
      if Test(bits[idx / BYTE], idx % BYTE) {
        assert idx in Positions();
        return false;
      }
      CombineFits(OrBit, BYTE, bits[..], idx);
      CombineMembers(OrBit, BYTE, bits[..], idx);
      ghost var after := Combine(OrBit, BYTE, bits[..], idx);
      bits[idx / BYTE] := Or(bits[idx / BYTE], Pow2(idx % BYTE));
      assert bits[..] == after;
      count := count + 1;
      return true;
    }

    /** Unset: true exactly when idx was set before; flipping the bit then clears it. */
    method Unset(idx: nat) returns (changed: bool)
      requires Valid() && idx < BYTE * bits.Length
      modifies this, bits
      ensures Valid() && Positions() == old(Positions()) - {idx}
      ensures changed <==> idx in old(Positions())
    {
      if !Test(bits[idx / BYTE], idx % BYTE) {
        assert idx !in Positions();
        return false;
      }
      assert idx in Positions();
      CombineFits(XorBit, BYTE, bits[..], idx);
      CombineMembers(XorBit, BYTE, bits[..], idx);
      ghost var after := Combine(XorBit, BYTE, bits[..], idx);
      bits[idx / BYTE] := Xor(bits[idx / BYTE], Pow2(idx % BYTE));
      assert bits[..] == after;
      count := count - 1;
      return true;
    }

    method At(idx: nat) returns (set_: bool)
      requires idx < BYTE * bits.Length
      ensures set_ <==> idx in Positions()
    {
      set_ := Test(bits[idx / BYTE], idx % BYTE);
    }

    /** Count: the number of one bits, without counting them. */
    method Count() returns (n: int)
      requires Valid()
      ensures n == |Positions()|
    {
      n := count;
    }
  }
}
