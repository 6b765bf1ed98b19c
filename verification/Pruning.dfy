/**
  Why the cache of checkSingle (src/porcupine/checker.go) needs an Equal that states are not told
  apart by: with a coarser one, pruning loses linearizations.
 */
module Pruning {
  import opened Options
  import opened Collections
  import opened Histories
  import opened Search

  // A register: inputs 1 and 2 set it, input 0 reads it.
  function RegisterStep(state: int, input: int, output: int): (bool, int) {
    if input == 0 then (output == state, state) else (true, input)
  }

  predicate Anything(s: int, t: int) {
    true
  }

  /** The register, with all of its states called equal. */
  function Coarse(): Model<int, int> {
    Model(0, RegisterStep, Anything)
  }

  /** Two concurrent writes, of 1 and of 2, and then a read of 1. */
  function Overlap(): seq<Entry<int>> {
    [Entry(Call, 1, 0, 0, 0), Entry(Call, 2, 1, 1, 1), Entry(Return, 0, 0, 2, 0), Entry(Return, 0, 1, 3, 1),
     Entry(Call, 0, 2, 4, 0), Entry(Return, 1, 2, 5, 0)]
  }

  lemma FoundAt(h: seq<Entry<int>>, p: nat)
    requires p < |h| && forall q | 0 <= q < |h| && q != p :: h[q].kind != h[p].kind || h[q].id != h[p].id
    ensures Find(h, h[p].kind, h[p].id) == p
  {
    var q := Find(h, h[p].kind, h[p].id);
    assert q < |h|;
  }

  lemma OverlapPositions()
    ensures Size(Overlap()) == 3 && WellFormed(Overlap())
    ensures CallPos(Overlap(), 0) == 0 && CallPos(Overlap(), 1) == 1 && CallPos(Overlap(), 2) == 4
    ensures ReturnPos(Overlap(), 0) == 2 && ReturnPos(Overlap(), 1) == 3 && ReturnPos(Overlap(), 2) == 5
  {
    var h := Overlap();
    assert |h| == 6;
    FoundAt(h, 0);
    FoundAt(h, 1);
    FoundAt(h, 2);
    FoundAt(h, 3);
    FoundAt(h, 4);
    FoundAt(h, 5);
  }

  /** The writes are concurrent, the read comes after both. */
  lemma OverlapReady(p: seq<int>, id: int)
    requires 0 <= id < 3 && id !in p
    ensures Ready(Overlap(), p, id) <==> (id == 2 ==> 0 in p && 1 in p)
  {
    OverlapPositions();
  }

  /** A write is always accepted, and the read after a write of 1. */
  lemma Grows(p: seq<int>, id: int)
    requires WellFormed(Overlap()) && IsPartial(Coarse(), Overlap(), p) && 0 <= id < 3 && id !in p
    ensures IsPartial(Coarse(), Overlap(), p + [id]) <==>
            (id == 2 ==> 0 in p && 1 in p && Final(Coarse(), Overlap(), p) == 1)
    ensures id < 2 ==> Final(Coarse(), Overlap(), p + [id]) == id + 1
  {
    OverlapPositions();
    OverlapReady(p, id);
    PartialSnoc(Coarse(), Overlap(), p, id);
  }

  /** Both writes, in either order. */
  lemma Writes(a: int, b: int)
    requires 0 <= a < 2 && 0 <= b < 2 && a != b
    ensures WellFormed(Overlap())
    ensures IsPartial(Coarse(), Overlap(), [a, b]) && Final(Coarse(), Overlap(), [a, b]) == b + 1
  {
    OverlapPositions();
    assert IsPartial(Coarse(), Overlap(), []);
    Grows([], a);
    assert [] + [a] == [a] && [a] + [b] == [a, b];
    Grows([a], b);
  }

  /** After the write of 2 came last, nothing complete is left to find. */
  lemma DeadEnd(r: seq<int>)
    requires WellFormed(Overlap()) && [0, 1] <= r && IsPartial(Coarse(), Overlap(), r)
    ensures !Covers(Overlap(), r)
  {
    assert Size(Overlap()) == 3;
    Writes(0, 1);
    assert r[0] == 0 && r[1] == 1;
    if |r| > 2 {
      assert r[2] == 2;
      PartialPrefix(Coarse(), Overlap(), r, 3);
      assert r[..3] == [0, 1] + [2];
      Grows([0, 1], 2);
    } else {
      assert 2 !in r;
    }
  }

  lemma Completed(h: seq<Entry<int>>, p: seq<int>, r: seq<int>)
    requires WellFormed(h) && p <= r && IsPartial(Coarse(), h, r)
    requires Size(h) == 3 && 0 in r && 1 in r && 2 in r
    ensures Linearizable(Coarse(), h) && !Explored(Coarse(), h, false, p, [])
  {
    assert Covers(h, r);
    LinearizationIsCompletePartial(Coarse(), h, r);
  }

  /** After the write of 1 came last, the read completes a linearization. */
  lemma WayOut(p: seq<int>)
    requires WellFormed(Overlap()) && IsPartial(Coarse(), Overlap(), p) && Final(Coarse(), Overlap(), p) == 1
    requires 0 in p && 1 in p && 2 !in p
    ensures Linearizable(Coarse(), Overlap()) && !Explored(Coarse(), Overlap(), false, p, [])
  {
    Grows(p, 2);
    assert Size(Overlap()) == 3;
    Completed(Overlap(), p, p + [2]);
  }

  /**
    A configuration with the same operations and a state that is called equal has been explored, and
    yet the path it is pruned for leads to a linearization.
   */
  lemma PruningNeedsSimulation()
    ensures !EqualSimulates(Coarse()) && WellFormed(Overlap())
    ensures IsPartial(Coarse(), Overlap(), [0, 1]) && IsPartial(Coarse(), Overlap(), [1, 0])
    ensures Elements([0, 1]) == Elements([1, 0])
    ensures Coarse().equal(Final(Coarse(), Overlap(), [1, 0]), Final(Coarse(), Overlap(), [0, 1]))
    ensures Explored(Coarse(), Overlap(), false, [0, 1], []) && !Explored(Coarse(), Overlap(), false, [1, 0], [])
    ensures Linearizable(Coarse(), Overlap())
  {
    Writes(0, 1);
    Writes(1, 0);
    assert Coarse().equal(1, 2) && Coarse().step(1, 0, 1).0 && !Coarse().step(2, 0, 1).0;
    forall r | [0, 1] <= r && IsPartial(Coarse(), Overlap(), r) ensures !Covers(Overlap(), r) {
      DeadEnd(r);
    }
    WayOut([1, 0]);
  }
}
