/** Slots for objects, handed out and taken back. */
module ObjectPools {
  import opened Lists

  function Pow2(k: nat): (r: nat)
    ensures r >= 1
  {
    if k == 0 then 1 else 2 * Pow2(k - 1)
  }

  /** Slot `offset` of block number `block`. */
  datatype Slot = Slot(block: nat, offset: nat)

  /** The first `n` slots of one block, in order. */
  function BlockSlots(block: nat, n: nat): (l: seq<Slot>)
    ensures |l| == n && forall i :: 0 <= i < n ==> l[i] == Slot(block, i)
  {
    if n == 0 then [] else BlockSlots(block, n - 1) + [Slot(block, n - 1)]
  }

  /** The slots of all blocks of the given sizes. */
  ghost function AllSlots(memory: seq<nat>): set<Slot> {
    if memory == [] then {}
    else AllSlots(memory[..|memory| - 1]) + Elements(BlockSlots(|memory| - 1, memory[|memory| - 1]))
  }

  /** Objects of one type. */
  class ObjectPool {
    const startObjectCount: nat
    var vacants: seq<Slot>
    /** The sizes of the allocated blocks. */
    var memory: seq<nat>
    ghost var live: set<Slot>

    /** Every slot is either live or vacant, and vacant slots are listed once. */
    ghost predicate Valid()
      reads this
    {
      && startObjectCount > 0
      && Doubling(startObjectCount, memory)
      && NoDuplicates(vacants) && Elements(vacants) !! live
      && Elements(vacants) + live == AllSlots(memory)
    }

    /** The shift that gives the size of the next block stays within 32 bits. */
    predicate CanGrow()
      reads this
    {
      startObjectCount * Pow2(|memory|) < 0x1_0000_0000
    }

    constructor (startObjectCount: nat)
      requires startObjectCount > 0
      ensures Valid() && live == {} && memory == [] && this.startObjectCount == startObjectCount
    {
      this.startObjectCount := startObjectCount;
      vacants, memory, live := [], [], {};
    }

    /** A slot that is not live becomes live; a new block is made only when none is vacant. */
    method Allocate() returns (slot: Slot)
      requires Valid() && (vacants == [] ==> CanGrow())
      modifies this
      ensures Valid() && slot !in old(live) && live == old(live) + {slot}
      ensures memory == if old(vacants) == [] then old(memory) + [startObjectCount * Pow2(|old(memory)|)]
                        else old(memory)
      ensures old(vacants) != [] ==> old(vacants) == vacants + [slot]
    {
      if vacants == [] {
        Grow();
      }
      slot := vacants[|vacants| - 1];
      LastOf(vacants);
      vacants := vacants[..|vacants| - 1];
      live := live + {slot};
    }

    /** A new block, twice as large as the one before; all its slots are vacant. */
    method Grow()
      requires Valid() && vacants == [] && CanGrow()
      modifies this`vacants, this`memory
      ensures Valid() && vacants != []
      ensures memory == old(memory) + [startObjectCount * Pow2(|old(memory)|)]
      ensures var n := |old(memory)|;
              |memory| == n + 1 && memory[n] == if n == 0 then startObjectCount else 2 * old(memory)[n - 1]
    {
      NextSize(startObjectCount, memory);
      hide Pow2;
      var numObjects := startObjectCount * Pow2(|memory|);
      assert numObjects > 0;
      for i := 0 to numObjects
        invariant vacants == BlockSlots(|memory|, i) && memory == old(memory)
      {
        vacants := vacants + [Slot(|memory|, i)];
      }
      SlotsHaveBlocks(memory);
      memory := memory + [numObjects];
      assert memory[..|memory| - 1] == old(memory);
    }

    method Deallocate(slot: Slot)
      requires Valid() && slot in live
      modifies this`vacants, this`live
      ensures Valid() && live == old(live) - {slot}
      ensures vacants == old(vacants) + [slot]
    {
      assert slot !in Elements(vacants);
      vacants := vacants + [slot];
      live := live - {slot};
    }
  }

  /** Block `i` holds `start` times two to the power of `i` objects. */
  ghost predicate Doubling(start: nat, memory: seq<nat>) {
    forall i :: 0 <= i < |memory| ==> memory[i] == start * Pow2(i)
  }

  lemma Twice(a: nat, b: nat)
    ensures a * (2 * b) == 2 * (a * b)
    ensures a > 0 && b > 0 ==> a * b > 0
  {
  }

  /** The next block is twice as large as the last one. */
  lemma NextSize(start: nat, memory: seq<nat>)
    requires start > 0 && Doubling(start, memory)
    ensures start * Pow2(|memory|) > 0
    ensures start * Pow2(|memory|) == if memory == [] then start else 2 * memory[|memory| - 1]
  {
    var n := |memory| - 1;
    Twice(start, Pow2(|memory|));
    if memory != [] {
      assert Pow2(|memory|) == 2 * Pow2(n);
      assert memory[n] == start * Pow2(n);
      hide Doubling, Pow2;
      Twice(start, Pow2(n));
    }
  }

  lemma LastOf(l: seq<Slot>)
    requires l != [] && NoDuplicates(l)
    ensures var n := |l| - 1; NoDuplicates(l[..n]) && Elements(l[..n]) == Elements(l) - {l[n]} && l[n] in Elements(l)
  {
    assert l == l[..|l| - 1] + [l[|l| - 1]];
  }

  lemma {:induction false} SlotsHaveBlocks(memory: seq<nat>)
    ensures forall s :: s in AllSlots(memory) ==> s.block < |memory|
  {
    if memory != [] {
      SlotsHaveBlocks(memory[..|memory| - 1]);
    }
  }

  lemma {:induction false} DistinctCount(l: seq<Slot>)
    requires NoDuplicates(l)
    ensures |Elements(l)| == |l|
  {
    if l == [] {
      assert Elements(l) == {};
    } else {
      LastOf(l);
      DistinctCount(l[..|l| - 1]);
    }
  }

  lemma DoubleAndOne(start: nat, p: nat)
    requires p >= 1
    ensures start * (p - 1) + start * p == start * (2 * p - 1)
  {
  }

  ghost function BlockSize(start: nat, i: nat): nat { start * Pow2(i) }

  ghost function Total(start: nat, k: nat): nat {
    if k == 0 then 0 else Total(start, k - 1) + BlockSize(start, k - 1)
  }

  lemma {:induction false} TotalClosed(start: nat, k: nat)
    ensures Total(start, k) == start * (Pow2(k) - 1)
  {
    if k > 0 {
      TotalClosed(start, k - 1);
      DoubleAndOne(start, Pow2(k - 1));
    }
  }

  lemma {:induction false} SlotCount(start: nat, memory: seq<nat>)
    requires Doubling(start, memory)
    ensures |AllSlots(memory)| == Total(start, |memory|)
  {
    if memory != [] {
      var n := |memory| - 1;
      assert memory[n] == BlockSize(start, n);
      hide BlockSize;
      var below, last := AllSlots(memory[..n]), Elements(BlockSlots(n, memory[n]));
      SlotCount(start, memory[..n]);
      SlotsHaveBlocks(memory[..n]);
      DistinctCount(BlockSlots(n, memory[n]));
      assert below !! last;
      assert |below + last| == |below| + |last|;
    }
  }

  /** Live and vacant objects add up to all that were ever allocated: start * (2^k - 1) after `k`
      growths. */
  lemma Conservation(pool: ObjectPool)
    requires pool.Valid()
    ensures |pool.vacants| + |pool.live| == pool.startObjectCount * (Pow2(|pool.memory|) - 1)
  {
    SlotCount(pool.startObjectCount, pool.memory);
    TotalClosed(pool.startObjectCount, |pool.memory|);
    DistinctCount(pool.vacants);
    assert |Elements(pool.vacants) + pool.live| == |Elements(pool.vacants)| + |pool.live|;
  }
}
