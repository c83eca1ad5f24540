/** The memory pool as an object, called by one thread at a time. */
module MemoryPools {
  import opened Types
  import opened Arithmetic
  import opened PoolProtocol
  import opened PoolTheorems
  import opened PoolOverlap

  /** No call is under way. */
  predicate Quiet(p: Pool) {
    p.allocators == map[] && p.freers == map[]
  }

  lemma NoneFreeIff(capacity: nat, p: Pool)
    requires Reachable(capacity, p) && Quiet(p)
    ensures p.head >= capacity <==> |LiveSlots(p)| == capacity
    ensures p.head < capacity ==> p.freeList != [] && p.head == p.freeList[0]
    ensures p.count == |LiveSlots(p)| && Shaped(p) && |p.next| == capacity
  {
    hide Owners, Views, Flags, Reachable, LiveSlots;
    ReachableIsValid(capacity, p);
    CounterIsCorrected(capacity, p);
    QuietCounterIsLive(capacity, p);
    assert ToAdd(p) == {} && ToSubtract(p) == {};
  }

  lemma AllocatedIsReachable(capacity: nat, p: Pool)
    requires Reachable(capacity, p) && Quiet(p) && Shaped(p) && p.head < |p.next|
    ensures Reachable(capacity, AllocatedAlone(p))
  {
    hide AllocatedAlone, Reaches, NewPool, Shaped;
    var run :| Reaches(NewPool(capacity), run, p, true);
    AllocateAlone(p, 0, true);
    Joined(NewPool(capacity), run, p, AllocRun(0), AllocatedAlone(p), true);
  }

  lemma FreedIsReachable(capacity: nat, p: Pool, i: nat)
    requires Reachable(capacity, p) && Quiet(p) && Shaped(p) && i < |p.next| && p.owner[i] == Live
    ensures Reachable(capacity, FreedAlone(p, i))
  {
    hide FreedAlone, Reaches, NewPool, Shaped;
    var run :| Reaches(NewPool(capacity), run, p, true);
    FreeAlone(p, 0, i, true);
    Joined(NewPool(capacity), run, p, FreeRun(0, i), FreedAlone(p, i), true);
  }

  lemma NewIsReachable(capacity: nat)
    requires capacity < TWO_32
    ensures Reachable(capacity, NewPool(capacity)) && Quiet(NewPool(capacity))
    ensures LiveSlots(NewPool(capacity)) == {}
  {
    Stay(NewPool(capacity), true);
    assert Reaches(NewPool(capacity), [], NewPool(capacity), true);
  }

  lemma NotReachable(capacity: nat, p: Pool)
    requires capacity >= TWO_32
    ensures !Reachable(capacity, p)
  {
  }

  lemma NewHandsNothing(capacity: nat)
    ensures LiveSlots(NewPool(capacity)) == {} && Quiet(NewPool(capacity))
  {
  }

  /** The slot an address lies in, as deallocate finds it. */
  function SlotAt(ptr: int, base: int, slotSize: int): int
    requires slotSize > 0
  {
    (ptr - base) / slotSize
  }

  function Address(i: int, base: int, slotSize: int): int {
    base + i * slotSize
  }

  /** Any address inside a slot, its start in particular, leads back to that slot and no other. */
  lemma AddressOfSlot(i: int, within: int, base: int, slotSize: int)
    requires 0 <= within < slotSize
    ensures SlotAt(Address(i, base, slotSize) + within, base, slotSize) == i
  {
    RemainderIs(i * slotSize + within, slotSize, i, within);
  }

  lemma HandsOut(capacity: nat, p: Pool)
    requires Reachable(capacity, p) && Quiet(p) && Shaped(p) && p.head < capacity == |p.next|
    ensures p.head !in LiveSlots(p) && LiveSlots(AllocatedAlone(p)) == LiveSlots(p) + {p.head}
    ensures p.freeList == [p.head] + AllocatedAlone(p).freeList
  {
    hide Reachable, Views, Flags, Counts;
    ReachableIsValid(capacity, p);
  }

  lemma HandedIsLive(p: Pool, i: int)
    requires i >= 0 && i in LiveSlots(p)
    ensures i < |p.owner| && p.owner[i] == Live
  {
  }

  lemma TakesBack(p: Pool, i: nat)
    requires Shaped(p) && i < |p.next|
    ensures LiveSlots(FreedAlone(p, i)) == LiveSlots(p) - {i}
    ensures FreedAlone(p, i).freeList == [i] + p.freeList
  {
  }

  class MemoryPool<T(0)> {
    const capacity: nat
    const base: int
    const slotSize: int
    const storage: array<T>
    const next: array<nat>
    const inUse: array<bool>
    var head: nat
    var count: int
    ghost var pool: Pool

    /** The fields are a state that some run of undisturbed calls reaches. */
    ghost predicate Valid()
      reads this, next, inUse
    {
      && storage.Length == next.Length == inUse.Length == capacity && slotSize > 0
      && (storage as object) != next && (storage as object) != inUse
      && next[..] == pool.next && inUse[..] == pool.inUse && head == pool.head && count == pool.count
      && Quiet(pool) && Reachable(capacity, pool)
    }

    /** The slots in clients' hands. */
    ghost function Handed(): set<nat>
      reads this
    {
      LiveSlots(pool)
    }

    /** Links the slots in order. The links are 32-bit words: the result is a valid pool exactly when the
        capacity fits them, and otherwise the slot at the last word leads back to slot 0. */
    constructor (capacity: nat, base: int, slotSize: int)
      requires slotSize > 0
      ensures Valid() <==> capacity < TWO_32
      ensures this.capacity == capacity == next.Length && this.base == base && this.slotSize == slotSize
      ensures Handed() == {} && fresh(storage) && fresh(next) && fresh(inUse)
      ensures capacity >= TWO_32 ==> next[TWO_32 - 1] == 0
    {
      this.capacity, this.base, this.slotSize := capacity, base, slotSize;
      storage := new T[capacity];
      next := new nat[capacity];
      inUse := new bool[capacity];
      head, count := 0, 0;
      pool := NewPool(capacity);
      new;
      hide Reachable, LiveSlots, Quiet;
      for i := 0 to capacity
        invariant forall j | 0 <= j < i :: next[j] == (j + 1) % TWO_32 && !inUse[j]
        invariant pool == NewPool(capacity) && head == 0 && count == 0
        modifies next, inUse
      {
        next[i] := (i + 1) % TWO_32;
        inUse[i] := false;
      }
      assert next[..] == pool.next && inUse[..] == pool.inUse;
      if capacity < TWO_32 {
        NewIsReachable(capacity);
      } else {
        NotReachable(capacity, pool);
        NewHandsNothing(capacity);
      }
    }

    /** Hands out a slot with the item in it, the one given back last; nothing if all are handed out.
        The compare-and-swap may fail for no reason, any number of times. */
    method Allocate(item: T, failures: nat) returns (r: Option<int>)
      requires Valid()
      modifies this`head, this`count, this`pool, inUse, storage
      ensures Valid()
      ensures r == None <==> |old(Handed())| == capacity
      ensures r == None ==> pool == old(pool) && storage[..] == old(storage[..])
      ensures r.Some? ==>
                var i := SlotAt(r.value, base, slotSize);
                && 0 <= i < capacity && r.value == Address(i, base, slotSize)
                && old(pool.freeList) == [i] + pool.freeList
                && i !in old(Handed()) && Handed() == old(Handed()) + {i}
                && storage[..] == old(storage[..])[i := item]
    {
      hide Reachable, LiveSlots;
      NoneFreeIff(capacity, pool);
      var h, left := head, failures;
      while true
        invariant h == head && Valid() && pool == old(pool) && storage[..] == old(storage[..])
        decreases left
      {
        if h >= capacity {
          return None;
        }
        if left == 0 {
          break;
        }
        left := left - 1;
        h := head;
      }
      head := next[h];
      inUse[h] := true;
      count := count + 1;
      storage[h] := item;
      AllocatedIsReachable(capacity, pool);
      HandsOut(capacity, pool);
      pool := AllocatedAlone(pool);
      AddressOfSlot(h, 0, base, slotSize);
      r := Some(Address(h, base, slotSize));
    }

    /** Takes back an address it handed out; the null address is ignored. */
    method Deallocate(ptr: Option<int>, failures: nat)
      requires Valid()
      requires ptr.Some? ==> exists i: nat :: i in Handed() && ptr.value == Address(i, base, slotSize)
      modifies this`head, this`count, this`pool, next, inUse
      ensures Valid()
      ensures ptr == None ==> pool == old(pool)
      ensures ptr.Some? ==>
                var i := SlotAt(ptr.value, base, slotSize);
                && i in old(Handed()) && ptr.value == Address(i, base, slotSize)
                && Handed() == old(Handed()) - {i} && pool.freeList == [i] + old(pool.freeList)
    {
      hide Reachable, LiveSlots;
      if ptr.None? {
        return;
      }
      NoneFreeIff(capacity, pool);
      var idx := SlotAt(ptr.value, base, slotSize);
      ghost var slot: nat :| slot in Handed() && ptr.value == Address(slot, base, slotSize);
      AddressOfSlot(slot, 0, base, slotSize);
      HandedIsLive(pool, idx);
      FlagIsSet(capacity, pool, idx);
      assert idx < capacity && inUse[idx];
      inUse[idx] := false;
      var h, left := head, failures;
      next[idx] := h;
      while left > 0
        invariant h == head && next[..] == old(next[..])[idx := h]
        modifies next
      {
        left := left - 1;
        h := head;
        next[idx] := h;
      }
      head := idx;
      count := count - 1;
      FreedIsReachable(capacity, pool, idx);
      TakesBack(pool, idx);
      pool := FreedAlone(pool, idx);
    }

    method Allocated() returns (n: int)
      requires Valid()
      ensures n == |Handed()|
    {
      NoneFreeIff(capacity, pool);
      return count;
    }

    method Available() returns (n: int)
      requires Valid()
      ensures n == capacity - |Handed()| && 0 <= n
    {
      NoneFreeIff(capacity, pool);
      CounterIsCorrected(capacity, pool);
      var handed := Allocated();
      return capacity - handed;
    }
  }
}
