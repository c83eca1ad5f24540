/** What the memory pool guarantees over every run in which allocate calls do not overlap one another,
    and what is lost when they do. */
module PoolTheorems {
  import opened PoolProtocol

  lemma {:induction false} RunKeepsValid(p: Pool, run: seq<Action>, p': Pool)
    requires Shaped(p) && Valid(p) && Reaches(p, run, p', true)
    ensures Shaped(p') && Valid(p') && |p'.next| == |p.next|
    decreases |run|
  {
    hide Shaped, Valid, Next, Enabled, Alone;
    if |run| > 0 {
      StepKeepsValid(p, run[0]);
      RunKeepsValid(Next(p, run[0]), run[1..], p');
    } else {
    }
  }

  /** A state some serial run reaches from a new pool whose capacity fits its links. */
  ghost predicate Reachable(capacity: nat, p: Pool) {
    capacity < TWO_32 && exists run :: Reaches(NewPool(capacity), run, p, true)
  }

  lemma ReachableIsValid(capacity: nat, p: Pool)
    requires Reachable(capacity, p)
    ensures Valid(p) && |p.next| == capacity
  {
    hide Valid, Reaches;
    var run :| Reaches(NewPool(capacity), run, p, true);
    NewIsValid(capacity);
    RunKeepsValid(NewPool(capacity), run, p);
  }

  // ---------- The chain and the partition ----------

  function Follow(next: seq<nat>, from: nat, steps: nat): nat
    decreases steps
  {
    if steps == 0 || from >= |next| then from else Follow(next, next[from], steps - 1)
  }

  lemma FollowStep(p: Pool, j: nat, k: nat)
    requires Chain(p) && j < |p.freeList| && k > 0
    ensures Follow(p.next, Link(p.freeList, j, |p.next|), k) ==
            Follow(p.next, Link(p.freeList, j + 1, |p.next|), k - 1)
  {
    assert p.freeList[j] < |p.next| && p.next[p.freeList[j]] == Link(p.freeList, j + 1, |p.next|);
    hide Chain;
  }

  lemma {:induction false} FollowWalksList(p: Pool, j: nat, k: nat)
    requires Chain(p) && j + k <= |p.freeList|
    ensures Follow(p.next, Link(p.freeList, j, |p.next|), k) == Link(p.freeList, j + k, |p.next|)
    decreases k
  {
    hide Chain, Link;
    if k > 0 {
      FollowStep(p, j, k);
      FollowWalksList(p, j + 1, k - 1);
    }
  }

  ghost function Elements(s: seq<nat>): set<nat> {
    set x | x in s
  }

  lemma {:induction false} DistinctCounts(s: seq<nat>)
    requires Distinct(s)
    ensures |Elements(s)| == |s|
  {
    if |s| > 0 {
      var n := |s| - 1;
      DistinctCounts(s[..n]);
      assert s == s[..n] + [s[n]];
      assert Elements(s) == Elements(s[..n]) + {s[n]};
    }
  }

  ghost function Slots(n: nat): (r: set<nat>)
    ensures |r| == n && forall i: nat :: i in r <==> i < n
  {
    if n == 0 then {} else Slots(n - 1) + {n - 1}
  }

  lemma SubsetCounts(a: set<nat>, b: set<nat>)
    requires a <= b
    ensures |a| <= |b|
  {
    assert b == a + (b - a);
  }

  lemma DistinctFits(s: seq<nat>, n: nat)
    requires Distinct(s) && forall i | 0 <= i < |s| :: s[i] < n
    ensures |s| <= n
  {
    DistinctCounts(s);
    SubsetCounts(Elements(s), Slots(n));
  }

  /** In every reachable state the chain from the head has no cycle: it visits each free slot once and
      comes to the end mark after at most Capacity steps. */
  lemma ChainEnds(capacity: nat, p: Pool)
    requires Reachable(capacity, p)
    ensures Distinct(p.freeList) && |p.freeList| <= capacity
    ensures forall k: nat | k < |p.freeList| :: Follow(p.next, p.head, k) == p.freeList[k]
    ensures Follow(p.next, p.head, |p.freeList|) == capacity
  {
    hide Owners, Views, Flags, Counts, Reachable;
    ReachableIsValid(capacity, p);
    DistinctFits(p.freeList, capacity);
    forall k: nat | k <= |p.freeList| ensures Follow(p.next, p.head, k) == Link(p.freeList, k, capacity) {
      FollowWalksList(p, 0, k);
    }
  }

  /** Whether a slot is with an owner, by the owner's own record: on the chain, in a call's hands, or with
      the client. */
  ghost predicate Has(p: Pool, o: Owner, i: nat) {
    match o
    case Free => i in p.freeList
    case Live => i < |p.owner| && p.owner[i] == Live
    case Allocating(t) => t in p.allocators && Holding(p.allocators[t]) && p.allocators[t].slot == i
    case Freeing(t) => t in p.freers && !p.freers[t].Pushed? && p.freers[t].slot == i
  }

  /** In every reachable state every slot has exactly one owner. */
  lemma ExactlyOneOwner(capacity: nat, p: Pool, i: nat, o: Owner)
    requires Reachable(capacity, p) && i < capacity
    ensures i < |p.owner| && (Has(p, o, i) <==> o == p.owner[i])
  {
    hide Views, Flags, Counts, Reachable, Chain;
    ReachableIsValid(capacity, p);
  }

  /** The next slot a swap would take is nobody else's: no slot handed out is handed out again before it
      was given back. */
  lemma NeverHandedOutTwice(capacity: nat, p: Pool, t: nat)
    requires Reachable(capacity, p) && AllocEnabled(p, t, Swap)
    ensures p.allocators[t].head < |p.owner| && p.owner[p.allocators[t].head] == Free
  {
    hide Flags, Counts, Reachable;
    ReachableIsValid(capacity, p);
    SwapIsCurrent(p, t);
  }

  /** The flag is set from before a slot is handed out until it is given back, so neither assertion of
      deallocate can fire on a slot its client holds. */
  lemma FlagIsSet(capacity: nat, p: Pool, i: nat)
    requires Reachable(capacity, p) && i < capacity
    ensures |p.inUse| == |p.owner| == capacity
    ensures p.owner[i] == Live ==> p.inUse[i]
    ensures p.owner[i] == Free ==> !p.inUse[i]
    ensures forall t | t in p.freers && p.freers[t] == Claimed(i) :: p.inUse[i]
  {
    hide Views, Counts, Reachable, Chain;
    ReachableIsValid(capacity, p);
  }

  /** An allocate call gives up exactly when it read the head while no slot was free. */
  lemma GivesUpIffExhausted(capacity: nat, p: Pool, t: nat)
    requires Reachable(capacity, p) && t in p.allocators && p.allocators[t].Fetched?
    ensures AllocEnabled(p, t, GiveUp) <==> p.allocators[t].seen == 0
    ensures AllocEnabled(p, t, ReadNext) <==> p.allocators[t].seen > 0
  {
    hide Owners, Flags, Counts, Reachable;
    ReachableIsValid(capacity, p);
    assert View(p, p.allocators[t]);
  }

  /** When a swap must fail because the head moved, some deallocate call has pushed a slot since: the
      retry loop spins only while others make progress. */
  lemma MovedHeadMeansPush(capacity: nat, p: Pool, t: nat)
    requires Reachable(capacity, p) && t in p.allocators && p.allocators[t].Loaded?
    ensures p.head == p.allocators[t].head <==> |p.freeList| == p.allocators[t].seen
    ensures |p.freeList| >= p.allocators[t].seen
  {
    hide Owners, Flags, Counts, Reachable;
    ReachableIsValid(capacity, p);
    assert View(p, p.allocators[t]);
  }

  // ---------- The counter ----------

  ghost function LiveSlots(p: Pool): (r: set<nat>)
    ensures forall i: nat :: i in r <==> i < |p.owner| && p.owner[i] == Live
  {
    set i: nat | 0 <= i < |p.owner| && p.owner[i] == Live
  }

  /** The counter corrected by the pending steps is the number of slots not free; it never goes negative. */
  lemma CounterIsCorrected(capacity: nat, p: Pool)
    requires Reachable(capacity, p)
    ensures p.count + |ToAdd(p)| - |ToSubtract(p)| == capacity - |p.freeList|
    ensures |ToAdd(p)| <= 1 && p.count >= 0
  {
    hide Flags, Reachable;
    ReachableIsValid(capacity, p);
    hide View;
    if t :| t in ToAdd(p) {
      assert ToAdd(p) == {t};
      var i := p.allocators[t].slot;
      assert p.owner[i] == Allocating(t);
      DistinctFits(p.freeList + [i], capacity);
    } else {
      assert ToAdd(p) == {};
      DistinctFits(p.freeList, capacity);
    }
  }

  /** With no call under way the counter is the number of slots in clients' hands. */
  lemma QuietCounterIsLive(capacity: nat, p: Pool)
    requires Reachable(capacity, p) && p.allocators == map[] && p.freers == map[]
    ensures p.count == |LiveSlots(p)|
  {
    hide Flags, Reachable, Views;
    ReachableIsValid(capacity, p);
    assert ToAdd(p) == {} && ToSubtract(p) == {};
    assert LiveSlots(p) + Elements(p.freeList) == Slots(capacity);
    assert LiveSlots(p) !! Elements(p.freeList);
    DistinctCounts(p.freeList);
  }
}
