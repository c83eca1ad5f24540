/** The memory pool's free list under concurrent allocate and deallocate calls, one memory access a step.
    Any number of calls of both kinds may be under way; which runs are allowed is said by the theorems. */
module PoolProtocol {
  /** An allocate call between its accesses: head read, successor read, slot taken, marked, counted.
      `seen` is the length the free list had when the head was read. */
  datatype Allocator =
    | Fetched(head: nat, seen: nat)
    | Loaded(head: nat, next: nat, seen: nat)
    | Won(slot: nat)
    | Marked(slot: nat)
    | Counted(slot: nat)

  /** A deallocate call between its accesses: entered, flag cleared, head read, slot linked, slot pushed. */
  datatype Freer =
    | Claimed(slot: nat)
    | Cleared(slot: nat)
    | Aiming(slot: nat, head: nat)
    | Linked(slot: nat, head: nat)
    | Pushed

  /** Who a slot belongs to: the free list, a call under way, or the client it was handed to. */
  datatype Owner = Free | Allocating(call: nat) | Live | Freeing(call: nat)

  /** The shared memory, the calls under way, and two history variables: the owner of each slot and the
      free list as the list of successful pushes and pops makes it. */
  datatype Pool = Pool(
    next: seq<nat>,
    inUse: seq<bool>,
    head: nat,
    count: int,
    allocators: map<nat, Allocator>,
    freers: map<nat, Freer>,
    owner: seq<Owner>,
    freeList: seq<nat>)

  datatype AllocStep = LoadHead | GiveUp | ReadNext | Swap | SwapFails | Mark | Count | Return

  datatype FreeStep = Begin(slot: nat) | Clear | Aim | LinkTo | Push | PushFails | Uncount

  datatype Action = Alloc(call: nat, astep: AllocStep) | Dealloc(call: nat, fstep: FreeStep)

  predicate Holding(a: Allocator) {
    a.Won? || a.Marked? || a.Counted?
  }

  predicate AllocatorShaped(a: Allocator, capacity: nat) {
    (Holding(a) ==> a.slot < capacity) && (a.Loaded? ==> a.head < capacity)
  }

  predicate FreerShaped(f: Freer, capacity: nat) {
    !f.Pushed? ==> f.slot < capacity
  }

  predicate Shaped(p: Pool) {
    && |p.inUse| == |p.owner| == |p.next|
    && (forall t | t in p.allocators :: AllocatorShaped(p.allocators[t], |p.next|))
    && (forall t | t in p.freers :: FreerShaped(p.freers[t], |p.next|))
  }

  /** A compare-and-swap succeeds only on the expected head; it may fail on any. */
  predicate AllocEnabled(p: Pool, t: nat, step: AllocStep) {
    if step.LoadHead? then t !in p.allocators
    else
      && t in p.allocators
      && var a := p.allocators[t];
         match step
         case GiveUp => a.Fetched? && a.head >= |p.next|
         case ReadNext => a.Fetched? && a.head < |p.next|
         case Swap => a.Loaded? && p.head == a.head
         case SwapFails => a.Loaded?
         case Mark => a.Won?
         case Count => a.Marked?
         case Return => a.Counted?
  }

  /** Clients free only what they were handed and have not freed. */
  predicate FreeEnabled(p: Pool, t: nat, step: FreeStep) {
    if step.Begin? then t !in p.freers && step.slot < |p.owner| && p.owner[step.slot] == Live
    else
      && t in p.freers
      && var f := p.freers[t];
         match step
         case Clear => f.Claimed?
         case Aim => f.Cleared?
         case LinkTo => f.Aiming?
         case Push => f.Linked? && p.head == f.head
         case PushFails => f.Linked?
         case Uncount => f.Pushed?
  }

  predicate Enabled(p: Pool, a: Action) {
    match a
    case Alloc(t, step) => AllocEnabled(p, t, step)
    case Dealloc(t, step) => FreeEnabled(p, t, step)
  }

  function AllocNext(p: Pool, t: nat, step: AllocStep): (p': Pool)
    requires Shaped(p) && AllocEnabled(p, t, step)
    ensures Shaped(p') && |p'.next| == |p.next|
  {
    var As := p.allocators;
    match step
    case LoadHead => p.(allocators := As[t := Fetched(p.head, |p.freeList|)])
    case GiveUp => p.(allocators := As - {t})
    case ReadNext =>
      var h := As[t].head;
      p.(allocators := As[t := Loaded(h, p.next[h], As[t].seen)])
    case Swap =>
      var h := As[t].head;
      p.(head := As[t].next,
         allocators := As[t := Won(h)],
         owner := p.owner[h := Allocating(t)],
         freeList := if |p.freeList| == 0 then [] else p.freeList[1..])
    case SwapFails => p.(allocators := As[t := Fetched(p.head, |p.freeList|)])
    case Mark =>
      var i := As[t].slot;
      p.(inUse := p.inUse[i := true], allocators := As[t := Marked(i)])
    case Count => p.(count := p.count + 1, allocators := As[t := Counted(As[t].slot)])
    case Return => p.(owner := p.owner[As[t].slot := Live], allocators := As - {t})
  }

  function FreeNext(p: Pool, t: nat, step: FreeStep): (p': Pool)
    requires Shaped(p) && FreeEnabled(p, t, step)
    ensures Shaped(p') && |p'.next| == |p.next|
  {
    var Fs := p.freers;
    match step
    case Begin(slot) => p.(owner := p.owner[slot := Freeing(t)], freers := Fs[t := Claimed(slot)])
    case Clear =>
      var i := Fs[t].slot;
      p.(inUse := p.inUse[i := false], freers := Fs[t := Cleared(i)])
    case Aim => p.(freers := Fs[t := Aiming(Fs[t].slot, p.head)])
    case LinkTo =>
      var i := Fs[t].slot;
      p.(next := p.next[i := Fs[t].head], freers := Fs[t := Linked(i, Fs[t].head)])
    case Push =>
      var i := Fs[t].slot;
      p.(head := i, freers := Fs[t := Pushed], owner := p.owner[i := Free], freeList := [i] + p.freeList)
    case PushFails => p.(freers := Fs[t := Aiming(Fs[t].slot, p.head)])
    case Uncount => p.(count := p.count - 1, freers := Fs - {t})
  }

  function Next(p: Pool, a: Action): (p': Pool)
    requires Shaped(p) && Enabled(p, a)
    ensures Shaped(p') && |p'.next| == |p.next|
  {
    match a
    case Alloc(t, step) => AllocNext(p, t, step)
    case Dealloc(t, step) => FreeNext(p, t, step)
  }

  /** An allocate call enters only while no other is under way. */
  predicate Alone(p: Pool, a: Action) {
    a.Alloc? && a.astep.LoadHead? ==> p.allocators == map[]
  }

  /** An execution. When `serial`, allocate calls do not overlap one another, as with one allocating
      thread; deallocate calls overlap everything. */
  ghost predicate Reaches(p: Pool, run: seq<Action>, p': Pool, serial: bool)
    requires Shaped(p)
    decreases |run|
  {
    if |run| == 0 then p' == p
    else
      && Enabled(p, run[0]) && (serial ==> Alone(p, run[0]))
      && Reaches(Next(p, run[0]), run[1..], p', serial)
  }

  /** The values of a 32-bit link. */
  const TWO_32: nat := 0x1_0000_0000

  /** A new pool: every slot free, linked to the next one, the last to the end mark. Links are 32-bit words. */
  function NewPool(capacity: nat): (p: Pool)
    ensures Shaped(p)
  {
    Pool(seq(capacity, i => (i + 1) % TWO_32), seq(capacity, _ => false), 0, 0, map[], map[],
         seq(capacity, _ => Free), seq(capacity, i => i))
  }

  // ---------- The invariant of serial runs ----------

  /** The j-th slot of the free list, or the end mark. */
  function Link(freeList: seq<nat>, j: nat, end: nat): nat {
    if j < |freeList| then freeList[j] else end
  }

  ghost predicate Distinct(s: seq<nat>) {
    forall i, j | 0 <= i < j < |s| :: s[i] != s[j]
  }

  /** Following next from the head visits the free list and ends: the chain has no cycle. */
  ghost predicate Chain(p: Pool) {
    && Distinct(p.freeList)
    && (forall j | 0 <= j < |p.freeList| :: p.freeList[j] < |p.next|)
    && p.head == Link(p.freeList, 0, |p.next|)
    && (forall j | 0 <= j < |p.freeList| :: p.next[p.freeList[j]] == Link(p.freeList, j + 1, |p.next|))
  }

  ghost predicate OwnedByList(p: Pool) {
    forall i | 0 <= i < |p.owner| :: p.owner[i] == Free <==> i in p.freeList
  }

  ghost predicate OwnedByAllocators(p: Pool)
    requires Shaped(p)
  {
    && (forall t | t in p.allocators && Holding(p.allocators[t]) :: p.owner[p.allocators[t].slot] == Allocating(t))
    && (forall i | 0 <= i < |p.owner| && p.owner[i].Allocating? ::
          var t := p.owner[i].call;
          t in p.allocators && Holding(p.allocators[t]) && p.allocators[t].slot == i)
  }

  ghost predicate OwnedByFreers(p: Pool)
    requires Shaped(p)
  {
    && (forall t | t in p.freers && !p.freers[t].Pushed? :: p.owner[p.freers[t].slot] == Freeing(t))
    && (forall i | 0 <= i < |p.owner| && p.owner[i].Freeing? ::
          var t := p.owner[i].call;
          t in p.freers && !p.freers[t].Pushed? && p.freers[t].slot == i)
  }

  /** Every slot has one owner, whose own record agrees. */
  ghost predicate Owners(p: Pool) {
    Shaped(p) && OwnedByList(p) && OwnedByAllocators(p) && OwnedByFreers(p)
  }

  predicate InUse(p: Pool, o: Owner) {
    match o
    case Free => false
    case Live => true
    case Allocating(t) => t in p.allocators && !p.allocators[t].Won?
    case Freeing(t) => t in p.freers && p.freers[t].Claimed?
  }

  ghost predicate Flags(p: Pool) {
    |p.inUse| == |p.owner| && forall i | 0 <= i < |p.owner| :: p.inUse[i] == InUse(p, p.owner[i])
  }

  ghost predicate Solo(p: Pool) {
    forall t, u | t in p.allocators && u in p.allocators :: t == u
  }

  predicate View(p: Pool, a: Allocator) {
    match a
    case Fetched(head, seen) => seen <= |p.freeList| && head == Link(p.freeList, |p.freeList| - seen, |p.next|)
    case Loaded(head, next, seen) =>
      && 0 < seen <= |p.freeList| && head == p.freeList[|p.freeList| - seen]
      && next == Link(p.freeList, |p.freeList| - seen + 1, |p.next|)
    case _ => true
  }

  ghost predicate AllocatorViews(p: Pool) {
    forall t | t in p.allocators :: View(p, p.allocators[t])
  }

  ghost predicate FreerLinks(p: Pool) {
    forall t | t in p.freers && p.freers[t].Linked? ::
      p.freers[t].slot < |p.next| && p.next[p.freers[t].slot] == p.freers[t].head
  }

  /** What an allocate call has read of the list is still the tail of it, and what a deallocate call is
      about to push is linked to the head it expects. */
  ghost predicate Views(p: Pool) {
    Solo(p) && AllocatorViews(p) && FreerLinks(p)
  }

  /** Calls that took a slot and have not yet counted it, and that pushed one and have not uncounted it. */
  ghost function ToAdd(p: Pool): set<nat> {
    set t | t in p.allocators && (p.allocators[t].Won? || p.allocators[t].Marked?)
  }

  ghost function ToSubtract(p: Pool): set<nat> {
    set t | t in p.freers && p.freers[t].Pushed?
  }

  /** The counter, corrected by the pending steps, is the number of slots not free. */
  ghost predicate Counts(p: Pool) {
    p.count + |ToAdd(p)| - |ToSubtract(p)| == |p.next| - |p.freeList|
  }

  ghost predicate Valid(p: Pool) {
    Shaped(p) && Chain(p) && Owners(p) && Flags(p) && Views(p) && Counts(p)
  }

  lemma NewList(capacity: nat)
    ensures OwnedByList(NewPool(capacity)) && (Chain(NewPool(capacity)) <==> capacity < TWO_32)
  {
    var p := NewPool(capacity);
    forall i | 0 <= i < capacity ensures i in p.freeList {
      assert p.freeList[i] == i;
    }
    if capacity >= TWO_32 {
      var last := TWO_32 - 1;
      assert p.freeList[last] == last && p.next[last] == 0;
    }
  }

  /** A new pool is valid exactly when its capacity fits the links. */
  lemma NewIsValid(capacity: nat)
    ensures Valid(NewPool(capacity)) <==> capacity < TWO_32
  {
    hide OwnedByList, Chain;
    var p := NewPool(capacity);
    NewList(capacity);
    assert ToAdd(p) == {} && ToSubtract(p) == {};
  }

  // ---------- Every step keeps it ----------

  /** A successful compare-and-swap of an allocate call sees the list as it is now. */
  lemma SwapIsCurrent(p: Pool, t: nat)
    requires Shaped(p) && Chain(p) && Views(p) && AllocEnabled(p, t, Swap)
    ensures |p.freeList| > 0 && p.allocators[t].head == p.freeList[0]
    ensures p.allocators[t].next == Link(p.freeList, 1, |p.next|)
  {
    assert View(p, p.allocators[t]);
  }

  lemma AllocKeepsChain(p: Pool, t: nat, step: AllocStep)
    requires Shaped(p) && Chain(p) && Views(p) && AllocEnabled(p, t, step)
    ensures Chain(AllocNext(p, t, step))
  {
    hide Views, Shaped;
    if step.Swap? {
      SwapIsCurrent(p, t);
    }
  }

  lemma FreeKeepsChain(p: Pool, t: nat, step: FreeStep)
    requires Chain(p) && Owners(p) && Views(p) && FreeEnabled(p, t, step)
    ensures Chain(FreeNext(p, t, step))
  {
    if step.LinkTo? || step.Push? {
      assert p.owner[p.freers[t].slot] == Freeing(t);
    }
  }

  lemma AllocKeepsListOwners(p: Pool, t: nat, step: AllocStep)
    requires Chain(p) && Owners(p) && Views(p) && AllocEnabled(p, t, step)
    ensures OwnedByList(AllocNext(p, t, step))
  {
    hide Link, Views, OwnedByFreers;
    if step.Swap? {
      SwapIsCurrent(p, t);
    }
  }

  lemma AllocKeepsAllocatorOwners(p: Pool, t: nat, step: AllocStep)
    requires Chain(p) && Owners(p) && Views(p) && AllocEnabled(p, t, step)
    ensures OwnedByAllocators(AllocNext(p, t, step))
  {
    hide Link, Views, OwnedByFreers, Distinct;
    if step.Swap? {
      SwapIsCurrent(p, t);
    }
  }

  lemma AllocKeepsFreerOwners(p: Pool, t: nat, step: AllocStep)
    requires Chain(p) && Owners(p) && Views(p) && AllocEnabled(p, t, step)
    ensures OwnedByFreers(AllocNext(p, t, step))
  {
    hide Link, Views, Distinct;
    if step.Swap? {
      SwapIsCurrent(p, t);
    }
  }

  lemma FreeKeepsListOwners(p: Pool, t: nat, step: FreeStep)
    requires Owners(p) && FreeEnabled(p, t, step)
    ensures OwnedByList(FreeNext(p, t, step))
  {
    hide OwnedByAllocators;
  }

  lemma FreeKeepsAllocatorOwners(p: Pool, t: nat, step: FreeStep)
    requires Owners(p) && FreeEnabled(p, t, step)
    ensures OwnedByAllocators(FreeNext(p, t, step))
  {
    hide OwnedByList;
  }

  lemma FreeKeepsFreerOwners(p: Pool, t: nat, step: FreeStep)
    requires Owners(p) && FreeEnabled(p, t, step)
    ensures OwnedByFreers(FreeNext(p, t, step))
  {
    hide OwnedByList, OwnedByAllocators;
  }

  lemma StepKeepsOwners(p: Pool, a: Action)
    requires Chain(p) && Owners(p) && Views(p) && Enabled(p, a)
    ensures Owners(Next(p, a))
  {
    hide Chain, Views, OwnedByList, OwnedByAllocators, OwnedByFreers, AllocNext, FreeNext, AllocEnabled, FreeEnabled,
        Shaped;
    match a {
      case Alloc(t, step) =>
        AllocKeepsListOwners(p, t, step);
        AllocKeepsAllocatorOwners(p, t, step);
        AllocKeepsFreerOwners(p, t, step);
      case Dealloc(t, step) =>
        FreeKeepsListOwners(p, t, step);
        FreeKeepsAllocatorOwners(p, t, step);
        FreeKeepsFreerOwners(p, t, step);
    }
  }

  lemma AllocKeepsFlags(p: Pool, t: nat, step: AllocStep)
    requires Chain(p) && Owners(p) && Views(p) && Flags(p) && AllocEnabled(p, t, step)
    ensures Flags(AllocNext(p, t, step))
  {
    hide Link, Views, Chain;
    if step.Swap? {
      SwapIsCurrent(p, t);
    }
  }

  lemma FreeKeepsFlags(p: Pool, t: nat, step: FreeStep)
    requires Owners(p) && Flags(p) && FreeEnabled(p, t, step)
    ensures Flags(FreeNext(p, t, step))
  {
  }

  lemma AllocKeepsSolo(p: Pool, t: nat, step: AllocStep)
    requires Shaped(p) && Solo(p) && AllocEnabled(p, t, step) && Alone(p, Alloc(t, step))
    ensures Solo(AllocNext(p, t, step)) && forall u | u in AllocNext(p, t, step).allocators :: u == t
  {
    hide Shaped;
  }

  lemma AllocKeepsViews(p: Pool, t: nat, step: AllocStep)
    requires Shaped(p) && Chain(p) && Views(p) && AllocEnabled(p, t, step) && Alone(p, Alloc(t, step))
    ensures Views(AllocNext(p, t, step))
  {
    hide Shaped, Distinct, Alone, Solo;
    AllocKeepsSolo(p, t, step);
    assert t in p.allocators ==> View(p, p.allocators[t]);
  }

  lemma FreeKeepsLinks(p: Pool, t: nat, step: FreeStep)
    requires Owners(p) && FreerLinks(p) && FreeEnabled(p, t, step)
    ensures FreerLinks(FreeNext(p, t, step))
  {
    hide OwnedByList, OwnedByAllocators;
  }

  lemma ViewSurvivesPush(p: Pool, t: nat, step: FreeStep, a: Allocator)
    requires Shaped(p) && FreeEnabled(p, t, step) && View(p, a)
    ensures View(FreeNext(p, t, step), a)
  {
    hide Shaped;
  }

  lemma FreeKeepsViews(p: Pool, t: nat, step: FreeStep)
    requires Shaped(p) && Owners(p) && Views(p) && FreeEnabled(p, t, step)
    ensures Views(FreeNext(p, t, step))
  {
    hide Owners, FreerLinks, View, Shaped;
    assert FreerLinks(FreeNext(p, t, step)) by { FreeKeepsLinks(p, t, step); }
    forall u | u in p.allocators ensures View(FreeNext(p, t, step), p.allocators[u]) {
      ViewSurvivesPush(p, t, step, p.allocators[u]);
    }
  }

  lemma AllocPending(p: Pool, t: nat, step: AllocStep)
    requires Shaped(p) && AllocEnabled(p, t, step)
    ensures var p' := AllocNext(p, t, step);
            && ToSubtract(p') == ToSubtract(p)
            && (step.Swap? ==> t !in ToAdd(p)) && (step.Count? ==> t in ToAdd(p))
            && ToAdd(p') == if step.Swap? then ToAdd(p) + {t} else if step.Count? then ToAdd(p) - {t} else ToAdd(p)
  {
    hide Shaped;
  }

  lemma FreePending(p: Pool, t: nat, step: FreeStep)
    requires Shaped(p) && FreeEnabled(p, t, step)
    ensures var p' := FreeNext(p, t, step);
            && ToAdd(p') == ToAdd(p)
            && (step.Push? ==> t !in ToSubtract(p)) && (step.Uncount? ==> t in ToSubtract(p))
            && ToSubtract(p') == if step.Push? then ToSubtract(p) + {t}
                                 else if step.Uncount? then ToSubtract(p) - {t} else ToSubtract(p)
  {
    hide Shaped;
  }

  lemma AllocKeepsCounts(p: Pool, t: nat, step: AllocStep)
    requires Shaped(p) && Chain(p) && Views(p) && Counts(p) && AllocEnabled(p, t, step)
    ensures Counts(AllocNext(p, t, step))
  {
    hide Link, Views, Chain, Shaped, ToAdd, ToSubtract;
    AllocPending(p, t, step);
    if step.Swap? {
      SwapIsCurrent(p, t);
    }
  }

  lemma FreeKeepsCounts(p: Pool, t: nat, step: FreeStep)
    requires Shaped(p) && Counts(p) && FreeEnabled(p, t, step)
    ensures Counts(FreeNext(p, t, step))
  {
    hide Shaped, ToAdd, ToSubtract;
    FreePending(p, t, step);
  }

  lemma StepKeepsValid(p: Pool, a: Action)
    requires Valid(p) && Enabled(p, a) && Alone(p, a)
    ensures Valid(Next(p, a))
  {
    hide Chain, Owners, Flags, Views, Counts, Alone, AllocNext, FreeNext, AllocEnabled, FreeEnabled, Shaped;
    StepKeepsOwners(p, a);
    match a {
      case Alloc(t, step) =>
        AllocKeepsChain(p, t, step);
        AllocKeepsFlags(p, t, step);
        AllocKeepsViews(p, t, step);
        AllocKeepsCounts(p, t, step);
      case Dealloc(t, step) =>
        FreeKeepsChain(p, t, step);
        FreeKeepsFlags(p, t, step);
        FreeKeepsViews(p, t, step);
        FreeKeepsCounts(p, t, step);
    }
  }
}
