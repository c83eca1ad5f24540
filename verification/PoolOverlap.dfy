/** Calls that run to their end undisturbed, and what overlapping allocate calls can do. */
module PoolOverlap {
  import opened PoolProtocol

  /** The pool after an undisturbed allocate call that finds a slot. */
  function AllocatedAlone(p: Pool): Pool
    requires Shaped(p) && p.head < |p.next|
  {
    var i := p.head;
    p.(head := p.next[i],
       inUse := p.inUse[i := true],
       count := p.count + 1,
       owner := p.owner[i := Live],
       freeList := if |p.freeList| == 0 then [] else p.freeList[1..])
  }

  /** The pool after an undisturbed deallocate call. */
  function FreedAlone(p: Pool, i: nat): Pool
    requires Shaped(p) && i < |p.next|
  {
    p.(head := i,
       next := p.next[i := p.head],
       inUse := p.inUse[i := false],
       count := p.count - 1,
       owner := p.owner[i := Free],
       freeList := [i] + p.freeList)
  }

  function AllocRun(t: nat): seq<Action> {
    [Alloc(t, LoadHead), Alloc(t, ReadNext), Alloc(t, Swap), Alloc(t, Mark), Alloc(t, Count), Alloc(t, Return)]
  }

  function FreeRun(t: nat, i: nat): seq<Action> {
    [Dealloc(t, Begin(i)), Dealloc(t, Clear), Dealloc(t, Aim),
     Dealloc(t, LinkTo), Dealloc(t, Push), Dealloc(t, Uncount)]
  }

  lemma {:induction false} Joined(p: Pool, r1: seq<Action>, q: Pool, r2: seq<Action>, p': Pool, serial: bool)
    requires Shaped(p) && Shaped(q) && Reaches(p, r1, q, serial) && Reaches(q, r2, p', serial)
    ensures Reaches(p, r1 + r2, p', serial)
    decreases |r1|
  {
    hide Next, Enabled, Alone, Shaped;
    if |r1| == 0 {
      assert r1 + r2 == r2;
    } else {
      Joined(Next(p, r1[0]), r1[1..], q, r2, p', serial);
      assert (r1 + r2)[1..] == r1[1..] + r2;
    }
  }

  /** One step of a run: an enabled action and the state after it. */
  predicate Steps(p: Pool, a: Action, p': Pool) {
    Shaped(p) && Enabled(p, a) && Next(p, a) == p'
  }

  lemma StepThen(p: Pool, a: Action, p1: Pool, run: seq<Action>, p': Pool, serial: bool)
    requires Steps(p, a, p1) && (serial ==> Alone(p, a)) && Shaped(p1) && Reaches(p1, run, p', serial)
    ensures Shaped(p) && Reaches(p, [a] + run, p', serial)
  {
    hide Next, Enabled, Alone, Shaped;
    assert ([a] + run)[1..] == run;
  }

  lemma Stay(p: Pool, serial: bool)
    requires Shaped(p)
    ensures Reaches(p, [], p, serial)
  {
  }

  lemma SixSteps(ps: seq<Pool>, run: seq<Action>, serial: bool)
    requires |run| == 6 && |ps| == 7 && Shaped(ps[6])
    requires forall k | 0 <= k < 6 :: Steps(ps[k], run[k], ps[k + 1])
    requires forall k | 0 <= k < 6 :: serial ==> Alone(ps[k], run[k])
    ensures Shaped(ps[0]) && Reaches(ps[0], run, ps[6], serial)
  {
    hide Steps, Reaches, Alone, Shaped;
    var k := 6;
    Stay(ps[6], serial);
    assert run[6..] == [];
    while k > 0
      invariant 0 <= k <= 6
      invariant Shaped(ps[k]) && Reaches(ps[k], run[k..], ps[6], serial)
    {
      k := k - 1;
      assert run[k..] == [run[k]] + run[k + 1..];
      assert Steps(ps[k], run[k], ps[k + 1]);
      StepThen(ps[k], run[k], ps[k + 1], run[k + 1..], ps[6], serial);
    }
    assert run[0..] == run;
  }

  lemma AllocTakes(p: Pool, t: nat) returns (p1: Pool, p2: Pool, p3: Pool)
    requires Shaped(p) && p.head < |p.next| && t !in p.allocators
    ensures Steps(p, Alloc(t, LoadHead), p1) && Steps(p1, Alloc(t, ReadNext), p2) && Steps(p2, Alloc(t, Swap), p3)
    ensures Shaped(p3)
    ensures p3 == p.(head := p.next[p.head],
                     allocators := p.allocators[t := Won(p.head)],
                     owner := p.owner[p.head := Allocating(t)],
                     freeList := if |p.freeList| == 0 then [] else p.freeList[1..])
  {
    p1 := AllocNext(p, t, LoadHead);
    p2 := AllocNext(p1, t, ReadNext);
    p3 := AllocNext(p2, t, Swap);
  }

  lemma AllocFinishes(p: Pool, t: nat) returns (p1: Pool, p2: Pool, p3: Pool)
    requires Shaped(p) && t in p.allocators && p.allocators[t].Won?
    ensures Steps(p, Alloc(t, Mark), p1) && Steps(p1, Alloc(t, Count), p2) && Steps(p2, Alloc(t, Return), p3)
    ensures Shaped(p3)
    ensures var i := p.allocators[t].slot;
            p3 == p.(inUse := p.inUse[i := true], count := p.count + 1,
                     owner := p.owner[i := Live], allocators := p.allocators - {t})
  {
    p1 := AllocNext(p, t, Mark);
    p2 := AllocNext(p1, t, Count);
    p3 := AllocNext(p2, t, Return);
  }

  lemma AllocStates(p: Pool, t: nat) returns (ps: seq<Pool>)
    requires Shaped(p) && p.head < |p.next| && t !in p.allocators
    ensures |ps| == 7 && ps[0] == p && ps[6] == AllocatedAlone(p) && Shaped(ps[6])
    ensures forall k | 0 <= k < 6 :: Steps(ps[k], AllocRun(t)[k], ps[k + 1])
  {
    var p1, p2, p3 := AllocTakes(p, t);
    var p4, p5, p6 := AllocFinishes(p3, t);
    hide Steps, Shaped;
    assert p6.allocators == p.allocators;
    assert p6.owner == p.owner[p.head := Live];
    ps := [p, p1, p2, p3, p4, p5, p6];
  }

  lemma AllocateAlone(p: Pool, t: nat, serial: bool)
    requires Shaped(p) && p.head < |p.next| && t !in p.allocators && (serial ==> p.allocators == map[])
    ensures Shaped(AllocatedAlone(p)) && Reaches(p, AllocRun(t), AllocatedAlone(p), serial)
  {
    var ps := AllocStates(p, t);
    hide Reaches, AllocatedAlone, Shaped, Steps;
    SixSteps(ps, AllocRun(t), serial);
  }

  lemma FreeEnters(p: Pool, t: nat, i: nat) returns (p1: Pool, p2: Pool, p3: Pool)
    requires Shaped(p) && i < |p.next| && p.owner[i] == Live && t !in p.freers
    ensures Steps(p, Dealloc(t, Begin(i)), p1) && Steps(p1, Dealloc(t, Clear), p2) && Steps(p2, Dealloc(t, Aim), p3)
    ensures Shaped(p3)
    ensures p3 == p.(inUse := p.inUse[i := false], owner := p.owner[i := Freeing(t)],
                     freers := p.freers[t := Aiming(i, p.head)])
  {
    p1 := FreeNext(p, t, Begin(i));
    p2 := FreeNext(p1, t, Clear);
    p3 := FreeNext(p2, t, Aim);
  }

  lemma FreeFinishes(p: Pool, t: nat) returns (p1: Pool, p2: Pool, p3: Pool)
    requires Shaped(p) && t in p.freers && p.freers[t].Aiming? && p.freers[t].head == p.head
    ensures Steps(p, Dealloc(t, LinkTo), p1) && Steps(p1, Dealloc(t, Push), p2) && Steps(p2, Dealloc(t, Uncount), p3)
    ensures Shaped(p3)
    ensures var i := p.freers[t].slot;
            p3 == p.(head := i, next := p.next[i := p.head], count := p.count - 1,
                     owner := p.owner[i := Free], freers := p.freers - {t}, freeList := [i] + p.freeList)
  {
    p1 := FreeNext(p, t, LinkTo);
    p2 := FreeNext(p1, t, Push);
    p3 := FreeNext(p2, t, Uncount);
  }

  lemma FreeStates(p: Pool, t: nat, i: nat) returns (ps: seq<Pool>)
    requires Shaped(p) && i < |p.next| && p.owner[i] == Live && t !in p.freers
    ensures |ps| == 7 && ps[0] == p && ps[6] == FreedAlone(p, i) && Shaped(ps[6])
    ensures forall k | 0 <= k < 6 :: Steps(ps[k], FreeRun(t, i)[k], ps[k + 1])
  {
    var p1, p2, p3 := FreeEnters(p, t, i);
    var p4, p5, p6 := FreeFinishes(p3, t);
    hide Steps, Shaped;
    assert p6.freers == p.freers;
    assert p6.owner == p.owner[i := Free];
    ps := [p, p1, p2, p3, p4, p5, p6];
  }

  lemma FreeAlone(p: Pool, t: nat, i: nat, serial: bool)
    requires Shaped(p) && i < |p.next| && p.owner[i] == Live && t !in p.freers
    ensures Shaped(FreedAlone(p, i)) && Reaches(p, FreeRun(t, i), FreedAlone(p, i), serial)
  {
    var ps := FreeStates(p, t, i);
    hide Reaches, FreedAlone, Shaped, Steps;
    SixSteps(ps, FreeRun(t, i), serial);
  }

  // ---------- Overlapping allocate calls ----------

  /** Whatever a swap would take now is free. */
  ghost predicate SwapsAreSafe(p: Pool) {
    forall t | AllocEnabled(p, t, Swap) :: p.allocators[t].head < |p.owner| && p.owner[p.allocators[t].head] == Free
  }

  /** No run at all, however the calls overlap, hands out a slot that is not free. */
  ghost predicate SafeWhateverOverlaps(capacity: nat) {
    forall run, p | Reaches(NewPool(capacity), run, p, false) :: SwapsAreSafe(p)
  }

  lemma Extend(p: Pool, run: seq<Action>, q: Pool, a: Action)
    requires Shaped(p) && Shaped(q) && Reaches(p, run, q, false) && Enabled(q, a)
    ensures Reaches(p, run + [a], Next(q, a), false)
  {
    hide Next, Enabled, Shaped;
    assert [a][1..] == [];
    Joined(p, run, q, [a], Next(q, a), false);
  }

  /** What the walk to the stale swap needs to know of a state. */
  predicate Between(p: Pool, head: nat, next0: nat, next1: nat) {
    && Shaped(p) && |p.next| >= 2 && p.head == head && p.next[0] == next0 && p.next[1] == next1
    && 0 in p.allocators && p.allocators[0].Loaded? && p.allocators[0].head == 0 && p.allocators[0].next == 1
    && 1 !in p.allocators && 0 !in p.freers
  }

  lemma ReadsFirst(p0: Pool) returns (p1: Pool, p2: Pool)
    requires Shaped(p0) && |p0.next| >= 2 && p0.head == 0 && p0.next[0] == 1 && p0.next[1] == 2
    requires p0.allocators == map[] && p0.freers == map[]
    ensures Enabled(p0, Alloc(0, LoadHead)) && p1 == Next(p0, Alloc(0, LoadHead))
    ensures Enabled(p1, Alloc(0, ReadNext)) && p2 == Next(p1, Alloc(0, ReadNext)) && Between(p2, 0, 1, 2)
  {
    p1 := Next(p0, Alloc(0, LoadHead));
    p2 := Next(p1, Alloc(0, ReadNext));
  }

  lemma SecondInterferes(p2: Pool) returns (p3: Pool, p4: Pool, p5: Pool)
    requires Between(p2, 0, 1, 2)
    ensures p3 == AllocatedAlone(p2) && Between(p3, 1, 1, 2) && p4 == AllocatedAlone(p3) && Between(p4, 2, 1, 2)
    ensures p4.owner[0] == Live && p4.owner[1] == Live
    ensures p5 == FreedAlone(p4, 0) && Between(p5, 0, 2, 2) && p5.owner[1] == Live
  {
    p3 := AllocatedAlone(p2);
    p4 := AllocatedAlone(p3);
    p5 := FreedAlone(p4, 0);
  }

  lemma SwapsStale(p5: Pool) returns (p6: Pool, p7: Pool, p8: Pool)
    requires Between(p5, 0, 2, 2) && p5.owner[1] == Live
    ensures Enabled(p5, Alloc(0, Swap)) && p6 == Next(p5, Alloc(0, Swap)) && Shaped(p6)
    ensures Enabled(p6, Alloc(1, LoadHead)) && p7 == Next(p6, Alloc(1, LoadHead)) && Shaped(p7)
    ensures Enabled(p7, Alloc(1, ReadNext)) && p8 == Next(p7, Alloc(1, ReadNext)) && !SwapsAreSafe(p8)
  {
    p6 := Next(p5, Alloc(0, Swap));
    p7 := Next(p6, Alloc(1, LoadHead));
    p8 := Next(p7, Alloc(1, ReadNext));
    assert AllocEnabled(p8, 1, Swap) && p8.owner[p8.allocators[1].head] == Live;
  }

  /** The run that goes wrong, for any capacity above one: a call reads head 0 and successor 1; a second
      call takes slots 0 and 1 and gives 0 back; then the first swap succeeds and makes the live slot 1 the
      head, and the next call is about to take it. */
  lemma StaleSuccessor(capacity: nat) returns (run: seq<Action>, p: Pool)
    requires capacity >= 2
    ensures Reaches(NewPool(capacity), run, p, false) && !SwapsAreSafe(p)
  {
    hide Reaches, Next, AllocatedAlone, FreedAlone, AllocRun, FreeRun, Enabled, SwapsAreSafe, AllocNext, AllocEnabled;
    var p0 := NewPool(capacity);
    Stay(p0, false);
    var p1, p2 := ReadsFirst(p0);
    Extend(p0, [], p0, Alloc(0, LoadHead));
    Extend(p0, [] + [Alloc(0, LoadHead)], p1, Alloc(0, ReadNext));
    var r2 := [] + [Alloc(0, LoadHead)] + [Alloc(0, ReadNext)];
    var p3, p4, p5 := SecondInterferes(p2);
    AllocateAlone(p2, 1, false);
    Joined(p0, r2, p2, AllocRun(1), p3, false);
    AllocateAlone(p3, 1, false);
    Joined(p0, r2 + AllocRun(1), p3, AllocRun(1), p4, false);
    FreeAlone(p4, 0, 0, false);
    Joined(p0, r2 + AllocRun(1) + AllocRun(1), p4, FreeRun(0, 0), p5, false);
    var r5 := r2 + AllocRun(1) + AllocRun(1) + FreeRun(0, 0);
    var p6, p7, p8 := SwapsStale(p5);
    Extend(p0, r5, p5, Alloc(0, Swap));
    Extend(p0, r5 + [Alloc(0, Swap)], p6, Alloc(1, LoadHead));
    Extend(p0, r5 + [Alloc(0, Swap)] + [Alloc(1, LoadHead)], p7, Alloc(1, ReadNext));
    run, p := r5 + [Alloc(0, Swap)] + [Alloc(1, LoadHead)] + [Alloc(1, ReadNext)], p8;
  }

  // ---------- A pool of one slot ----------

  /** What a pool of at most one slot keeps under any overlap: its only link is to the end. */
  ghost predicate TinyValid(p: Pool) {
    && Shaped(p) && |p.next| <= 1
    && (|p.next| == 1 ==>
          && p.next[0] == 1 && p.head <= 1 && (p.head == 0 <==> p.owner[0] == Free)
          && (forall t | t in p.allocators && p.allocators[t].Loaded? ::
                p.allocators[t].head == 0 && p.allocators[t].next == 1)
          && (forall t | t in p.allocators && Holding(p.allocators[t]) :: p.owner[0] == Allocating(t))
          && (forall t | t in p.freers && !p.freers[t].Pushed? :: p.owner[0] == Freeing(t))
          && (forall t | t in p.freers && (p.freers[t].Aiming? || p.freers[t].Linked?) :: p.freers[t].head == 1))
  }

  lemma AllocKeepsTiny(p: Pool, t: nat, step: AllocStep)
    requires TinyValid(p) && AllocEnabled(p, t, step)
    ensures TinyValid(AllocNext(p, t, step))
  {
  }

  lemma FreeKeepsTiny(p: Pool, t: nat, step: FreeStep)
    requires TinyValid(p) && FreeEnabled(p, t, step)
    ensures TinyValid(FreeNext(p, t, step))
  {
  }

  lemma {:induction false} RunKeepsTiny(p: Pool, run: seq<Action>, p': Pool)
    requires Shaped(p) && TinyValid(p) && Reaches(p, run, p', false)
    ensures TinyValid(p')
    decreases |run|
  {
    hide Shaped, TinyValid, AllocNext, FreeNext, AllocEnabled, FreeEnabled;
    if |run| > 0 {
      match run[0] {
        case Alloc(t, step) => AllocKeepsTiny(p, t, step);
        case Dealloc(t, step) => FreeKeepsTiny(p, t, step);
      }
      RunKeepsTiny(Next(p, run[0]), run[1..], p');
    }
  }

  lemma NewIsTiny(capacity: nat)
    requires capacity <= 1
    ensures TinyValid(NewPool(capacity))
  {
  }

  /** Allocate calls may overlap freely exactly in pools of at most one slot; with two slots or more some
      run hands out a slot that is still in use. */
  lemma OverlapIsSafeIff(capacity: nat)
    ensures SafeWhateverOverlaps(capacity) <==> capacity <= 1
  {
    hide Reaches, NewPool;
    if capacity >= 2 {
      var run, p := StaleSuccessor(capacity);
    } else {
      forall run, p | Reaches(NewPool(capacity), run, p, false) ensures SwapsAreSafe(p) {
        NewIsTiny(capacity);
        RunKeepsTiny(NewPool(capacity), run, p);
      }
    }
  }
}
