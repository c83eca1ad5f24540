/** What the ring guarantees over every interleaving of its two threads. */
module RingTheorems {
  import opened Words
  import opened RingProtocol

  // ---------- What every run guarantees ----------

  ghost function Wholes<T>(values: seq<T>): seq<Cell<T>> {
    seq(|values|, i requires 0 <= i < |values| => Whole(values[i]))
  }

  /** Under every interleaving the popped values are a prefix of the pushed ones, whole and in order, and
      at most Size - 1 values are in flight. */
  lemma PoppedIsPrefix<T>(size: nat, run: seq<Action<T>>, r: Ring<T>)
    requires SizeOk(size) && Reaches(Empty(size), run, r)
    ensures |r.popped| <= |r.pushed| && r.popped == Wholes(r.pushed[..|r.popped|])
    ensures 0 <= |r.pushed| - |r.popped| <= size - 1
  {
    hide Next;
    EmptyIsValid<T>(size);
    RunKeepsValid(Empty(size), run, r);
  }

  /** Whether the producer and the consumer may be at the same slot. */
  predicate Collide<T>(r: Ring<T>) {
    && PastCheck(r.producer) && PastLook(r.consumer) && |r.slots| > 0
    && Slot(r.producer.ws, |r.slots|) == Slot(r.consumer.rs, |r.slots|)
  }

  /** In every reachable state the producer's slot and the consumer's differ, so no slot is written while
      it is read. Each access also comes after the one it depends on: the producer only reuses a slot whose
      take it has seen published, the consumer only reads a slot whose write it has seen published. */
  lemma SlotsNeverShared<T>(size: nat, run: seq<Action<T>>, r: Ring<T>)
    requires SizeOk(size) && Reaches(Empty(size), run, r)
    ensures !Collide(r)
    ensures PastCheck(r.producer) ==> |r.pushed| - size < r.seenRead
    ensures PastLook(r.consumer) ==> |r.popped| < r.seenWrite
  {
    hide Next, Slot, SizeOk;
    EmptyIsValid<T>(size);
    RunKeepsValid(Empty(size), run, r);
    if PastCheck(r.producer) && PastLook(r.consumer) {
      SlotOf(|r.slots|, |r.pushed|);
      SlotOf(|r.slots|, |r.popped|);
      SlotsDiffer(size, |r.popped|, |r.pushed|);
    }
  }

  /** A push goes on exactly when it sees fewer than Size - 1 values in flight. One that sees the
      consumer's latest count fails exactly when the ring is full. */
  lemma PushGoesOnIff<T>(r: Ring<T>, seen: nat)
    requires |r.slots| > 0 && Valid(r) && Enabled(r, LoadRead(seen))
    ensures Next(r, LoadRead(seen)).producer.Clear? <==> |r.pushed| - seen < |r.slots| - 1
    ensures seen == |r.popped| ==>
              (Next(r, LoadRead(seen)).producer.Idle? <==> |r.pushed| - |r.popped| == |r.slots| - 1)
  {
    FullTestIsExact(|r.slots|, |r.pushed|, seen);
  }

  /** A pop goes on exactly when it sees a value not yet taken. */
  lemma PopGoesOnIff<T>(r: Ring<T>, seen: nat)
    requires |r.slots| > 0 && Valid(r) && Enabled(r, LoadOtherWrite(seen))
    ensures Next(r, LoadOtherWrite(seen)).consumer.Ready? <==> seen > |r.popped|
    ensures seen == |r.pushed| ==>
              (Next(r, LoadOtherWrite(seen)).consumer.Resting? <==> |r.pushed| == |r.popped|)
  {
    EmptyTestIsExact(|r.slots|, |r.popped|, seen);
  }

  /** What size() returns to the producer is never below the values in flight and at most the capacity;
      to the consumer it is never above them. */
  lemma SizeBounds<T>(r: Ring<T>, seen: nat)
    requires |r.slots| > 0 && Valid(r)
    ensures Enabled(r, ProducerAsks(seen)) ==>
              |r.pushed| - |r.popped| <= Sub(r.write, seen % WORD) <= |r.slots| - 1
    ensures Enabled(r, ConsumerAsks(seen)) ==>
              0 <= Sub(seen % WORD, r.read) <= |r.pushed| - |r.popped|
  {
    if Enabled(r, ProducerAsks(seen)) {
      SubIsExact(|r.pushed|, seen);
    }
    if Enabled(r, ConsumerAsks(seen)) {
      SubIsExact(seen, |r.popped|);
    }
  }

  lemma SeenNeverShrinks<T>(r: Ring<T>, a: Action<T>)
    requires |r.slots| > 0 && Enabled(r, a)
    ensures var r' := Next(r, a);
            && |r'.slots| == |r.slots| && r'.seenRead >= r.seenRead && r'.seenWrite >= r.seenWrite
            && (!a.StoreWrite? ==> r'.pushed == r.pushed) && (!a.StoreRead? ==> r'.popped == r.popped)
  {
    hide Slot, LooksFull;
  }

  lemma {:induction false} ViewsOverRun<T>(r: Ring<T>, run: seq<Action<T>>, r': Ring<T>)
    requires |r.slots| > 0 && Reaches(r, run, r')
    ensures r'.seenRead >= r.seenRead && r'.seenWrite >= r.seenWrite
    ensures (forall i | 0 <= i < |run| :: !run[i].StoreWrite?) ==> r'.pushed == r.pushed
    ensures (forall i | 0 <= i < |run| :: !run[i].StoreRead?) ==> r'.popped == r.popped
    decreases |run|
  {
    hide Next, Enabled;
    if |run| > 0 {
      SeenNeverShrinks(r, run[0]);
      ViewsOverRun(Next(r, run[0]), run[1..], r');
      assert forall i | 0 <= i < |run| - 1 :: run[1..][i] == run[i + 1];
    }
  }

  lemma Room<T>(r: Ring<T>, seen: nat)
    requires Valid(r) && Enabled(r, ProducerAsks(seen)) && !LooksFull(r.write, seen % WORD, |r.slots|)
    ensures |r.pushed| - seen < |r.slots| - 1
  {
    FullTestIsExact(|r.slots|, |r.pushed|, seen);
  }

  lemma Asking<T>(r: Ring<T>, seen: nat)
    requires |r.slots| > 0
    ensures Enabled(r, ProducerAsks(seen)) ==> Next(r, ProducerAsks(seen)) == r.(seenRead := seen)
    ensures Enabled(r, ConsumerAsks(seen)) ==> Next(r, ConsumerAsks(seen)) == r.(seenWrite := seen)
  {
  }

  /** Once full() answered no to the producer, its next try to push gets through, whatever the consumer
      does and however late its counter shows. */
  lemma NotFullMeansRoom<T>(r: Ring<T>, seen: nat, run: seq<Action<T>>, r': Ring<T>, later: nat)
    requires |r.slots| > 0 && Valid(r) && Enabled(r, ProducerAsks(seen))
    requires !LooksFull(r.write, seen % WORD, |r.slots|)
    requires Reaches(Next(r, ProducerAsks(seen)), run, r')
    requires forall i | 0 <= i < |run| :: !run[i].StoreWrite?
    requires |r'.slots| > 0 && Enabled(r', LoadRead(later))
    ensures Next(r', LoadRead(later)).producer.Clear?
  {
    var asked := Next(r, ProducerAsks(seen));
    StepKeepsValid(r, ProducerAsks(seen));
    Room(r, seen);
    hide Next, Valid;
    Asking(r, seen);
    RunKeepsValid(asked, run, r');
    ViewsOverRun(asked, run, r');
    PushGoesOnIff(r', later);
  }

  /** Once empty() answered no to the consumer, its next try to pop gets through. */
  lemma NotEmptyMeansValue<T>(r: Ring<T>, seen: nat, run: seq<Action<T>>, r': Ring<T>, later: nat)
    requires |r.slots| > 0 && Valid(r) && Enabled(r, ConsumerAsks(seen)) && seen % WORD != r.read
    requires Reaches(Next(r, ConsumerAsks(seen)), run, r')
    requires forall i | 0 <= i < |run| :: !run[i].StoreRead?
    requires |r'.slots| > 0 && Enabled(r', LoadOtherWrite(later))
    ensures Next(r', LoadOtherWrite(later)).consumer.Ready?
  {
    var asked := Next(r, ConsumerAsks(seen));
    StepKeepsValid(r, ConsumerAsks(seen));
    EmptyTestIsExact(|r.slots|, |r.popped|, seen);
    hide Next, Valid;
    Asking(r, seen);
    RunKeepsValid(asked, run, r');
    ViewsOverRun(asked, run, r');
    PopGoesOnIff(r', later);
  }

  // ---------- The ring is a bounded queue ----------

  /** The values pushed and not yet popped. */
  ghost function InFlight<T>(r: Ring<T>): seq<T>
    requires |r.popped| <= |r.pushed|
  {
    r.pushed[|r.popped|..]
  }

  /** Every access is a step of a queue of capacity Size - 1: publishing a written slot appends its item,
      publishing a taken slot removes the oldest value, which is the one taken, and all else changes nothing. */
  lemma StepIsQueueStep<T>(r: Ring<T>, a: Action<T>)
    requires |r.slots| > 0 && Valid(r) && Enabled(r, a)
    ensures var r' := Next(r, a);
            && Valid(r') && |InFlight(r')| <= |r.slots| - 1
            && match a
               case StoreWrite => InFlight(r') == InFlight(r) + [r.producer.item]
               case StoreRead => InFlight(r) != [] && InFlight(r') == InFlight(r)[1..]
                                 && r.consumer.cell == Whole(InFlight(r)[0])
               case _ => InFlight(r') == InFlight(r)
  {
    StepKeepsValid(r, a);
    hide Slot, LooksFull, SizeOk;
    SeenNeverShrinks(r, a);
  }
}
