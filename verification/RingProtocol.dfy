/** The single-producer single-consumer ring as the memory accesses of its two threads.
    Counters are 64-bit words. A thread reads its own counter exactly; the other thread's counter it
    may see late, but never older than what it saw before. Touching a slot takes two steps, so that
    overlapping accesses would show. */
module RingProtocol {
  import opened Words

  /** A slot holds a whole value, or one that is half written, moved from, or was never written. */
  datatype Cell<T> = Whole(value: T) | Torn

  /** The producer between its accesses: own counter loaded, room found, writing the slot, slot written. */
  datatype Producer<T> =
    | Idle
    | Checking(item: T, ws: nat)
    | Clear(item: T, ws: nat)
    | Writing(item: T, ws: nat)
    | Written(item: T, ws: nat)

  /** The consumer between its accesses: own counter loaded, value found, reading the slot, slot read. */
  datatype Consumer<T> =
    | Resting
    | Looking(rs: nat)
    | Ready(rs: nat)
    | Taking(rs: nat)
    | Taken(rs: nat, cell: Cell<T>)

  /** The shared memory, the two threads, how far each has seen the other come, and the values that went
      in and came out so far. */
  datatype Ring<T> = Ring(
    slots: seq<Cell<T>>,
    write: nat,
    read: nat,
    producer: Producer<T>,
    consumer: Consumer<T>,
    seenRead: nat,
    seenWrite: nat,
    pushed: seq<T>,
    popped: seq<Cell<T>>)

  /** One access. A load of the other thread's counter names the count it happens to see. */
  datatype Action<T> =
    | LoadWrite(item: T)
    | LoadRead(seen: nat)
    | BeginWrite
    | EndWrite
    | StoreWrite
    | ProducerAsks(seen: nat)
    | LoadOwnRead
    | LoadOtherWrite(seen: nat)
    | BeginTake
    | EndTake
    | StoreRead
    | ConsumerAsks(seen: nat)

  function Slot(counter: nat, size: nat): (i: nat)
    requires size > 0
    ensures i < size
  {
    And(counter, size - 1)
  }

  /** What full() and size() compute from the two counters, and empty() by comparing them. */
  predicate LooksFull(write: nat, read: nat, size: nat) {
    Sub(write, read) >= size - 1
  }

  predicate Enabled<T>(r: Ring<T>, a: Action<T>) {
    match a
    case LoadWrite(_) => r.producer.Idle?
    case LoadRead(seen) => r.producer.Checking? && r.seenRead <= seen <= |r.popped|
    case BeginWrite => r.producer.Clear?
    case EndWrite => r.producer.Writing?
    case StoreWrite => r.producer.Written?
    case ProducerAsks(seen) => r.producer.Idle? && r.seenRead <= seen <= |r.popped|
    case LoadOwnRead => r.consumer.Resting?
    case LoadOtherWrite(seen) => r.consumer.Looking? && r.seenWrite <= seen <= |r.pushed|
    case BeginTake => r.consumer.Ready?
    case EndTake => r.consumer.Taking?
    case StoreRead => r.consumer.Taken?
    case ConsumerAsks(seen) => r.consumer.Resting? && r.seenWrite <= seen <= |r.pushed|
  }

  function Next<T>(r: Ring<T>, a: Action<T>): Ring<T>
    requires Enabled(r, a) && |r.slots| > 0
  {
    var size := |r.slots|;
    match a
    case LoadWrite(item) => r.(producer := Checking(item, r.write))
    case LoadRead(seen) =>
      var p := r.producer;
      r.(seenRead := seen,
         producer := if LooksFull(p.ws, seen % WORD, size) then Idle else Clear(p.item, p.ws))
    case BeginWrite =>
      var p := r.producer;
      r.(slots := r.slots[Slot(p.ws, size) := Torn], producer := Writing(p.item, p.ws))
    case EndWrite =>
      var p := r.producer;
      r.(slots := r.slots[Slot(p.ws, size) := Whole(p.item)], producer := Written(p.item, p.ws))
    case StoreWrite =>
      var p := r.producer;
      r.(write := (p.ws + 1) % WORD, pushed := r.pushed + [p.item], producer := Idle)
    case ProducerAsks(seen) => r.(seenRead := seen)
    case LoadOwnRead => r.(consumer := Looking(r.read))
    case LoadOtherWrite(seen) =>
      var c := r.consumer;
      r.(seenWrite := seen, consumer := if c.rs == seen % WORD then Resting else Ready(c.rs))
    case BeginTake => r.(consumer := Taking(r.consumer.rs))
    case EndTake =>
      var c := r.consumer;
      var i := Slot(c.rs, size);
      r.(slots := r.slots[i := Torn], consumer := Taken(c.rs, r.slots[i]))
    case StoreRead =>
      var c := r.consumer;
      r.(read := (c.rs + 1) % WORD, popped := r.popped + [c.cell], consumer := Resting)
    case ConsumerAsks(seen) => r.(seenWrite := seen)
  }

  /** An execution: any interleaving of enabled accesses. */
  ghost predicate Reaches<T>(r: Ring<T>, run: seq<Action<T>>, r': Ring<T>)
    requires |r.slots| > 0
    decreases |run|
  {
    if |run| == 0 then r' == r
    else Enabled(r, run[0]) && Reaches(Next(r, run[0]), run[1..], r')
  }

  function Empty<T>(size: nat): Ring<T> {
    Ring(seq(size, _ => Torn), 0, 0, Idle, Resting, 0, 0, [], [])
  }

  // ---------- The invariant ----------

  predicate PastCheck<T>(p: Producer<T>) {
    p.Clear? || p.Writing? || p.Written?
  }

  predicate PastLook<T>(c: Consumer<T>) {
    c.Ready? || c.Taking? || c.Taken?
  }

  /** Words are the low 64 bits of the true counts. */
  predicate Counters<T>(r: Ring<T>) {
    && SizeOk(|r.slots|)
    && r.write == |r.pushed| % WORD && r.read == |r.popped| % WORD
    && (!r.producer.Idle? ==> r.producer.ws == r.write)
    && (!r.consumer.Resting? ==> r.consumer.rs == r.read)
  }

  /** Each thread lags behind the other, and neither passes what it has seen. */
  predicate Views<T>(r: Ring<T>) {
    && r.seenRead <= |r.popped| <= r.seenWrite <= |r.pushed| <= r.seenRead + |r.slots| - 1
    && (PastCheck(r.producer) ==> |r.pushed| < r.seenRead + |r.slots| - 1)
    && (PastLook(r.consumer) ==> |r.popped| < r.seenWrite)
  }

  /** The slots between the counters hold what was pushed and not yet popped. */
  ghost predicate Cells<T>(r: Ring<T>) {
    && |r.slots| > 0
    && (forall j | |r.popped| <= j < |r.pushed| ::
          (j == |r.popped| && r.consumer.Taken?) || r.slots[j % |r.slots|] == Whole(r.pushed[j]))
    && (r.producer.Written? ==> r.slots[|r.pushed| % |r.slots|] == Whole(r.producer.item))
  }

  /** What came out is what went in, in order and untorn. */
  ghost predicate Fifo<T>(r: Ring<T>) {
    && |r.popped| <= |r.pushed|
    && (forall j | 0 <= j < |r.popped| :: r.popped[j] == Whole(r.pushed[j]))
    && (r.consumer.Taken? ==> |r.popped| < |r.pushed| && r.consumer.cell == Whole(r.pushed[|r.popped|]))
  }

  ghost predicate Valid<T>(r: Ring<T>) {
    Counters(r) && Views(r) && Cells(r) && Fifo(r)
  }

  lemma EmptyIsValid<T>(size: nat)
    requires SizeOk(size)
    ensures Valid(Empty<T>(size))
  {
  }

  /** The full test on words tells exactly whether the counts are Size - 1 apart. */
  lemma FullTestIsExact(size: nat, written: nat, seen: nat)
    requires SizeOk(size) && seen <= written <= seen + size - 1
    ensures LooksFull(written % WORD, seen % WORD, size) <==> written == seen + size - 1
    ensures Sub(written % WORD, seen % WORD) == written - seen
  {
    SubIsExact(written, seen);
  }

  lemma EmptyTestIsExact(size: nat, taken: nat, seen: nat)
    requires SizeOk(size) && taken <= seen <= taken + size - 1
    ensures taken % WORD == seen % WORD <==> taken == seen
  {
    SubIsExact(seen, taken);
  }

  lemma SlotOf(size: nat, count: nat)
    requires SizeOk(size)
    ensures Slot(count % WORD, size) == count % size
  {
    SlotOfCounter(size, count);
  }

  lemma StepKeepsCounters<T>(r: Ring<T>, a: Action<T>)
    requires Counters(r) && Enabled(r, a)
    ensures Counters(Next(r, a)) && |Next(r, a).slots| == |r.slots|
  {
    hide SizeOk, Slot, LooksFull;
    NextWraps(|r.pushed|);
    NextWraps(|r.popped|);
  }

  lemma StepKeepsViews<T>(r: Ring<T>, a: Action<T>)
    requires Counters(r) && Views(r) && Enabled(r, a)
    ensures Views(Next(r, a))
  {
    hide SizeOk, Slot, LooksFull;
    match a {
      case LoadRead(seen) => FullTestIsExact(|r.slots|, |r.pushed|, seen);
      case LoadOtherWrite(seen) => EmptyTestIsExact(|r.slots|, |r.popped|, seen);
      case _ =>
    }
  }

  lemma ChangeSpares<T>(r: Ring<T>, at: nat, cell: Cell<T>)
    requires |r.slots| > 0 && |r.popped| <= at <= |r.pushed| < |r.popped| + |r.slots|
    ensures forall j | |r.popped| <= j <= |r.pushed| && j != at ::
              r.slots[at % |r.slots| := cell][j % |r.slots|] == r.slots[j % |r.slots|]
  {
    forall j | |r.popped| <= j <= |r.pushed| && j != at
      ensures r.slots[at % |r.slots| := cell][j % |r.slots|] == r.slots[j % |r.slots|]
    {
      if j < at {
        SlotsDiffer(|r.slots|, j, at);
      } else {
        SlotsDiffer(|r.slots|, at, j);
      }
    }
  }

  lemma StepKeepsCells<T>(r: Ring<T>, a: Action<T>)
    requires Counters(r) && Views(r) && Cells(r) && Enabled(r, a)
    ensures Cells(Next(r, a))
  {
    hide SizeOk, Slot, LooksFull;
    match a {
      case BeginWrite =>
        SlotOf(|r.slots|, |r.pushed|);
        ChangeSpares(r, |r.pushed|, Torn);
      case EndWrite =>
        SlotOf(|r.slots|, |r.pushed|);
        ChangeSpares(r, |r.pushed|, Whole(r.producer.item));
      case EndTake =>
        SlotOf(|r.slots|, |r.popped|);
        ChangeSpares(r, |r.popped|, Torn);
      case _ =>
    }
  }

  lemma StepKeepsFifo<T>(r: Ring<T>, a: Action<T>)
    requires Counters(r) && Views(r) && Cells(r) && Fifo(r) && Enabled(r, a)
    ensures Fifo(Next(r, a))
  {
    hide SizeOk, Slot, LooksFull;
    if a.EndTake? {
      SlotOf(|r.slots|, |r.popped|);
    }
  }

  lemma StepKeepsValid<T>(r: Ring<T>, a: Action<T>)
    requires Valid(r) && Enabled(r, a)
    ensures Valid(Next(r, a))
  {
    hide Next, Counters, Views, Cells, Fifo, Enabled;
    StepKeepsCounters(r, a);
    StepKeepsViews(r, a);
    StepKeepsCells(r, a);
    StepKeepsFifo(r, a);
  }

  lemma UnpackCounters<T>(r: Ring<T>)
    requires Valid(r)
    ensures Counters(r)
  {
  }

  lemma {:induction false} RunKeepsValid<T>(r: Ring<T>, run: seq<Action<T>>, r': Ring<T>)
    requires |r.slots| > 0 && Valid(r) && Reaches(r, run, r')
    ensures Valid(r') && |r'.slots| == |r.slots|
    decreases |run|
  {
    hide Next, Valid, Enabled;
    if |run| > 0 {
      assert Counters(r) by { UnpackCounters(r); }
      StepKeepsCounters(r, run[0]);
      StepKeepsValid(r, run[0]);
      RunKeepsValid(Next(r, run[0]), run[1..], r');
    }
  }
}
