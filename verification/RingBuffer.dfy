/** The ring buffer as an object, called by one thread at a time. */
module RingBuffers {
  import opened Types
  import opened Words
  import opened RingProtocol

  /** The slots from the oldest item up to the next free one are all different. */
  lemma OthersSpared(size: nat, first: nat, next: nat)
    requires first <= next < first + size
    ensures forall j | first <= j < next :: j % size != next % size
    ensures forall j | first < j <= next :: j % size != first % size
  {
    forall j | first <= j < next ensures j % size != next % size {
      SlotsDiffer(size, j, next);
    }
    forall j | first < j <= next ensures j % size != first % size {
      SlotsDiffer(size, first, j);
    }
  }

  class HPRingBuffer<T(0)> {
    const buffer: array<T>
    var writeSequence: nat
    var readSequence: nat
    ghost var pushed: seq<T>
    ghost var popped: nat

    /** The sequences are the low 64 bits of the counts of pushes and pops, and the slots between them hold
        what was pushed and not popped. */
    ghost predicate Valid()
      reads this, buffer
    {
      && SizeOk(buffer.Length)
      && popped <= |pushed| < popped + buffer.Length
      && writeSequence == |pushed| % WORD && readSequence == popped % WORD
      && forall j | popped <= j < |pushed| :: buffer[j % buffer.Length] == pushed[j]
    }

    ghost function Contents(): seq<T>
      reads this
      requires popped <= |pushed|
    {
      pushed[popped..]
    }

    constructor (size: nat)
      requires SizeOk(size)
      ensures Valid() && fresh(buffer) && buffer.Length == size && Contents() == []
    {
      buffer := new T[size];
      writeSequence, readSequence := 0, 0;
      pushed, popped := [], 0;
    }

    /** Appends an item unless Size - 1 are held already. */
    method TryPush(item: T) returns (ok: bool)
      requires Valid()
      modifies this`writeSequence, this`pushed, buffer
      ensures Valid() && popped == old(popped)
      ensures ok <==> |old(Contents())| < buffer.Length - 1
      ensures Contents() == if ok then old(Contents()) + [item] else old(Contents())
    {
      hide SizeOk, Slot;
      var ws := writeSequence;
      FullTestIsExact(buffer.Length, |pushed|, popped);
      if LooksFull(ws, readSequence, buffer.Length) {
        return false;
      }
      SlotOf(buffer.Length, |pushed|);
      OthersSpared(buffer.Length, popped, |pushed|);
      NextWraps(|pushed|);
      buffer[Slot(ws, buffer.Length)] := item;
      writeSequence := (ws + 1) % WORD;
      pushed := pushed + [item];
      return true;
    }

    /** Removes the oldest item, if there is one. What is left behind in its slot is unspecified. */
    method TryPop() returns (r: Option<T>)
      requires Valid()
      modifies this`readSequence, this`popped, buffer
      ensures Valid() && pushed == old(pushed)
      ensures old(Contents()) == [] <==> r == None
      ensures r.Some? ==> [r.value] + Contents() == old(Contents())
      ensures r == None ==> Contents() == old(Contents())
    {
      hide SizeOk, Slot;
      var rs := readSequence;
      EmptyTestIsExact(buffer.Length, popped, |pushed|);
      if rs == writeSequence {
        return None;
      }
      SlotOf(buffer.Length, popped);
      OthersSpared(buffer.Length, popped, |pushed|);
      NextWraps(popped);
      var i := Slot(rs, buffer.Length);
      var value := buffer[i];
      buffer[i] := *;
      readSequence := (rs + 1) % WORD;
      popped := popped + 1;
      return Some(value);
    }

    method IsEmpty() returns (r: bool)
      requires Valid()
      ensures r <==> Contents() == []
    {
      EmptyTestIsExact(buffer.Length, popped, |pushed|);
      return writeSequence == readSequence;
    }

    method IsFull() returns (r: bool)
      requires Valid()
      ensures r <==> |Contents()| == buffer.Length - 1
    {
      FullTestIsExact(buffer.Length, |pushed|, popped);
      return LooksFull(writeSequence, readSequence, buffer.Length);
    }

    method Size() returns (n: nat)
      requires Valid()
      ensures n == |Contents()| <= buffer.Length - 1
    {
      FullTestIsExact(buffer.Length, |pushed|, popped);
      return Sub(writeSequence, readSequence);
    }
  }
}
