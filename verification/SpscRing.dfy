/** The bounded single-producer single-consumer ring, and its use by one caller at a time. */
module SpscRing {
  import opened Words
  import opened Options

  /** head is where the producer writes next, tail where the consumer reads next. */
  datatype Ring<T> = Ring(bits: nat, buffer: seq<T>, head: nat, tail: nat) {
    function Capacity(): nat { Pow2(bits) }

    ghost predicate WellFormed() {
      |buffer| == Capacity() && head < Capacity() && tail < Capacity()
    }

    /** Published and not yet released. */
    function Occupancy(): nat
      requires WellFormed()
    {
      if head >= tail then head - tail else head - tail + Capacity()
    }

    /** The slot of the k-th oldest item, across the wrap-around. */
    function Slot(k: nat): (slot: nat)
      requires WellFormed() && k < Capacity()
      ensures slot < Capacity()
    {
      if tail + k < Capacity() then tail + k else tail + k - Capacity()
    }

    /** The published items, oldest first. */
    function Contents(): (items: seq<T>)
      requires WellFormed()
      ensures |items| == Occupancy() < Capacity()
      ensures forall k :: 0 <= k < |items| ==> items[k] == buffer[Slot(k)]
    {
      seq(Occupancy(), k requires 0 <= k < Occupancy() => buffer[Slot(k)])
    }

    /** (i + 1) & mask */
    function Next(i: nat): nat { And(i + 1, Capacity() - 1) }

    predicate Full() { Next(head) == tail }

    predicate Empty() { head == tail }

    function Write(item: T): Ring<T>
      requires WellFormed()
    {
      this.(buffer := buffer[head := item])
    }

    function Publish(): Ring<T> { this.(head := Next(head)) }

    function Release(): Ring<T> { this.(tail := Next(tail)) }
  }

  lemma StepModulo(i: nat, capacity: nat)
    requires i < capacity
    ensures (i + 1) % capacity == if i + 1 == capacity then 0 else i + 1
  {
    if i + 1 == capacity { DivModUnique(i + 1, capacity, 1, 0); }
    else { DivModUnique(i + 1, capacity, 0, i + 1); }
  }

  /** The masked increment steps round the ring. */
  lemma NextWraps<T>(r: Ring<T>, i: nat)
    requires i < r.Capacity()
    ensures r.Next(i) == if i + 1 == r.Capacity() then 0 else i + 1
  {
    MaskIsMod(i + 1, r.bits);
    StepModulo(i, r.Capacity());
  }

  /** The masked 64-bit difference of the indices is the occupancy. */
  lemma MaskedSize<T>(r: Ring<T>)
    requires r.WellFormed() && r.bits <= 64
    ensures r.head < TWO_TO_64 && r.tail < TWO_TO_64
    ensures And(WrapSub(r.head, r.tail), r.Capacity() - 1) == r.Occupancy()
  {
    CapacityFits(r.bits);
    MaskedDifference(r.head, r.tail, r.bits);
    DivModUnique(r.head - r.tail, r.Capacity(), if r.head >= r.tail then 0 else -1, r.Occupancy());
  }

  lemma CapacityFits(bits: nat)
    requires bits <= 64
    ensures Pow2(bits) <= TWO_TO_64
  {
    Pow2OfWord();
    if bits < 64 { Pow2Grows(bits, 64); }
  }

  /** Full means one slot short of the capacity; empty means empty. */
  lemma FullAndEmpty<T>(r: Ring<T>)
    requires r.WellFormed()
    ensures r.Full() <==> |r.Contents()| == r.Capacity() - 1
    ensures r.Empty() <==> r.Contents() == []
  {
    NextWraps(r, r.head);
  }

  /** Writing the head slot touches nothing that is published. */
  lemma WriteIsInvisible<T>(r: Ring<T>, item: T)
    requires r.WellFormed()
    ensures r.Write(item).WellFormed() && r.Write(item).Contents() == r.Contents()
  {
  }

  /** Publishing appends the item written in the head slot. */
  lemma PublishAppends<T>(r: Ring<T>)
    requires r.WellFormed() && |r.Contents()| < r.Capacity() - 1
    ensures r.Publish().WellFormed()
    ensures r.Publish().Contents() == r.Contents() + [r.buffer[r.head]]
  {
    NextWraps(r, r.head);
  }

  /** The tail slot holds the oldest item, and releasing it removes exactly that item. */
  lemma ReleaseRemovesOldest<T>(r: Ring<T>)
    requires r.WellFormed() && r.Contents() != []
    ensures r.Contents()[0] == r.buffer[r.tail]
    ensures r.Release().WellFormed()
    ensures r.Release().Contents() == r.Contents()[1..]
  {
    NextWraps(r, r.tail);
  }

  class SPSCQueue<T(0)> {
    const bits: nat
    const buffer: array<T>
    var head: nat
    var tail: nat

    ghost function Abs(): Ring<T>
      reads this, buffer
    {
      Ring(bits, buffer[..], head, tail)
    }

    ghost predicate Valid()
      reads this, buffer
    {
      Abs().WellFormed() && bits <= 64
    }

    ghost function Contents(): seq<T>
      requires Valid()
      reads this, buffer
    {
      Abs().Contents()
    }

    constructor (bits: nat)
      requires bits <= 64
      ensures Valid() && this.bits == bits && Contents() == [] && fresh(buffer)
    {
      this.bits := bits;
      buffer := new T[Pow2(bits)];
      head, tail := 0, 0;
      new;
      FullAndEmpty(Abs());
    }

    method TryAlloc() returns (slot: Option<nat>)
      requires Valid()
      ensures slot.None? <==> |Contents()| == Pow2(bits) - 1
      ensures slot.Some? ==> slot.value == head
    {
      FullAndEmpty(Abs());
      var nextHead := And(head + 1, Pow2(bits) - 1);
      if nextHead == tail { return None; }
      return Some(head);
    }

    /** Publishes the slot handed out by TryAlloc. */
    method Commit()
      requires Valid() && |Contents()| < Pow2(bits) - 1
      modifies this`head
      ensures Valid() && Contents() == old(Contents()) + [buffer[old(head)]]
    {
      FullAndEmpty(Abs());
      PublishAppends(Abs());
      head := And(head + 1, Pow2(bits) - 1);
    }

    method Push(value: T) returns (ok: bool)
      requires Valid()
      modifies this`head, buffer
      ensures Valid()
      ensures ok <==> |old(Contents())| < Pow2(bits) - 1
      ensures Contents() == if ok then old(Contents()) + [value] else old(Contents())
    {
      var slot := TryAlloc();
      if slot.None? { return false; }
      WriteIsInvisible(Abs(), value);
      ghost var written := Abs().Write(value);
      buffer[slot.value] := value;
      assert Abs() == written;
      Commit();
      return true;
    }

    method Front() returns (item: Option<T>)
      requires Valid()
      ensures item == if Contents() == [] then None else Some(Contents()[0])
    {
      FullAndEmpty(Abs());
      if head == tail { return None; }
      ReleaseRemovesOldest(Abs());
      return Some(buffer[tail]);
    }

    /** Releases the slot the consumer took with Front. */
    method Pop()
      requires Valid() && Contents() != []
      modifies this`tail
      ensures Valid() && Contents() == old(Contents())[1..]
    {
      FullAndEmpty(Abs());
      ReleaseRemovesOldest(Abs());
      tail := And(tail + 1, Pow2(bits) - 1);
    }

    method IsEmpty() returns (empty: bool)
      requires Valid()
      ensures empty <==> Contents() == []
    {
      FullAndEmpty(Abs());
      return head == tail;
    }

    method Size() returns (n: nat)
      requires Valid()
      ensures n == |Contents()|
    {
      MaskedSize(Abs());
      return And(WrapSub(head, tail), Pow2(bits) - 1);
    }
  }
}
