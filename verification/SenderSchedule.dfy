/** Exact integer pacing: deadlines, the packet limit, and the longest batch a window admits. */
module SenderSchedule {
  import opened Words

  const SECOND: nat := 1_000_000_000

  /** When packet index is due, in nanoseconds after the start. */
  function Offset(index: nat, rate: nat): nat
    requires rate > 0
  {
    index * SECOND / rate
  }

  /** deadline_ns: the due time, saturated at the largest 64-bit value. */
  function Deadline(start: U64, index: nat, rate: nat): U64
    requires rate > 0
  {
    if Offset(index, rate) > TWO_TO_64 - 1 - start then TWO_TO_64 - 1 else start + Offset(index, rate)
  }

  /** Packets due before the end, before the cast to 64 bits. */
  function DueCount(duration: nat, rate: nat): nat { (duration * rate + (SECOND - 1)) / SECOND }

  /** scheduled_packet_count */
  function PacketLimit(duration: nat, rate: nat): U64 { DueCount(duration, rate) % TWO_TO_64 }

  // ----- Division -----

  lemma FloorBelow(a: nat, d: nat, bound: nat)
    requires d > 0
    ensures a / d < bound <==> a < bound * d
  {
    var q := a / d;
    assert a == d * q + a % d;
    if q < bound { MulMono(d, q + 1, bound); } else { MulMono(d, bound, q); }
  }

  lemma MulMono(d: nat, a: nat, b: nat)
    requires a <= b
    ensures d * a <= d * b
  {
  }

  lemma FloorMono(a: nat, b: nat, d: nat)
    requires d > 0 && a <= b
    ensures a / d <= b / d
  {
    var q := b / d + 1;
    FloorBelow(b, d, q);
    FloorBelow(a, d, q);
  }

  /** Adding b moves a quotient by floor(b/d) or, when d does not divide b, one more. */
  lemma FloorOfSum(a: nat, b: nat, d: nat)
    requires d > 0
    ensures b / d <= (a + b) / d - a / d <= b / d + (if b % d == 0 then 0 else 1)
  {
    var q, r := a / d + b / d, a % d + b % d;
    assert a + b == d * (a / d) + d * (b / d) + r;
    assert d * (a / d) + d * (b / d) == d * q;
    if r < d {
      DivModUnique(a + b, d, q, r);
    } else {
      assert d * (q + 1) == d * q + d;
      DivModUnique(a + b, d, q + 1, r - d);
    }
  }

  // ----- Deadlines and the limit -----

  /** A packet is due before the end exactly when its index is below the due count. */
  lemma DueBeforeEnd(index: nat, duration: nat, rate: nat)
    requires rate > 0
    ensures index < DueCount(duration, rate) <==> Offset(index, rate) < duration
  {
    FloorBelow(index * SECOND, rate, duration);
    var p := duration * rate + (SECOND - 1);
    assert p == SECOND * (p / SECOND) + p % SECOND;
  }

  ghost predicate Adjoint(duration: nat, rate: nat)
    requires rate > 0
  {
    forall index: nat :: index < PacketLimit(duration, rate) <==> Offset(index, rate) < duration
  }

  /** The packet limit schedules exactly the packets due before the end, precisely when their number
      fits in 64 bits; otherwise the cast drops packets that are due. */
  lemma LimitIsAdjoint(duration: nat, rate: nat)
    requires rate > 0
    ensures Adjoint(duration, rate) <==> DueCount(duration, rate) < TWO_TO_64
  {
    var due, limit := DueCount(duration, rate), PacketLimit(duration, rate);
    if due < TWO_TO_64 {
      DivModUnique(due, TWO_TO_64, 0, due);
      forall index: nat
        ensures index < limit <==> Offset(index, rate) < duration
      {
        DueBeforeEnd(index, duration, rate);
      }
    } else {
      DueBeforeEnd(limit, duration, rate);
      assert !(limit < limit) && Offset(limit, rate) < duration;
    }
  }

  /** Ten seconds at 2^63 packets per second: every packet is due, and the limit schedules none. */
  lemma LimitDropsDuePackets()
    ensures DueCount(10 * SECOND, TWO_TO_64 / 2) == 5 * TWO_TO_64
    ensures PacketLimit(10 * SECOND, TWO_TO_64 / 2) == 0 && !Adjoint(10 * SECOND, TWO_TO_64 / 2)
  {
    DivModUnique(10 * SECOND * (TWO_TO_64 / 2) + (SECOND - 1), SECOND, 5 * TWO_TO_64, SECOND - 1);
    LimitIsAdjoint(10 * SECOND, TWO_TO_64 / 2);
  }

  /** An offset is the last whole nanosecond not after the packet's exact time. */
  lemma OffsetIsFloor(index: nat, rate: nat)
    requires rate > 0
    ensures Offset(index, rate) * rate <= index * 1_000_000_000 < (Offset(index, rate) + 1) * rate
  {
    var q := Offset(index, rate);
    FloorBelow(index * SECOND, rate, q);
    FloorBelow(index * SECOND, rate, q + 1);
  }

  /** A deadline is the start plus that offset, or the largest 64-bit value if it would not fit. */
  lemma DeadlineMeans(start: U64, index: nat, rate: nat)
    requires rate > 0
    ensures var d := Deadline(start, index, rate);
            if start + Offset(index, rate) < 0x1_0000_0000_0000_0000
            then start <= d && (d - start) * rate <= index * 1_000_000_000 < (d - start + 1) * rate
            else d == 0xFFFF_FFFF_FFFF_FFFF && (d - start) * rate <= index * 1_000_000_000
  {
    var offset, room := Offset(index, rate), TWO_TO_64 - 1 - start;
    OffsetIsFloor(index, rate);
    MulMono(rate, room, if offset > room then offset else room);
  }

  lemma OffsetMonotone(i: nat, j: nat, rate: nat)
    requires rate > 0 && i <= j
    ensures Offset(i, rate) <= Offset(j, rate)
  {
    FloorMono(i * SECOND, j * SECOND, rate);
  }

  /** Deadlines never go backwards, saturated or not. */
  lemma DeadlineMonotone(start: U64, i: nat, j: nat, rate: nat)
    requires rate > 0 && i <= j
    ensures Deadline(start, i, rate) <= Deadline(start, j, rate)
  {
    OffsetMonotone(i, j, rate);
  }

  /** No drift: whole seconds of packets land on whole seconds. */
  lemma DriftFree(seconds: nat, index: nat, rate: nat)
    requires rate > 0
    ensures Offset(seconds * rate + index, rate) == seconds * SECOND + Offset(index, rate)
  {
    assert (seconds * rate + index) * SECOND == index * SECOND + rate * (seconds * SECOND) by {
      assert (seconds * rate) * SECOND == rate * (seconds * SECOND);
    }
    ModShift(index * SECOND, rate, seconds * SECOND);
  }

  /** Consecutive packets are floor or ceil of 10^9 / rate apart. */
  lemma EvenSpacing(index: nat, rate: nat)
    requires rate > 0
    ensures var gap := Offset(index + 1, rate) - Offset(index, rate);
            SECOND / rate <= gap <= SECOND / rate + (if SECOND % rate == 0 then 0 else 1)
  {
    FloorOfSum(index * SECOND, SECOND, rate);
    assert (index + 1) * SECOND == index * SECOND + SECOND;
  }

  // ----- Striping -----

  /** The k-th packet index of a worker that starts at first and takes every stride-th. */
  function Nth(first: nat, k: nat, stride: nat): nat { first + k * stride }

  lemma NthPlus(first: nat, k: nat, j: nat, stride: nat)
    ensures Nth(first, 0, stride) == first
    ensures Nth(Nth(first, k, stride), j, stride) == Nth(first, k + j, stride)
  {
  }

  lemma NthMonotone(first: nat, k: nat, j: nat, stride: nat)
    requires k <= j
    ensures Nth(first, k, stride) <= Nth(first, j, stride)
  {
    MulMono(stride, k, j);
  }

  lemma NthDivides(first: nat, k: nat, stride: nat)
    requires first < stride
    ensures Nth(first, k, stride) / stride == k && Nth(first, k, stride) % stride == first
  {
    DivModUnique(first + k * stride, stride, k, first);
  }

  lemma NthOfIndex(index: nat, stride: nat)
    requires stride > 0
    ensures Nth(index % stride, index / stride, stride) == index
  {
    assert index == stride * (index / stride) + index % stride;
  }

  // ----- The adaptive batch -----

  /** The k-th packet of a batch may join it: it is scheduled and due within the window. */
  ghost predicate Feasible(first: nat, limit: nat, stride: nat, rate: nat, window: nat, k: nat)
    requires rate > 0
  {
    var index := Nth(first, k, stride);
    index < limit && Offset(index, rate) - Offset(first, rate) <= window
  }

  /** Once a packet is too late for the batch, so is every later one. */
  lemma InfeasibleStays(first: nat, limit: nat, stride: nat, rate: nat, window: nat, k: nat, j: nat)
    requires rate > 0 && k <= j
    requires !Feasible(first, limit, stride, rate, window, k)
    ensures !Feasible(first, limit, stride, rate, window, j)
  {
    NthMonotone(first, k, j, stride);
    OffsetMonotone(Nth(first, k, stride), Nth(first, j, stride), rate);
  }

  /** The longest feasible batch, with the reason it is no longer. */
  ghost predicate LongestBatch(first: nat, limit: nat, stride: nat, rate: nat, batchMax: nat, window: nat, count: nat)
    requires rate > 0
  {
    if first >= limit || stride == 0 || batchMax == 0 then count == 0
    else
      && 1 <= count <= batchMax
      && (forall k :: 0 <= k < count ==> Feasible(first, limit, stride, rate, window, k))
      && (count < batchMax ==> forall k :: k >= count ==> !Feasible(first, limit, stride, rate, window, k))
  }

  method AdaptiveBatchCount(first: nat, limit: nat, stride: nat, rate: nat, batchMax: nat, window: nat)
    returns (count: nat)
    requires rate > 0
    ensures LongestBatch(first, limit, stride, rate, batchMax, window, count)
  {
    if first >= limit || stride == 0 || batchMax == 0 { return 0; }
    count := 1;
    while count < batchMax
      invariant 1 <= count <= batchMax
      invariant forall k :: 0 <= k < count ==> Feasible(first, limit, stride, rate, window, k)
    {
      var index := first + count * stride;
      if index >= limit || index * SECOND / rate - first * SECOND / rate > window {
        forall k | k >= count
          ensures !Feasible(first, limit, stride, rate, window, k)
        {
          InfeasibleStays(first, limit, stride, rate, window, count, k);
        }
        return;
      }
      count := count + 1;
    }
  }

  /** The batch's last packet is scheduled and within the window; the next one, if there is room for
      it, is past the limit or the window. */
  lemma LongestBatchMeans(first: nat, limit: nat, stride: nat, rate: nat, batchMax: nat, window: nat, count: nat)
    requires rate > 0 && LongestBatch(first, limit, stride, rate, batchMax, window, count)
    ensures count == 0 <==> first >= limit || stride == 0 || batchMax == 0
    ensures count > 0 ==>
              var last, next := first + (count - 1) * stride, first + count * stride;
              && count <= batchMax && last < limit
              && last * 1_000_000_000 / rate <= first * 1_000_000_000 / rate + window
              && (count < batchMax ==>
                    next >= limit || next * 1_000_000_000 / rate > first * 1_000_000_000 / rate + window)
  {
    if count > 0 {
      assert Feasible(first, limit, stride, rate, window, count - 1);
      assert count < batchMax ==> !Feasible(first, limit, stride, rate, window, count);
    }
  }

  /** The batch length is determined. */
  lemma LongestBatchUnique(first: nat, limit: nat, stride: nat, rate: nat, batchMax: nat, window: nat, a: nat, b: nat)
    requires rate > 0
    requires LongestBatch(first, limit, stride, rate, batchMax, window, a)
    requires LongestBatch(first, limit, stride, rate, batchMax, window, b)
    ensures a == b
  {
    var k := if a < b then a else b;
    var joins := first < limit && Feasible(first, limit, stride, rate, window, k);
  }
}
