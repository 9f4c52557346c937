/** The accounting checks on a finished run, and why a sound network never trips them. */
module Validity {
  import opened Words
  import opened Sequences
  import opened SequenceHistory
  import opened SenderBooks
  import opened ReceiverAccounting
  import ThreadedInput
  import ThreadedReceiver
  import opened ThreadedGuarantees
  import TrackerLaws

  datatype Complaint = ReceivedTooMany | ProcessedTooMany | DoesNotReconcile

  predicate Judges(reasons: seq<Complaint>, successful: nat, r: Report) {
    && (ReceivedTooMany in reasons <==> r.receive.unique > successful)
    && (ProcessedTooMany in reasons <==> r.processed.unique > successful)
    && (DoesNotReconcile in reasons <==> r.processed.count + r.ingress.overflow != r.ingress.valid)
  }

  /** The accounting part of validity_reasons. */
  method AccountingReasons(successful: nat, r: Report) returns (reasons: seq<Complaint>)
    ensures Judges(reasons, successful, r)
  {
    reasons := [];
    if r.receive.unique > successful { reasons := reasons + [ReceivedTooMany]; }
    if r.processed.unique > successful { reasons := reasons + [ProcessedTooMany]; }
    if r.processed.count + r.ingress.overflow != r.ingress.valid { reasons := reasons + [DoesNotReconcile]; }
  }

  // ----- What the sender put on the wire -----

  /** The sequence number a packet carries: the low 32 bits of its allocated number. */
  function OnWire(number: nat): U32 { number % TWO_TO_32 }

  function Carried(first: nat, count: nat): set<U32> {
    if count == 0 then {} else Carried(first, count - 1) + {OnWire(first + count - 1)}
  }

  /** All numbers carried by the successful submissions of a trace. */
  function CarriedBy(trace: seq<TraceRecord>): set<U32> {
    if trace == [] then {}
    else
      var r := trace[|trace| - 1];
      CarriedBy(trace[..|trace| - 1]) + Carried(r.firstSequence, r.packets)
  }

  lemma {:induction false} CarriedMeans(first: nat, count: nat, s: U32)
    ensures s in Carried(first, count) <==> exists n: nat :: first <= n < first + count && OnWire(n) == s
    ensures |Carried(first, count)| <= count
  {
    hide OnWire;
    if count > 0 {
      CarriedMeans(first, count - 1, s);
      var last := first + count - 1;
      if OnWire(last) == s { assert first <= last < first + count; }
    }
  }

  lemma {:induction false} CarriedByMeans(trace: seq<TraceRecord>, s: U32)
    ensures s in CarriedBy(trace) <==>
              exists r :: r in trace && s in Carried(r.firstSequence, r.packets)
  {
    hide Carried;
    if trace != [] {
      var past, r := trace[..|trace| - 1], trace[|trace| - 1];
      assert trace == past + [r];
      CarriedByMeans(past, s);
    }
  }

  /** No more numbers go out than packets are submitted. */
  lemma {:induction false} CarriedByFits(trace: seq<TraceRecord>)
    ensures |CarriedBy(trace)| <= TracePackets(trace)
  {
    hide Carried;
    if trace != [] {
      var past, r := trace[..|trace| - 1], trace[|trace| - 1];
      CarriedByFits(past);
      CarriedMeans(r.firstSequence, r.packets, 0);
      UnionSize(CarriedBy(past), Carried(r.firstSequence, r.packets));
    }
  }

  lemma UnionSize(a: set<U32>, b: set<U32>)
    ensures |a + b| <= |a| + |b|
  {
    assert |a + b| == |a| + |b| - |a * b|;
  }

  /** A network that loses, reorders and duplicates, but delivers no number that was not sent. */
  ghost predicate Delivers(trace: seq<TraceRecord>, valid: seq<Packet>) {
    forall p :: p in valid ==> p.sequence in CarriedBy(trace)
  }

  lemma DistinctWereSent(trace: seq<TraceRecord>, valid: seq<Packet>)
    requires Delivers(trace, valid)
    ensures |Distinct(NumbersOf(valid))| <= TracePackets(trace)
  {
    CarriedByFits(trace);
    forall s | s in Distinct(NumbersOf(valid))
      ensures s in CarriedBy(trace)
    {
      var i :| 0 <= i < |valid| && NumbersOf(valid)[i] == s;
      assert valid[i] in valid;
    }
    SubsetSize(Distinct(NumbersOf(valid)), CarriedBy(trace));
  }

  // ----- End to end -----

  /** The report's unique count exceeds the submissions exactly when the tracker counted again, past
      its lookback, more values than the network lost. */
  lemma TooManyMeansRecounted(trace: seq<TraceRecord>, valid: seq<Packet>)
    requires Delivers(trace, valid)
    ensures var h := NumbersOf(valid);
            Unique(h) > TracePackets(trace) <==> Recounted(h) > TracePackets(trace) - |Distinct(h)|
    ensures Unique(NumbersOf(valid)) > TracePackets(trace) ==> OutOfWindow(NumbersOf(valid)) > 0
  {
    DistinctWereSent(trace, valid);
    TrackerLaws.UniqueIsDistinct(NumbersOf(valid));
  }

  /** Two numbers that share a slot of the tracker, in different blocks. */
  ghost predicate Displaces(sent: set<U32>) {
    exists s, v :: s in sent && v in sent && Slot(v) == Slot(s) && Block(v) > Block(s)
  }

  /** Whatever of the trace a network delivers, and however often, no more is reported than was sent. */
  ghost predicate NeverTooMany(trace: seq<TraceRecord>) {
    forall valid :: Delivers(trace, valid) ==> Unique(NumbersOf(valid)) <= TracePackets(trace)
  }

  lemma {:induction false} NothingRecounted(sent: set<U32>, h: Stream)
    requires !Displaces(sent) && forall s :: s in h ==> s in sent
    ensures Recounted(h) == 0
  {
    if h != [] {
      Unsnoc(h);
      NothingRecounted(sent, Init(h));
      assert Last(h) in h;
      assert forall v :: v in Init(h) ==> v in h;
    }
  }

  lemma {:induction false} Enumerate(sent: set<U32>) returns (h: Stream)
    ensures forall s :: s in h <==> s in sent
  {
    if sent == {} {
      h := [];
    } else {
      var s :| s in sent;
      var rest := Enumerate(sent - {s});
      h := rest + [s];
    }
  }

  /** A displaced number is counted again each time it comes. */
  lemma {:induction false} RecountedEachTime(h: Stream, s: U32, times: nat) returns (g: Stream)
    requires Retired(h, s) && s in h
    ensures Retired(g, s) && Unique(g) == Unique(h) + times
    ensures forall v :: v in g <==> v in h
  {
    if times == 0 {
      g := h;
    } else {
      var before := RecountedEachTime(h, s, times - 1);
      CountersAfter(before, s);
      g := before + [s];
      var v :| v in before && Slot(v) == Slot(s) && Block(v) > Block(s);
      assert v in g;
    }
  }

  function PacketsOf(h: Stream): seq<Packet> { seq(|h|, i requires 0 <= i < |h| => Packet(h[i], false)) }

  /** The unique check is sound for a trace exactly when no two of its numbers share a slot of the
      tracker in different blocks: otherwise a network that repeats the older one trips it. */
  lemma NeverTooManyExactly(trace: seq<TraceRecord>)
    ensures NeverTooMany(trace) <==> !Displaces(CarriedBy(trace))
  {
    var sent := CarriedBy(trace);
    if !Displaces(sent) {
      forall valid | Delivers(trace, valid)
        ensures Unique(NumbersOf(valid)) <= TracePackets(trace)
      {
        assert forall i :: 0 <= i < |valid| ==> valid[i] in valid;
        NothingRecounted(sent, NumbersOf(valid));
        TooManyMeansRecounted(trace, valid);
        DistinctWereSent(trace, valid);
      }
    } else {
      var s, v :| s in sent && v in sent && Slot(v) == Slot(s) && Block(v) > Block(s);
      var h := Enumerate(sent);
      var g := RecountedEachTime(h, s, TracePackets(trace) + 1);
      assert NumbersOf(PacketsOf(g)) == g;
      assert Delivers(trace, PacketsOf(g)) && Unique(g) > TracePackets(trace);
    }
  }

  /** One packet a call, numbered from 0. */
  function Singles(n: nat): seq<TraceRecord> { seq(n, i requires 0 <= i < n => TraceRecord(0, 0, i, 1, 0)) }

  /** Everything sent arrives in order, and then the network repeats the first packet. */
  function WithRepeat(n: nat): seq<Packet>
    requires n <= TWO_TO_32
  {
    seq(n, i requires 0 <= i < n => Packet(i, false)) + [Packet(0, false)]
  }

  function Ramp(n: nat): Stream
    requires n <= TWO_TO_32
  {
    seq(n, i requires 0 <= i < n => i)
  }

  lemma {:induction false} SinglesCount(n: nat)
    ensures TracePackets(Singles(n)) == n
  {
    if n > 0 {
      SinglesCount(n - 1);
      assert Singles(n)[..n - 1] == Singles(n - 1);
    }
  }

  lemma SinglesCarry(n: nat, s: U32)
    requires s < n
    ensures s in CarriedBy(Singles(n))
  {
    hide Carried, CarriedBy;
    CarriedByMeans(Singles(n), s);
    assert Singles(n)[s] in Singles(n);
    CarriedMeans(s, 1, s);
    assert OnWire(s) == s;
  }

  lemma SinglesDeliver(n: nat)
    requires 0 < n <= TWO_TO_32
    ensures Delivers(Singles(n), WithRepeat(n))
  {
    hide Singles, CarriedBy;
    forall p | p in WithRepeat(n)
      ensures p.sequence in CarriedBy(Singles(n))
    {
      SinglesCarry(n, p.sequence);
    }
  }

  /** Number 0 is forgotten when a block sixteen later arrives, which takes 65,537 packets. */
  lemma ZeroIsForgotten(n: nat)
    requires 0 < n <= TWO_TO_32
    ensures Rejected(Ramp(n), 0) <==> n <= 65536
  {
    var h := Ramp(n);
    assert h[0] in h;
    if n > 65536 {
      assert h[65536] in h;
    } else {
      forall v | v in h && Slot(v) == Slot(0)
        ensures Block(v) == Block(0)
      {
        assert v < 65536;
      }
    }
  }

  lemma RepeatAfterRamp(n: nat)
    requires 0 < n <= TWO_TO_32
    ensures Unique(Ramp(n) + [0]) == n + (if n > 65536 then 1 else 0)
  {
    hide Unique, Rejected;
    TrackerLaws.IncreasingIsClean(Ramp(n));
    CountersAfter(Ramp(n), 0);
    ZeroIsForgotten(n);
  }

  /** Packets numbered from 0, one a call: the check is sound up to 65,536 of them and no further. */
  lemma SoundUpTo65536(n: nat)
    requires 0 < n <= TWO_TO_32
    ensures NeverTooMany(Singles(n)) <==> n <= 65536
  {
    var sent := CarriedBy(Singles(n));
    forall s: U32
      ensures s in sent <==> s < n
    {
      if s < n { SinglesCarry(n, s); }
      if s in sent { SinglesCarryOnly(n, s); }
    }
    NeverTooManyExactly(Singles(n));
    if n > 65536 { assert Slot(65536) == Slot(0) && Block(65536) > Block(0) && 0 in sent && 65536 in sent; }
  }

  lemma SinglesCarryOnly(n: nat, s: U32)
    requires n <= TWO_TO_32 && s in CarriedBy(Singles(n))
    ensures s < n
  {
    hide Carried, CarriedBy, OnWire;
    CarriedByMeans(Singles(n), s);
    var r :| r in Singles(n) && s in Carried(r.firstSequence, r.packets);
    CarriedMeans(r.firstSequence, 1, s);
    SmallOnWire(r.firstSequence);
  }

  lemma SmallOnWire(number: nat)
    requires number < TWO_TO_32
    ensures OnWire(number) == number
  {
  }

  /** The check misfires on sound runs: n packets are sent, all arrive, the network repeats the first,
      and the receiver is reported to have received too many exactly from 65,537 packets on. */
  lemma RepeatedPacketTripsTheCheck(n: nat, r: Report, reasons: seq<Complaint>)
    requires 0 < n <= TWO_TO_32
    requires r.receive == SequencesOf(NumbersOf(WithRepeat(n))) && Judges(reasons, TracePackets(Singles(n)), r)
    ensures TracePackets(Singles(n)) == n && Delivers(Singles(n), WithRepeat(n))
    ensures ReceivedTooMany in reasons <==> n > 65536
  {
    SinglesCount(n);
    SinglesDeliver(n);
    RepeatAfterRamp(n);
    assert NumbersOf(WithRepeat(n)) == Ramp(n) + [0];
  }

  /** From the sender's trace to the verdict, over every schedule of the receiver's two threads and
      every network that only loses, reorders and duplicates: processing always reconciles, fewer
      unique packets are processed than received, and no check complains unless some arrival fell
      out of the tracker's window. */
  lemma SoundRunsRaiseNoComplaint(sender: Config, b: Books, unopened: nat, c: ThreadedReceiver.Config,
                                  schedule: seq<ThreadedReceiver.Event>, reasons: seq<Complaint>)
    requires sender.traced && Balanced(b, sender.payloadSize, sender.sendBatchMax, sender.traced, unopened)
    requires ThreadedReceiver.After(c, schedule).producer.Joined?
    requires Delivers(b.trace, Packets(Delivered(ThreadedInput.Calls(c, schedule)), c.sampleEvery))
    requires Judges(reasons, b.successful, FinalReport(ThreadedReceiver.After(c, schedule)))
    ensures DoesNotReconcile !in reasons
    ensures ProcessedTooMany in reasons ==> ReceivedTooMany in reasons
    ensures ReceivedTooMany in reasons ==> FinalReport(ThreadedReceiver.After(c, schedule)).receive.outOfWindow > 0
  {
    ThreadedInput.ReceivedIsDelivered(c, schedule);
    ConservedAtJoin(c, schedule);
    OverflowExplainsUniqueLoss(c, schedule);
    TooManyMeansRecounted(b.trace, ThreadedReceiver.After(c, schedule).history.valid);
  }
}
