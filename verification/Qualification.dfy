/** What it takes to qualify: from the sender's allocation of numbers, over a network that delivers
    every packet once, to the accounting checks on both ends. */
module Qualification {
  import opened Words
  import opened Sequences
  import opened SequenceHistory
  import opened SenderBooks
  import opened SenderTotals
  import opened SenderRun
  import opened ReceiverAccounting
  import opened ThreadedGuarantees
  import opened Validity
  import ReceiverEquivalence
  import ThreadedReceiver
  import ThreadedInput
  import TrackerLaws

  // ----- No number is sent twice -----

  function Range(first: nat, count: nat): (all: set<nat>)
    ensures forall n: nat :: n in all <==> first <= n < first + count
    ensures |all| == count
  {
    if count == 0 then {} else Range(first, count - 1) + {first + count - 1}
  }

  /** The numbers allocated to the packets of a trace, before they are cut to 32 bits. */
  function Allocated(trace: seq<TraceRecord>): set<nat> {
    if trace == [] then {}
    else
      var r := trace[|trace| - 1];
      Allocated(trace[..|trace| - 1]) + Range(r.firstSequence, r.packets)
  }

  lemma AllocatedAfter(trace: seq<TraceRecord>, r: TraceRecord)
    ensures Allocated(trace + [r]) == Allocated(trace) + Range(r.firstSequence, r.packets)
  {
    hide Range;
    assert (trace + [r])[..|trace|] == trace;
  }

  lemma {:induction false} AllocatedJoin(a: seq<TraceRecord>, b: seq<TraceRecord>)
    ensures Allocated(a + b) == Allocated(a) + Allocated(b)
  {
    hide Allocated, Range;
    if b == [] {
      assert a + b == a;
      NothingAllocated();
    } else {
      var past, r := b[..|b| - 1], b[|b| - 1];
      assert b == past + [r] && a + b == (a + past) + [r];
      AllocatedJoin(a, past);
      AllocatedAfter(a + past, r);
      AllocatedAfter(past, r);
    }
  }

  lemma TracesPrefix(entries: seq<TraceRecord>, c: Config, start: U64, worker: nat, b: Batch, sent: nat)
    requires c.Parsed() && Traces(entries, c, start, worker, b, sent) && entries != []
    ensures var past, e := entries[..|entries| - 1], entries[|entries| - 1];
            Traces(past, c, start, worker, b, TracePackets(past)) &&
            e.firstSequence == b.sequence + TracePackets(past) && sent == TracePackets(past) + e.packets
  {
    var past := entries[..|entries| - 1];
    forall i | 0 <= i < |past|
      ensures EntryOf(past[i], TracePackets(past[..i]), c, start, worker, b)
    {
      assert past[..i] == entries[..i];
      assert EntryOf(entries[i], TracePackets(entries[..i]), c, start, worker, b);
    }
    assert EntryOf(entries[|past|], TracePackets(entries[..|past|]), c, start, worker, b);
  }

  /** The packets sent of a batch carry the first numbers of its range. */
  lemma {:induction false} TracesRange(entries: seq<TraceRecord>, c: Config, start: U64, worker: nat, b: Batch,
                                       sent: nat)
    requires c.Parsed() && Traces(entries, c, start, worker, b, sent)
    ensures Allocated(entries) == Range(b.sequence, sent)
  {
    if entries != [] {
      hide Traces, TracePackets;
      TracesPrefix(entries, c, start, worker, b, sent);
      var past := entries[..|entries| - 1];
      TracesRange(past, c, start, worker, b, TracePackets(past));
    } else {
      assert sent == 0;
    }
  }

  /** No number lies in the ranges of two batches. */
  ghost predicate Apart(batches: seq<Batch>) {
    forall i, j, n: nat :: 0 <= i < j < |batches| && Covers(batches[i], n) ==> !Covers(batches[j], n)
  }

  ghost predicate CoveredBy(n: nat, batches: seq<Batch>) { exists i :: 0 <= i < |batches| && Covers(batches[i], n) }

  lemma JoinSize(a: set<nat>, b: set<nat>)
    requires a !! b
    ensures |a + b| == |a| + |b|
  {
  }

  lemma RecordedPart(c: Config, start: U64, worker: nat, batches: seq<Batch>, parts: seq<seq<TraceRecord>>)
    requires c.Parsed() && Recorded(c, start, worker, batches, parts) && parts != []
    ensures |batches| == |parts|
    ensures var n := |parts| - 1;
            && Recorded(c, start, worker, batches[..n], parts[..n])
            && Allocated(parts[n]) == Range(batches[n].sequence, TracePackets(parts[n]))
            && TracePackets(parts[n]) <= batches[n].count
  {
    var n := |parts| - 1;
    TracesRange(parts[n], c, start, worker, batches[n], TracePackets(parts[n]));
  }

  /** One worker's trace carries as many numbers as packets, all from its own batches. */
  lemma {:induction false} FlatAllocated(c: Config, start: U64, worker: nat, batches: seq<Batch>,
                                         parts: seq<seq<TraceRecord>>)
    requires c.Parsed() && Recorded(c, start, worker, batches, parts) && Apart(batches)
    ensures |Allocated(Flat(parts))| == TracePackets(Flat(parts))
    ensures forall n :: n in Allocated(Flat(parts)) ==> CoveredBy(n, batches)
  {
    hide Recorded, TracePackets, Allocated;
    if parts != [] {
      var k := |parts| - 1;
      RecordedPart(c, start, worker, batches, parts);
      FlatAllocated(c, start, worker, batches[..k], parts[..k]);
      var past, part := Flat(parts[..k]), parts[k];
      AllocatedJoin(past, part);
      TracesAdd(past, part);
      PastIsApart(batches, Allocated(past), Allocated(part));
    } else {
      NothingAllocated();
    }
  }

  lemma NothingAllocated()
    ensures Allocated([]) == {} && TracePackets([]) == 0
  {
  }

  lemma PastIsApart(batches: seq<Batch>, past: set<nat>, last: set<nat>)
    requires batches != [] && Apart(batches)
    requires forall n :: n in past ==> CoveredBy(n, batches[..|batches| - 1])
    requires forall n :: n in last ==> Covers(batches[|batches| - 1], n)
    ensures past !! last && |past + last| == |past| + |last|
    ensures forall n :: n in past + last ==> CoveredBy(n, batches)
  {
    var k := |batches| - 1;
    forall n | n in past
      ensures n !in last && CoveredBy(n, batches)
    {
      var i :| 0 <= i < k && Covers(batches[..k][i], n);
      assert Covers(batches[i], n);
    }
    JoinSize(past, last);
  }

  // ----- Across workers -----

  /** No number lies in the ranges of two batches, of one worker or of two. */
  ghost predicate AllApart(runs: seq<seq<Batch>>) {
    && (forall w :: 0 <= w < |runs| ==> Apart(runs[w]))
    && (forall v, w, n: nat :: 0 <= v < w < |runs| && CoveredBy(n, runs[v]) ==> !CoveredBy(n, runs[w]))
  }

  /** Where in the log a worker's batch was numbered. */
  lemma {:induction false} Numbered(log: seq<Grab>, worker: nat, i: nat) returns (k: nat)
    requires i < |OwnBatches(log, worker)|
    ensures k < |log| && log[k].worker == worker && log[k].batch == OwnBatches(log, worker)[i]
    ensures |OwnBatches(log[..k], worker)| == i
  {
    var n := |log| - 1;
    if i < |OwnBatches(log[..n], worker)| {
      k := Numbered(log[..n], worker, i);
      assert log[..n][..k] == log[..k];
    } else {
      k := n;
    }
  }

  lemma LogIsApart(log: seq<Grab>, k: nat, l: nat, n: nat)
    requires InOrder(log) && k < |log| && l < |log| && k != l
    ensures !(Covers(log[k].batch, n) && Covers(log[l].batch, n))
  {
    RangesTile(log, n);
  }

  lemma InterleavedIsApart(log: seq<Grab>, runs: seq<seq<Batch>>)
    requires Interleaves(log, runs)
    ensures AllApart(runs)
  {
    forall w, i, j, n: nat | 0 <= w < |runs| && 0 <= i < j < |runs[w]| && Covers(runs[w][i], n)
      ensures !Covers(runs[w][j], n)
    {
      var k := Numbered(log, w, i);
      var l := Numbered(log, w, j);
      LogIsApart(log, k, l, n);
    }
    forall v, w, n: nat | 0 <= v < w < |runs| && CoveredBy(n, runs[v])
      ensures !CoveredBy(n, runs[w])
    {
      var i :| 0 <= i < |runs[v]| && Covers(runs[v][i], n);
      forall j | 0 <= j < |runs[w]|
        ensures !Covers(runs[w][j], n)
      {
        var k := Numbered(log, v, i);
        var l := Numbered(log, w, j);
        LogIsApart(log, k, l, n);
      }
    }
  }

  lemma CoveredIsGranted(log: seq<Grab>, runs: seq<seq<Batch>>, w: nat, n: nat)
    requires Interleaves(log, runs) && w < |runs| && CoveredBy(n, runs[w])
    ensures n < Granted(log)
  {
    var i :| 0 <= i < |runs[w]| && Covers(runs[w][i], n);
    var k := Numbered(log, w, i);
    RangesTile(log, n);
  }

  lemma WorkerAllocated(c: Config, start: U64, worker: nat, a: Account, run: WorkerRun, script: Script)
    requires c.Parsed() && c.traced && Explains(c, start, worker, a, run, script) && Apart(run.batches)
    ensures |Allocated(a.books.trace)| == TracePackets(a.books.trace)
    ensures forall n :: n in Allocated(a.books.trace) ==> CoveredBy(n, run.batches)
  {
    hide Settled, Planned, Recorded, Apart, PlaysOut;
    FlatAllocated(c, start, worker, run.batches, run.parts);
  }

  /** The merged trace carries as many numbers as packets, each from a batch. */
  lemma {:induction false} AllAllocated(c: Config, start: U64, accounts: seq<Account>, runs: seq<WorkerRun>,
                                        scripts: seq<Script>)
    requires c.Parsed() && c.traced && AllExplained(c, start, accounts, runs, scripts) && AllApart(BatchesOf(runs))
    ensures |Allocated(AllTraces(accounts))| == TracePackets(AllTraces(accounts))
    ensures forall n :: n in Allocated(AllTraces(accounts)) ==>
              exists w :: 0 <= w < |runs| && CoveredBy(n, BatchesOf(runs)[w])
  {
    hide Explains, TracePackets, Allocated, CoveredBy, Apart;
    if accounts == [] {
      NothingAllocated();
    } else {
      var w := |accounts| - 1;
      assert BatchesOf(runs[..w]) == BatchesOf(runs)[..w];
      AllAllocated(c, start, accounts[..w], runs[..w], scripts);
      assert Apart(BatchesOf(runs)[w]) && BatchesOf(runs)[w] == runs[w].batches;
      WorkerAllocated(c, start, w, accounts[w], runs[w], scripts[w]);
      var past, last := AllTraces(accounts[..w]), accounts[w].books.trace;
      AllocatedJoin(past, last);
      TracesAdd(past, last);
      forall n | n in Allocated(past)
        ensures n !in Allocated(last)
        ensures exists v :: 0 <= v < |runs| && CoveredBy(n, BatchesOf(runs)[v])
      {
        var v :| 0 <= v < w && CoveredBy(n, BatchesOf(runs[..w])[v]);
        assert CoveredBy(n, BatchesOf(runs)[v]) && BatchesOf(runs)[w] == runs[w].batches;
      }
      forall n | n in Allocated(last)
        ensures exists v :: 0 <= v < |runs| && CoveredBy(n, BatchesOf(runs)[v])
      {
        assert CoveredBy(n, BatchesOf(runs)[w]);
      }
      JoinSize(Allocated(past), Allocated(last));
    }
  }

  /** On the wire nothing changes as long as the numbers fit 32 bits. */
  lemma {:induction false} CarriedIsAllocated(trace: seq<TraceRecord>)
    requires forall n :: n in Allocated(trace) ==> n < TWO_TO_32
    ensures forall n: nat :: n in CarriedBy(trace) <==> n in Allocated(trace)
    ensures |CarriedBy(trace)| == |Allocated(trace)|
  {
    hide Carried, OnWire;
    if trace != [] {
      var r := trace[|trace| - 1];
      assert Allocated(trace) == Allocated(trace[..|trace| - 1]) + Range(r.firstSequence, r.packets);
      CarriedIsAllocated(trace[..|trace| - 1]);
      RangeOnWire(r.firstSequence, r.packets);
    }
    SameSize(CarriedBy(trace), Allocated(trace));
  }

  lemma SameSize(a: set<U32>, b: set<nat>)
    requires forall n: nat :: n in a <==> n in b
    ensures |a| == |b|
  {
    assert a == b;
  }

  lemma RangeOnWire(first: nat, count: nat)
    requires forall n :: n in Range(first, count) ==> n < TWO_TO_32
    ensures forall n: nat :: n in Carried(first, count) <==> n in Range(first, count)
  {
    hide Carried, OnWire;
    forall n: nat
      ensures n in Carried(first, count) <==> n in Range(first, count)
    {
      if n < TWO_TO_32 { CarriedMeans(first, count, n); }
      if n in Carried(first, count) {
        var m: nat :| first <= m < first + count && OnWire(m) == n;
        assert m in Range(first, count);
        SmallOnWire(m);
      }
      if n in Range(first, count) { SmallOnWire(n); }
    }
  }

  /** However the workers interleave on the shared counter, no number goes out twice: the trace carries
      as many numbers as successful packets, all below the counter, while that fits 32 bits. */
  lemma {:induction false} NumbersGoOutOnce(c: Config, start: U64, accounts: seq<Account>, runs: seq<WorkerRun>,
                                            scripts: seq<Script>, log: seq<Grab>)
    requires c.Parsed() && c.traced && AllExplained(c, start, accounts, runs, scripts)
    requires Interleaves(log, BatchesOf(runs)) && Granted(log) <= TWO_TO_32
    ensures |CarriedBy(AllTraces(accounts))| == TracePackets(AllTraces(accounts))
    ensures forall s :: s in CarriedBy(AllTraces(accounts)) ==> s < Granted(log)
  {
    hide Interleaves, AllApart, AllExplained, CoveredBy, Granted;
    var trace := AllTraces(accounts);
    InterleavedIsApart(log, BatchesOf(runs));
    AllAllocated(c, start, accounts, runs, scripts);
    forall n | n in Allocated(trace)
      ensures n < Granted(log)
    {
      var w :| 0 <= w < |runs| && CoveredBy(n, BatchesOf(runs)[w]);
      CoveredIsGranted(log, BatchesOf(runs), w, n);
    }
    CarriedIsAllocated(trace);
  }

  // ----- A network that delivers every packet once -----

  /** Every packet that went out arrives exactly once, in any order. */
  ghost predicate DeliversOnce(trace: seq<TraceRecord>, h: Stream) { multiset(h) == multiset(CarriedBy(trace)) }

  lemma OnceMeans(trace: seq<TraceRecord>, h: Stream)
    requires DeliversOnce(trace, h)
    ensures Distinct(h) == CarriedBy(trace) && |h| == |CarriedBy(trace)|
  {
    forall s
      ensures s in h <==> s in CarriedBy(trace)
    {
      assert s in h <==> s in multiset(h);
    }
    assert |multiset(h)| == |h| && |multiset(CarriedBy(trace))| == |CarriedBy(trace)|;
  }

  /** Then the tracker is exact, windows or not: no repeats, and every number counted once. */
  lemma OnceIsExact(trace: seq<TraceRecord>, h: Stream)
    requires DeliversOnce(trace, h)
    ensures Unique(h) == |CarriedBy(trace)| && Duplicates(h) == 0
  {
    OnceMeans(trace, h);
    TrackerLaws.EveryObservationCounted(h);
    TrackerLaws.UniqueIsDistinct(h);
  }

  /** With all numbers below some count sent, there are no gaps either. */
  lemma FullSetHasNoGaps(h: Stream, count: nat)
    requires (forall s :: s in h ==> s < count) && |Distinct(h)| == count
    ensures Gaps(h) == 0
  {
    var all := Range(0, count);
    if h != [] {
      assert Distinct(h) <= all;
      SubsetOfEqualSize(Distinct(h), all);
      assert Missing(h) == {};
    }
    TrackerLaws.GapsAreMissing(h);
  }

  lemma SubsetOfEqualSize(a: set<U32>, b: set<nat>)
    requires a <= b && |a| == |b|
    ensures a == b
  {
    var rest := b - a;
    assert b == a + rest && a !! rest;
    assert |b| == |a| + |rest|;
  }

  // ----- The checks -----

  datatype Shortfall =
    | FailedSends | PacketAccounting | ByteAccounting
    | UniqueMismatch | ProcessedMismatch
    | ReceiveGaps | ReceiveDuplicates | Reordering
    | ProcessedGaps | ProcessedDuplicates
    | ShortPackets | InvalidMagic | UnsupportedVersion | Overflow

  predicate Trips(s: Shortfall, b: Books, payloadSize: nat, r: Report) {
    match s
    case FailedSends => b.failed != 0
    case PacketAccounting => b.attempted != b.successful + b.failed
    case ByteAccounting => b.bytes != b.successful * payloadSize
    case UniqueMismatch => r.receive.unique != b.successful
    case ProcessedMismatch => r.processed.unique != b.successful
    case ReceiveGaps => r.receive.gaps != 0
    case ReceiveDuplicates => r.receive.duplicates != 0
    case Reordering => 10_000 * r.receive.reordered >= (if r.receive.unique > 1 then r.receive.unique else 1)
    case ProcessedGaps => r.processed.gaps != 0
    case ProcessedDuplicates => r.processed.duplicates != 0
    case ShortPackets => r.ingress.short != 0
    case InvalidMagic => r.ingress.invalidMagic != 0
    case UnsupportedVersion => r.ingress.unsupportedVersion != 0
    case Overflow => r.ingress.overflow != 0
  }

  /** No check trips exactly when nothing failed, the books settle, every packet submitted was received and
      processed once, and nothing was missing, repeated, malformed or dropped, with fewer than one packet
      in 10,000 overtaken. */
  lemma NothingTripsMeans(b: Books, payloadSize: nat, r: Report)
    ensures (forall s :: !Trips(s, b, payloadSize, r)) <==>
              && b.failed == 0 && b.attempted == b.successful && b.bytes == payloadSize * b.successful
              && r.receive.unique == b.successful && r.processed.unique == b.successful
              && r.receive.gaps == 0 && r.receive.duplicates == 0
              && r.processed.gaps == 0 && r.processed.duplicates == 0
              && (if b.successful == 0 then r.receive.reordered == 0
                  else 10_000 * r.receive.reordered < b.successful)
              && r.ingress.short == 0 && r.ingress.invalidMagic == 0 && r.ingress.unsupportedVersion == 0
              && r.ingress.overflow == 0
  {
    if forall s :: !Trips(s, b, payloadSize, r) {
      assert !Trips(FailedSends, b, payloadSize, r) && !Trips(PacketAccounting, b, payloadSize, r);
      assert !Trips(ByteAccounting, b, payloadSize, r) && !Trips(UniqueMismatch, b, payloadSize, r);
      assert !Trips(ProcessedMismatch, b, payloadSize, r) && !Trips(ReceiveGaps, b, payloadSize, r);
      assert !Trips(ReceiveDuplicates, b, payloadSize, r) && !Trips(Reordering, b, payloadSize, r);
      assert !Trips(ProcessedGaps, b, payloadSize, r) && !Trips(ProcessedDuplicates, b, payloadSize, r);
      assert !Trips(ShortPackets, b, payloadSize, r) && !Trips(InvalidMagic, b, payloadSize, r);
      assert !Trips(UnsupportedVersion, b, payloadSize, r) && !Trips(Overflow, b, payloadSize, r);
    }
  }

  /** The accounting part of qualification_reasons. */
  method QualificationReasons(b: Books, payloadSize: nat, r: Report) returns (reasons: seq<Shortfall>)
    ensures forall s :: s in reasons <==> Trips(s, b, payloadSize, r)
  {
    var sender := SenderReasons(b, payloadSize, r);
    var counts := CountReasons(b, payloadSize, r);
    var receiver := ReceiverReasons(b, payloadSize, r);
    reasons := sender + counts + receiver;
  }

  predicate OfSender(s: Shortfall) {
    s.FailedSends? || s.PacketAccounting? || s.ByteAccounting? || s.UniqueMismatch? || s.ProcessedMismatch?
  }

  predicate OfCounts(s: Shortfall) { s.ReceiveGaps? || s.ReceiveDuplicates? || s.Reordering? }

  method SenderReasons(b: Books, payloadSize: nat, r: Report) returns (reasons: seq<Shortfall>)
    ensures forall s :: s in reasons <==> OfSender(s) && Trips(s, b, payloadSize, r)
  {
    reasons := [];
    if b.failed != 0 { reasons := reasons + [FailedSends]; }
    if b.attempted != b.successful + b.failed { reasons := reasons + [PacketAccounting]; }
    if b.bytes != b.successful * payloadSize { reasons := reasons + [ByteAccounting]; }
    if r.receive.unique != b.successful { reasons := reasons + [UniqueMismatch]; }
    if r.processed.unique != b.successful { reasons := reasons + [ProcessedMismatch]; }
  }

  method CountReasons(ghost b: Books, ghost payloadSize: nat, r: Report) returns (reasons: seq<Shortfall>)
    ensures forall s :: s in reasons <==> OfCounts(s) && Trips(s, b, payloadSize, r)
  {
    reasons := [];
    if r.receive.gaps != 0 { reasons := reasons + [ReceiveGaps]; }
    if r.receive.duplicates != 0 { reasons := reasons + [ReceiveDuplicates]; }
    if 10_000 * r.receive.reordered >= (if r.receive.unique > 1 then r.receive.unique else 1) {
      reasons := reasons + [Reordering];
    }
  }

  method ReceiverReasons(ghost b: Books, ghost payloadSize: nat, r: Report) returns (reasons: seq<Shortfall>)
    ensures forall s :: s in reasons <==> !OfSender(s) && !OfCounts(s) && Trips(s, b, payloadSize, r)
  {
    reasons := [];
    if r.processed.gaps != 0 { reasons := reasons + [ProcessedGaps]; }
    if r.processed.duplicates != 0 { reasons := reasons + [ProcessedDuplicates]; }
    if r.ingress.short != 0 { reasons := reasons + [ShortPackets]; }
    if r.ingress.invalidMagic != 0 { reasons := reasons + [InvalidMagic]; }
    if r.ingress.unsupportedVersion != 0 { reasons := reasons + [UnsupportedVersion]; }
    if r.ingress.overflow != 0 { reasons := reasons + [Overflow]; }
  }

  /** A receiver's report of datagrams that are all valid. */
  lemma AllValidTally(ds: seq<Datagram>, sampleEvery: nat)
    requires forall d :: d in ds ==> KindOf(d) == Accepted
    ensures var t := TallyOf(ds, sampleEvery); t.short == t.invalidMagic == t.unsupportedVersion == 0
  {
    forall k | k in Kinds(ds)
      ensures k == Accepted
    {
      var i :| 0 <= i < |ds| && Kinds(ds)[i] == k;
      assert ds[i] in ds;
    }
    TallyMeans(ds, sampleEvery);
    assert multiset(Kinds(ds))[Short] == 0;
  }

  /** What a receiver must have been handed: every packet once, and nothing else. */
  ghost predicate CleanInput(trace: seq<TraceRecord>, ds: seq<Datagram>, sampleEvery: nat) {
    (forall d :: d in ds ==> KindOf(d) == Accepted) && DeliversOnce(trace, NumbersOf(Packets(ds, sampleEvery)))
  }

  /** The receiver's side of qualification, on any schedule that does not overflow. */
  lemma CleanReport(trace: seq<TraceRecord>, count: nat, c: ThreadedReceiver.Config,
                    schedule: seq<ThreadedReceiver.Event>)
    requires ThreadedReceiver.After(c, schedule).producer.Joined?
    requires ThreadedReceiver.After(c, schedule).tally.overflow == 0
    requires CleanInput(trace, Delivered(ThreadedInput.Calls(c, schedule)), c.sampleEvery)
    requires |CarriedBy(trace)| == count && forall s :: s in CarriedBy(trace) ==> s < count
    ensures var r := FinalReport(ThreadedReceiver.After(c, schedule));
            && r.receive == r.processed
            && r.receive == SequencesOf(NumbersOf(Packets(Delivered(ThreadedInput.Calls(c, schedule)), c.sampleEvery)))
            && r.receive.unique == count && r.receive.gaps == r.receive.duplicates == 0
            && r.ingress.short == r.ingress.invalidMagic == r.ingress.unsupportedVersion == r.ingress.overflow == 0
  {
    hide CarriedBy, Unique, Gaps, Duplicates, Reordered, OutOfWindow, TallyOf;
    var ds := Delivered(ThreadedInput.Calls(c, schedule));
    var h := NumbersOf(Packets(ds, c.sampleEvery));
    ReceiverEquivalence.ThreadedMatchesSynchronous(c, schedule);
    AllValidTally(ds, c.sampleEvery);
    OnceMeans(trace, h);
    OnceIsExact(trace, h);
    assert forall s :: s in h ==> s in Distinct(h);
    FullSetHasNoGaps(h, count);
  }

  /** End to end: a sender without failures, whose workers interleave however they like on the shared
      counter, over a network that delivers every packet once, into a receiver that never overflows on
      whatever schedule, trips no accounting check, unless packets overtook one another, and then only
      the one for reordering. */
  lemma {:induction false} CleanRunQualifies(sender: Config, start: U64, total: Books, accounts: seq<Account>,
                                             runs: seq<WorkerRun>, scripts: seq<Script>, log: seq<Grab>,
                                             c: ThreadedReceiver.Config, schedule: seq<ThreadedReceiver.Event>,
                                             s: Shortfall)
    requires sender.Parsed() && sender.traced && AllExplained(sender, start, accounts, runs, scripts)
    requires Balanced(total, sender.payloadSize, sender.sendBatchMax, sender.traced, NotOpened(accounts))
    requires total.attempted == Attempts(accounts) == total.successful && total.failed == 0
    requires total.trace == AllTraces(accounts)
    requires Interleaves(log, BatchesOf(runs)) && Granted(log) <= TWO_TO_32
    requires ThreadedReceiver.After(c, schedule).producer.Joined?
    requires ThreadedReceiver.After(c, schedule).tally.overflow == 0
    requires CleanInput(total.trace, Delivered(ThreadedInput.Calls(c, schedule)), c.sampleEvery)
    ensures Trips(s, total, sender.payloadSize, FinalReport(ThreadedReceiver.After(c, schedule))) ==>
              s == Reordering &&
              !TrackerLaws.Increasing(NumbersOf(Packets(Delivered(ThreadedInput.Calls(c, schedule)), c.sampleEvery)))
  {
    hide AllExplained, Interleaves, Granted, CleanInput, FinalReport, CarriedBy, Attempts, AllTraces, TracePackets;
    var trace := total.trace;
    NumbersGoOutOnce(sender, start, accounts, runs, scripts, log);
    WorkersReport(sender, start, accounts, runs, scripts);
    ReportedAttempts(accounts, log, BatchesOf(runs));
    GrantedIsSent(trace, Granted(log));
    CleanReport(trace, total.successful, c, schedule);
    var h := NumbersOf(Packets(Delivered(ThreadedInput.Calls(c, schedule)), c.sampleEvery));
    if TrackerLaws.Increasing(h) { InOrderIsNotReordered(h, Unique(h)); }
  }

  lemma GrantedIsSent(trace: seq<TraceRecord>, granted: nat)
    requires forall s :: s in CarriedBy(trace) ==> s < granted
    ensures |CarriedBy(trace)| <= granted
  {
    assert CarriedBy(trace) <= Range(0, granted);
    SubsetSize<nat>(CarriedBy(trace), Range(0, granted));
  }

  /** In order, not even reordering. */
  lemma InOrderIsNotReordered(h: Stream, unique: nat)
    requires TrackerLaws.Increasing(h)
    ensures 10_000 * Reordered(h) < (if unique > 1 then unique else 1)
  {
    TrackerLaws.IncreasingIsClean(h);
  }
}
