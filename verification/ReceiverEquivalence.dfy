/** The three receivers report the same about the same datagrams. */
module ReceiverEquivalence {
  import opened Sequences
  import opened ReceiverAccounting
  import opened SynchronousReceivers
  import opened ThreadedReceiver
  import opened ThreadedInput
  import opened ThreadedGuarantees
  import opened ThreadedOverflow
  import opened Words

  lemma {:induction false} EverythingConsumed(script: seq<Io>, batchSize: nat, maxPackets: nat, n: nat)
    requires WellBehaved(script, batchSize, maxPackets, n)
    ensures Consumed(script, batchSize, maxPackets, n) == Delivered(script)
  {
    if script != [] {
      match script[0]
      case Retry => EverythingConsumed(script[1..], batchSize, maxPackets, n);
      case Returned(ds) => EverythingConsumed(script[1..], batchSize, maxPackets, n + |ds|);
      case _ => assert script[1..] == [];
    }
  }

  /** Equal on all ingress counters but overflow and on the receive side; on the processed side
      exactly when nothing overflowed. */
  ghost predicate Matches(threaded: Report, synchronous: Report) {
    && threaded.ingress.(overflow := 0) == synchronous.ingress
    && threaded.receive == synchronous.receive
    && (threaded.processed == synchronous.processed <==> threaded.ingress.overflow == 0)
  }

  /** On every schedule the threaded receiver's report matches the synchronous one on the datagrams
      its calls returned. */
  lemma ThreadedMatchesSynchronous(c: Config, schedule: seq<Event>)
    requires After(c, schedule).producer.Joined?
    ensures var ds := Delivered(Calls(c, schedule));
            Matches(FinalReport(After(c, schedule)), ReportOf(ds, Packets(ds, c.sampleEvery), c.sampleEvery))
  {
    hide SequenceHistory.Unique, SequenceHistory.Gaps, SequenceHistory.Duplicates;
    hide SequenceHistory.Reordered, SequenceHistory.OutOfWindow;
    ReceivedIsDelivered(c, schedule);
    ReportAtJoin(c, schedule);
    ConservedAtJoin(c, schedule);
    var s := After(c, schedule);
    if s.tally.overflow == 0 { KeepAll(s.history.valid, s.history.accepted); }
  }

  /** Baseline, batched and threaded receivers, handed the same datagrams in whatever splits and on
      whatever schedule, finish with the same report, but for what overflow keeps from the worker. */
  method BatchingPreservesMeaning(one: seq<Io>, many: seq<Io>, batchSize: nat, c: Config, ghost schedule: seq<Event>)
    returns (baseline: Report, batched: Report)
    requires After(c, schedule).producer.Joined?
    requires WellBehaved(one, 1, c.maxPackets, 0) && WellBehaved(many, batchSize, c.maxPackets, 0)
    requires forall io :: io in one && io.Returned? ==> |io.ds| == 1
    requires Delivered(one) == Delivered(many) == Delivered(Calls(c, schedule))
    ensures baseline == batched && Matches(FinalReport(After(c, schedule)), baseline)
  {
    hide Matches, Calls, FinalReport, ReportOf, Consumed, Receiver.Valid;
    EverythingConsumed(one, 1, c.maxPackets, 0);
    EverythingConsumed(many, batchSize, c.maxPackets, 0);
    ThreadedMatchesSynchronous(c, schedule);
    var single := new Receiver(c.sampleEvery);
    single.RunBaseline(one, c.maxPackets);
    assert single.received == Delivered(one);
    baseline := single.Finish();
    var batching := new Receiver(c.sampleEvery);
    batching.RunBatched(many, batchSize, c.maxPackets);
    assert batching.received == Delivered(many);
    batched := batching.Finish();
  }

  /** Every run over the datagrams ends with the processed-side report of a synchronous receiver. */
  ghost predicate AlwaysAgrees(c: Config, ds: seq<Datagram>) {
    forall schedule :: After(c, schedule).producer.Joined? && Delivered(Calls(c, schedule)) == ds ==>
      FinalReport(After(c, schedule)).processed == SequencesOf(NumbersOf(Packets(ds, c.sampleEvery)))
  }

  /** The threaded receiver agrees with the synchronous ones on every schedule exactly for the
      datagrams whose valid packets fit the ring. */
  lemma AgreesExactlyWhenPacketsFit(c: Config, ds: seq<Datagram>)
    requires c.batchSize > 0 && (c.maxPackets == 0 || |ds| <= c.maxPackets)
    ensures AlwaysAgrees(c, ds) <==> |Packets(ds, c.sampleEvery)| <= Pow2(c.bits) - 1
  {
    hide After, Calls, Delivered, SequencesOf;
    var processed := SequencesOf(NumbersOf(Packets(ds, c.sampleEvery)));
    if |Packets(ds, c.sampleEvery)| <= Pow2(c.bits) - 1 {
      forall schedule | After(c, schedule).producer.Joined? && Delivered(Calls(c, schedule)) == ds
        ensures FinalReport(After(c, schedule)).processed == processed
      {
        FewPacketsNeverOverflow(c, schedule);
        ThreadedMatchesSynchronous(c, schedule);
      }
    } else {
      var schedule := LateWorkerRun(c, ds);
      ThreadedMatchesSynchronous(c, schedule);
      assert FinalReport(After(c, schedule)).processed != processed;
    }
  }

  lemma {:induction false} KeepAll<T>(s: seq<T>, mask: seq<bool>)
    requires |s| == |mask| && Dropped(mask) == 0
    ensures Keep(s, mask) == s
  {
    if s != [] {
      KeepAll(s[..|s| - 1], mask[..|s| - 1]);
      assert s == s[..|s| - 1] + [s[|s| - 1]];
    }
  }
}
