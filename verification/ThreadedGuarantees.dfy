/** The promises of the threaded receiver, for every schedule of its two threads. */
module ThreadedGuarantees {
  import opened Words
  import opened Sequences
  import opened SpscRing
  import opened ReceiverAccounting
  import opened ThreadedReceiver
  import opened ThreadedRuns
  import TrackerLaws

  /** First in, first out, at every instant: what was pushed is what was popped followed by what
      the ring holds, and the worker has processed at most one packet it has not popped. */
  lemma FifoAlways(c: Config, schedule: seq<Event>)
    ensures var s := After(c, schedule);
            |s.history.accepted| <= |s.history.valid| && s.ring.WellFormed() &&
            Pushed(s.history) == s.popped + s.ring.Contents() &&
            |s.ring.Contents()| < Pow2(c.bits) &&
            s.popped <= s.processed <= Pushed(s.history) && |s.processed| <= |s.popped| + 1
  {
    AlwaysHolds(c, schedule);
    var s := After(c, schedule);
    if s.consumer.Pop? { Regroup(s.popped, s.ring.Contents()); }
  }

  /** The slot the worker is reading is never overwritten, and the slot the ingress is writing
      holds no published packet. */
  lemma SlotsAreOwned(c: Config, schedule: seq<Event>)
    ensures var s := After(c, schedule);
            s.ring.WellFormed() &&
            (s.consumer.Finish? ==> s.ring.buffer[s.consumer.slot] == s.consumer.item) &&
            (s.producer.Store? ==>
               forall k :: 0 <= k < |s.ring.Contents()| ==> s.ring.Slot(k) != s.producer.slot) &&
            (s.producer.Store? && (s.consumer.Begin? || s.consumer.Finish?) ==>
               s.producer.slot != s.consumer.slot)
  {
    AlwaysHolds(c, schedule);
    var s := After(c, schedule);
    if s.consumer.Finish? { ReleaseRemovesOldest(s.ring); }
  }

  /** A push is refused exactly when capacity - 1 packets were present as tail was loaded. */
  lemma OverflowOnlyWhenFull(c: Config, schedule: seq<Event>, io: Io)
    requires After(c, schedule).producer.Reserve?
    ensures var s, s' := After(c, schedule), After(c, schedule + [Producing(io)]);
            s.ring.WellFormed() &&
            (s'.tally.overflow == s.tally.overflow + 1 <==> |s.ring.Contents()| == Pow2(c.bits) - 1) &&
            (s'.tally.overflow == s.tally.overflow <==> s'.producer.Store?)
  {
    AlwaysHolds(c, schedule);
    OneStep(c, schedule, Producing(io));
    FullAndEmpty(After(c, schedule).ring);
  }

  /** The depth reported at shutdown is the occupancy as tail was loaded. */
  lemma DepthIsOccupancy(c: Config, schedule: seq<Event>, io: Io)
    requires c.bits <= 64 && After(c, schedule).producer.Measure?
    ensures var s := After(c, schedule);
            s.ring.WellFormed() && After(c, schedule + [Producing(io)]).depth == |s.ring.Contents()|
  {
    OneStep(c, schedule, Producing(io));
    MeasureReads(c, After(c, schedule), io);
  }

  lemma MeasureReads(c: Config, s: State, io: Io)
    requires TypeOk(c, s) && c.bits <= 64 && s.producer.Measure?
    ensures ProducerStep(c, s, io).depth == |s.ring.Contents()|
  {
    MaskedSize(s.ring);
  }

  lemma OneStep(c: Config, schedule: seq<Event>, e: Event)
    ensures After(c, schedule + [e]) == Step(c, After(c, schedule), e)
  {
    assert (schedule + [e])[..|schedule|] == schedule;
  }

  /** The statistics written after join, from the tallies and the two trackers. */
  ghost function FinalReport(s: State): Report {
    Report(s.tally, SequencesOf(NumbersOf(s.history.valid)), SequencesOf(NumbersOf(s.processed)))
  }

  /** Exact conservation at join: the ring is empty and the worker has processed the valid packets
      whose push succeeded, all of them, once each and in order. */
  lemma ConservedAtJoin(c: Config, schedule: seq<Event>)
    requires After(c, schedule).producer.Joined?
    ensures var s := After(c, schedule);
            s.ring.WellFormed() && s.ring.Contents() == [] && |s.history.accepted| == |s.history.valid| &&
            s.history.valid == Packets(s.history.received, c.sampleEvery) &&
            s.processed == Keep(s.history.valid, s.history.accepted) &&
            s.tally.overflow == Dropped(s.history.accepted) &&
            |s.processed| + s.tally.overflow == s.tally.valid &&
            s.tally == TallyOf(s.history.received, c.sampleEvery).(overflow := |s.history.valid| - |s.processed|) &&
            (c.maxPackets != 0 ==> s.tally.datagrams <= c.maxPackets)
  {
    AlwaysHolds(c, schedule);
    var s := After(c, schedule);
    FullAndEmpty(s.ring);
    assert s.history.valid[..|s.history.accepted|] == s.history.valid;
    KeptAndDropped(s.history.valid, s.history.accepted);
    TallyMeans(s.history.received, c.sampleEvery);
  }

  /** The report is a function of what was received and processed. */
  lemma ReportAtJoin(c: Config, schedule: seq<Event>)
    requires After(c, schedule).producer.Joined?
    ensures var s := After(c, schedule);
            |s.processed| <= |Packets(s.history.received, c.sampleEvery)| &&
            FinalReport(s) == ReportOf(s.history.received, s.processed, c.sampleEvery)
  {
    ConservedAtJoin(c, schedule);
  }

  /** The worker's tracker never counts more unique packets than the ingress tracker, and the
      shortfall is the overflow less the duplicates that overflowed. */
  ghost predicate LossExplained(receive: SequenceReport, processed: SequenceReport, overflow: nat) {
    && processed.count + overflow == receive.count
    && processed.unique <= receive.unique
    && receive.unique - processed.unique == overflow - (receive.duplicates - processed.duplicates)
    && (receive.outOfWindow == 0 ==>
          processed.outOfWindow == 0 && receive.unique - processed.unique <= overflow)
    && (receive.outOfWindow == 0 && receive.duplicates == 0 ==>
          receive.unique - processed.unique == overflow)
  }

  lemma DroppedPacketsExplainLoss(valid: seq<Packet>, mask: seq<bool>)
    requires |valid| == |mask|
    ensures LossExplained(SequencesOf(NumbersOf(valid)), SequencesOf(NumbersOf(Keep(valid, mask))), Dropped(mask))
  {
    NumbersOfKept(valid, mask);
    KeptAndDropped(valid, mask);
    TrackerLaws.UniqueShortfall(NumbersOf(valid), mask);
  }

  /** What overflow does to the unique counts of a finished run, on every stream. */
  lemma OverflowExplainsUniqueLoss(c: Config, schedule: seq<Event>)
    requires After(c, schedule).producer.Joined?
    ensures var r := FinalReport(After(c, schedule));
            LossExplained(r.receive, r.processed, r.ingress.overflow)
  {
    ConservedAtJoin(c, schedule);
    var h := After(c, schedule).history;
    DroppedPacketsExplainLoss(h.valid, h.accepted);
  }

  // ----- The worker's passes -----

  function HandledIn(w: Consumer): nat {
    match w
    case Front(Batch(n)) => n
    case Begin(Batch(n), _) => n + 1
    case Finish(Batch(n), _, _) => n + 1
    case Pop(Batch(n)) => n + 1
    case _ => 0
  }

  lemma PassStep(c: Config, s: State, e: Event)
    requires TypeOk(c, s) && HandledIn(s.consumer) <= c.batchSize
    ensures HandledIn(Step(c, s, e).consumer) <= c.batchSize
  {
    if e.Producing? { WorkerUntouched(c, s, e.io); }
  }

  lemma WorkerUntouched(c: Config, s: State, io: Io)
    requires TypeOk(c, s)
    ensures ProducerStep(c, s, io).consumer == s.consumer
  {
  }

  /** The worker looks at the done flag again after at most batch_size packets. */
  lemma {:induction false} PassesAreBounded(c: Config, schedule: seq<Event>)
    ensures HandledIn(After(c, schedule).consumer) <= c.batchSize
  {
    hide Step;
    if schedule != [] {
      var past := schedule[..|schedule| - 1];
      PassesAreBounded(c, past);
      PassStep(c, After(c, past), schedule[|schedule| - 1]);
    }
  }

  lemma TakeStep(c: Config, s: State)
    requires TypeOk(c, s) && s.consumer.Front?
    ensures var phase := s.consumer.phase;
            var going := (phase.Drain? || phase.handled < c.batchSize) && s.ring.Contents() != [];
            Step(c, s, Consuming) ==
              s.(consumer := if going then Begin(phase, s.ring.tail) else if phase.Drain? then Exited else Poll)
  {
    FullAndEmpty(s.ring);
  }

  lemma ReadStep(c: Config, s: State)
    requires TypeOk(c, s) && s.consumer.Begin?
    ensures var item := s.ring.buffer[s.consumer.slot];
            Step(c, s, Consuming) == s.(consumer := Finish(s.consumer.phase, s.consumer.slot, item))
  {
  }

  lemma ProcessStep(c: Config, s: State)
    requires TypeOk(c, s) && s.consumer.Finish?
    ensures Step(c, s, Consuming) ==
              s.(processed := s.processed + [s.ring.buffer[s.consumer.slot]], consumer := Pop(s.consumer.phase))
  {
  }

  lemma GiveBackStep(c: Config, s: State)
    requires TypeOk(c, s) && s.consumer.Pop?
    ensures var phase := s.consumer.phase;
            Step(c, s, Consuming) ==
              s.(ring := s.ring.Release(), popped := s.processed,
                 consumer := Front(if phase.Batch? then Batch(phase.handled + 1) else Drain))
  {
  }

  /** In its pass, while packets are left and fewer than batch_size were handled, the worker processes
      the oldest packet and gives back its slot; otherwise the pass is over. */
  lemma WorkerServes(c: Config, s: State)
    requires QueueInv(c, s) && s.consumer.Front?
    ensures var phase := s.consumer.phase;
            var s1 := Step(c, s, Consuming);
            if (phase.Batch? && phase.handled >= c.batchSize) || s.ring.Contents() == [] then
              s1 == s.(consumer := if phase.Batch? then Poll else Exited)
            else
              var s4 := Step(c, Step(c, Step(c, s1, Consuming), Consuming), Consuming);
              && s4.popped == s4.processed == s.processed + [s.ring.Contents()[0]]
              && s4.consumer == Front(if phase.Batch? then Batch(phase.handled + 1) else Drain)
  {
    hide Step, Fifo, IngressOwnsSlot, Handshake;
    TakeStep(c, s);
    if !((s.consumer.phase.Batch? && s.consumer.phase.handled >= c.batchSize) || s.ring.Contents() == []) {
      ReleaseRemovesOldest(s.ring);
      var s1 := Step(c, s, Consuming);
      ReadStep(c, s1);
      var s2 := Step(c, s1, Consuming);
      ProcessStep(c, s2);
      GiveBackStep(c, Step(c, s2, Consuming));
    }
  }

  /** A pass begins by looking at the done flag, and drains exactly when it is set. */
  lemma PassBegins(c: Config, s: State)
    requires TypeOk(c, s) && s.consumer.Poll?
    ensures Step(c, s, Consuming) == s.(consumer := if s.producerDone then Front(Drain) else Front(Batch(0)))
  {
  }

  // ----- Shutdown terminates -----

  /** Worker steps left once the ingress has signalled. */
  function Remaining(c: Config, s: State): nat
    requires s.ring.WellFormed()
  {
    var n := s.ring.Occupancy();
    match s.consumer
    case Exited => 0
    case Poll => 4 * n + 2
    case Front(phase) => if phase.Batch? then 4 * n + 3 else 4 * n + 1
    case Begin(phase, _) => if phase.Batch? then 4 * n + 2 else 4 * n
    case Finish(phase, _, _) => if phase.Batch? then 4 * n + 1 else if n == 0 then 0 else 4 * n - 1
    case Pop(phase) => if phase.Batch? then 4 * n else if n == 0 then 0 else 4 * n - 2
  }

  function WorkerSteps(schedule: seq<Event>): nat {
    if schedule == [] then 0
    else WorkerSteps(schedule[..|schedule| - 1]) + (if schedule[|schedule| - 1].Consuming? then 1 else 0)
  }

  lemma WorkerMakesProgress(c: Config, s: State)
    requires TypeOk(c, s) && s.producerDone && !s.consumer.Exited?
    requires Holding(s.consumer) ==> s.ring.Occupancy() > 0
    ensures var s' := ConsumerStep(c, s);
            s'.producerDone && s'.ring.WellFormed() && Remaining(c, s') < Remaining(c, s)
  {
    NextWraps(s.ring, s.ring.tail);
  }

  lemma IngressIsDone(c: Config, s: State, io: Io)
    requires TypeOk(c, s) && (s.producer.Join? || s.producer.Joined?)
    ensures var s' := ProducerStep(c, s, io);
            s'.producerDone == s.producerDone && s'.ring == s.ring && s'.consumer == s.consumer
  {
  }

  lemma StepDrains(c: Config, s: State, e: Event)
    requires TypeOk(c, s) && WorkerOwnsSlot(c, s) && Handshake(s) && s.producerDone
    ensures var s' := Step(c, s, e);
            s'.producerDone && s'.ring.WellFormed() &&
            (s.consumer.Exited? ==> s'.consumer.Exited?) &&
            (s'.consumer.Exited? || Remaining(c, s') + (if e.Consuming? then 1 else 0) <= Remaining(c, s))
  {
    if e.Producing? {
      IngressIsDone(c, s, e.io);
    } else if !s.consumer.Exited? {
      WorkerMakesProgress(c, s);
    }
  }

  lemma {:induction false} DrainRuns(c: Config, signalled: seq<Event>, rest: seq<Event>)
    requires After(c, signalled).producerDone
    ensures var s, s' := After(c, signalled), After(c, signalled + rest);
            s'.producerDone && s.ring.WellFormed() && s'.ring.WellFormed() &&
            (s'.consumer.Exited? || Remaining(c, s') + WorkerSteps(rest) <= Remaining(c, s))
    decreases |rest|
  {
    AlwaysHolds(c, signalled);
    if rest == [] {
      assert signalled + rest == signalled;
    } else {
      var before, e := rest[..|rest| - 1], rest[|rest| - 1];
      assert signalled + rest == (signalled + before) + [e];
      DrainRuns(c, signalled, before);
      AlwaysHolds(c, signalled + before);
      OneStep(c, signalled + before, e);
      StepDrains(c, After(c, signalled + before), e);
    }
  }

  lemma RemainingBounded(c: Config, s: State)
    requires TypeOk(c, s)
    ensures Remaining(c, s) < 4 * Pow2(c.bits)
  {
  }

  /** Once the done flag is set, 4 * capacity worker steps are enough to reach join, whatever the
      worker was doing when the flag was set and however the threads interleave. */
  lemma ShutdownTerminates(c: Config, signalled: seq<Event>, rest: seq<Event>, io: Io)
    requires After(c, signalled).producerDone
    requires WorkerSteps(rest) >= 4 * Pow2(c.bits)
    ensures After(c, signalled + rest + [Producing(io)]).producer.Joined?
  {
    var s := After(c, signalled + rest);
    DrainRuns(c, signalled, rest);
    RemainingBounded(c, After(c, signalled));
    assert s.consumer.Exited?;
    AlwaysHolds(c, signalled + rest);
    assert s.producer.Join? || s.producer.Joined?;
    OneStep(c, signalled + rest, Producing(io));
  }
}
