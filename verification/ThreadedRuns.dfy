/** What every run of the threaded receiver guarantees. */
module ThreadedRuns {
  import opened Sequences
  import opened SpscRing
  import opened ReceiverAccounting
  import opened ThreadedReceiver

  lemma InitialHolds(c: Config)
    ensures Inv(c, Initial(c))
  {
    FullAndEmpty(Initial(c).ring);
  }

  // ----- Ingress steps -----

  lemma IngestKeepsQueue(c: Config, s: State, d: Datagram, rest: seq<Datagram>)
    requires QueueInv(c, s) && s.producer.Ingest?
    ensures QueueInv(c, IngestOne(c, s, d, rest))
  {
    var h, h' := s.history, IngestOne(c, s, d, rest).history;
    assert h'.valid[..|h.accepted|] == h.valid[..|h.accepted|];
  }

  lemma IngestKeepsTally(c: Config, s: State, d: Datagram, rest: seq<Datagram>)
    requires Tallied(c, s.history, s.tally)
    ensures var s' := IngestOne(c, s, d, rest); Tallied(c, s'.history, s'.tally)
  {
    var h := s.history;
    OneMoreDatagram(h.received, d, c.sampleEvery);
    TallyAfter(h.received, d, c.sampleEvery);
    OverflowIsSeparate(TallyOf(h.received, c.sampleEvery), Dropped(h.accepted), d, c.sampleEvery);
  }

  /** A packet joins the pushed ones, or not, when its push is decided. */
  lemma Decided(h: History, ok: bool)
    requires |h.valid| == |h.accepted| + 1
    ensures Pushed(Decide(h, ok)) == Pushed(h) + (if ok then [Newest(h)] else [])
    ensures Dropped(h.accepted + [ok]) == Dropped(h.accepted) + (if ok then 0 else 1)
  {
    var n := |h.accepted|;
    assert h.valid[..n + 1] == h.valid == h.valid[..n] + [h.valid[n]];
    KeepAfter(h.valid[..n], h.accepted, h.valid[n], ok);
  }

  lemma ReserveKeepsQueue(c: Config, s: State)
    requires QueueInv(c, s) && s.producer.Reserve?
    ensures QueueInv(c, ProducerStep(c, s, Stop))
  {
    FullAndEmpty(s.ring);
    Decided(s.history, false);
    assert Pushed(s.history) + [] == Pushed(s.history);
  }

  lemma StoreKeepsQueue(c: Config, s: State)
    requires QueueInv(c, s) && s.producer.Store?
    ensures QueueInv(c, ProducerStep(c, s, Stop))
  {
    WriteIsInvisible(s.ring, s.producer.packet);
  }

  lemma CommitKeepsQueue(c: Config, s: State)
    requires QueueInv(c, s) && s.producer.Commit?
    ensures QueueInv(c, ProducerStep(c, s, Stop))
  {
    PublishAppends(s.ring);
    Decided(s.history, true);
    assert s.popped + (s.ring.Contents() + [Newest(s.history)]) == Pushed(s.history) + [Newest(s.history)];
  }

  lemma ProducerKeepsQueue(c: Config, s: State, io: Io)
    requires QueueInv(c, s)
    ensures QueueInv(c, ProducerStep(c, s, io))
  {
    match s.producer
    case Ingest(pending) =>
      if pending != [] { IngestKeepsQueue(c, s, pending[0], pending[1..]); } else { OtherwiseKeepsQueue(c, s, io); }
    case Reserve(_, _) => ReserveKeepsQueue(c, s);
    case Store(_, _, _) => StoreKeepsQueue(c, s);
    case Commit(_) => CommitKeepsQueue(c, s);
    case _ => OtherwiseKeepsQueue(c, s, io);
  }

  lemma OtherwiseKeepsQueue(c: Config, s: State, io: Io)
    requires QueueInv(c, s) && !Pushing(s.producer) && (s.producer.Ingest? ==> s.producer.pending == [])
    ensures QueueInv(c, ProducerStep(c, s, io))
  {
    OtherwiseSameTally(c, s, io);
    IngressMovesOn(c, s, io);
    assert Handshake(ProducerStep(c, s, io));
  }

  lemma IngressMovesOn(c: Config, s: State, io: Io)
    requires TypeOk(c, s) && !Pushing(s.producer) && (s.producer.Ingest? ==> s.producer.pending == [])
    ensures var s' := ProducerStep(c, s, io);
            !Pushing(s'.producer) && s'.ring == s.ring && s'.consumer == s.consumer &&
            s'.processed == s.processed && s'.popped == s.popped
  {
  }

  lemma ReserveKeepsTally(c: Config, s: State)
    requires TypeOk(c, s) && s.producer.Reserve? && Tallied(c, s.history, s.tally)
    requires |s.history.valid| == |s.history.accepted| + 1
    ensures var s' := ProducerStep(c, s, Stop); Tallied(c, s'.history, s'.tally)
  {
    Decided(s.history, false);
  }

  lemma CommitKeepsTally(c: Config, s: State)
    requires TypeOk(c, s) && s.producer.Commit? && Tallied(c, s.history, s.tally)
    requires |s.history.valid| == |s.history.accepted| + 1
    ensures var s' := ProducerStep(c, s, Stop); Tallied(c, s'.history, s'.tally)
  {
    Decided(s.history, true);
  }

  lemma OtherwiseSameTally(c: Config, s: State, io: Io)
    requires TypeOk(c, s) && !s.producer.Reserve? && !s.producer.Commit?
    requires s.producer.Ingest? ==> s.producer.pending == []
    ensures var s' := ProducerStep(c, s, io); s'.history == s.history && s'.tally == s.tally
  {
  }

  lemma ProducerKeepsTally(c: Config, s: State, io: Io)
    requires TypeOk(c, s) && Tallied(c, s.history, s.tally)
    requires Pushing(s.producer) ==> |s.history.valid| == |s.history.accepted| + 1
    ensures var s' := ProducerStep(c, s, io); Tallied(c, s'.history, s'.tally)
  {
    if s.producer.Ingest? && s.producer.pending != [] {
      IngestKeepsTally(c, s, s.producer.pending[0], s.producer.pending[1..]);
    } else if s.producer.Reserve? {
      ReserveKeepsTally(c, s);
    } else if s.producer.Commit? {
      CommitKeepsTally(c, s);
    } else {
      OtherwiseSameTally(c, s, io);
    }
  }

  lemma ProducerKeepsLimit(c: Config, s: State, io: Io)
    requires TypeOk(c, s) && WithinLimit(c, s)
    ensures WithinLimit(c, ProducerStep(c, s, io))
  {
  }

  // ----- Worker steps -----

  lemma FrontKeepsQueue(c: Config, s: State)
    requires QueueInv(c, s) && !Holding(s.consumer)
    ensures QueueInv(c, ConsumerStep(c, s))
  {
    FrontTakesOldest(c, s);
  }

  lemma FrontTakesOldest(c: Config, s: State)
    requires TypeOk(c, s) && Handshake(s) && !Holding(s.consumer)
    ensures var s' := ConsumerStep(c, s);
            s' == s.(consumer := s'.consumer) && Handshake(s') && !s'.consumer.Finish? && !s'.consumer.Pop? &&
            (s'.consumer.Begin? ==> s'.consumer.slot == s.ring.tail && s.ring.Contents() != [])
  {
    FullAndEmpty(s.ring);
  }

  lemma HoldKeepsQueue(c: Config, s: State)
    requires QueueInv(c, s) && (s.consumer.Begin? || s.consumer.Finish?)
    ensures QueueInv(c, ConsumerStep(c, s))
  {
    ReleaseRemovesOldest(s.ring);
  }

  lemma Regroup<T>(a: seq<T>, b: seq<T>)
    requires b != []
    ensures a + [b[0]] + b[1..] == a + b
  {
  }

  lemma PopKeepsQueue(c: Config, s: State)
    requires QueueInv(c, s) && s.consumer.Pop?
    ensures QueueInv(c, ConsumerStep(c, s))
  {
    ReleaseRemovesOldest(s.ring);
    Regroup(s.popped, s.ring.Contents());
  }

  lemma ConsumerKeepsQueue(c: Config, s: State)
    requires QueueInv(c, s)
    ensures QueueInv(c, ConsumerStep(c, s))
  {
    match s.consumer
    case Begin(_, _) => HoldKeepsQueue(c, s);
    case Finish(_, _, _) => HoldKeepsQueue(c, s);
    case Pop(_) => PopKeepsQueue(c, s);
    case _ => FrontKeepsQueue(c, s);
  }

  lemma ConsumerKeepsTally(c: Config, s: State)
    requires TypeOk(c, s)
    ensures var s' := ConsumerStep(c, s);
            s'.history == s.history && s'.tally == s.tally && s'.producer == s.producer
  {
  }

  lemma StepKeeps(c: Config, s: State, e: Event)
    requires Inv(c, s)
    ensures Inv(c, Step(c, s, e))
  {
    if e.Producing? {
      ProducerKeepsQueue(c, s, e.io);
      ProducerKeepsTally(c, s, e.io);
      ProducerKeepsLimit(c, s, e.io);
    } else {
      ConsumerKeepsQueue(c, s);
      ConsumerKeepsTally(c, s);
    }
  }

  /** The invariant holds after every schedule. */
  lemma {:induction false} AlwaysHolds(c: Config, schedule: seq<Event>)
    ensures Inv(c, After(c, schedule))
  {
    if schedule == [] {
      InitialHolds(c);
    } else {
      var before := schedule[..|schedule| - 1];
      AlwaysHolds(c, before);
      StepKeeps(c, After(c, before), schedule[|schedule| - 1]);
    }
  }
}
