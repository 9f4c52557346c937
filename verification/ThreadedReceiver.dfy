/** The threaded receiver: ingress and worker as two threads of atomic steps on one shared ring.

    Every load or store of head, tail, a slot or producer_done is its own step, and a run is any
    schedule of the two threads. Sequentially consistent interleaving stands for the source's
    release/acquire pairs. */
module ThreadedReceiver {
  import opened Words
  import opened Sequences
  import opened SpscRing
  import opened ReceiverAccounting

  datatype Config = Config(bits: nat, batchSize: nat, maxPackets: nat, sampleEvery: nat)

  datatype Producer =
    | Receive
    | Ingest(pending: seq<Datagram>)
    | Reserve(packet: Packet, pending: seq<Datagram>)
    | Store(packet: Packet, pending: seq<Datagram>, slot: nat)
    | Commit(pending: seq<Datagram>)
    | Measure
    | Signal
    | Join
    | Joined

  datatype Phase = Batch(handled: nat) | Drain

  datatype Consumer =
    | Poll
    | Front(phase: Phase)
    | Begin(phase: Phase, slot: nat)
    | Finish(phase: Phase, slot: nat, item: Packet)
    | Pop(phase: Phase)
    | Exited

  /** The run's history; the code keeps only tallies of it. accepted tells the outcome of each
      push, popped lists the packets whose slot the worker has given back. */
  datatype History = History(received: seq<Datagram>, valid: seq<Packet>, accepted: seq<bool>)

  datatype State = State(
    ring: Ring<Packet>, producerDone: bool, producer: Producer, consumer: Consumer,
    tally: Tally, depth: nat, history: History, processed: seq<Packet>, popped: seq<Packet>)

  datatype Event = Producing(io: Io) | Consuming

  predicate TypeOk(c: Config, s: State) {
    && s.ring.bits == c.bits
    && |s.ring.buffer| == Pow2(c.bits) && s.ring.head < Pow2(c.bits) && s.ring.tail < Pow2(c.bits)
    && (s.producer.Store? ==> s.producer.slot < Pow2(c.bits))
    && (s.consumer.Begin? || s.consumer.Finish? ==> s.consumer.slot < Pow2(c.bits))
  }

  function Initial(c: Config): (s: State)
    ensures TypeOk(c, s)
  {
    var blank := Packet(0, false);
    State(Ring(c.bits, seq(Pow2(c.bits), _ => blank), 0, 0), false, Receive, Poll,
          Tally(0, 0, 0, 0, 0, 0, 0), 0, History([], [], []), [], [])
  }

  function IngestOne(c: Config, s: State, d: Datagram, rest: seq<Datagram>): State {
    var h := s.history.(received := s.history.received + [d]);
    var s' := s.(tally := s.tally.Add(d, c.sampleEvery), history := h, producer := Ingest(rest));
    if KindOf(d) != Accepted then s'
    else
      var p := PacketOf(d, c.sampleEvery);
      s'.(history := h.(valid := h.valid + [p]), producer := Reserve(p, rest))
  }

  function Decide(h: History, ok: bool): History { h.(accepted := h.accepted + [ok]) }

  function ProducerStep(c: Config, s: State, io: Io): State
    requires TypeOk(c, s)
  {
    match s.producer
    case Receive =>
      if c.maxPackets != 0 && s.tally.datagrams >= c.maxPackets then s.(producer := Measure)
      else (
        match io
        case Stop => s.(producer := Measure)
        case Retry => s
        case Fatal => s.(producer := Measure)
        case Returned(ds) =>
          if |ds| <= Request(c.batchSize, c.maxPackets, s.tally.datagrams) then s.(producer := Ingest(ds)) else s
      )
    case Ingest(pending) =>
      if pending == [] then s.(producer := Receive) else IngestOne(c, s, pending[0], pending[1..])
    case Reserve(packet, pending) =>
      if s.ring.Full()
      then s.(tally := s.tally.(overflow := s.tally.overflow + 1), history := Decide(s.history, false),
              producer := Ingest(pending))
      else s.(producer := Store(packet, pending, s.ring.head))
    case Store(packet, pending, slot) =>
      s.(ring := s.ring.(buffer := s.ring.buffer[slot := packet]), producer := Commit(pending))
    case Commit(pending) =>
      s.(ring := s.ring.Publish(), history := Decide(s.history, true), producer := Ingest(pending))
    case Measure =>
      s.(depth := And(WrapSub(s.ring.head, s.ring.tail), Pow2(c.bits) - 1), producer := Signal)
    case Signal => s.(producerDone := true, producer := Join)
    case Join => if s.consumer.Exited? then s.(producer := Joined) else s
    case Joined => s
  }

  function ConsumerStep(c: Config, s: State): State
    requires TypeOk(c, s)
  {
    match s.consumer
    case Poll => s.(consumer := Front(if s.producerDone then Drain else Batch(0)))
    case Front(phase) =>
      if phase.Batch? && phase.handled >= c.batchSize then s.(consumer := Poll)
      else if s.ring.Empty() then s.(consumer := if phase.Batch? then Poll else Exited)
      else s.(consumer := Begin(phase, s.ring.tail))
    case Begin(phase, slot) => s.(consumer := Finish(phase, slot, s.ring.buffer[slot]))
    case Finish(phase, slot, _) =>
      s.(processed := s.processed + [s.ring.buffer[slot]], consumer := Pop(phase))
    case Pop(phase) =>
      s.(ring := s.ring.Release(), popped := s.processed,
         consumer := Front(if phase.Batch? then Batch(phase.handled + 1) else Drain))
    case Exited => s
  }

  function Step(c: Config, s: State, e: Event): (s': State)
    requires TypeOk(c, s)
    ensures TypeOk(c, s')
  {
    NextWraps(s.ring, s.ring.head);
    NextWraps(s.ring, s.ring.tail);
    if e.Producing? then ProducerStep(c, s, e.io) else ConsumerStep(c, s)
  }

  /** The state a schedule leads to. */
  function After(c: Config, schedule: seq<Event>): (s: State)
    ensures TypeOk(c, s)
  {
    if schedule == [] then Initial(c)
    else Step(c, After(c, schedule[..|schedule| - 1]), schedule[|schedule| - 1])
  }

  // ----- The invariant -----

  /** Packets whose push has succeeded, in order. */
  function Pushed(h: History): seq<Packet>
    requires |h.accepted| <= |h.valid|
  {
    Keep(h.valid[..|h.accepted|], h.accepted)
  }

  predicate Pushing(p: Producer) { p.Reserve? || p.Store? || p.Commit? }

  predicate Holding(w: Consumer) { w.Begin? || w.Finish? || w.Pop? }

  /** Nothing is lost, duplicated or reordered between push and pop. */
  ghost predicate Fifo(c: Config, s: State)
    requires TypeOk(c, s)
  {
    && |s.history.valid| == |s.history.accepted| + (if Pushing(s.producer) then 1 else 0)
    && Pushed(s.history) == s.popped + s.ring.Contents()
  }

  /** The worker owns the oldest slot while it holds it. */
  ghost predicate WorkerOwnsSlot(c: Config, s: State)
    requires TypeOk(c, s)
  {
    && (Holding(s.consumer) ==> s.ring.Contents() != [])
    && (s.consumer.Begin? || s.consumer.Finish? ==> s.consumer.slot == s.ring.tail)
    && (s.consumer.Finish? ==> s.consumer.item == s.ring.Contents()[0])
    && s.processed == s.popped + (if s.consumer.Pop? then [s.ring.Contents()[0]] else [])
  }

  function Newest(h: History): Packet
    requires h.valid != []
  {
    h.valid[|h.valid| - 1]
  }

  /** A reserved slot stays free until it is published. */
  ghost predicate IngressOwnsSlot(c: Config, s: State)
    requires TypeOk(c, s)
  {
    && (s.producer.Store? || s.producer.Commit? ==> |s.ring.Contents()| < Pow2(c.bits) - 1)
    && (s.producer.Store? ==> s.producer.slot == s.ring.head)
    && (s.producer.Reserve? || s.producer.Store? ==>
          s.history.valid != [] && s.producer.packet == Newest(s.history))
    && (s.producer.Commit? ==> s.history.valid != [] && s.ring.buffer[s.ring.head] == Newest(s.history))
  }

  /** The shutdown handshake. */
  predicate Handshake(s: State) {
    && (s.producerDone <==> s.producer.Join? || s.producer.Joined?)
    && (s.consumer.Exited? ==> s.producerDone && s.ring.head == s.ring.tail)
    && (s.consumer.Front? || s.consumer.Begin? || s.consumer.Finish? || s.consumer.Pop? ==>
          s.consumer.phase.Drain? ==> s.producerDone)
    && (s.producer.Joined? ==> s.consumer.Exited?)
  }

  function Pending(p: Producer): nat {
    if p.Ingest? || p.Reserve? || p.Store? || p.Commit? then |p.pending| else 0
  }

  ghost predicate Tallied(c: Config, h: History, t: Tally) {
    && t == TallyOf(h.received, c.sampleEvery).(overflow := Dropped(h.accepted))
    && h.valid == Packets(h.received, c.sampleEvery)
  }

  predicate WithinLimit(c: Config, s: State) {
    c.maxPackets != 0 ==> s.tally.datagrams + Pending(s.producer) <= c.maxPackets
  }

  ghost predicate QueueInv(c: Config, s: State) {
    TypeOk(c, s) && Fifo(c, s) && WorkerOwnsSlot(c, s) && IngressOwnsSlot(c, s) && Handshake(s)
  }

  ghost predicate Inv(c: Config, s: State) { QueueInv(c, s) && Tallied(c, s.history, s.tally) && WithinLimit(c, s) }
}
