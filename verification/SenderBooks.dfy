/** What a sender books: replies to calls, batches, trace, and what a script of replies must lead to. */
module SenderBooks {
  import opened Words
  import opened Sequences
  import opened SenderSchedule

  const EINTR: int := 4
  const EIO: int := 5

  datatype Mode = Steady | Burst | Flood

  datatype Config = Config(mode: Mode, rate: nat, duration: nat, burstSize: nat, payloadSize: nat,
                           sendBatchMax: nat, batchWindow: nat, threads: nat, traced: bool) {
    /** What option parsing guarantees. */
    predicate Parsed() {
      && rate > 0 && burstSize > 0 && sendBatchMax > 0 && threads > 0
      && (mode.Burst? ==> threads == 1)
    }
  }

  // ----- One sendmmsg call -----

  /** result and errno of a call, the clock around it, and whether a stop was requested by then. */
  datatype Reply = Reply(result: int, errno: int, invocation: U64, completion: U64, stop: bool)

  datatype SendResult = SendResult(successful: nat, failed: nat, retry: bool, partialReturn: bool, error: int)

  function Classify(result: int, errno: int, requested: nat): (r: SendResult)
    ensures r.successful == if result <= 0 then 0 else if result < requested then result else requested
    ensures r.retry <==> result < 0 && errno == 4
    ensures r.failed == if r.retry || result > 0 then 0 else requested
    ensures r.partialReturn <==> 0 < result < requested
    ensures r.error == if result > 0 then 0 else if result < 0 then errno else 5
  {
    if result > 0 then
      var successful := if result < requested then result else requested;
      SendResult(successful, 0, false, successful < requested, 0)
    else if result < 0 && errno == EINTR then SendResult(0, 0, true, false, errno)
    else SendResult(0, requested, false, false, if result < 0 then errno else EIO)
  }

  // ----- The books -----

  datatype TraceRecord = TraceRecord(completion: U64, scheduled: U64, firstSequence: nat, packets: nat, worker: nat)

  datatype Books = Books(
    attempted: nat, successful: nat, failed: nat, bytes: nat, syscalls: nat, partialReturns: nat,
    errorReturns: nat, latenessSamples: nat, latenessSum: nat, latenessMax: nat, lastError: int,
    histogram: seq<nat>, lateness: seq<nat>, trace: seq<TraceRecord>)

  function Blank(sendBatchMax: nat): Books {
    Books(0, 0, 0, 0, 0, 0, 0, 0, 0, 0, 0, seq(sendBatchMax + 1, _ => 0), [], [])
  }

  /** Packets counted by a histogram of submission sizes. */
  function Weighted(histogram: seq<nat>): nat {
    if histogram == [] then 0
    else Weighted(histogram[..|histogram| - 1]) + (|histogram| - 1) * histogram[|histogram| - 1]
  }

  function TracePackets(trace: seq<TraceRecord>): nat {
    if trace == [] then 0 else TracePackets(trace[..|trace| - 1]) + trace[|trace| - 1].packets
  }

  /** Every successful submission is entered the same way everywhere; unopened counts the sockets
      that never opened, each of which books one error without a call. */
  ghost predicate Balanced(b: Books, payloadSize: nat, sendBatchMax: nat, traced: bool, unopened: nat) {
    && b.bytes == b.successful * payloadSize
    && |b.histogram| == sendBatchMax + 1 && b.histogram[0] == 0
    && Weighted(b.histogram) == b.successful
    && Sum(b.histogram) == b.latenessSamples == |b.lateness|
    && b.latenessSamples + b.errorReturns == b.syscalls + unopened
    && Sum(b.lateness) == b.latenessSum
    && (forall l :: l in b.lateness ==> l <= b.latenessMax)
    && b.partialReturns <= b.latenessSamples
    && (if traced then |b.trace| == b.latenessSamples && TracePackets(b.trace) == b.successful else b.trace == [])
  }

  lemma {:induction false} HistogramBump(h: seq<nat>, i: nat)
    requires i < |h|
    ensures Weighted(h[i := h[i] + 1]) == Weighted(h) + i
    ensures Sum(h[i := h[i] + 1]) == Sum(h) + 1
  {
    var n := |h| - 1;
    var h' := h[i := h[i] + 1];
    if i == n {
      assert h'[..n] == h[..n];
      assert n * (h[n] + 1) == n * h[n] + n;
    } else {
      assert h'[..n] == h[..n][i := h[i] + 1];
      HistogramBump(h[..n], i);
    }
  }

  lemma {:induction false} BlankHistogram(n: nat)
    ensures var h := seq(n, _ => 0); Weighted(h) == 0 && Sum(h) == 0
  {
    if n > 0 {
      BlankHistogram(n - 1);
      var h: seq<nat> := seq(n, _ => 0);
      assert h[..n - 1] == seq(n - 1, _ => 0);
    }
  }

  lemma BlankBalanced(payloadSize: nat, sendBatchMax: nat, traced: bool)
    ensures Balanced(Blank(sendBatchMax), payloadSize, sendBatchMax, traced, 0)
  {
    BlankHistogram(sendBatchMax + 1);
  }

  lemma TraceAfter(trace: seq<TraceRecord>, r: TraceRecord)
    ensures TracePackets(trace + [r]) == TracePackets(trace) + r.packets
  {
    assert (trace + [r])[..|trace|] == trace;
  }

  /** The books after one more call that sent r.packets packets. */
  function Entered(b: Books, c: Config, r: TraceRecord, lateness: nat, partialReturn: bool): Books
    requires r.packets < |b.histogram|
  {
    b.(successful := b.successful + r.packets,
       bytes := b.bytes + r.packets * c.payloadSize,
       syscalls := b.syscalls + 1,
       partialReturns := b.partialReturns + (if partialReturn then 1 else 0),
       latenessSamples := b.latenessSamples + 1,
       latenessSum := b.latenessSum + lateness,
       latenessMax := if b.latenessMax < lateness then lateness else b.latenessMax,
       histogram := b.histogram[r.packets := b.histogram[r.packets] + 1],
       lateness := b.lateness + [lateness],
       trace := if c.traced then b.trace + [r] else b.trace)
  }

  lemma EnteredBalances(b: Books, c: Config, r: TraceRecord, lateness: nat, partialReturn: bool)
    requires Balanced(b, c.payloadSize, c.sendBatchMax, c.traced, 0)
    requires 0 < r.packets <= c.sendBatchMax
    ensures r.packets < |b.histogram|
    ensures Balanced(Entered(b, c, r, lateness, partialReturn), c.payloadSize, c.sendBatchMax, c.traced, 0)
    ensures var b' := Entered(b, c, r, lateness, partialReturn);
            b'.attempted == b.attempted && b'.successful == b.successful + r.packets && b'.failed == b.failed &&
            b'.trace == if c.traced then b.trace + [r] else b.trace
  {
    HistogramBump(b.histogram, r.packets);
    SumAfter(b.lateness, lateness);
    TraceAfter(b.trace, r);
    Distribute(b.successful, r.packets, c.payloadSize);
  }

  /** Failed calls leave the submissions as they are. */
  function Errored(b: Books, error: int, failed: nat): Books {
    b.(syscalls := b.syscalls + 1, errorReturns := b.errorReturns + 1, lastError := error, failed := b.failed + failed)
  }

  lemma ErroredBalances(b: Books, c: Config, error: int, failed: nat)
    requires Balanced(b, c.payloadSize, c.sendBatchMax, c.traced, 0)
    ensures Balanced(Errored(b, error, failed), c.payloadSize, c.sendBatchMax, c.traced, 0)
    ensures var b' := Errored(b, error, failed);
            b'.attempted == b.attempted && b'.successful == b.successful && b'.trace == b.trace &&
            b'.failed == b.failed + failed
  {
  }

  lemma Distribute(a: nat, b: nat, c: nat)
    ensures (a + b) * c == a * c + b * c
  {
  }

  // ----- Batches -----

  datatype Batch = Batch(first: nat, count: nat, sequence: nat)

  function Total(batches: seq<Batch>): nat {
    if batches == [] then 0 else Total(batches[..|batches| - 1]) + batches[|batches| - 1].count
  }

  lemma TotalAfter(batches: seq<Batch>, b: Batch)
    ensures Total(batches + [b]) == Total(batches) + b.count
  {
    assert (batches + [b])[..|batches|] == batches;
  }

  function Min(a: nat, b: nat): nat { if a < b then a else b }

  /** The first index of the burst an index belongs to. */
  function BurstStart(index: nat, size: nat): (first: nat)
    requires size > 0
    ensures first <= index && first / size == index / size && first % size == 0
  {
    var q, r := index / size, index % size;
    assert index == size * q + r;
    DivModUnique(size * q, size, q, 0);
    MulMono(size, 0, q);
    index - r
  }

  /** The batch length each mode prescribes at a packet index. */
  ghost predicate CountRule(c: Config, limit: nat, first: nat, count: nat)
    requires c.Parsed()
  {
    match c.mode
    case Flood => count == c.sendBatchMax
    case Burst =>
      first < limit && count == Min(c.sendBatchMax, Min(c.burstSize - first % c.burstSize, limit - first))
    case Steady =>
      first < limit && LongestBatch(first, limit, c.threads, c.rate, c.sendBatchMax, c.batchWindow, count)
  }

  /** Batches a worker submits, each starting a whole number of strides after the one before. */
  ghost predicate Planned(c: Config, limit: nat, worker: nat, batches: seq<Batch>)
    requires c.Parsed()
  {
    forall i :: 0 <= i < |batches| ==>
      && batches[i].first == Nth(worker, Total(batches[..i]), c.threads)
      && CountRule(c, limit, batches[i].first, batches[i].count)
  }

  lemma NothingPlanned(c: Config, limit: nat, worker: nat)
    requires c.Parsed()
    ensures Planned(c, limit, worker, []) && Total([]) == 0
  {
  }

  lemma PlannedAfter(c: Config, limit: nat, worker: nat, batches: seq<Batch>, b: Batch)
    requires c.Parsed() && Planned(c, limit, worker, batches)
    requires b.first == Nth(worker, Total(batches), c.threads) && CountRule(c, limit, b.first, b.count)
    ensures Planned(c, limit, worker, batches + [b])
  {
    forall i | 0 <= i <= |batches|
      ensures (batches + [b])[..i] == batches[..i]
    {
    }
    assert batches[..|batches|] == batches;
  }

  /** A trace entry for a call made when done packets of the batch had been sent. */
  ghost predicate EntryOf(e: TraceRecord, done: nat, c: Config, start: U64, worker: nat, b: Batch)
    requires c.Parsed()
  {
    && e.packets > 0 && e.worker == worker && e.firstSequence == b.sequence + done
    && (c.mode != Flood ==> e.scheduled == Deadline(start, Nth(b.first, done, c.threads), c.rate))
  }

  /** The trace entries of one batch: consecutive runs of its packets, each with its own deadline. */
  ghost predicate Traces(entries: seq<TraceRecord>, c: Config, start: U64, worker: nat, b: Batch, sent: nat)
    requires c.Parsed()
  {
    && TracePackets(entries) == sent
    && forall i :: 0 <= i < |entries| ==> EntryOf(entries[i], TracePackets(entries[..i]), c, start, worker, b)
  }

  lemma NoTraces(c: Config, start: U64, worker: nat, b: Batch)
    requires c.Parsed()
    ensures Traces([], c, start, worker, b, 0)
  {
  }

  lemma TracesAfter(entries: seq<TraceRecord>, c: Config, start: U64, worker: nat, b: Batch, sent: nat, r: TraceRecord)
    requires c.Parsed() && Traces(entries, c, start, worker, b, sent) && EntryOf(r, sent, c, start, worker, b)
    ensures Traces(entries + [r], c, start, worker, b, sent + r.packets)
  {
    hide EntryOf;
    TraceAfter(entries, r);
    forall i | 0 <= i <= |entries|
      ensures (entries + [r])[..i] == entries[..i]
    {
    }
    assert entries[..|entries|] == entries;
  }

  /** The trace batch by batch: part i holds the entries of batch i. */
  ghost predicate Recorded(c: Config, start: U64, worker: nat, batches: seq<Batch>, parts: seq<seq<TraceRecord>>)
    requires c.Parsed()
  {
    && |parts| == |batches|
    && forall i :: 0 <= i < |parts| ==>
         Traces(parts[i], c, start, worker, batches[i], TracePackets(parts[i])) &&
         TracePackets(parts[i]) <= batches[i].count
  }

  lemma RecordedAfter(c: Config, start: U64, worker: nat, batches: seq<Batch>, parts: seq<seq<TraceRecord>>,
                      b: Batch, entries: seq<TraceRecord>, sent: nat)
    requires c.Parsed() && Recorded(c, start, worker, batches, parts)
    requires Traces(entries, c, start, worker, b, sent) && sent <= b.count
    ensures Recorded(c, start, worker, batches + [b], parts + [entries])
  {
    hide EntryOf;
  }

  lemma NothingRecorded(c: Config, start: U64, worker: nat)
    requires c.Parsed()
    ensures Recorded(c, start, worker, [], []) && Flat([]) == []
  {
  }

  function Flat(parts: seq<seq<TraceRecord>>): seq<TraceRecord> {
    if parts == [] then [] else Flat(parts[..|parts| - 1]) + parts[|parts| - 1]
  }

  lemma FlatAfter(parts: seq<seq<TraceRecord>>, entries: seq<TraceRecord>)
    ensures Flat(parts + [entries]) == Flat(parts) + entries
  {
    assert (parts + [entries])[..|parts|] == parts;
  }

  // ----- Scripts -----

  /** How a batch ended: all sent, refused, left by a stop request, or still being submitted when
      the script of replies ends. */
  datatype Ending = Sent | Refused | Abandoned | Pending

  /** One pass of the outer loop: whether it is entered (no stop request, before the end), the
      range start its fetch-add returned, and the replies to its calls. */
  datatype Turn = Turn(enter: bool, sequence: nat, replies: seq<Reply>)

  /** A call was interrupted with a stop already requested. */
  ghost predicate StopSeen(replies: seq<Reply>) {
    exists r :: r in replies && r.stop && r.result < 0 && r.errno == EINTR
  }

  ghost predicate StopMet(turns: seq<Turn>) { exists t :: t in turns && StopSeen(t.replies) }

  /** Replies other than an interrupted call: each of them moves the batch on. */
  function Answers(replies: seq<Reply>): nat {
    if replies == [] then 0
    else (if replies[0].result < 0 && replies[0].errno == EINTR then 0 else 1) + Answers(replies[1..])
  }

  // ----- What a script of replies leads to -----

  /** When the packet in hand was due: in flood mode, when its call was made. */
  function Due(c: Config, start: U64, b: Batch, offset: nat, reply: Reply): U64
    requires c.Parsed()
  {
    if c.mode.Flood? then reply.invocation else Deadline(start, Nth(b.first, offset, c.threads), c.rate)
  }

  function Lateness(due: U64, invocation: U64): nat { if invocation > due then invocation - due else 0 }

  function TraceOf(c: Config, start: U64, worker: nat, b: Batch, offset: nat, reply: Reply, packets: nat): TraceRecord
    requires c.Parsed()
  {
    TraceRecord(reply.completion, Due(c, start, b, offset, reply), b.sequence + offset, packets, worker)
  }

  datatype Submission = Submission(books: Books, offset: nat, ending: Ending)

  /** A batch from its offset on, reply by reply: an interrupted call is repeated unless a stop was
      requested, a failure gives up the rest, and a success books its packets. */
  function Replay(c: Config, start: U64, worker: nat, b: Batch, books: Books, offset: nat, replies: seq<Reply>)
    : (s: Submission)
    requires c.Parsed() && offset <= b.count <= c.sendBatchMax && |books.histogram| == c.sendBatchMax + 1
    ensures |s.books.histogram| == c.sendBatchMax + 1 && s.offset <= b.count
    decreases |replies|
  {
    if offset == b.count then Submission(books, offset, Sent)
    else if replies == [] then Submission(books, offset, Pending)
    else
      var reply := replies[0];
      var outcome := Classify(reply.result, reply.errno, b.count - offset);
      if outcome.retry then
        var after := Errored(books, reply.errno, 0);
        if reply.stop then Submission(after, offset, Abandoned)
        else Replay(c, start, worker, b, after, offset, replies[1..])
      else if outcome.failed > 0 then Submission(Errored(books, outcome.error, outcome.failed), offset, Refused)
      else
        var record := TraceOf(c, start, worker, b, offset, reply, outcome.successful);
        var late := Lateness(record.scheduled, reply.invocation);
        Replay(c, start, worker, b, Entered(books, c, record, late, outcome.partialReturn),
               offset + outcome.successful, replies[1..])
  }

  lemma ReplayStep(c: Config, start: U64, worker: nat, b: Batch, books: Books, offset: nat, replies: seq<Reply>)
    requires c.Parsed() && offset < b.count <= c.sendBatchMax && |books.histogram| == c.sendBatchMax + 1
    ensures replies == [] ==> Replay(c, start, worker, b, books, offset, replies) == Submission(books, offset, Pending)
    ensures replies != [] ==>
              var reply := replies[0];
              var outcome := Classify(reply.result, reply.errno, b.count - offset);
              var s := Replay(c, start, worker, b, books, offset, replies);
              if outcome.retry then
                var after := Errored(books, reply.errno, 0);
                |after.histogram| == c.sendBatchMax + 1 &&
                s == if reply.stop then Submission(after, offset, Abandoned)
                     else Replay(c, start, worker, b, after, offset, replies[1..])
              else if outcome.failed > 0 then
                s == Submission(Errored(books, outcome.error, outcome.failed), offset, Refused)
              else
                var record := TraceOf(c, start, worker, b, offset, reply, outcome.successful);
                var late := Lateness(record.scheduled, reply.invocation);
                var after := Entered(books, c, record, late, outcome.partialReturn);
                |after.histogram| == c.sendBatchMax + 1 &&
                s == Replay(c, start, worker, b, after, offset + outcome.successful, replies[1..])
  {
  }

  lemma ReplayDone(c: Config, start: U64, worker: nat, b: Batch, books: Books, replies: seq<Reply>)
    requires c.Parsed() && b.count <= c.sendBatchMax && |books.histogram| == c.sendBatchMax + 1
    ensures Replay(c, start, worker, b, books, b.count, replies) == Submission(books, b.count, Sent)
  {
  }

  /** A batch is only still pending when it got fewer answers than it has packets left, and only left
      to a stop request that interrupted a call. */
  lemma {:induction false} EndsForAReason(c: Config, start: U64, worker: nat, b: Batch, books: Books, offset: nat,
                                          replies: seq<Reply>)
    requires c.Parsed() && offset <= b.count <= c.sendBatchMax && |books.histogram| == c.sendBatchMax + 1
    ensures var s := Replay(c, start, worker, b, books, offset, replies);
            && (s.ending.Pending? ==> Answers(replies) < b.count - offset)
            && (s.ending.Abandoned? ==> StopSeen(replies))
    decreases |replies|
  {
    hide Errored, Entered, Lateness;
    if offset < b.count && replies != [] {
      var reply := replies[0];
      var outcome := Classify(reply.result, reply.errno, b.count - offset);
      ReplayStep(c, start, worker, b, books, offset, replies);
      if outcome.retry && !reply.stop {
        EndsForAReason(c, start, worker, b, Errored(books, reply.errno, 0), offset, replies[1..]);
      } else if !outcome.retry && outcome.failed == 0 {
        var record := TraceOf(c, start, worker, b, offset, reply, outcome.successful);
        var late := Lateness(record.scheduled, reply.invocation);
        EndsForAReason(c, start, worker, b, Entered(books, c, record, late, outcome.partialReturn),
                       offset + outcome.successful, replies[1..]);
      }
    }
  }

  ghost predicate Sized(c: Config, batches: seq<Batch>) {
    forall b :: b in batches ==> 0 < b.count <= c.sendBatchMax
  }

  /** The books after a worker's batches, each played against the replies of its turn. */
  ghost function Played(c: Config, start: U64, worker: nat, batches: seq<Batch>, turns: seq<Turn>): (books: Books)
    requires c.Parsed() && Sized(c, batches) && |batches| <= |turns|
    ensures |books.histogram| == c.sendBatchMax + 1
  {
    if batches == [] then Blank(c.sendBatchMax)
    else
      var n := |batches| - 1;
      var before := Played(c, start, worker, batches[..n], turns);
      var b := batches[n];
      Replay(c, start, worker, b, Attempting(before, b.count), 0, turns[n].replies).books
  }

  lemma NothingPlayed(c: Config, start: U64, worker: nat, turns: seq<Turn>)
    requires c.Parsed()
    ensures Sized(c, []) && Played(c, start, worker, [], turns) == Blank(c.sendBatchMax)
  {
  }

  lemma HistogramSize(c: Config, b: Books)
    requires Balanced(b, c.payloadSize, c.sendBatchMax, c.traced, 0)
    ensures |b.histogram| == c.sendBatchMax + 1
  {
  }

  lemma PlayedAfter(c: Config, start: U64, worker: nat, batches: seq<Batch>, turns: seq<Turn>, b: Batch)
    requires c.Parsed() && Sized(c, batches) && |batches| < |turns| && 0 < b.count <= c.sendBatchMax
    ensures Sized(c, batches + [b])
    ensures var before := Played(c, start, worker, batches, turns);
            Played(c, start, worker, batches + [b], turns) ==
              Replay(c, start, worker, b, Attempting(before, b.count), 0,
                     turns[|batches|].replies).books
  {
    hide Replay, Attempting;
    var all := batches + [b];
    assert all[..|batches|] == batches && all[|batches|] == b;
    assert forall o :: o in all ==> o in batches || o == b;
  }

  lemma {:induction false} BatchesAreNotEmpty(c: Config, batches: seq<Batch>)
    requires Sized(c, batches)
    ensures Total(batches) >= |batches|
  {
    if batches != [] {
      assert batches[|batches| - 1] in batches;
      BatchesAreNotEmpty(c, batches[..|batches| - 1]);
    }
  }

  function Attempting(b: Books, count: nat): Books { b.(attempted := b.attempted + count) }

  lemma AttemptBalances(b: Books, c: Config, count: nat)
    requires Balanced(b, c.payloadSize, c.sendBatchMax, c.traced, 0)
    ensures Balanced(Attempting(b, count), c.payloadSize, c.sendBatchMax, c.traced, 0)
  {
  }
}
