/** One sender worker: pacing, striping, and the submission loop. */
module SenderWorker {
  import opened Words
  import opened SenderSchedule
  import opened SenderBooks
  import opened SubmissionLaws

  class Worker {
    const index: nat
    var books: Books
    ghost var batches: seq<Batch>
    ghost var parts: seq<seq<TraceRecord>>

    ghost predicate Balances(c: Config)
      reads this
    {
      Balanced(books, c.payloadSize, c.sendBatchMax, c.traced, 0)
    }

    constructor (c: Config, index: nat)
      ensures this.index == index && batches == [] && parts == [] && Balances(c)
      ensures books == Blank(c.sendBatchMax)
    {
      this.index := index;
      books := Blank(c.sendBatchMax);
      batches, parts := [], [];
      new;
      BlankBalanced(c.payloadSize, c.sendBatchMax, c.traced);
    }

    /** The submission loop: sends a batch with as many calls as it takes. */
    method Submit(c: Config, start: U64, b: Batch, scheduled: U64, replies: seq<Reply>)
      returns (offset: nat, ending: Ending, ghost entries: seq<TraceRecord>)
      requires c.Parsed() && Balances(c) && 0 < b.count <= c.sendBatchMax
      requires c.mode.Steady? ==> scheduled == Deadline(start, b.first, c.rate)
      modifies `books
      ensures Balances(c) && books.attempted == old(books.attempted)
      ensures books.successful == old(books.successful) + offset
      ensures books.failed == old(books.failed) + (if ending.Refused? then b.count - offset else 0)
      ensures offset <= b.count && (ending.Sent? <==> offset == b.count)
      ensures ending.Abandoned? ==> StopSeen(replies)
      ensures Traces(entries, c, start, index, b, offset)
      ensures books.trace == if c.traced then old(books.trace) + entries else old(books.trace)
      ensures |old(books).histogram| == c.sendBatchMax + 1
      ensures Submission(books, offset, ending) == Replay(c, start, index, b, old(books), 0, replies)
      ensures exists story ::
                Tells(story, c, start, index, b, old(books), 0, Submission(books, offset, ending), replies)
    {
      hide Balanced, Traces, Deadline, Errored, Entered, Replay, StopSeen, Tells;
      NoTraces(c, start, index, b);
      HistogramSize(c, books);
      EndsForAReason(c, start, index, b, books, 0, replies);
      ghost var story := EverySubmissionIsTold(c, start, index, b, books, 0, replies);
      ghost var goal := Replay(c, start, index, b, books, 0, replies);
      assert replies[0..] == replies;
      offset := 0;
      var i := 0;
      entries := [];
      ghost var trace := books.trace;
      while offset < b.count
        invariant 0 <= i <= |replies| && offset <= b.count
        invariant Balances(c) && books.attempted == old(books.attempted)
        invariant books.successful == old(books.successful) + offset
        invariant books.failed == old(books.failed)
        invariant Traces(entries, c, start, index, b, offset)
        invariant books.trace == if c.traced then trace + entries else trace
        invariant |books.histogram| == c.sendBatchMax + 1
        invariant Replay(c, start, index, b, books, offset, replies[i..]) == goal
        decreases |replies| - i
      {
        ReplayStep(c, start, index, b, books, offset, replies[i..]);
        if i == |replies| { return offset, Pending, entries; }
        assert replies[i..][1..] == replies[i + 1..];
        var reply := replies[i];
        i := i + 1;
        var outcome := Classify(reply.result, reply.errno, b.count - offset);
        if outcome.retry {
          ErroredBalances(books, c, reply.errno, 0);
          books := Errored(books, reply.errno, 0);
          if reply.stop { return offset, Abandoned, entries; }
          continue;
        }
        if outcome.failed > 0 {
          ErroredBalances(books, c, outcome.error, outcome.failed);
          books := Errored(books, outcome.error, outcome.failed);
          return offset, Refused, entries;
        }
        var due := if c.mode.Flood? then reply.invocation
          else if c.mode.Steady? && offset == 0 then scheduled
          else Deadline(start, b.first + offset * c.threads, c.rate);
        var lateness := Lateness(due, reply.invocation);
        var r := TraceRecord(reply.completion, due, b.sequence + offset, outcome.successful, index);
        EnteredBalances(books, c, r, lateness, outcome.partialReturn);
        TracesAfter(entries, c, start, index, b, offset, r);
        books := Entered(books, c, r, lateness, outcome.partialReturn);
        entries := entries + [r];
        offset := offset + outcome.successful;
      }
      ReplayDone(c, start, index, b, books, replies[i..]);
      return offset, Sent, entries;
    }

    /** The batch length and the deadline to wait for at a packet index. */
    method Plan(c: Config, start: U64, limit: nat, packetIndex: nat) returns (count: nat, scheduled: U64)
      requires c.Parsed() && (c.mode.Flood? || packetIndex < limit)
      ensures CountRule(c, limit, packetIndex, count) && 0 < count <= c.sendBatchMax
      ensures c.mode.Steady? ==> scheduled == Deadline(start, packetIndex, c.rate)
      ensures c.mode.Burst? ==> scheduled == Deadline(start, BurstStart(packetIndex, c.burstSize), c.rate)
    {
      match c.mode {
        case Flood =>
          count, scheduled := c.sendBatchMax, 0;
        case Burst =>
          count := Min(c.sendBatchMax, Min(c.burstSize - packetIndex % c.burstSize, limit - packetIndex));
          scheduled := Deadline(start, BurstStart(packetIndex, c.burstSize), c.rate);
        case Steady =>
          count := AdaptiveBatchCount(packetIndex, limit, c.threads, c.rate, c.sendBatchMax, c.batchWindow);
          scheduled := Deadline(start, packetIndex, c.rate);
      }
    }

    /** What every pass of the outer loop keeps. */
    ghost predicate Keeps(c: Config, start: U64, turns: seq<Turn>)
      requires c.Parsed()
      reads this
    {
      && Balances(c)
      && |batches| <= |turns|
      && (forall i :: 0 <= i < |batches| ==> turns[i].enter && batches[i].sequence == turns[i].sequence)
      && Planned(c, PacketLimit(c.duration, c.rate), index, batches)
      && Recorded(c, start, index, batches, parts)
      && books.trace == (if c.traced then Flat(parts) else [])
      && Sized(c, batches) && books == Played(c, start, index, batches, turns)
      && books.attempted == Total(batches)
    }

    /** One pass of the outer loop: plans a batch, numbers it, and submits it. */
    method TakeTurn(c: Config, start: U64, limit: nat, packetIndex: nat, turn: Turn, ghost turns: seq<Turn>)
      returns (count: nat, last: Ending, unsettled: nat)
      requires c.Parsed() && Keeps(c, start, turns) && |batches| < |turns| && turn == turns[|batches|] && turn.enter
      requires limit == PacketLimit(c.duration, c.rate) && (c.mode.Flood? || packetIndex < limit)
      requires packetIndex == Nth(index, Total(batches), c.threads)
      requires books.attempted == books.successful + books.failed
      modifies this
      ensures Keeps(c, start, turns) && |batches| == |old(batches)| + 1
      ensures Total(batches) == old(Total(batches)) + count
      ensures books.attempted == books.successful + books.failed + unsettled
      ensures unsettled > 0 <==> last.Abandoned? || last.Pending?
      ensures last.Abandoned? ==> StopSeen(turn.replies)
      ensures last.Pending? ==> Answers(turn.replies) < c.sendBatchMax
    {
      hide CountRule, Balanced, Traces, Planned, PacketLimit, Total, Recorded, Flat, StopSeen, Replay, Played, Answers;
      hide Tells;
      var scheduled: U64;
      count, scheduled := Plan(c, start, limit, packetIndex);
      var b := Batch(packetIndex, count, turn.sequence);
      PlannedAfter(c, limit, index, batches, b);
      TotalAfter(batches, b);
      PlayedAfter(c, start, index, batches, turns, b);
      AttemptBalances(books, c, count);
      books := Attempting(books, count);
      HistogramSize(c, books);
      EndsForAReason(c, start, index, b, books, 0, turn.replies);
      var offset: nat;
      ghost var entries: seq<TraceRecord>;
      offset, last, entries := Submit(c, start, b, scheduled, turn.replies);
      RecordedAfter(c, start, index, batches, parts, b, entries, offset);
      FlatAfter(parts, entries);
      batches, parts := batches + [b], parts + [entries];
      unsettled := if last.Refused? then 0 else count - offset;
    }

    /** The outer loop, on an open socket. last is how the newest batch ended; unsettled counts its
        packets that were neither sent nor refused. The worker goes on while its passes are entered,
        until it reaches the limit or leaves a batch half way. */
    method Run(c: Config, start: U64, turns: seq<Turn>) returns (finished: bool, last: Ending, unsettled: nat)
      requires c.Parsed() && Balances(c) && batches == [] && parts == [] && index < c.threads
      requires books == Blank(c.sendBatchMax)
      modifies this
      ensures Keeps(c, start, turns)
      ensures books.attempted == books.successful + books.failed + unsettled
      ensures unsettled > 0 <==> last.Abandoned? || last.Pending?
      ensures last.Abandoned? ==> StopMet(turns)
      ensures last.Pending? ==> exists t :: t in turns && Answers(t.replies) < c.sendBatchMax
      ensures finished <==>
                && c.mode != Flood && unsettled == 0
                && Nth(index, Total(batches), c.threads) >= PacketLimit(c.duration, c.rate)
      ensures finished || unsettled > 0 || |batches| == |turns| || !turns[|batches|].enter
    {
      hide Balanced, Planned, PacketLimit, Total, Recorded, Flat, StopSeen, Played, Answers;
      NothingRecorded(c, start, index);
      NothingPlayed(c, start, index, turns);
      var limit := PacketLimit(c.duration, c.rate);
      NothingPlanned(c, limit, index);
      NthPlus(index, 0, 0, c.threads);
      var packetIndex, i := index, 0;
      last, unsettled := Sent, 0;
      while i < |turns| && turns[i].enter && !last.Abandoned? && (c.mode.Flood? || packetIndex < limit)
        invariant 0 <= i <= |turns| && i == |batches|
        invariant Keeps(c, start, turns) && !last.Pending?
        invariant books.attempted == books.successful + books.failed + unsettled
        invariant unsettled > 0 <==> last.Abandoned?
        invariant last.Abandoned? ==> StopMet(turns)
        invariant packetIndex == Nth(index, Total(batches), c.threads)
      {
        ghost var past := Total(batches);
        var count: nat;
        count, last, unsettled := TakeTurn(c, start, limit, packetIndex, turns[i], turns);
        NthPlus(index, past, count, c.threads);
        packetIndex := packetIndex + count * c.threads;
        i := i + 1;
        if last.Pending? { return false, last, unsettled; }
      }
      finished := !c.mode.Flood? && packetIndex >= limit && !last.Abandoned?;
    }
  }
}
