/** What a batch's replies do to the books, told call by call and in plain arithmetic. */
module SubmissionLaws {
  import opened Words
  import opened SenderBooks

  /** A call that sent packets, with how many of the batch had been sent before it. */
  datatype Call = Call(reply: Reply, done: nat, packets: nat)

  /** A submission: the replies it used, the calls that sent something, and for each of these its
      lateness and its trace entry. */
  datatype Story = Story(used: seq<Reply>, calls: seq<Call>, lates: seq<nat>, entries: seq<TraceRecord>)

  // ----- Calls -----

  /** A reply the loop goes on after: packets sent, or an interruption without a stop requested. */
  predicate GoesOn(r: Reply) { r.result > 0 || (r.result < 0 && r.errno == 4 && !r.stop) }

  /** How many replies sent something. */
  function Successes(replies: seq<Reply>): nat {
    if replies == [] then 0 else (if replies[0].result > 0 then 1 else 0) + Successes(replies[1..])
  }

  /** A call sends as many packets as its result says, but no more than are left. */
  ghost predicate Sends(call: Call, b: Batch) {
    && call.reply.result > 0 && call.done < b.count && call.packets > 0
    && call.packets <= call.reply.result && call.done + call.packets <= b.count
    && (call.packets == call.reply.result || call.done + call.packets == b.count)
  }

  /** The calls follow one another through the batch. */
  ghost predicate Chain(calls: seq<Call>, b: Batch, from: nat, to: nat) {
    && (if calls == [] then to == from
        else calls[0].done == from && calls[|calls| - 1].done + calls[|calls| - 1].packets == to)
    && (forall k :: 0 <= k < |calls| ==> Sends(calls[k], b))
    && (forall k :: 0 < k < |calls| ==> calls[k].done == calls[k - 1].done + calls[k - 1].packets)
  }

  /** Why the batch ended: with the last packet, for want of replies, by an interruption with a stop
      requested, or by a refusal. */
  ghost predicate Concludes(ending: Ending, b: Batch, to: nat, used: seq<Reply>, replies: seq<Reply>) {
    && (ending.Sent? <==> to == b.count)
    && used <= replies
    && (forall i :: 0 <= i < |used| - 1 ==> GoesOn(used[i]))
    && match ending
       case Sent => used == [] || GoesOn(used[|used| - 1])
       case Pending => used == replies && (used == [] || GoesOn(used[|used| - 1]))
       case Abandoned => used != [] && var r := used[|used| - 1]; r.result < 0 && r.errno == 4 && r.stop
       case Refused => used != [] && var r := used[|used| - 1]; r.result == 0 || (r.result < 0 && r.errno != 4)
  }

  // ----- Due times and lateness -----

  /** When the first packet of a call was due: outside flood mode floor(index * 10^9 / rate) after the
      start, index being the batch's first plus a stride for each packet sent, unless past 64 bits. */
  ghost predicate DueAt(due: nat, c: Config, start: U64, b: Batch, call: Call)
    requires c.rate > 0
  {
    if c.mode.Flood? then due == call.reply.invocation
    else
      var at := start + (b.first + call.done * c.threads) * 1_000_000_000 / c.rate;
      due == if at < 0x1_0000_0000_0000_0000 then at else 0xFFFF_FFFF_FFFF_FFFF
  }

  /** A call made at its due time or before is not late; any other is late by the difference. */
  ghost predicate LateBy(late: nat, due: nat, invocation: nat) {
    invocation <= due + late && (late > 0 ==> invocation == due + late)
  }

  ghost predicate LateCall(c: Config, start: U64, b: Batch, call: Call, late: nat)
    requires c.rate > 0
  {
    exists due: nat :: DueAt(due, c, start, b, call) && LateBy(late, due, call.reply.invocation)
  }

  ghost predicate IsMaximum(after: nat, before: nat, lates: seq<nat>) {
    && before <= after && (forall l :: l in lates ==> l <= after)
    && (after == before || after in lates)
  }

  ghost predicate LatenessTold(c: Config, start: U64, b: Batch, story: Story, before: Books, after: Books)
    requires c.rate > 0
  {
    && |story.lates| == |story.calls|
    && (forall k :: 0 <= k < |story.calls| ==> LateCall(c, start, b, story.calls[k], story.lates[k]))
    && after.lateness == before.lateness + story.lates
    && after.latenessSamples == before.latenessSamples + |story.calls|
    && IsMaximum(after.latenessMax, before.latenessMax, story.lates)
  }

  // ----- Trace -----

  ghost predicate EntryTold(c: Config, start: U64, worker: nat, b: Batch, call: Call, e: TraceRecord)
    requires c.rate > 0
  {
    && e.completion == call.reply.completion && DueAt(e.scheduled, c, start, b, call)
    && e.firstSequence == b.sequence + call.done && e.packets == call.packets && e.worker == worker
  }

  ghost predicate TraceTold(c: Config, start: U64, worker: nat, b: Batch, story: Story, before: Books, after: Books)
    requires c.rate > 0
  {
    && |story.entries| == |story.calls|
    && (forall k :: 0 <= k < |story.calls| ==> EntryTold(c, start, worker, b, story.calls[k], story.entries[k]))
    && after.trace == before.trace + (if c.traced then story.entries else [])
  }

  // ----- Counters -----

  /** How many calls sent exactly size packets. */
  function OfSize(calls: seq<Call>, size: nat): nat {
    if calls == [] then 0 else (if calls[0].packets == size then 1 else 0) + OfSize(calls[1..], size)
  }

  /** Only the call that completes the batch is not a partial return. */
  ghost predicate CountsTold(story: Story, b: Batch, to: nat, before: Books, after: Books) {
    && after.attempted == before.attempted
    && |after.histogram| == |before.histogram|
    && (forall size :: 0 <= size < |after.histogram| ==>
          after.histogram[size] == before.histogram[size] + OfSize(story.calls, size))
    && after.partialReturns + (if to == b.count && story.calls != [] then 1 else 0)
         == before.partialReturns + |story.calls|
  }

  /** The last error after replies: each failed call leaves its errno, or EIO where it returned 0. */
  function NewestError(replies: seq<Reply>, before: int): int {
    if replies == [] then before
    else
      var r := replies[0];
      NewestError(replies[1..], if r.result > 0 then before else if r.result < 0 then r.errno else 5)
  }

  ghost predicate ErrorsTold(story: Story, before: Books, after: Books) {
    && |story.calls| == Successes(story.used) <= |story.used|
    && after.syscalls == before.syscalls + |story.used|
    && after.errorReturns + |story.calls| == before.errorReturns + |story.used|
    && after.lastError == NewestError(story.used, before.lastError)
  }

  ghost predicate Tells(story: Story, c: Config, start: U64, worker: nat, b: Batch, before: Books, from: nat,
                        s: Submission, replies: seq<Reply>)
    requires c.rate > 0
  {
    && Chain(story.calls, b, from, s.offset)
    && Concludes(s.ending, b, s.offset, story.used, replies)
    && LatenessTold(c, start, b, story, before, s.books)
    && TraceTold(c, start, worker, b, story, before, s.books)
    && CountsTold(story, b, s.offset, before, s.books)
    && ErrorsTold(story, before, s.books)
  }

  // ----- One reply at a time -----

  lemma NothingTold(c: Config, start: U64, worker: nat, b: Batch, before: Books, from: nat, ending: Ending,
                    replies: seq<Reply>)
    requires c.Parsed() && from <= b.count
    requires ending == (if from == b.count then Sent else Pending) && (from == b.count || replies == [])
    ensures Tells(Story([], [], [], []), c, start, worker, b, before, from, Submission(before, from, ending), replies)
  {
  }

  /** A reply that ends the batch unsent. */
  lemma EndTold(c: Config, start: U64, worker: nat, b: Batch, before: Books, from: nat, error: int, failed: nat,
                ending: Ending, replies: seq<Reply>)
    requires c.Parsed() && from < b.count && replies != []
    requires var r := replies[0];
             && r.result <= 0 && error == (if r.result < 0 then r.errno else 5)
             && (if ending.Abandoned? then r.result < 0 && r.errno == 4 && r.stop
                 else ending.Refused? && !(r.result < 0 && r.errno == 4))
    ensures Tells(Story([replies[0]], [], [], []), c, start, worker, b, before, from,
                  Submission(Errored(before, error, failed), from, ending), replies)
  {
    assert [replies[0]] <= replies;
    assert [replies[0]][1..] == [];
  }

  lemma OneMoreReply(r: Reply, rest: seq<Reply>, before: int)
    ensures Successes([r] + rest) == (if r.result > 0 then 1 else 0) + Successes(rest)
    ensures NewestError([r] + rest, before) ==
              NewestError(rest, if r.result > 0 then before else if r.result < 0 then r.errno else 5)
  {
    assert ([r] + rest)[1..] == rest;
  }

  lemma ConcludesAfter(r: Reply, ending: Ending, b: Batch, to: nat, used: seq<Reply>, replies: seq<Reply>)
    requires replies != [] && r == replies[0] && GoesOn(r) && Concludes(ending, b, to, used, replies[1..])
    ensures Concludes(ending, b, to, [r] + used, replies)
  {
    var all := [r] + used;
    assert replies == [r] + replies[1..];
    forall i | 0 <= i < |all| - 1
      ensures GoesOn(all[i])
    {
      if i > 0 { assert GoesOn(used[i - 1]); }
    }
    if used != [] { assert all[|all| - 1] == used[|used| - 1]; }
  }

  lemma ErrorsAfter(r: Reply, story: Story, told: Story, before: Books, mid: Books, after: Books)
    requires ErrorsTold(story, mid, after) && told.used == [r] + story.used
    requires |told.calls| == |story.calls| + (if r.result > 0 then 1 else 0)
    requires mid.syscalls == before.syscalls + 1
    requires mid.errorReturns == before.errorReturns + (if r.result > 0 then 0 else 1)
    requires mid.lastError == if r.result > 0 then before.lastError else if r.result < 0 then r.errno else 5
    ensures ErrorsTold(told, before, after)
  {
    OneMoreReply(r, story.used, before.lastError);
  }

  lemma LatenessAfter(c: Config, start: U64, b: Batch, call: Call, late: nat, story: Story, told: Story,
                      before: Books, mid: Books, after: Books)
    requires c.rate > 0 && LatenessTold(c, start, b, story, mid, after) && LateCall(c, start, b, call, late)
    requires told.calls == [call] + story.calls && told.lates == [late] + story.lates
    requires mid.lateness == before.lateness + [late] && mid.latenessSamples == before.latenessSamples + 1
    requires mid.latenessMax == if before.latenessMax < late then late else before.latenessMax
    ensures LatenessTold(c, start, b, told, before, after)
  {
    hide LateCall;
    assert (before.lateness + [late]) + story.lates == before.lateness + told.lates;
  }

  lemma TraceAfterTold(c: Config, start: U64, worker: nat, b: Batch, call: Call, e: TraceRecord, story: Story,
                       told: Story, before: Books, mid: Books, after: Books)
    requires c.rate > 0 && TraceTold(c, start, worker, b, story, mid, after) && EntryTold(c, start, worker, b, call, e)
    requires told.calls == [call] + story.calls && told.entries == [e] + story.entries
    requires mid.trace == if c.traced then before.trace + [e] else before.trace
    ensures TraceTold(c, start, worker, b, told, before, after)
  {
    hide EntryTold;
    assert (before.trace + [e]) + story.entries == before.trace + told.entries;
  }

  /** An interrupted call is repeated. */
  lemma RetryTold(story: Story, c: Config, start: U64, worker: nat, b: Batch, before: Books, from: nat, s: Submission,
                  replies: seq<Reply>) returns (told: Story)
    requires c.Parsed() && replies != []
    requires var r := replies[0]; r.result < 0 && r.errno == 4 && !r.stop
    requires Tells(story, c, start, worker, b, Errored(before, replies[0].errno, 0), from, s, replies[1..])
    ensures Tells(told, c, start, worker, b, before, from, s, replies)
  {
    hide Chain, Concludes, LatenessTold, TraceTold, CountsTold, ErrorsTold;
    var mid := Errored(before, replies[0].errno, 0);
    told := story.(used := [replies[0]] + story.used);
    ConcludesAfter(replies[0], s.ending, b, s.offset, story.used, replies);
    ErrorsAfter(replies[0], story, told, before, mid, s.books);
    Untouched(c, start, worker, b, story, told, before, mid, s.books, s.offset);
  }

  /** What an error changes is not what is told of lateness, trace and counts. */
  lemma Untouched(c: Config, start: U64, worker: nat, b: Batch, story: Story, told: Story, before: Books, mid: Books,
                  after: Books, to: nat)
    requires c.rate > 0 && told == story.(used := told.used)
    requires mid == before.(syscalls := mid.syscalls, errorReturns := mid.errorReturns, lastError := mid.lastError,
                            failed := mid.failed)
    requires LatenessTold(c, start, b, story, mid, after) && TraceTold(c, start, worker, b, story, mid, after)
    requires CountsTold(story, b, to, mid, after)
    ensures LatenessTold(c, start, b, told, before, after) && TraceTold(c, start, worker, b, told, before, after)
    ensures CountsTold(told, b, to, before, after)
  {
    hide LateCall, EntryTold, OfSize, IsMaximum;
  }

  lemma ChainAfter(call: Call, calls: seq<Call>, b: Batch, to: nat)
    requires Sends(call, b) && Chain(calls, b, call.done + call.packets, to)
    ensures Chain([call] + calls, b, call.done, to)
  {
  }

  lemma CountsAfter(call: Call, story: Story, b: Batch, to: nat, before: Books, mid: Books, after: Books, told: Story)
    requires CountsTold(story, b, to, mid, after) && Sends(call, b) && told.calls == [call] + story.calls
    requires Chain(story.calls, b, call.done + call.packets, to)
    requires call.packets < |before.histogram| && mid.attempted == before.attempted
    requires mid.histogram == before.histogram[call.packets := before.histogram[call.packets] + 1]
    requires mid.partialReturns == before.partialReturns + (if call.done + call.packets < b.count then 1 else 0)
    ensures CountsTold(told, b, to, before, after)
  {
    assert told.calls[1..] == story.calls;
    if story.calls != [] { assert Sends(story.calls[0], b); }
  }

  /** A call that sends packets. */
  lemma SendTold(story: Story, c: Config, start: U64, worker: nat, b: Batch, before: Books, call: Call,
                 partialReturn: bool, s: Submission, replies: seq<Reply>) returns (told: Story)
    requires c.Parsed() && replies != [] && call.reply == replies[0] && Sends(call, b)
    requires call.packets < |before.histogram| && (partialReturn <==> call.done + call.packets < b.count)
    requires var record := TraceOf(c, start, worker, b, call.done, call.reply, call.packets);
             var late := Lateness(record.scheduled, call.reply.invocation);
             Tells(story, c, start, worker, b, Entered(before, c, record, late, partialReturn),
                   call.done + call.packets, s, replies[1..])
    ensures Tells(told, c, start, worker, b, before, call.done, s, replies)
  {
    hide Chain, Concludes, LatenessTold, TraceTold, CountsTold, ErrorsTold, LateCall, EntryTold, Sends, Lateness;
    var record := TraceOf(c, start, worker, b, call.done, call.reply, call.packets);
    var late := Lateness(record.scheduled, call.reply.invocation);
    var mid := Entered(before, c, record, late, partialReturn);
    told := Story([call.reply] + story.used, [call] + story.calls, [late] + story.lates, [record] + story.entries);
    SendsPositive(call, b);
    DueTold(c, start, worker, b, call);
    ConcludesAfter(call.reply, s.ending, b, s.offset, story.used, replies);
    ChainAfter(call, story.calls, b, s.offset);
    CountsAfter(call, story, b, s.offset, before, mid, s.books, told);
    ErrorsAfter(call.reply, story, told, before, mid, s.books);
    LatenessAfter(c, start, b, call, late, story, told, before, mid, s.books);
    TraceAfterTold(c, start, worker, b, call, record, story, told, before, mid, s.books);
  }

  lemma SendsPositive(call: Call, b: Batch)
    requires Sends(call, b)
    ensures call.reply.result > 0 && GoesOn(call.reply)
  {
  }

  lemma DueTold(c: Config, start: U64, worker: nat, b: Batch, call: Call)
    requires c.Parsed()
    ensures var record := TraceOf(c, start, worker, b, call.done, call.reply, call.packets);
            && LateCall(c, start, b, call, Lateness(record.scheduled, call.reply.invocation))
            && EntryTold(c, start, worker, b, call, record)
  {
    var due := Due(c, start, b, call.done, call.reply);
    assert DueAt(due, c, start, b, call);
  }

  /** Every submission can be told: whatever the replies, which of them were used, what each call sent,
      how late it was, what its trace entry says, and what every counter became. */
  lemma {:induction false} EverySubmissionIsTold(c: Config, start: U64, worker: nat, b: Batch, books: Books,
                                                 offset: nat, replies: seq<Reply>) returns (story: Story)
    requires c.Parsed() && offset <= b.count <= c.sendBatchMax && |books.histogram| == c.sendBatchMax + 1
    ensures Tells(story, c, start, worker, b, books, offset, Replay(c, start, worker, b, books, offset, replies),
                  replies)
    decreases |replies|
  {
    hide Tells, Errored, Entered, Lateness, Replay;
    if offset == b.count {
      ReplayDone(c, start, worker, b, books, replies);
      NothingTold(c, start, worker, b, books, offset, Sent, replies);
      return Story([], [], [], []);
    }
    ReplayStep(c, start, worker, b, books, offset, replies);
    if replies == [] {
      NothingTold(c, start, worker, b, books, offset, Pending, replies);
      return Story([], [], [], []);
    }
    var r := replies[0];
    var outcome := Classify(r.result, r.errno, b.count - offset);
    if outcome.retry && !r.stop {
      story := EverySubmissionIsTold(c, start, worker, b, Errored(books, r.errno, 0), offset, replies[1..]);
      story := RetryTold(story, c, start, worker, b, books, offset,
                         Replay(c, start, worker, b, books, offset, replies), replies);
    } else if outcome.retry {
      EndTold(c, start, worker, b, books, offset, r.errno, 0, Abandoned, replies);
      story := Story([r], [], [], []);
    } else if outcome.failed > 0 {
      EndTold(c, start, worker, b, books, offset, outcome.error, outcome.failed, Refused, replies);
      story := Story([r], [], [], []);
    } else {
      var record := TraceOf(c, start, worker, b, offset, r, outcome.successful);
      var late := Lateness(record.scheduled, r.invocation);
      var after := Entered(books, c, record, late, outcome.partialReturn);
      story := EverySubmissionIsTold(c, start, worker, b, after, offset + outcome.successful, replies[1..]);
      story := SendTold(story, c, start, worker, b, books, Call(r, offset, outcome.successful), outcome.partialReturn,
                        Replay(c, start, worker, b, books, offset, replies), replies);
    }
  }
}
