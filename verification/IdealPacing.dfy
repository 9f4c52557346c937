/** From the schedule to the verdict: what the pacing analysis says of a sender on its deadlines. */
module IdealPacing {
  import opened Words
  import opened SenderSchedule
  import opened SenderBooks
  import opened SenderPartition
  import opened SenderTotals
  import opened SenderRun
  import opened PacingTrace
  import opened Sorting

  // ----- The ideal trace -----

  /** One packet a call, each completing at its deadline. */
  function IdealRow(start: nat, rate: nat, index: nat): Row
    requires rate > 0
  {
    Row(start + Offset(index, rate), start + Offset(index, rate), 1)
  }

  function IdealRows(start: nat, rate: nat, n: nat): seq<Row>
    requires rate > 0
  {
    seq(n, i requires 0 <= i < n => IdealRow(start, rate, i))
  }

  lemma IdealIsOrdered(start: nat, rate: nat, n: nat)
    requires rate > 0
    ensures SortedRows(IdealRows(start, rate, n)) == IdealRows(start, rate, n)
  {
    hide Offset, Sorted;
    var rows := IdealRows(start, rate, n);
    forall i, j | 0 <= i < j < n
      ensures Before(rows[i], rows[j])
    {
      OffsetMonotone(i, j, rate);
    }
    OrdersAreTotal();
    SortedFixesOrdered(rows, Before);
  }

  lemma IdealPrefix(start: nat, rate: nat, n: nat)
    requires rate > 0 && n > 0
    ensures IdealRows(start, rate, n)[..n - 1] == IdealRows(start, rate, n - 1)
    ensures IdealRows(start, rate, n)[n - 1] == IdealRow(start, rate, n - 1)
  {
  }

  lemma {:induction false} IdealPackets(start: nat, rate: nat, n: nat)
    requires rate > 0
    ensures Packets(IdealRows(start, rate, n)) == n
  {
    hide Offset;
    if n > 0 {
      IdealPrefix(start, rate, n);
      IdealPackets(start, rate, n - 1);
    }
  }

  // ----- Windows -----

  function Within(n: nat, low: nat, high: nat): nat {
    if n <= low || high <= low then 0 else if n < high then n - low else high - low
  }

  /** A window holds the packets due from its beginning to its end. */
  lemma {:induction false} WindowHoldsItsPackets(start: nat, rate: nat, n: nat, j: nat)
    requires rate > 0
    ensures InWindow(IdealRows(start, rate, n), start, j)
         == Within(n, DueCount(EDGE + j * WINDOW, rate), DueCount(EDGE + (j + 1) * WINDOW, rate))
  {
    hide Offset, DueCount;
    if n > 0 {
      IdealPrefix(start, rate, n);
      WindowHoldsItsPackets(start, rate, n - 1, j);
      DueBeforeEnd(n - 1, EDGE + j * WINDOW, rate);
      DueBeforeEnd(n - 1, EDGE + (j + 1) * WINDOW, rate);
    }
  }

  function CeilPerMs(rate: nat): nat { rate / 1000 + (if rate % 1000 == 0 then 0 else 1) }

  /** Any millisecond of the schedule holds floor or ceil of rate / 1000 packets. */
  lemma DuePerWindow(from: nat, rate: nat)
    ensures rate / 1000 <= DueCount(from + WINDOW, rate) - DueCount(from, rate) <= CeilPerMs(rate)
  {
    assert (from + WINDOW) * rate == from * rate + WINDOW * rate;
    FloorOfSum(from * rate + (SECOND - 1), WINDOW * rate, SECOND);
    DivModUnique(WINDOW * rate, SECOND, rate / 1000, WINDOW * (rate % 1000));
  }

  lemma DueMonotone(a: nat, b: nat, rate: nat)
    requires a <= b
    ensures DueCount(a, rate) <= DueCount(b, rate)
  {
    MulMono(rate, a, b);
    FloorMono(a * rate + (SECOND - 1), b * rate + (SECOND - 1), SECOND);
  }

  /** Every counted window of an ideal trace holds floor or ceil of rate / 1000 packets. */
  lemma IdealWindow(start: nat, rate: nat, duration: nat, j: nat)
    requires rate > 0 && j < WindowCount(start, start + duration)
    ensures rate / 1000 <= InWindow(IdealRows(start, rate, DueCount(duration, rate)), start, j) <= CeilPerMs(rate)
  {
    hide DueCount, InWindow, IdealRows, CeilPerMs;
    var low := EDGE + j * WINDOW;
    WindowHoldsItsPackets(start, rate, DueCount(duration, rate), j);
    DuePerWindow(low, rate);
    DueMonotone(low + WINDOW, duration, rate);
  }

  // ----- Gaps -----

  /** No entry completes before its deadline or more than slack after it. */
  ghost predicate Timely(rows: seq<Row>, slack: nat) {
    forall r :: r in rows ==> r.scheduled <= r.actual <= r.scheduled + slack
  }

  lemma {:induction false} InteriorOf(rows: seq<Row>, start: int, windows: nat)
    ensures forall r :: r in InteriorRows(rows, start, windows) ==> r in rows
  {
    if rows != [] { InteriorOf(rows[..|rows| - 1], start, windows); }
  }

  lemma {:induction false} TimelyExcess(rows: seq<Row>, slack: nat)
    requires Timely(rows, slack)
    ensures 0 <= MaxExcess(rows) <= slack
  {
    if |rows| >= 2 {
      TimelyExcess(rows[..|rows| - 1], slack);
      var left, right := rows[|rows| - 2], rows[|rows| - 1];
      assert left in rows && right in rows;
    }
  }

  /** The gap check never fires on a sender whose lateness stays within two batch windows, however
      its batches are cut, striped, or interleaved. */
  lemma TimelySenderHasNoUnexplainedGap(a: Analysis, rows: seq<Row>, start: int, end: int, successful: int,
                                        rate: nat, windowUs: nat)
    requires Judges(a, rows, start, end, successful, rate, windowUs)
    requires Timely(rows, 2 * windowUs * 1000)
    ensures UnexplainedGap !in a.reasons
  {
    hide Sorted, InteriorRows, MaxExcess, TotalOrder;
    OrdersAreTotal();
    var interior := InteriorRows(SortedRows(rows), start, WindowCount(start, end));
    SortedHolds(rows, Before);
    InteriorOf(SortedRows(rows), start, WindowCount(start, end));
    TimelyExcess(interior, 2 * windowUs * 1000);
  }

  // ----- The verdict -----

  /** Both whole numbers around rate / 1000 lie in the 90-110% band. */
  predicate BandAdmits(rate: nat) { InBand(rate / 1000, CeilPerMs(rate), rate) }

  lemma TenThousandIsEnough(rate: nat)
    requires rate >= 10_000
    ensures BandAdmits(rate)
  {
  }

  /** An ideal schedule passes: whatever the analysis says of the ideal trace of a run of at least
      201 ms, at a rate whose windows can be in the band, it gives no reason. */
  lemma IdealSchedulePasses(a: Analysis, start: nat, duration: nat, rate: nat, windowUs: nat)
    requires rate > 0 && duration >= 201_000_000 && BandAdmits(rate)
    requires var n := DueCount(duration, rate);
             Judges(a, IdealRows(start, rate, n), start, start + duration, n, rate, windowUs)
    ensures a.Passed()
  {
    hide SortedRows, InteriorRows, MaxExcess, InWindow, CeilPerMs, DueCount, Packets;
    var n := DueCount(duration, rate);
    var rows, windows := IdealRows(start, rate, n), WindowCount(start, start + duration);
    IdealIsOrdered(start, rate, n);
    IdealPackets(start, rate, n);
    TimelySenderHasNoUnexplainedGap(a, rows, start, start + duration, n, rate, windowUs);
    var counts: seq<int> :|
      |counts| == windows && (forall j :: 0 <= j < windows ==> counts[j] == InWindow(rows, start, j)) &&
      IsPercentile(a.p1, counts, 1) && IsPercentile(a.p99, counts, 99);
    forall j | 0 <= j < windows
      ensures rate / 1000 <= counts[j] <= CeilPerMs(rate)
    {
      IdealWindow(start, rate, duration, j);
    }
    BandHolds(a.p1, a.p99, rate);
    FirstReason(a.reasons);
  }

  lemma FirstReason(reasons: seq<Reason>)
    ensures reasons == [] || TooShort in reasons || DoesNotReconcile in reasons || OutsideBand in reasons ||
            UnexplainedGap in reasons
  {
    if reasons != [] {
      var r := reasons[0];
      assert r in reasons;
      match r { case TooShort => case DoesNotReconcile => case OutsideBand => case UnexplainedGap => }
    }
  }

  lemma BandHolds(p1: int, p99: int, rate: nat)
    requires BandAdmits(rate) && rate / 1000 <= p1 && p99 <= CeilPerMs(rate)
    ensures InBand(p1, p99, rate)
  {
  }

  // ----- A worker on its deadlines leaves the ideal trace -----

  function RowOf(r: TraceRecord): Row { Row(r.completion, r.scheduled, r.packets) }

  function RowsOf(trace: seq<TraceRecord>): seq<Row> {
    seq(|trace|, i requires 0 <= i < |trace| => RowOf(trace[i]))
  }

  /** With batches of one, batch i is packet i. */
  lemma {:induction false} OneEach(c: Config, limit: nat, batches: seq<Batch>)
    requires c.Parsed() && c.mode == Steady && c.threads == 1 && c.sendBatchMax == 1
    requires Planned(c, limit, 0, batches)
    ensures Total(batches) == |batches| <= limit
    ensures forall i :: 0 <= i < |batches| ==> batches[i].first == i && batches[i].count == 1
  {
    hide Planned;
    if batches != [] {
      PlannedPrefix(c, limit, 0, batches);
      OneEach(c, limit, batches[..|batches| - 1]);
    }
  }

  /** Parts whose entries send at most one packet in all. */
  ghost predicate Single(entries: seq<TraceRecord>) {
    TracePackets(entries) <= 1 && forall e :: e in entries ==> e.packets > 0
  }

  lemma OneEntry(entries: seq<TraceRecord>)
    requires Single(entries)
    ensures |entries| == TracePackets(entries)
    ensures |entries| == 1 ==> entries[0].packets == 1
  {
    PacketsPerEntry(entries);
  }

  lemma {:induction false} PacketsPerEntry(entries: seq<TraceRecord>)
    requires forall e :: e in entries ==> e.packets > 0
    ensures TracePackets(entries) >= |entries|
  {
    if entries != [] {
      assert entries[|entries| - 1] in entries;
      PacketsPerEntry(entries[..|entries| - 1]);
    }
  }

  lemma {:induction false} FlatBound(parts: seq<seq<TraceRecord>>)
    requires forall p :: p in parts ==> Single(p)
    ensures TracePackets(Flat(parts)) <= |parts|
  {
    if parts != [] {
      FlatBound(parts[..|parts| - 1]);
      assert Single(parts[|parts| - 1]);
      TracesAdd(Flat(parts[..|parts| - 1]), parts[|parts| - 1]);
    }
  }

  /** If as many packets were sent as there are parts, part i is one entry of one packet. */
  lemma {:induction false} OneEntryEach(parts: seq<seq<TraceRecord>>)
    requires (forall p :: p in parts ==> Single(p)) && TracePackets(Flat(parts)) == |parts|
    ensures |Flat(parts)| == |parts|
    ensures forall i :: 0 <= i < |parts| ==> parts[i] == [Flat(parts)[i]] && Flat(parts)[i].packets == 1
  {
    hide Single, TracePackets;
    if parts != [] {
      var past, p := parts[..|parts| - 1], parts[|parts| - 1];
      assert parts == past + [p];
      FlatBound(past);
      TracesAdd(Flat(past), p);
      assert Single(p);
      OneEntry(p);
      AtMostOne(p);
      OneEntryEach(past);
    }
  }

  lemma AtMostOne(entries: seq<TraceRecord>)
    requires Single(entries)
    ensures TracePackets(entries) <= 1
  {
  }

  lemma RecordedSingles(c: Config, start: U64, batches: seq<Batch>, parts: seq<seq<TraceRecord>>)
    requires c.Parsed() && Recorded(c, start, 0, batches, parts)
    requires forall i :: 0 <= i < |batches| ==> batches[i].count == 1
    ensures forall p :: p in parts ==> Single(p)
  {
    forall p: seq<TraceRecord> | p in parts
      ensures Single(p)
    {
      var i :| 0 <= i < |parts| && p == parts[i];
      assert Traces(p, c, start, 0, batches[i], TracePackets(p));
      forall k | 0 <= k < |p|
        ensures p[k].packets > 0
      {
        assert EntryOf(p[k], TracePackets(p[..k]), c, start, 0, batches[i]);
      }
    }
  }

  lemma RecordedDeadline(c: Config, start: U64, batches: seq<Batch>, parts: seq<seq<TraceRecord>>, i: nat,
                         r: TraceRecord)
    requires c.Parsed() && c.mode == Steady && c.threads == 1 && Recorded(c, start, 0, batches, parts)
    requires i < |parts| && parts[i] == [r]
    ensures r.scheduled == Deadline(start, batches[i].first, c.rate)
  {
    hide Deadline;
    assert Traces(parts[i], c, start, 0, batches[i], TracePackets(parts[i]));
    assert EntryOf(parts[i][0], TracePackets(parts[i][..0]), c, start, 0, batches[i]);
    assert Nth(batches[i].first, 0, 1) == batches[i].first;
  }

  /** A worker that sends one packet a call, completing each at its deadline, and reaches the limit
      without losing one, leaves exactly the ideal trace. */
  lemma PunctualWorkerIsIdeal(c: Config, start: U64, batches: seq<Batch>, parts: seq<seq<TraceRecord>>)
    requires c.Parsed() && c.mode == Steady && c.threads == 1 && c.sendBatchMax == 1
    requires DueCount(c.duration, c.rate) < TWO_TO_64 && start + c.duration < TWO_TO_64
    requires Planned(c, PacketLimit(c.duration, c.rate), 0, batches)
    requires Nth(0, Total(batches), 1) >= PacketLimit(c.duration, c.rate)
    requires Recorded(c, start, 0, batches, parts) && TracePackets(Flat(parts)) == Total(batches)
    requires forall r :: r in Flat(parts) ==> r.completion == r.scheduled
    ensures RowsOf(Flat(parts)) == IdealRows(start, c.rate, DueCount(c.duration, c.rate))
  {
    hide Planned, Recorded, DueCount, Flat, Total, TracePackets, Single, Offset;
    var due, trace := DueCount(c.duration, c.rate), Flat(parts);
    OneEach(c, PacketLimit(c.duration, c.rate), batches);
    RecordedLength(c, start, batches, parts);
    RecordedSingles(c, start, batches, parts);
    OneEntryEach(parts);
    LimitIsDue(c.duration, c.rate);
    forall i | 0 <= i < due
      ensures RowOf(trace[i]) == IdealRow(start, c.rate, i)
    {
      RecordedDeadline(c, start, batches, parts, i, trace[i]);
      DueBeforeEnd(i, c.duration, c.rate);
      assert trace[i] in trace;
    }
  }

  lemma LimitIsDue(duration: nat, rate: nat)
    requires DueCount(duration, rate) < TWO_TO_64
    ensures PacketLimit(duration, rate) == DueCount(duration, rate)
  {
    DivModUnique(DueCount(duration, rate), TWO_TO_64, 0, DueCount(duration, rate));
  }

  lemma RecordedLength(c: Config, start: U64, batches: seq<Batch>, parts: seq<seq<TraceRecord>>)
    requires c.Parsed() && Recorded(c, start, 0, batches, parts)
    ensures |parts| == |batches|
  {
  }

  lemma {:induction false} FlatHolds(c: Config, start: U64, worker: nat, batches: seq<Batch>,
                                     parts: seq<seq<TraceRecord>>)
    requires c.Parsed() && Recorded(c, start, worker, batches, parts)
    ensures forall r :: r in Flat(parts) ==> r.packets > 0
  {
    hide Traces;
    if parts != [] {
      var n := |parts| - 1;
      FlatHolds(c, start, worker, batches[..n], parts[..n]);
      TracesArePositive(parts[n], c, start, worker, batches[n], TracePackets(parts[n]));
    }
  }

  lemma TracesArePositive(entries: seq<TraceRecord>, c: Config, start: U64, worker: nat, b: Batch, sent: nat)
    requires c.Parsed() && Traces(entries, c, start, worker, b, sent)
    ensures forall r :: r in entries ==> r.packets > 0
  {
    forall k | 0 <= k < |entries|
      ensures entries[k].packets > 0
    {
      assert EntryOf(entries[k], TracePackets(entries[..k]), c, start, worker, b);
    }
  }

  lemma {:induction false} RowsKeepPackets(trace: seq<TraceRecord>)
    ensures Packets(RowsOf(trace)) == TracePackets(trace)
  {
    if trace != [] {
      RowsKeepPackets(trace[..|trace| - 1]);
      assert RowsOf(trace)[..|trace| - 1] == RowsOf(trace[..|trace| - 1]);
    }
  }

  lemma TraceReconciles(c: Config, b: Books, unopened: nat)
    requires Balanced(b, c.payloadSize, c.sendBatchMax, c.traced, unopened) && c.traced
    ensures Packets(RowsOf(b.trace)) == TracePackets(b.trace) == b.successful
  {
    RowsKeepPackets(b.trace);
  }

  /** One thread in steady mode, one packet a call, on a schedule that fits 64 bits. */
  predicate SteadySingles(c: Config, start: U64) {
    && c.mode == Steady && c.threads == 1 && c.sendBatchMax == 1
    && DueCount(c.duration, c.rate) < TWO_TO_64 && start + c.duration < TWO_TO_64
  }

  predicate Punctual(trace: seq<TraceRecord>) { forall r :: r in trace ==> r.completion == r.scheduled }

  lemma {:induction false} AllTracesPositive(c: Config, start: U64, accounts: seq<Account>, runs: seq<WorkerRun>,
                                             scripts: seq<Script>)
    requires c.Parsed() && AllExplained(c, start, accounts, runs, scripts)
    ensures forall r :: r in AllTraces(accounts) ==> r.packets > 0
  {
    hide Explains;
    if accounts != [] {
      var w := |accounts| - 1;
      AllTracesPositive(c, start, accounts[..w], runs[..w], scripts);
      TracePositive(c, start, w, accounts[w], runs[w], scripts[w]);
    }
  }

  lemma TracePositive(c: Config, start: U64, worker: nat, a: Account, run: WorkerRun, script: Script)
    requires c.Parsed() && Explains(c, start, worker, a, run, script)
    ensures forall r :: r in a.books.trace ==> r.packets > 0
  {
    FlatHolds(c, start, worker, run.batches, run.parts);
  }

  /** The only worker of a completed run without failures, on its deadlines, leaves the ideal trace. */
  lemma {:induction false} OnlyWorkerIsIdeal(c: Config, start: U64, total: Books, accounts: seq<Account>,
                                             runs: seq<WorkerRun>, scripts: seq<Script>)
    requires c.Parsed() && c.traced && SteadySingles(c, start)
    requires |accounts| == |scripts| == 1 && AllExplained(c, start, accounts, runs, scripts)
    requires Completed(c, 0, accounts[0], runs[0]) && NotOpened(accounts) == 0
    requires Balanced(total, c.payloadSize, c.sendBatchMax, c.traced, 0)
    requires total.attempted == Attempts(accounts) == total.successful + total.failed && total.failed == 0
    requires total.trace == AllTraces(accounts) && Punctual(total.trace)
    ensures RowsOf(total.trace) == IdealRows(start, c.rate, DueCount(c.duration, c.rate))
    ensures total.successful == DueCount(c.duration, c.rate)
  {
    hide Planned, Recorded, DueCount, PacketLimit, Flat, Total, TracePackets, RowsOf, IdealRows;
    hide SteadySingles, Punctual;
    var a, run := accounts[0], runs[0];
    assert accounts[..0] == [];
    assert Explains(c, start, 0, a, run, scripts[0]);
    assert total.trace == [] + Flat(run.parts) == Flat(run.parts);
    assert Total(run.batches) == total.successful;
    TraceReconciles(c, total, 0);
    SinglesFit(c, start, total.trace);
    PunctualWorkerIsIdeal(c, start, run.batches, run.parts);
    IdealPackets(start, c.rate, DueCount(c.duration, c.rate));
  }

  lemma SinglesFit(c: Config, start: U64, trace: seq<TraceRecord>)
    requires SteadySingles(c, start) && Punctual(trace)
    ensures c.mode == Steady && c.threads == 1 && c.sendBatchMax == 1
    ensures DueCount(c.duration, c.rate) < TWO_TO_64 && start + c.duration < TWO_TO_64
    ensures forall r :: r in trace ==> r.completion == r.scheduled
  {
  }

  /** Replies on time: every pass is entered and its one call sends its packet at its deadline. */
  ghost predicate OnDeadline(c: Config, start: U64, script: Script)
    requires c.Parsed()
  {
    && script.Connected? && |script.turns| >= PacketLimit(c.duration, c.rate)
    && forall i :: 0 <= i < |script.turns| ==> SendsAt(script.turns[i], Deadline(start, i, c.rate))
  }

  predicate SendsAt(t: Turn, deadline: U64) {
    t.enter && |t.replies| == 1 && t.replies[0].result > 0 && t.replies[0].completion == deadline
  }

  lemma {:induction false} OnDeadlineIsNotCutOff(c: Config, start: U64, script: Script)
    requires c.Parsed() && SteadySingles(c, start) && OnDeadline(c, start, script)
    ensures NeverCutOff(c, script)
  {
    hide PacketLimit, Deadline, DueCount;
    forall t | t in script.turns
      ensures t.enter && Answers(t.replies) >= 1 && !StopSeen(t.replies)
    {
      var i :| 0 <= i < |script.turns| && t == script.turns[i];
      assert SendsAt(script.turns[i], Deadline(start, i, c.rate));
      assert t.replies == [t.replies[0]] && t.replies[1..] == [];
    }
  }

  lemma PlayOne(c: Config, start: U64, b: Batch, books: Books, r: Reply)
    requires c.Parsed() && c.mode == Steady && c.threads == 1 && c.sendBatchMax == 1 && b.count == 1
    requires |books.histogram| == 2 && r.result > 0
    ensures var after := Replay(c, start, 0, b, books, 0, [r]).books;
            && after.failed == books.failed
            && after.trace == books.trace + (if c.traced then [TraceOf(c, start, 0, b, 0, r, 1)] else [])
  {
    ReplayStep(c, start, 0, b, books, 0, [r]);
    var record := TraceOf(c, start, 0, b, 0, r, 1);
    var late := Lateness(record.scheduled, r.invocation);
    ReplayDone(c, start, 0, b, Entered(books, c, record, late, false), [r][1..]);
  }

  /** Replies on time leave no failure, and a trace on its deadlines. */
  lemma {:induction false} OnDeadlineIsPunctual(c: Config, start: U64, batches: seq<Batch>, turns: seq<Turn>)
    requires c.Parsed() && c.mode == Steady && c.threads == 1 && c.sendBatchMax == 1
    requires Sized(c, batches) && |batches| <= |turns|
    requires forall i :: 0 <= i < |batches| ==> batches[i].first == i && batches[i].count == 1
    requires forall i :: 0 <= i < |turns| ==> SendsAt(turns[i], Deadline(start, i, c.rate))
    ensures var books := Played(c, start, 0, batches, turns); books.failed == 0 && Punctual(books.trace)
  {
    hide Replay, Deadline;
    if batches != [] {
      var n := |batches| - 1;
      var b, r := batches[n], turns[n].replies[0];
      assert forall o :: o in batches[..n] ==> o in batches;
      OnDeadlineIsPunctual(c, start, batches[..n], turns);
      var before := Played(c, start, 0, batches[..n], turns);
      assert SendsAt(turns[n], Deadline(start, n, c.rate)) && turns[n].replies == [r];
      PlayOne(c, start, b, Attempting(before, b.count), r);
      assert Nth(b.first, 0, 1) == n;
    }
  }

  /** A sender with nothing but replies on time books no failure and leaves a punctual trace. */
  lemma {:induction false} OnDeadlineRun(c: Config, start: U64, accounts: seq<Account>, runs: seq<WorkerRun>,
                                         scripts: seq<Script>)
    requires c.Parsed() && SteadySingles(c, start) && |accounts| == |scripts| == 1
    requires AllExplained(c, start, accounts, runs, scripts) && OnDeadline(c, start, scripts[0])
    ensures accounts[0].books.failed == 0 && Punctual(AllTraces(accounts))
  {
    hide Settled, Planned, Recorded, Played, Punctual, PacketLimit, SendsAt, Deadline, DueCount;
    var a, run := accounts[0], runs[0];
    assert Explains(c, start, 0, a, run, scripts[0]);
    OneEach(c, PacketLimit(c.duration, c.rate), run.batches);
    OnDeadlineIsPunctual(c, start, run.batches, scripts[0].turns);
    assert accounts[..0] == [] && AllTraces(accounts) == [] + a.books.trace == a.books.trace;
  }

  /** From replies to verdict. Whatever replies the workers of a traced run meet, however many there
      are, the merged trace can be analysed and reconciles with the merged books. A single-threaded
      steady sender, one packet a call, that reaches the packet limit without a failure and on its
      deadlines, passes; and it does all that when its calls succeed on their deadlines. */
  method JudgeRun(c: Config, start: U64, scripts: seq<Script>, windowUs: nat)
    returns (total: Books, completed: bool, verdict: Outcome)
    requires c.Parsed() && c.traced && |scripts| == c.threads
    ensures verdict.Analysed? && DoesNotReconcile !in verdict.analysis.reasons
    ensures (forall r :: r in total.trace ==> r.scheduled <= r.completion <= r.scheduled + 2_000 * windowUs) ==>
              UnexplainedGap !in verdict.analysis.reasons
    ensures SteadySingles(c, start) && c.duration >= 201_000_000 && BandAdmits(c.rate) ==>
              (completed && total.failed == 0 && Punctual(total.trace) ==> verdict.analysis.Passed())
    ensures SteadySingles(c, start) && c.duration >= 201_000_000 && BandAdmits(c.rate) ==>
              (OnDeadline(c, start, scripts[0]) ==> completed && verdict.analysis.Passed())
  {
    hide Completed, DueCount, PacketLimit, TracePackets, Balanced, Judges, BandAdmits, Packets;
    hide RowsOf, IdealRows, Timely, AllExplained, Undisturbed, Answered, NeverCutOff, Attempts, AllTraces;
    hide OnDeadline, SteadySingles, Punctual, Merged, Fits;
    SinglesUseOneThread(c, start);
    var accounts;
    ghost var runs;
    total, accounts, completed, runs := Send(c, start, scripts);
    var end, rows := start + c.duration, RowsOf(total.trace);
    AllTracesPositive(c, start, accounts, runs, scripts);
    RowsAreValid(total.trace);
    TraceReconciles(c, total, NotOpened(accounts));
    verdict := AnalyzePacingTrace(rows, start, end, total.successful, c.rate, windowUs);
    Reconciled(verdict.analysis, rows, start, end, total.successful, c.rate, windowUs);
    TimelyTrace(total.trace, 2 * windowUs * 1000);
    if Timely(rows, 2 * windowUs * 1000) {
      TimelySenderHasNoUnexplainedGap(verdict.analysis, rows, start, end, total.successful, c.rate, windowUs);
    }
    ghost var ideal := SteadySingles(c, start) && OnDeadline(c, start, scripts[0]);
    if ideal {
      OnDeadlineIsNotCutOff(c, start, scripts[0]);
      OnDeadlineRun(c, start, accounts, runs, scripts);
      OnlyWorkerFails(c, accounts);
    }
    if SteadySingles(c, start) && c.duration >= 201_000_000 && BandAdmits(c.rate) &&
       completed && total.failed == 0 && Punctual(total.trace) {
      CompletedAreOpen(c, start, accounts, runs, scripts);
      OnlyWorkerIsIdeal(c, start, total, accounts, runs, scripts);
      IdealSchedulePasses(verdict.analysis, start, c.duration, c.rate, windowUs);
    }
  }

  lemma OnlyWorkerFails(c: Config, accounts: seq<Account>)
    requires |accounts| == 1 && Fits(c, accounts)
    ensures Merged(c, accounts).failed == accounts[0].books.failed
  {
    MergedAfter(c, accounts, 0);
    assert accounts[..1] == accounts && accounts[..0] == [];
  }

  lemma SinglesUseOneThread(c: Config, start: U64)
    ensures SteadySingles(c, start) ==> c.threads == 1
  {
  }

  lemma {:induction false} CompletedAreOpen(c: Config, start: U64, accounts: seq<Account>, runs: seq<WorkerRun>,
                                            scripts: seq<Script>)
    requires c.Parsed() && AllExplained(c, start, accounts, runs, scripts)
    requires forall w :: 0 <= w < |runs| ==> Completed(c, w, accounts[w], runs[w])
    ensures |runs| == |accounts| && NotOpened(accounts) == 0
  {
    hide Explains;
    AllOpened(accounts);
  }

  lemma TimelyTrace(trace: seq<TraceRecord>, slack: nat)
    ensures Timely(RowsOf(trace), slack) <==>
              forall r :: r in trace ==> r.scheduled <= r.completion <= r.scheduled + slack
  {
    if Timely(RowsOf(trace), slack) {
      forall r | r in trace
        ensures r.scheduled <= r.completion <= r.scheduled + slack
      {
        var i :| 0 <= i < |trace| && trace[i] == r;
        assert RowsOf(trace)[i] in RowsOf(trace);
      }
    }
  }

  lemma RowsAreValid(trace: seq<TraceRecord>)
    requires forall r :: r in trace ==> r.packets > 0
    ensures forall row :: row in RowsOf(trace) ==> ValidRow(row)
  {
    forall i | 0 <= i < |trace|
      ensures ValidRow(RowsOf(trace)[i])
    {
      assert trace[i] in trace;
    }
  }

  lemma Reconciled(a: Analysis, rows: seq<Row>, start: int, end: int, successful: int, rate: nat, windowUs: nat)
    requires Judges(a, rows, start, end, successful, rate, windowUs)
    ensures DoesNotReconcile in a.reasons <==> Packets(rows) != successful
  {
  }
}
