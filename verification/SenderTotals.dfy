/** What the sender reports for all its workers, and how they share one sequence counter. */
module SenderTotals {
  import opened Sequences
  import opened SenderBooks
  import opened SenderPartition

  // ----- Merging the workers' books -----

  /** A worker whose socket never opened books one failed attempt and one error. */
  function Unopened(sendBatchMax: nat, error: int): (b: Books)
    ensures b.attempted == b.failed == b.errorReturns == 1 && b.lastError == error
    ensures b.successful == b.syscalls == b.latenessSamples == 0 && b.trace == []
  {
    Blank(sendBatchMax).(attempted := 1, failed := 1, errorReturns := 1, lastError := error)
  }

  lemma UnopenedBalances(c: Config, error: int)
    ensures Balanced(Unopened(c.sendBatchMax, error), c.payloadSize, c.sendBatchMax, c.traced, 1)
  {
    BlankBalanced(c.payloadSize, c.sendBatchMax, c.traced);
  }

  function AddHistograms(a: seq<nat>, b: seq<nat>): (h: seq<nat>)
    requires |a| == |b|
    ensures |h| == |a|
  {
    seq(|a|, i requires 0 <= i < |a| => a[i] + b[i])
  }

  function Merge(a: Books, b: Books): Books
    requires |a.histogram| == |b.histogram|
  {
    Books(a.attempted + b.attempted, a.successful + b.successful, a.failed + b.failed, a.bytes + b.bytes,
          a.syscalls + b.syscalls, a.partialReturns + b.partialReturns, a.errorReturns + b.errorReturns,
          a.latenessSamples + b.latenessSamples, a.latenessSum + b.latenessSum,
          if a.latenessMax < b.latenessMax then b.latenessMax else a.latenessMax,
          if b.lastError != 0 then b.lastError else a.lastError,
          AddHistograms(a.histogram, b.histogram), a.lateness + b.lateness, a.trace + b.trace)
  }

  lemma PrefixOfSum(a: seq<nat>, b: seq<nat>)
    requires |a| == |b| > 0
    ensures var n := |a| - 1;
            AddHistograms(a, b)[..n] == AddHistograms(a[..n], b[..n]) && AddHistograms(a, b)[n] == a[n] + b[n]
  {
  }

  lemma DistributeLeft(n: nat, a: nat, b: nat)
    ensures n * (a + b) == n * a + n * b
  {
  }

  lemma {:induction false} HistogramsAdd(a: seq<nat>, b: seq<nat>)
    requires |a| == |b|
    ensures Weighted(AddHistograms(a, b)) == Weighted(a) + Weighted(b)
    ensures Sum(AddHistograms(a, b)) == Sum(a) + Sum(b)
  {
    hide AddHistograms;
    if a != [] {
      var n := |a| - 1;
      PrefixOfSum(a, b);
      HistogramsAdd(a[..n], b[..n]);
      DistributeLeft(n, a[n], b[n]);
    }
  }

  lemma {:induction false} SumsAdd(a: seq<nat>, b: seq<nat>)
    ensures Sum(a + b) == Sum(a) + Sum(b)
  {
    if b == [] {
      assert a + b == a;
    } else {
      SumsAdd(a, b[..|b| - 1]);
      assert (a + b)[..|a + b| - 1] == a + b[..|b| - 1];
    }
  }

  lemma {:induction false} TracesAdd(a: seq<TraceRecord>, b: seq<TraceRecord>)
    ensures TracePackets(a + b) == TracePackets(a) + TracePackets(b)
  {
    if b == [] {
      assert a + b == a;
    } else {
      TracesAdd(a, b[..|b| - 1]);
      assert (a + b)[..|a + b| - 1] == a + b[..|b| - 1];
    }
  }

  lemma MergeBalances(c: Config, a: Books, b: Books, u: nat, v: nat)
    requires Balanced(a, c.payloadSize, c.sendBatchMax, c.traced, u)
    requires Balanced(b, c.payloadSize, c.sendBatchMax, c.traced, v)
    ensures Balanced(Merge(a, b), c.payloadSize, c.sendBatchMax, c.traced, u + v)
  {
    HistogramsAdd(a.histogram, b.histogram);
    SumsAdd(a.lateness, b.lateness);
    TracesAdd(a.trace, b.trace);
    Distribute(a.successful, b.successful, c.payloadSize);
  }

  /** One worker's account at the end of its run. */
  datatype Account = Account(books: Books, last: Ending, unsettled: nat, isOpen: bool) {
    /** Whether the run left a batch half way: to a stop request, or still in submission. */
    predicate LeftBatch() { last.Abandoned? || last.Pending? }
  }

  ghost predicate Settled(c: Config, w: Account) {
    && Balanced(w.books, c.payloadSize, c.sendBatchMax, c.traced, if w.isOpen then 0 else 1)
    && w.books.attempted == w.books.successful + w.books.failed + w.unsettled
    && (w.unsettled > 0 <==> w.LeftBatch())
  }

  function Unsettled(workers: seq<Account>): nat {
    if workers == [] then 0 else Unsettled(workers[..|workers| - 1]) + workers[|workers| - 1].unsettled
  }

  function NotOpened(workers: seq<Account>): nat {
    if workers == [] then 0
    else NotOpened(workers[..|workers| - 1]) + (if workers[|workers| - 1].isOpen then 0 else 1)
  }

  function Attempts(workers: seq<Account>): nat {
    if workers == [] then 0 else Attempts(workers[..|workers| - 1]) + workers[|workers| - 1].books.attempted
  }

  function AllTraces(workers: seq<Account>): seq<TraceRecord> {
    if workers == [] then [] else AllTraces(workers[..|workers| - 1]) + workers[|workers| - 1].books.trace
  }

  ghost predicate Fits(c: Config, workers: seq<Account>) {
    forall w :: w in workers ==> |w.books.histogram| == c.sendBatchMax + 1
  }

  /** All books added up. */
  ghost function Merged(c: Config, workers: seq<Account>): (total: Books)
    requires Fits(c, workers)
    ensures |total.histogram| == c.sendBatchMax + 1
  {
    if workers == [] then Blank(c.sendBatchMax)
    else Merge(Merged(c, workers[..|workers| - 1]), workers[|workers| - 1].books)
  }

  lemma SettledFits(c: Config, workers: seq<Account>)
    requires forall w :: w in workers ==> Settled(c, w)
    ensures Fits(c, workers)
  {
  }

  lemma NothingMerged(c: Config)
    ensures Fits(c, []) && Merged(c, []) == Blank(c.sendBatchMax)
  {
  }

  lemma MergedAfter(c: Config, workers: seq<Account>, i: nat)
    requires i < |workers| && Fits(c, workers)
    ensures Fits(c, workers[..i]) && Fits(c, workers[..i + 1])
    ensures |workers[i].books.histogram| == c.sendBatchMax + 1
    ensures Merged(c, workers[..i + 1]) == Merge(Merged(c, workers[..i]), workers[i].books)
  {
    hide Merge;
    assert workers[i] in workers;
    assert workers[..i + 1][..i] == workers[..i];
  }

  lemma {:induction false} NothingUnsettled(c: Config, workers: seq<Account>)
    requires forall w :: w in workers ==> Settled(c, w)
    ensures Unsettled(workers) == 0 <==> forall w :: w in workers ==> !w.LeftBatch()
  {
    hide Balanced;
    if workers != [] {
      var past, last := workers[..|workers| - 1], workers[|workers| - 1];
      assert workers == past + [last];
      NothingUnsettled(c, past);
      assert Settled(c, last);
    }
  }

  // ----- What the merged books mean -----

  datatype Field =
    | Attempted | Successful | Failed | Bytes | Syscalls | PartialReturns | ErrorReturns | LatenessSamples | LatenessSum
    | OfSize(size: nat)

  function Value(b: Books, f: Field): nat {
    match f
    case Attempted => b.attempted
    case Successful => b.successful
    case Failed => b.failed
    case Bytes => b.bytes
    case Syscalls => b.syscalls
    case PartialReturns => b.partialReturns
    case ErrorReturns => b.errorReturns
    case LatenessSamples => b.latenessSamples
    case LatenessSum => b.latenessSum
    case OfSize(size) => if size < |b.histogram| then b.histogram[size] else 0
  }

  function SumOf(workers: seq<Account>, f: Field): nat {
    if workers == [] then 0 else SumOf(workers[..|workers| - 1], f) + Value(workers[|workers| - 1].books, f)
  }

  function AllLateness(workers: seq<Account>): seq<nat> {
    if workers == [] then [] else AllLateness(workers[..|workers| - 1]) + workers[|workers| - 1].books.lateness
  }

  /** Whether total adds up the workers: every counter and every histogram bucket is a sum, the largest
      lateness is the largest of any, samples and trace follow one another, and the last error is that
      of the last worker that had one. */
  ghost predicate AddsUp(total: Books, workers: seq<Account>) {
    && (forall f: Field :: Value(total, f) == SumOf(workers, f))
    && IsLargestLateness(total.latenessMax, workers) && total.lastError == LastErrorOf(workers)
    && total.lateness == AllLateness(workers) && total.trace == AllTraces(workers)
  }

  lemma MergedField(a: Books, b: Books, f: Field)
    requires |a.histogram| == |b.histogram|
    ensures Value(Merge(a, b), f) == Value(a, f) + Value(b, f)
  {
  }

  lemma {:induction false} NothingLeft(sendBatchMax: nat, f: Field)
    ensures Value(Blank(sendBatchMax), f) == 0
  {
  }

  lemma {:induction false} MergedAddsUp(c: Config, workers: seq<Account>)
    requires Fits(c, workers)
    ensures AddsUp(Merged(c, workers), workers)
  {
    if workers == [] {
      forall f: Field { NothingLeft(c.sendBatchMax, f); }
    } else {
      var past, last := workers[..|workers| - 1], workers[|workers| - 1];
      assert workers == past + [last] && last in workers;
      MergedAddsUp(c, past);
      AddOne(Merged(c, past), past, last);
    }
  }

  ghost predicate IsLargestLateness(max: nat, workers: seq<Account>) {
    && (forall w :: w in workers ==> w.books.latenessMax <= max)
    && (max == 0 || exists w :: w in workers && w.books.latenessMax == max)
  }

  /** The error of the last worker that had one; 0 if none had. */
  function LastErrorOf(workers: seq<Account>): int {
    if workers == [] then 0
    else if workers[|workers| - 1].books.lastError != 0 then workers[|workers| - 1].books.lastError
    else LastErrorOf(workers[..|workers| - 1])
  }

  lemma LargestAfter(max: nat, past: seq<Account>, last: Account)
    requires IsLargestLateness(max, past)
    ensures IsLargestLateness(if max < last.books.latenessMax then last.books.latenessMax else max, past + [last])
  {
    var all := past + [last];
    assert last in all && forall w :: w in past ==> w in all;
  }

  lemma AddOne(total: Books, past: seq<Account>, last: Account)
    requires |total.histogram| == |last.books.histogram| && AddsUp(total, past)
    ensures AddsUp(Merge(total, last.books), past + [last])
  {
    hide IsLargestLateness, AddHistograms;
    assert (past + [last])[..|past|] == past;
    forall f: Field { MergedField(total, last.books, f); }
    LargestAfter(total.latenessMax, past, last);
  }

  /** The merge loop of main. Whatever replies the workers met, the merged books balance: packets
      attempted are successful or failed, except those of a batch left half way; samples plus errors are the calls
      plus the sockets that never opened; and the trace holds exactly the successful packets, so the
      analyser's reconciliation cannot fail. */
  method MergeWorkers(c: Config, workers: seq<Account>) returns (total: Books)
    requires forall w :: w in workers ==> Settled(c, w)
    ensures Balanced(total, c.payloadSize, c.sendBatchMax, c.traced, NotOpened(workers))
    ensures total.attempted == total.successful + total.failed + Unsettled(workers)
    ensures total.attempted == total.successful + total.failed <==> forall w :: w in workers ==> !w.LeftBatch()
    ensures total.attempted == Attempts(workers) && total.trace == AllTraces(workers)
    ensures Fits(c, workers) && total == Merged(c, workers) && AddsUp(total, workers)
    ensures c.traced ==> TracePackets(total.trace) == total.successful
  {
    hide Balanced, Merge, Blank, Fits, AddsUp;
    SettledFits(c, workers);
    NothingMerged(c);
    total := Blank(c.sendBatchMax);
    BlankSettled(c);
    for i := 0 to |workers|
      invariant Balanced(total, c.payloadSize, c.sendBatchMax, c.traced, NotOpened(workers[..i]))
      invariant total.attempted == total.successful + total.failed + Unsettled(workers[..i])
      invariant total.attempted == Attempts(workers[..i]) && total.trace == AllTraces(workers[..i])
      invariant Fits(c, workers[..i]) && total == Merged(c, workers[..i])
    {
      assert workers[..i + 1][..i] == workers[..i];
      MergedAfter(c, workers, i);
      MergeSettled(c, total, workers[i], NotOpened(workers[..i]));
      total := MergeOne(c, total, workers[i].books, NotOpened(workers[..i]), if workers[i].isOpen then 0 else 1);
    }
    assert workers[..|workers|] == workers;
    ReconcilesTrace(c, total, NotOpened(workers));
    MergedAddsUp(c, workers);
    NothingUnsettled(c, workers);
  }

  lemma BlankSettled(c: Config)
    ensures var b := Blank(c.sendBatchMax);
            Balanced(b, c.payloadSize, c.sendBatchMax, c.traced, 0) &&
            b.attempted == b.successful == b.failed == 0 && b.trace == []
  {
    BlankBalanced(c.payloadSize, c.sendBatchMax, c.traced);
  }

  lemma MergeSettled(c: Config, total: Books, w: Account, u: nat)
    requires Balanced(total, c.payloadSize, c.sendBatchMax, c.traced, u) && Settled(c, w)
    ensures |total.histogram| == |w.books.histogram|
    ensures var merged := Merge(total, w.books);
            Balanced(merged, c.payloadSize, c.sendBatchMax, c.traced, u + if w.isOpen then 0 else 1) &&
            merged.attempted == total.attempted + w.books.attempted &&
            merged.successful == total.successful + w.books.successful &&
            merged.failed == total.failed + w.books.failed &&
            merged.trace == total.trace + w.books.trace
  {
    MergeBalances(c, total, w.books, u, if w.isOpen then 0 else 1);
  }

  lemma ReconcilesTrace(c: Config, b: Books, u: nat)
    requires Balanced(b, c.payloadSize, c.sendBatchMax, c.traced, u)
    ensures c.traced ==> TracePackets(b.trace) == b.successful
  {
  }

  /** One iteration: the counters are added, then the histogram size by size from 1. */
  method MergeOne(c: Config, a: Books, b: Books, ghost u: nat, ghost v: nat) returns (merged: Books)
    requires Balanced(a, c.payloadSize, c.sendBatchMax, c.traced, u)
    requires Balanced(b, c.payloadSize, c.sendBatchMax, c.traced, v)
    ensures merged == Merge(a, b)
  {
    var histogram := a.histogram;
    for size := 1 to |b.histogram|
      invariant |histogram| == |a.histogram|
      invariant forall i :: 0 <= i < size ==> histogram[i] == a.histogram[i] + b.histogram[i]
      invariant forall i :: size <= i < |histogram| ==> histogram[i] == a.histogram[i]
    {
      histogram := histogram[size := histogram[size] + b.histogram[size]];
    }
    merged := Books(a.attempted + b.attempted, a.successful + b.successful, a.failed + b.failed, a.bytes + b.bytes,
                    a.syscalls + b.syscalls, a.partialReturns + b.partialReturns, a.errorReturns + b.errorReturns,
                    a.latenessSamples + b.latenessSamples, a.latenessSum + b.latenessSum,
                    if a.latenessMax < b.latenessMax then b.latenessMax else a.latenessMax,
                    if b.lastError != 0 then b.lastError else a.lastError,
                    histogram, a.lateness + b.lateness, a.trace + b.trace);
    assert histogram == AddHistograms(a.histogram, b.histogram);
  }

  // ----- The shared sequence counter -----

  /** One fetch-add: which worker made it, and the batch it numbered. */
  datatype Grab = Grab(worker: nat, batch: Batch)

  /** The counter after a log of fetch-adds. */
  function Granted(log: seq<Grab>): nat {
    if log == [] then 0 else Granted(log[..|log| - 1]) + log[|log| - 1].batch.count
  }

  /** A log in the order the fetch-adds took effect: each returns the counter before it. */
  ghost predicate InOrder(log: seq<Grab>) {
    forall i :: 0 <= i < |log| ==> log[i].batch.sequence == Granted(log[..i])
  }

  predicate Covers(b: Batch, sequence: nat) { b.sequence <= sequence < b.sequence + b.count }

  lemma {:induction false} GrantedGrows(log: seq<Grab>, i: nat)
    requires i < |log|
    ensures Granted(log[..i]) + log[i].batch.count <= Granted(log)
  {
    var n := |log| - 1;
    if i < n {
      GrantedGrows(log[..n], i);
      assert log[..n][..i] == log[..i];
    }
  }

  /** Under every interleaving of the workers the allocated ranges tile the numbers handed out: each
      number below the counter is in exactly one range, and no range reaches beyond it. */
  lemma {:induction false} RangesTile(log: seq<Grab>, sequence: nat)
    requires InOrder(log)
    ensures sequence < Granted(log) <==> exists i :: 0 <= i < |log| && Covers(log[i].batch, sequence)
    ensures forall i, j :: 0 <= i < j < |log| ==> !(Covers(log[i].batch, sequence) && Covers(log[j].batch, sequence))
  {
    forall i, j | 0 <= i < j < |log|
      ensures log[i].batch.sequence + log[i].batch.count <= log[j].batch.sequence
    {
      GrantedGrows(log[..j], i);
      assert log[..j][..i] == log[..i];
    }
    forall i | 0 <= i < |log|
      ensures log[i].batch.sequence + log[i].batch.count <= Granted(log)
    {
      GrantedGrows(log, i);
    }
    if sequence < Granted(log) { var i := FindRange(log, sequence); }
  }

  lemma {:induction false} FindRange(log: seq<Grab>, sequence: nat) returns (i: nat)
    requires InOrder(log) && sequence < Granted(log)
    ensures i < |log| && Covers(log[i].batch, sequence)
  {
    var n := |log| - 1;
    if sequence < Granted(log[..n]) {
      forall j | 0 <= j < n
        ensures log[..n][..j] == log[..j]
      {
      }
      i := FindRange(log[..n], sequence);
    } else {
      i := n;
    }
  }

  /** The batches one worker numbered, in its own order. */
  function OwnBatches(log: seq<Grab>, worker: nat): seq<Batch> {
    if log == [] then []
    else
      var g := log[|log| - 1];
      OwnBatches(log[..|log| - 1], worker) + (if g.worker == worker then [g.batch] else [])
  }

  function OwnTotals(log: seq<Grab>, workers: nat): nat {
    if workers == 0 then 0 else OwnTotals(log, workers - 1) + Total(OwnBatches(log, workers - 1))
  }

  lemma {:induction false} OwnTotalsAfter(log: seq<Grab>, g: Grab, workers: nat)
    ensures OwnTotals(log + [g], workers) ==
              OwnTotals(log, workers) + (if g.worker < workers then g.batch.count else 0)
  {
    if workers > 0 {
      OwnTotalsAfter(log, g, workers - 1);
      assert (log + [g])[..|log|] == log;
      if g.worker == workers - 1 { TotalAfter(OwnBatches(log, workers - 1), g.batch); }
      else { assert OwnBatches(log, workers - 1) + [] == OwnBatches(log, workers - 1); }
    }
  }

  lemma {:induction false} NothingOwned(workers: nat)
    ensures OwnTotals([], workers) == 0
  {
    if workers > 0 { NothingOwned(workers - 1); }
  }

  lemma {:induction false} OwnTotalsAreGranted(log: seq<Grab>, workers: nat)
    requires forall g :: g in log ==> g.worker < workers
    ensures OwnTotals(log, workers) == Granted(log)
  {
    if log == [] {
      NothingOwned(workers);
    } else {
      var past, g := log[..|log| - 1], log[|log| - 1];
      assert log == past + [g];
      OwnTotalsAreGranted(past, workers);
      OwnTotalsAfter(past, g, workers);
    }
  }

  /** The batches of every worker, as the shared log interleaves them. */
  ghost predicate Interleaves(log: seq<Grab>, runs: seq<seq<Batch>>) {
    InOrder(log) && (forall g :: g in log ==> g.worker < |runs|) &&
    forall w :: 0 <= w < |runs| ==> OwnBatches(log, w) == runs[w]
  }

  /** However the fetch-adds interleave, the counter ends at the number of packets attempted. */
  lemma AttemptedIsNextSequence(log: seq<Grab>, runs: seq<seq<Batch>>)
    requires Interleaves(log, runs)
    ensures TotalOf(runs) == Granted(log)
  {
    OwnTotalsAreGranted(log, |runs|);
    OwnTotalsOfRuns(log, runs, |runs|);
    assert runs[..|runs|] == runs;
  }

  /** Each worker's books report the batches it numbered; one without a socket numbered none. */
  ghost predicate Reports(workers: seq<Account>, runs: seq<seq<Batch>>) {
    && |workers| == |runs|
    && forall w :: 0 <= w < |workers| ==>
         if workers[w].isOpen then workers[w].books.attempted == Total(runs[w])
         else workers[w].books.attempted == 1 && runs[w] == []
  }

  lemma {:induction false} AttemptsAreTotals(workers: seq<Account>, runs: seq<seq<Batch>>)
    requires Reports(workers, runs)
    ensures Attempts(workers) == TotalOf(runs) + NotOpened(workers)
  {
    if workers != [] { AttemptsAreTotals(workers[..|workers| - 1], runs[..|runs| - 1]); }
  }

  /** The attempts reported equal the numbers handed out exactly when every socket opened. */
  lemma ReportedAttempts(workers: seq<Account>, log: seq<Grab>, runs: seq<seq<Batch>>)
    requires Reports(workers, runs) && Interleaves(log, runs)
    ensures Attempts(workers) == Granted(log) + NotOpened(workers)
    ensures Attempts(workers) == Granted(log) <==> forall w :: w in workers ==> w.isOpen
  {
    AttemptsAreTotals(workers, runs);
    AttemptedIsNextSequence(log, runs);
    AllOpened(workers);
  }

  lemma {:induction false} AllOpened(workers: seq<Account>)
    ensures NotOpened(workers) == 0 <==> forall w :: w in workers ==> w.isOpen
  {
    if workers != [] {
      var past, last := workers[..|workers| - 1], workers[|workers| - 1];
      assert workers == past + [last];
      AllOpened(past);
    }
  }

  lemma {:induction false} OwnTotalsOfRuns(log: seq<Grab>, runs: seq<seq<Batch>>, n: nat)
    requires Interleaves(log, runs) && n <= |runs|
    ensures TotalOf(runs[..n]) == OwnTotals(log, n)
  {
    if n > 0 {
      OwnTotalsOfRuns(log, runs, n - 1);
      assert runs[..n][..n - 1] == runs[..n - 1];
    }
  }

  /** With every worker run to the limit, exactly the numbers 0 .. limit - 1 are handed out. */
  lemma FullScheduleNumbersEverything(c: Config, limit: nat, runs: seq<seq<Batch>>, log: seq<Grab>)
    requires c.Parsed() && c.mode != Flood && |runs| == c.threads && AllFinished(c, limit, runs)
    requires Interleaves(log, runs)
    ensures Granted(log) == limit
  {
    AttemptedIsNextSequence(log, runs);
    StripingPartitions(c, limit, runs);
  }

  /** With one thread, in every mode, a packet's sequence number is its packet index. */
  lemma {:induction false} OneThreadNumbersByIndex(c: Config, limit: nat, batches: seq<Batch>, log: seq<Grab>)
    requires c.Parsed() && c.threads == 1 && Planned(c, limit, 0, batches) && Interleaves(log, [batches])
    ensures forall i :: 0 <= i < |batches| ==> batches[i].sequence == batches[i].first
  {
    OnlyWorker(log);
    assert [batches][0] == batches;
    forall i | 0 <= i < |batches|
      ensures batches[i].sequence == batches[i].first
    {
      assert OwnBatches(log[..i], 0) == batches[..i] && log[i].batch == batches[i] by { OnlyWorkerPrefix(log, i); }
      OnlyWorker(log[..i]);
    }
  }

  lemma {:induction false} OnlyWorker(log: seq<Grab>)
    requires forall g :: g in log ==> g.worker == 0
    ensures |OwnBatches(log, 0)| == |log| && Total(OwnBatches(log, 0)) == Granted(log)
  {
    if log != [] {
      OnlyWorker(log[..|log| - 1]);
      TotalAfter(OwnBatches(log[..|log| - 1], 0), log[|log| - 1].batch);
    }
  }

  lemma {:induction false} OnlyWorkerPrefix(log: seq<Grab>, i: nat)
    requires (forall g :: g in log ==> g.worker == 0) && i < |log|
    ensures |OwnBatches(log, 0)| == |log|
    ensures OwnBatches(log[..i], 0) == OwnBatches(log, 0)[..i] && log[i].batch == OwnBatches(log, 0)[i]
  {
    OnlyWorker(log);
    var n := |log| - 1;
    OnlyWorker(log[..n]);
    if i < n {
      OnlyWorkerPrefix(log[..n], i);
      assert log[..n][..i] == log[..i];
    }
  }
}
