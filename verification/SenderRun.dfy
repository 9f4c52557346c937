/** A whole sender run: every worker from its socket to its books, then the merge. */
module SenderRun {
  import opened Words
  import opened SenderSchedule
  import opened SenderBooks
  import opened SenderWorker
  import opened SenderPartition
  import opened SenderTotals

  /** What a worker meets: the passes of its loop, or no socket at all. */
  datatype Script = Connected(turns: seq<Turn>) | NoSocket(error: int)

  /** What the run of one worker leaves behind. */
  datatype WorkerRun = WorkerRun(batches: seq<Batch>, parts: seq<seq<TraceRecord>>)

  /** The worker went on until its next index was past the limit. */
  ghost predicate Completed(c: Config, worker: nat, a: Account, run: WorkerRun) {
    && c.mode != Flood && a.isOpen && !a.LeftBatch()
    && Nth(worker, Total(run.batches), c.threads) >= PacketLimit(c.duration, c.rate)
  }

  /** A connected worker's books are its batches played against the replies of their passes, and it
      only ends at the limit, with a batch left half way, or where no further pass is entered. */
  ghost predicate PlaysOut(c: Config, start: U64, worker: nat, a: Account, run: WorkerRun, turns: seq<Turn>)
    requires c.Parsed()
  {
    && |run.batches| <= |turns| && Sized(c, run.batches)
    && (forall i :: 0 <= i < |run.batches| ==> turns[i].enter && run.batches[i].sequence == turns[i].sequence)
    && a.books == Played(c, start, worker, run.batches, turns)
    && a.books.attempted == Total(run.batches)
    && (a.last.Abandoned? ==> StopMet(turns))
    && (a.last.Pending? ==> exists t :: t in turns && Answers(t.replies) < c.sendBatchMax)
    && (Completed(c, worker, a, run) || a.LeftBatch() || |run.batches| == |turns| || !turns[|run.batches|].enter)
  }

  ghost predicate Explains(c: Config, start: U64, worker: nat, a: Account, run: WorkerRun, script: Script)
    requires c.Parsed()
  {
    && Settled(c, a) && (a.isOpen <==> script.Connected?)
    && Planned(c, PacketLimit(c.duration, c.rate), worker, run.batches)
    && Recorded(c, start, worker, run.batches, run.parts)
    && a.books.trace == (if c.traced then Flat(run.parts) else [])
    && match script
       case Connected(turns) => PlaysOut(c, start, worker, a, run, turns)
       case NoSocket(error) => a.books == Unopened(c.sendBatchMax, error) && run.batches == [] && a.last.Sent?
  }

  lemma {:induction false} UnopenedExplained(c: Config, start: U64, worker: nat, error: int)
    requires c.Parsed()
    ensures Explains(c, start, worker, Account(Unopened(c.sendBatchMax, error), Sent, 0, false), WorkerRun([], []),
                     NoSocket(error))
  {
    UnopenedBalances(c, error);
    NothingPlanned(c, PacketLimit(c.duration, c.rate), worker);
    NothingRecorded(c, start, worker);
  }

  method RunWorker(c: Config, start: U64, index: nat, script: Script)
    returns (a: Account, finished: bool, ghost run: WorkerRun)
    requires c.Parsed() && index < c.threads
    ensures Explains(c, start, index, a, run, script)
    ensures finished <==> Completed(c, index, a, run)
    ensures NeverCutOff(c, script) ==> finished
  {
    hide Balanced, Planned, Recorded, Flat, Total, PacketLimit, StopMet, Unopened, Nth, Played, Answers, NeverCutOff;
    match script {
      case NoSocket(error) =>
        UnopenedExplained(c, start, index, error);
        a, finished, run := Account(Unopened(c.sendBatchMax, error), Sent, 0, false), false, WorkerRun([], []);
      case Connected(turns) =>
        var worker := new Worker(c, index);
        var last, unsettled;
        finished, last, unsettled := worker.Run(c, start, turns);
        a := Account(worker.books, last, unsettled, true);
        run := WorkerRun(worker.batches, worker.parts);
    }
    ghost var free := NeverCutOff(c, script);
    if free { NeverCutOffCompletes(c, start, index, a, run, script); }
  }

  /** Nothing cuts the worker off: it has a socket, its calls are never interrupted with a stop
      requested, and there are passes enough, each entered and answered until its batch is through. */
  ghost predicate NeverCutOff(c: Config, script: Script) {
    && c.mode != Flood && script.Connected? && !StopMet(script.turns)
    && |script.turns| >= PacketLimit(c.duration, c.rate)
    && forall t :: t in script.turns ==> t.enter && Answers(t.replies) >= c.sendBatchMax
  }

  /** Such a worker reaches the limit. */
  lemma {:induction false} NeverCutOffCompletes(c: Config, start: U64, worker: nat, a: Account, run: WorkerRun,
                                                script: Script)
    requires c.Parsed() && Explains(c, start, worker, a, run, script) && NeverCutOff(c, script)
    ensures Completed(c, worker, a, run)
  {
    hide Settled, Planned, Recorded, Flat, Played, Answers, StopMet, PacketLimit;
    var n := |run.batches|;
    BatchesAreNotEmpty(c, run.batches);
    Multiple(c.threads, 1);
    AtLeast(worker, Total(run.batches), c.threads);
    if n < |script.turns| { assert script.turns[n] in script.turns; }
  }

  lemma AtLeast(first: nat, k: nat, stride: nat)
    requires stride > 0
    ensures Nth(first, k, stride) >= k
  {
    MulMono(k, 1, stride);
  }

  function BatchesOf(runs: seq<WorkerRun>): seq<seq<Batch>> {
    seq(|runs|, w requires 0 <= w < |runs| => runs[w].batches)
  }

  ghost predicate AllExplained(c: Config, start: U64, accounts: seq<Account>, runs: seq<WorkerRun>,
                               scripts: seq<Script>)
    requires c.Parsed()
  {
    && |accounts| == |runs| <= |scripts|
    && forall w :: 0 <= w < |accounts| ==> Explains(c, start, w, accounts[w], runs[w], scripts[w])
  }

  lemma {:induction false} WorkersReport(c: Config, start: U64, accounts: seq<Account>, runs: seq<WorkerRun>,
                                         scripts: seq<Script>)
    requires c.Parsed() && AllExplained(c, start, accounts, runs, scripts)
    ensures Reports(accounts, BatchesOf(runs)) && forall a :: a in accounts ==> Settled(c, a)
  {
    hide Settled, Planned, Recorded;
  }

  /** No worker was interrupted by a stop request, and none is still submitting. */
  ghost predicate Undisturbed(accounts: seq<Account>, scripts: seq<Script>) {
    && (forall s :: s in scripts && s.Connected? ==> !StopMet(s.turns))
    && (forall a :: a in accounts ==> !a.last.Pending?)
  }

  /** No call is interrupted with a stop requested, and every pass has answers enough for its batch. */
  ghost predicate Answered(c: Config, scripts: seq<Script>) {
    forall s :: s in scripts && s.Connected? ==>
      !StopMet(s.turns) && forall t :: t in s.turns ==> Answers(t.replies) >= c.sendBatchMax
  }

  lemma {:induction false} AnsweredIsUndisturbed(c: Config, start: U64, accounts: seq<Account>, runs: seq<WorkerRun>,
                                                 scripts: seq<Script>)
    requires c.Parsed() && AllExplained(c, start, accounts, runs, scripts) && Answered(c, scripts)
    ensures Undisturbed(accounts, scripts)
  {
    hide Settled, Planned, Recorded, StopMet, Played, Answers;
    forall w | 0 <= w < |accounts|
      ensures !accounts[w].last.Pending?
    {
      assert Explains(c, start, w, accounts[w], runs[w], scripts[w]) && scripts[w] in scripts;
    }
  }

  lemma {:induction false} UndisturbedSettles(c: Config, start: U64, accounts: seq<Account>, runs: seq<WorkerRun>,
                                              scripts: seq<Script>)
    requires c.Parsed() && AllExplained(c, start, accounts, runs, scripts) && Undisturbed(accounts, scripts)
    ensures forall a :: a in accounts ==> !a.LeftBatch()
  {
    hide Settled, Planned, Recorded, StopMet;
    forall w | 0 <= w < |accounts|
      ensures !accounts[w].LeftBatch()
    {
      assert Explains(c, start, w, accounts[w], runs[w], scripts[w]);
      assert accounts[w] in accounts && scripts[w] in scripts;
    }
  }

  lemma {:induction false} CompletedRunsFinish(c: Config, start: U64, accounts: seq<Account>, runs: seq<WorkerRun>,
                                               scripts: seq<Script>)
    requires c.Parsed() && AllExplained(c, start, accounts, runs, scripts) && |runs| == c.threads
    requires forall w :: 0 <= w < |accounts| ==> Completed(c, w, accounts[w], runs[w])
    ensures Attempts(accounts) == PacketLimit(c.duration, c.rate)
    ensures forall a :: a in accounts ==> !a.LeftBatch()
  {
    hide Settled, Recorded, PacketLimit, Nth;
    var limit := PacketLimit(c.duration, c.rate);
    forall w | 0 <= w < |runs|
      ensures Planned(c, limit, w, BatchesOf(runs)[w]) && Nth(w, Total(BatchesOf(runs)[w]), c.threads) >= limit
    {
      assert Explains(c, start, w, accounts[w], runs[w], scripts[w]) && Completed(c, w, accounts[w], runs[w]);
    }
    assert Completed(c, 0, accounts[0], runs[0]);
    StripingPartitions(c, limit, BatchesOf(runs));
    WorkersReport(c, start, accounts, runs, scripts);
    AttemptsAreTotals(accounts, BatchesOf(runs));
    AllOpened(accounts);
  }

  /** Every worker runs, then main merges their books. Nothing is unsettled unless a stop request
      interrupted a call or a worker is still submitting; and a run that every worker completes
      attempts exactly the packet limit. */
  method Send(c: Config, start: U64, scripts: seq<Script>)
    returns (total: Books, accounts: seq<Account>, completed: bool, ghost runs: seq<WorkerRun>)
    requires c.Parsed() && |scripts| == c.threads
    ensures |accounts| == c.threads && AllExplained(c, start, accounts, runs, scripts)
    ensures Balanced(total, c.payloadSize, c.sendBatchMax, c.traced, NotOpened(accounts))
    ensures total.attempted == Attempts(accounts) && total.trace == AllTraces(accounts)
    ensures Fits(c, accounts) && total == Merged(c, accounts)
    ensures Undisturbed(accounts, scripts) ==> total.attempted == total.successful + total.failed
    ensures Answered(c, scripts) ==> total.attempted == total.successful + total.failed
    ensures completed <==> forall w :: 0 <= w < |runs| ==> Completed(c, w, accounts[w], runs[w])
    ensures (forall s :: s in scripts ==> NeverCutOff(c, s)) ==> completed
    ensures completed ==>
              total.attempted == PacketLimit(c.duration, c.rate) == total.successful + total.failed
  {
    hide Explains, Completed, NeverCutOff, Balanced, Settled, Undisturbed, Answered;
    hide PacketLimit, Attempts, NotOpened, AllTraces, Merged, Fits;
    accounts, completed, runs := [], true, [];
    for w := 0 to |scripts|
      invariant |accounts| == |runs| == w
      invariant forall i :: 0 <= i < w ==> Explains(c, start, i, accounts[i], runs[i], scripts[i])
      invariant completed <==> forall i :: 0 <= i < w ==> Completed(c, i, accounts[i], runs[i])
      invariant (forall i :: 0 <= i < w ==> NeverCutOff(c, scripts[i])) ==> completed
    {
      var a, finished;
      ghost var run;
      a, finished, run := RunWorker(c, start, w, scripts[w]);
      accounts, completed, runs := accounts + [a], completed && finished, runs + [run];
    }
    WorkersReport(c, start, accounts, runs, scripts);
    total := MergeWorkers(c, accounts);
    if completed { CompletedRunsFinish(c, start, accounts, runs, scripts); }
    ghost var answered := Answered(c, scripts);
    if answered { AnsweredIsUndisturbed(c, start, accounts, runs, scripts); }
    ghost var undisturbed := Undisturbed(accounts, scripts);
    if undisturbed { UndisturbedSettles(c, start, accounts, runs, scripts); }
  }
}
