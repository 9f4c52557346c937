/** Striping and sequence allocation: what all workers together schedule, and how they number it. */
module SenderPartition {
  import opened Words
  import opened SenderSchedule
  import opened SenderBooks

  /** The packet indices a worker's batches go through, in order. */
  function Visited(batches: seq<Batch>, stride: nat): seq<nat> {
    if batches == [] then []
    else
      var b := batches[|batches| - 1];
      Visited(batches[..|batches| - 1], stride) + seq(b.count, j requires 0 <= j < b.count => Nth(b.first, j, stride))
  }

  /** A worker's batches visit its own indices in order and without a skip. */
  lemma {:induction false} VisitsItsStride(c: Config, limit: nat, worker: nat, batches: seq<Batch>)
    requires c.Parsed() && Planned(c, limit, worker, batches)
    ensures |Visited(batches, c.threads)| == Total(batches)
    ensures forall k :: 0 <= k < Total(batches) ==> Visited(batches, c.threads)[k] == Nth(worker, k, c.threads)
  {
    hide Nth, CountRule;
    if batches != [] {
      var past, b := batches[..|batches| - 1], batches[|batches| - 1];
      PlannedPrefix(c, limit, worker, batches);
      VisitsItsStride(c, limit, worker, past);
      forall j | 0 <= j < b.count
        ensures Nth(b.first, j, c.threads) == Nth(worker, Total(past) + j, c.threads)
      {
        NthPlus(worker, Total(past), j, c.threads);
      }
    }
  }

  lemma PlannedPrefix(c: Config, limit: nat, worker: nat, batches: seq<Batch>)
    requires c.Parsed() && Planned(c, limit, worker, batches) && batches != []
    ensures var past, b := batches[..|batches| - 1], batches[|batches| - 1];
            Planned(c, limit, worker, past) && b.first == Nth(worker, Total(past), c.threads) &&
            CountRule(c, limit, b.first, b.count)
  {
    hide CountRule, Nth, Total;
    var past := batches[..|batches| - 1];
    forall i | 0 <= i < |past|
      ensures past[..i] == batches[..i]
    {
    }
  }

  /** The packets of one batch all lie below the limit. */
  lemma BatchBelowLimit(c: Config, limit: nat, first: nat, count: nat, j: nat)
    requires c.Parsed() && c.mode != Flood && CountRule(c, limit, first, count) && j < count
    ensures Nth(first, j, c.threads) < limit
  {
    if c.mode == Steady { assert Feasible(first, limit, c.threads, c.rate, c.batchWindow, j); }
  }

  /** Every scheduled packet lies below the packet limit. */
  lemma {:induction false} VisitsBelowLimit(c: Config, limit: nat, worker: nat, batches: seq<Batch>, k: nat)
    requires c.Parsed() && c.mode != Flood && Planned(c, limit, worker, batches) && k < Total(batches)
    ensures Nth(worker, k, c.threads) < limit
  {
    hide Nth, CountRule;
    var past, b := batches[..|batches| - 1], batches[|batches| - 1];
    PlannedPrefix(c, limit, worker, batches);
    if k < Total(past) {
      VisitsBelowLimit(c, limit, worker, past, k);
    } else {
      NthPlus(worker, Total(past), k - Total(past), c.threads);
      BatchBelowLimit(c, limit, b.first, b.count, k - Total(past));
    }
  }

  /** A worker that ran to the limit scheduled exactly the indices congruent to its own. */
  lemma FinishedWorkerCoversItsShare(c: Config, limit: nat, worker: nat, batches: seq<Batch>, index: nat)
    requires c.Parsed() && c.mode != Flood && Planned(c, limit, worker, batches) && worker < c.threads
    requires Nth(worker, Total(batches), c.threads) >= limit
    ensures index in Visited(batches, c.threads) <==> index < limit && index % c.threads == worker
  {
    hide Nth, Planned;
    VisitsItsStride(c, limit, worker, batches);
    if index in Visited(batches, c.threads) {
      var k :| 0 <= k < Total(batches) && index == Visited(batches, c.threads)[k];
      VisitsBelowLimit(c, limit, worker, batches, k);
      NthDivides(worker, k, c.threads);
    }
    if index < limit && index % c.threads == worker {
      var k := index / c.threads;
      NthOfIndex(index, c.threads);
      if k >= Total(batches) { NthMonotone(worker, Total(batches), k, c.threads); }
      assert Visited(batches, c.threads)[k] == index;
    }
  }

  // ----- All workers together -----

  /** How many indices below the limit belong to a worker. */
  function Share(limit: nat, stride: nat, worker: nat): nat
    requires stride > 0
  {
    if limit == 0 then 0
    else Share(limit - 1, stride, worker) + (if (limit - 1) % stride == worker then 1 else 0)
  }

  lemma {:induction false} ShareCounts(limit: nat, stride: nat, worker: nat, k: nat)
    requires worker < stride
    ensures k < Share(limit, stride, worker) <==> Nth(worker, k, stride) < limit
    decreases limit, 1
  {
    hide Nth;
    if limit > 0 {
      ShareCounts(limit - 1, stride, worker, k);
      NthDivides(worker, k, stride);
      if (limit - 1) % stride == worker {
        var n := Share(limit - 1, stride, worker);
        NextOfShare(limit - 1, stride, worker);
        NthDivides(worker, n, stride);
        if k <= n { NthMonotone(worker, k, n, stride); }
      }
    }
  }

  /** An index belonging to a worker is the next one of its share. */
  lemma NextOfShare(index: nat, stride: nat, worker: nat)
    requires worker < stride && index % stride == worker
    ensures Nth(worker, Share(index, stride, worker), stride) == index
    decreases index, 2
  {
    hide Nth;
    var n, q := Share(index, stride, worker), index / stride;
    NthOfIndex(index, stride);
    ShareCounts(index, stride, worker, q);
    if q > 0 {
      ShareCounts(index, stride, worker, q - 1);
      NthPlus(worker, q - 1, 1, stride);
      StrideStep(Nth(worker, q - 1, stride), stride);
    }
  }

  lemma StrideStep(first: nat, stride: nat)
    ensures Nth(first, 1, stride) == first + stride
  {
  }

  function Shares(limit: nat, stride: nat, workers: nat): nat
    requires stride > 0
  {
    if workers == 0 then 0 else Shares(limit, stride, workers - 1) + Share(limit, stride, workers - 1)
  }

  lemma {:induction false} SharesGrow(limit: nat, stride: nat, workers: nat)
    requires stride > 0 && limit > 0
    ensures Shares(limit, stride, workers) ==
              Shares(limit - 1, stride, workers) + (if (limit - 1) % stride < workers then 1 else 0)
  {
    if workers > 0 { SharesGrow(limit, stride, workers - 1); }
  }

  lemma {:induction false} NoShares(stride: nat, workers: nat)
    requires stride > 0
    ensures Shares(0, stride, workers) == 0
  {
    if workers > 0 { NoShares(stride, workers - 1); }
  }

  lemma {:induction false} SharesTile(limit: nat, stride: nat)
    requires stride > 0
    ensures Shares(limit, stride, stride) == limit
  {
    if limit > 0 {
      SharesTile(limit - 1, stride);
      SharesGrow(limit, stride, stride);
    } else {
      NoShares(stride, stride);
    }
  }

  function TotalOf(runs: seq<seq<Batch>>): nat {
    if runs == [] then 0 else TotalOf(runs[..|runs| - 1]) + Total(runs[|runs| - 1])
  }

  /** Every worker ran until its next index was past the limit. */
  ghost predicate AllFinished(c: Config, limit: nat, runs: seq<seq<Batch>>)
    requires c.Parsed()
  {
    forall w :: 0 <= w < |runs| ==>
      Planned(c, limit, w, runs[w]) && Nth(w, Total(runs[w]), c.threads) >= limit
  }

  lemma FinishedTotal(c: Config, limit: nat, worker: nat, batches: seq<Batch>)
    requires c.Parsed() && c.mode != Flood && Planned(c, limit, worker, batches) && worker < c.threads
    requires Nth(worker, Total(batches), c.threads) >= limit
    ensures Total(batches) == Share(limit, c.threads, worker)
  {
    hide Nth, Planned;
    var n := Total(batches);
    ShareCounts(limit, c.threads, worker, n);
    if n > 0 {
      VisitsBelowLimit(c, limit, worker, batches, n - 1);
      ShareCounts(limit, c.threads, worker, n - 1);
    }
  }

  lemma {:induction false} FinishedTotals(c: Config, limit: nat, runs: seq<seq<Batch>>)
    requires c.Parsed() && c.mode != Flood && AllFinished(c, limit, runs) && |runs| <= c.threads
    ensures TotalOf(runs) == Shares(limit, c.threads, |runs|)
  {
    if runs != [] {
      FinishedTotals(c, limit, runs[..|runs| - 1]);
      FinishedTotal(c, limit, |runs| - 1, runs[|runs| - 1]);
    }
  }

  /** Striping partitions the schedule: with every worker run to the limit, each index below it is
      scheduled by the one worker it is congruent to, as that worker's packet number index / threads,
      and the workers attempt exactly limit packets between them. */
  lemma StripingPartitions(c: Config, limit: nat, runs: seq<seq<Batch>>)
    requires c.Parsed() && c.mode != Flood && |runs| == c.threads && AllFinished(c, limit, runs)
    ensures TotalOf(runs) == limit
    ensures forall index: nat, w :: 0 <= w < |runs| ==>
              (index in Visited(runs[w], c.threads) <==> index < limit && w == index % c.threads)
    ensures forall w, k :: 0 <= w < |runs| && 0 <= k < |Visited(runs[w], c.threads)| ==>
              k == Visited(runs[w], c.threads)[k] / c.threads
  {
    hide Nth, Planned;
    FinishedTotals(c, limit, runs);
    SharesTile(limit, c.threads);
    forall index: nat, w | 0 <= w < |runs|
      ensures index in Visited(runs[w], c.threads) <==> index < limit && w == index % c.threads
    {
      FinishedWorkerCoversItsShare(c, limit, w, runs[w], index);
    }
    forall w, k | 0 <= w < |runs| && 0 <= k < |Visited(runs[w], c.threads)|
      ensures k == Visited(runs[w], c.threads)[k] / c.threads
    {
      VisitsItsStride(c, limit, w, runs[w]);
      NthDivides(w, k, c.threads);
    }
  }

  /** Burst mode: no batch crosses a burst boundary. */
  lemma BurstsAreNotCrossed(c: Config, limit: nat, first: nat, count: nat, k: nat)
    requires c.Parsed() && c.mode == Burst && CountRule(c, limit, first, count) && k < count
    ensures first + k < limit && (first + k) / c.burstSize == first / c.burstSize
  {
    var q, r := first / c.burstSize, first % c.burstSize;
    assert first == c.burstSize * q + r;
    DivModUnique(first + k, c.burstSize, q, r + k);
  }

  /** Burst mode: a batch is only shorter than allowed at the end of its burst or of the schedule. */
  lemma BurstBatchesAreLongest(c: Config, limit: nat, first: nat, count: nat)
    requires c.Parsed() && c.mode == Burst && CountRule(c, limit, first, count)
    ensures 0 < count <= c.sendBatchMax
    ensures count == c.sendBatchMax || first + count == limit || (first + count) % c.burstSize == 0
  {
    var q, r := first / c.burstSize, first % c.burstSize;
    assert first == c.burstSize * q + r;
    if count == c.burstSize - r {
      assert first + count == c.burstSize * q + c.burstSize;
      assert c.burstSize * (q + 1) == c.burstSize * q + c.burstSize;
      DivModUnique(first + count, c.burstSize, q + 1, 0);
    }
  }

  /** Steady mode: every packet of a batch is due within the window of its first packet. */
  lemma BatchesFitTheWindow(c: Config, limit: nat, first: nat, count: nat, k: nat)
    requires c.Parsed() && c.mode == Steady && CountRule(c, limit, first, count) && k < count
    ensures Offset(first, c.rate) <= Offset(Nth(first, k, c.threads), c.rate) <= Offset(first, c.rate) + c.batchWindow
  {
    assert Feasible(first, limit, c.threads, c.rate, c.batchWindow, k);
    OffsetMonotone(first, Nth(first, k, c.threads), c.rate);
  }
}
