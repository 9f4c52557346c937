# Network latency lab: a verified model

The repository measures UDP latency and throughput. A paced sender numbers packets and submits them
in batches; three receivers (one datagram at a time, batched, and a receive thread feeding a worker
through a lock-free ring) count, track and log them; Python tools load the logs, judge a run's pacing
and accounting, stop processes, and decide whether a measured speed-up may be claimed. This project
models that chain and proves what its parts promise each other.

The modules follow the chain:

- `Words`, `Sequences`, `Sorting`, `Options`: machine words, masks, filtered sequences, sorting by a
  total order with its order statistics.
- `SequenceHistory` says what the sequence tracker's counters mean for a whole stream of arrivals,
  with no ring or bitmap. `SequenceTracking.SequenceTracker` is the ring of bitmaps with epochs, proved
  to compute exactly that. `TrackerLaws`, `TrackerCounts` and `OfflineStatistics` relate it to the unbounded truth.
- `SpscRing` is the ring buffer, as a value and as a class. `ThreadedReceiver` runs ingress and worker as
  interleaved atomic steps; `ThreadedRuns` holds the invariant and `ThreadedGuarantees` what follows from it.
  `ThreadedInput` ties the run to what its receive calls returned, `ThreadedScripts` shows that every way they
  can go is a run, `ThreadedOverflow` says when one can overflow.
- `ReceiverAccounting` says what a report is; `SynchronousReceivers` are the two single-threaded
  receivers; `ReceiverEquivalence` compares all three.
- `SenderSchedule`, `SenderBooks`, `SubmissionLaws`, `SenderWorker`, `SenderPartition`, `SenderTotals`, `SenderRun`:
  deadlines, the submission loop and its books, striping, the merge, the shared sequence counter, and the whole run.
- `BinaryLog`, `LogLoader` and `LogFields`: the log format, the buffered writer, the loader, and where each
  field lies.
- `PacingTrace`, `PacingLaws`, `IdealPacing`, `Validity`, `Qualification`, `Shutdown`, `Representatives`, `ClaimGate`: the
  verdicts.

Concurrency is modelled as an interleaving of single atomic loads and stores, quantified over every
schedule. The source's release/acquire pairs justify that interleaving; it is an assumption here.

## What does not hold unconditionally

Where a natural promise is not true of the code, the code is kept and the exact condition is proved:

- The tracker counts an arrival older than its window as unique as well as out of window, so a late
  repeat is counted twice. All counts are exact when nothing is out of window, and agree with the offline
  statistics if and only if no late arrival repeats a value (`AgreeExactlyWhenNothingRecounted`). A
  comment in the source speaks of 65,536 numbers of lookback; the guaranteed distance is 61,440
  (`LookbackIsExact`).
- Because of that, "unique receives exceed successful submissions" can be reported of a sound run:
  `RepeatedPacketTripsTheCheck` gives the runs (a first packet repeated after at least 65,537 packets). It
  cannot be reported of a trace, whatever the network repeats, if and only if no two of its numbers share a
  tracker slot in different blocks (`NeverTooManyExactly`); for packets numbered from 0 that is up to 65,536 of
  them (`SoundUpTo65536`).
- The packet limit schedules exactly the packets due before the end if and only if their number fits
  64 bits (`LimitIsAdjoint`); `LimitDropsDuePackets` names a duration and rate for which it does not.
- Lateness samples plus error returns equal the calls only when every socket opened, and attempts
  then equal the sequence numbers handed out (`MergeWorkers`, `ReportedAttempts`).
- A version 1 log cut at an entry boundary, or to nothing, is accepted although the loader's
  documentation says truncation is made visible; every other cut is rejected (`TruncationIsSafe`, and
  `TruncationOfAnyFile` for every file the loader accepts).
- A legacy log is read back if and only if it does not happen to begin with the version 1 magic
  (`LegacyReadBackExactly`); `MasqueradeIsMisread` names an entry that does.
- The overlap check of the claim gate accepts a repetition whose loss was never recorded beside one that
  recorded zero (`UnrecordedRepetitionPasses`); it is sound exactly for repetitions that all recorded a
  count (`OverlapCheckIsExact`).
- The threaded receiver's processed-side statistics equal the synchronous ones if and only if nothing
  overflowed (`ThreadedMatchesSynchronous`), and they do so on every schedule if and only if the datagrams hold
  at most capacity less one valid packets (`AgreesExactlyWhenPacketsFit`, `OverflowFreeExactly`); otherwise
  `LateWorkerRun` is a run that overflows.

## Model

| member | source | states |
|---|---|---|
| `Words.MaskIsMod` | src/common/spsc_queue.hpp:98 | masking with a power of two less one is the remainder, for every word |
| `Words.MaskedDifference` | src/common/spsc_queue.hpp:92 | the masked difference of two 64-bit indices is their true difference modulo the capacity, wrapped or not |
| `Words.SetBits` | src/common/sequence_tracker.hpp:49-54 | setting a bit with OR changes that bit and no other |
| `SpscRing.NextWraps` | src/common/spsc_queue.hpp:33-53 | the masked increment steps through all slots and wraps after the last |
| `SpscRing.MaskedSize` | src/common/spsc_queue.hpp:89-93 | the masked index difference is the number of items present |
| `SpscRing.FullAndEmpty` | src/common/spsc_queue.hpp:33-42 | the full test means capacity less one items, the empty test means none |
| `SpscRing.WriteIsInvisible` | src/common/spsc_queue.hpp:55-62 | writing an allocated slot changes nothing that is published |
| `SpscRing.PublishAppends` | src/common/spsc_queue.hpp:48-53 | publishing appends the written item to the queue, across the wrap-around |
| `SpscRing.ReleaseRemovesOldest` | src/common/spsc_queue.hpp:64-82 | the front slot holds the oldest item and releasing it removes exactly that one |
| `SpscRing.SPSCQueue.constructor` | src/common/spsc_queue.hpp:33-42 | a new queue is empty |
| `SpscRing.SPSCQueue.TryAlloc` | src/common/spsc_queue.hpp:33-42 | allocation fails exactly with capacity less one items present |
| `SpscRing.SPSCQueue.Commit` | src/common/spsc_queue.hpp:48-53 | appends the allocated slot's item |
| `SpscRing.SPSCQueue.Push` | src/common/spsc_queue.hpp:55-62 | appends the value, or changes nothing when full |
| `SpscRing.SPSCQueue.Front` | src/common/spsc_queue.hpp:64-71 | the oldest item, if any |
| `SpscRing.SPSCQueue.Pop` | src/common/spsc_queue.hpp:73-82 | removes the oldest item |
| `SpscRing.SPSCQueue.IsEmpty` | src/common/spsc_queue.hpp:84-87 | true exactly when nothing is published |
| `SpscRing.SPSCQueue.Size` | src/common/spsc_queue.hpp:89-93 | the number of items present |
| `SequenceHistory.CountersAfter` | src/common/sequence_tracker.hpp:30-62 | how one more arrival moves each counter, in terms of the arrivals so far |
| `SequenceTracking.EpochIsLargestBlock` | src/common/sequence_tracker.hpp:31-45 | a slot's epoch is the largest block that ever mapped to it |
| `SequenceTracking.RetiredByEpoch` | src/common/sequence_tracker.hpp:35-45 | comparing epochs decides exactly whether a later block has displaced the arrival's block |
| `SequenceTracking.OnlyItsBlock` | src/common/sequence_tracker.hpp:47-54 | an arrival concerns its own block, word and bit and no other |
| `SequenceTracking.Coordinates` | src/common/sequence_tracker.hpp:31-49 | the shifts and masks address slot, word and bit |
| `SequenceTracking.SequenceTracker.constructor` | src/common/sequence_tracker.hpp:86-94 | a new tracker describes the empty stream |
| `SequenceTracking.SequenceTracker.Retire` | src/common/sequence_tracker.hpp:41-44 | displacing a block leaves every slot's bits telling exactly which values of its block have arrived |
| `SequenceTracking.SequenceTracker.Place` | src/common/sequence_tracker.hpp:30-55 | late exactly when the block was displaced, duplicate exactly when seen and still remembered |
| `SequenceTracking.SequenceTracker.Count` | src/common/sequence_tracker.hpp:56-61 | the counters go on describing the whole stream |
| `SequenceTracking.SequenceTracker.Observe` | src/common/sequence_tracker.hpp:30-62 | appends the arrival to the stream every counter and bit describes; false exactly for a remembered repeat |
| `SequenceTracking.SequenceTracker.GapCount` | src/common/sequence_tracker.hpp:68-77 | the span less the unique count, clamped at zero |
| `TrackerLaws.EveryObservationCounted` | src/common/sequence_tracker.hpp:50-61 | unique plus duplicates is the number of arrivals, on every stream |
| `TrackerLaws.UniqueIsDistinct` | src/common/sequence_tracker.hpp:36-40 | unique is the number of distinct values plus those accepted twice, so at most out_of_window too many |
| `TrackerLaws.MissingSize` | src/common/sequence_tracker.hpp:70-71 | missing and distinct values fill the span |
| `TrackerLaws.GapsAreMissing` | src/common/sequence_tracker.hpp:68-77 | gaps are the missing values less the recounted ones, between missing - out_of_window and missing |
| `TrackerLaws.ExactInsideWindow` | src/common/sequence_tracker.hpp:22-27 | with nothing out of window every count is exact |
| `TrackerLaws.LateMeansSixteenBlocks` | src/common/sequence_tracker.hpp:31-40 | an arrival is late only sixteen blocks behind the newest |
| `TrackerLaws.LookbackIsExact` | src/common/sequence_tracker.hpp:22-27 | arrivals at a distance behind the maximum are called duplicates exactly when they are, on every stream, if and only if the distance is at most 61,440 |
| `TrackerLaws.DroppingNeverAdds` | src/receiver/receiver_threaded.cpp:152-155 | dropping arrivals never raises the unique count, evictions or not |
| `TrackerLaws.InsideWindowSurvivesDropping` | src/receiver/receiver_threaded.cpp:152-155 | a thinned stream of one without late arrivals has none, and no new duplicates |
| `TrackerLaws.UniqueShortfall` | src/receiver/receiver_threaded.cpp:152-155 | the loss of unique values is the number dropped less the duplicates among them |
| `TrackerLaws.IncreasingIsClean` | src/common/sequence_tracker.hpp:22-27 | a strictly increasing stream has no duplicates, reordering or late arrivals, whatever its gaps |
| `TrackerLaws.IncreasingGaps` | src/common/sequence_tracker.hpp:68-77 | and its gaps are the numbers it skipped |
| `TrackerCounts.CountersAreCounts` | src/common/sequence_tracker.hpp:30-62 | each counter is the number of arrivals it is named for, told from the arrivals before each alone |
| `TrackerCounts.ReportMeans` | src/receiver/receiver_common.hpp:322-328 | every reported sequence statistic in those terms |
| `OfflineStatistics.SortedDistinct` | analysis/latency_utils.py:109 | the distinct values in increasing order |
| `OfflineStatistics.GapLoss` | analysis/latency_utils.py:110 | the gaps between neighbours telescope to span less distinct values |
| `OfflineStatistics.CountReordered` | analysis/latency_utils.py:111-118 | first occurrences that arrived below the maximum so far |
| `OfflineStatistics.SequenceStatistics` | analysis/latency_utils.py:103-119 | missing values, repeated values and late first occurrences, for every stream |
| `OfflineStatistics.OnlineVersusOffline` | analysis/latency_utils.py:103-119 | the exact difference of online and offline counts on every stream |
| `OfflineStatistics.AgreeExactlyWhenNothingRecounted` | analysis/latency_utils.py:103-119 | both agree if and only if no late arrival repeats a value |
| `ReceiverAccounting.TallyMeans` | src/receiver/receiver_batched.cpp:91-102 | the four classes partition the datagrams, and each counter is the size of its class |
| `ReceiverAccounting.Request` | src/receiver/receiver_batched.cpp:84-85 | a call asks for as many datagrams as the batch holds and the limit leaves |
| `ReceiverAccounting.DatagramMeans` | src/receiver/receiver_batched.cpp:91-102 | what each kind of datagram counts as, and which packets are processed and sampled |
| `ReceiverAccounting.SampledMeans` | src/receiver/receiver_common.hpp:299-304 | the log holds the sampled packets in order |
| `ReceiverAccounting.NumbersOfKept` | src/receiver/receiver_threaded.cpp:152-155 | the worker's number stream is the ingress stream with the refused packets left out |
| `SynchronousReceivers.Receiver.constructor` | src/receiver/receiver_baseline.cpp:93-98 | a new receiver has received nothing |
| `SynchronousReceivers.Receiver.Classify` | src/receiver/receiver_baseline.cpp:110-121 | counts a datagram in its one class and passes exactly the valid ones |
| `SynchronousReceivers.Receiver.AccountReceive` | src/receiver/receiver_common.hpp:307-320 | receive-side counters and tracker go on describing the datagrams received |
| `SynchronousReceivers.Receiver.ProcessPacket` | src/receiver/receiver_common.hpp:288-305 | processing counters, tracker and log go on describing the packets processed |
| `SynchronousReceivers.Receiver.Ingest` | src/receiver/receiver_baseline.cpp:110-125 | takes in one more datagram and keeps the whole invariant |
| `SynchronousReceivers.Receiver.RunBaseline` | src/receiver/receiver_baseline.cpp:100-126 | takes in the datagrams of its calls up to a stop, an error or the packet limit |
| `SynchronousReceivers.Receiver.RunBatched` | src/receiver/receiver_batched.cpp:83-103 | the same for calls that return many datagrams, asking for no more than the limit leaves |
| `SynchronousReceivers.Receiver.Summary` | src/receiver/receiver_common.hpp:322-328 | a tracker's contribution is determined by the stream it observed |
| `SynchronousReceivers.Receiver.Finish` | src/receiver/receiver_common.hpp:185-194 | the report is a function of the datagrams received |
| `SynchronousReceivers.NeverBeyondLimit` | src/receiver/receiver_batched.cpp:83-86 | a nonzero packet limit is never exceeded |
| `SynchronousReceivers.NothingAfterTheEnd` | src/receiver/receiver_batched.cpp:83-90 | nothing is taken in after a stop, an error or the packet limit |
| `ThreadedRuns.AlwaysHolds` | src/receiver/receiver_threaded.cpp:103-163 | the invariant of queue, worker, tallies and handshake holds after every schedule of the two threads |
| `ThreadedGuarantees.FifoAlways` | src/common/spsc_queue.hpp:33-82 | on every schedule, popped items followed by ring contents are all pushed items |
| `ThreadedGuarantees.SlotsAreOwned` | src/receiver/receiver_threaded.cpp:109-112 | the slot the worker reads is never overwritten, and ingress never writes a published one |
| `ThreadedGuarantees.OverflowOnlyWhenFull` | src/receiver/receiver_threaded.cpp:155 | a push is refused exactly when capacity less one packets were present as tail was loaded |
| `ThreadedGuarantees.DepthIsOccupancy` | src/receiver/receiver_threaded.cpp:161 | the reported depth is the occupancy as tail was loaded |
| `ThreadedGuarantees.ConservedAtJoin` | src/receiver/receiver_threaded.cpp:103-163 | at join the ring is empty, exactly the accepted packets were processed, once and in order, and processed + overflow = valid |
| `ThreadedGuarantees.ReportAtJoin` | src/receiver/receiver_threaded.cpp:165-166 | the report is a function of what was received and processed |
| `ThreadedGuarantees.DroppedPacketsExplainLoss` | src/receiver/receiver_threaded.cpp:152-155 | what dropping any packets does to the two sequence reports |
| `ThreadedGuarantees.OverflowExplainsUniqueLoss` | src/receiver/receiver_threaded.cpp:152-166 | at join unique_processed is at most unique_valid; inside the window the shortfall is at most the overflow, equal to it without duplicates |
| `ThreadedGuarantees.PassesAreBounded` | src/receiver/receiver_threaded.cpp:106-115 | on every schedule the worker looks at the done flag again after at most batch_size packets |
| `ThreadedGuarantees.WorkerServes` | src/receiver/receiver_threaded.cpp:108-122 | in its pass the worker processes the oldest packet and gives back its slot, until the batch is full or the ring empty |
| `ThreadedGuarantees.PassBegins` | src/receiver/receiver_threaded.cpp:106-117 | a pass begins by looking at the done flag, and drains exactly when it is set |
| `ThreadedGuarantees.WorkerMakesProgress` | src/receiver/receiver_threaded.cpp:106-122 | after the done flag every worker step brings the exit nearer |
| `ThreadedGuarantees.DrainRuns` | src/receiver/receiver_threaded.cpp:117-122 | no interleaving undoes that progress |
| `ThreadedGuarantees.ShutdownTerminates` | src/receiver/receiver_threaded.cpp:161-163 | four worker steps per slot after the done flag are enough to reach join, from any worker state |
| `ThreadedInput.CallsAreTakenIn` | src/receiver/receiver_threaded.cpp:137-157 | at every instant the datagrams looked at and those pending are exactly those the receive calls returned, in order |
| `ThreadedInput.ReceivedIsDelivered` | src/receiver/receiver_threaded.cpp:137-157 | once the loop has ended, every datagram returned has been accounted for and no other |
| `ThreadedInput.LeavesForAReason` | src/receiver/receiver_threaded.cpp:137-144 | on every schedule the receive loop ends only for a stop, an error or the packet limit, never for a timeout or an interruption |
| `ThreadedInput.DepthWasMeasured` | src/receiver/receiver_threaded.cpp:161 | the depth reported is that of one instant after the receive loop and before the done flag |
| `ThreadedScripts.DepthAtJoin` | src/receiver/receiver_threaded.cpp:161 | and is how many packets the ring held then |
| `ThreadedScripts.RunOf` | src/receiver/receiver_threaded.cpp:137-163 | whatever the calls return, timeouts included, up to what ends the loop, some run to join makes exactly these calls |
| `ThreadedScripts.CallsOfRuns` | src/receiver/receiver_threaded.cpp:137-163 | the calls of the runs to join are exactly the well-behaved scripts that bring the loop to its end |
| `ThreadedOverflow.OverflowNeedsCapacity` | src/receiver/receiver_threaded.cpp:155 | no push is refused before a whole capacity of valid packets has arrived |
| `ThreadedOverflow.FewPacketsNeverOverflow` | src/receiver/receiver_threaded.cpp:155 | with fewer valid packets than slots no schedule overflows, at any instant |
| `ThreadedOverflow.LateWorkerRun` | src/receiver/receiver_threaded.cpp:103-163 | over any datagrams some run to join overflows by all valid packets but capacity less one |
| `ThreadedOverflow.OverflowFreeExactly` | src/receiver/receiver_threaded.cpp:137-163 | no run over given datagrams overflows if and only if they hold at most capacity less one valid packets |
| `ReceiverEquivalence.EverythingConsumed` | src/receiver/receiver_batched.cpp:83-103 | a well-behaved run takes in every datagram delivered |
| `ReceiverEquivalence.BatchingPreservesMeaning` | src/receiver/receiver_batched.cpp:83-107 | a baseline receiver, a batched one and the joined threaded one, handed the same datagrams in any splits and on any schedule, report the same ingress counters and receive side, and the same processed side exactly when nothing overflowed |
| `ReceiverEquivalence.ThreadedMatchesSynchronous` | src/receiver/receiver_threaded.cpp:137-166 | on every schedule the threaded report matches the synchronous one on the datagrams its receive calls returned |
| `ReceiverEquivalence.AgreesExactlyWhenPacketsFit` | src/receiver/receiver_threaded.cpp:137-166 | over given datagrams every schedule ends with the synchronous processed side if and only if at most capacity less one of them are valid packets |
| `SenderSchedule.DueBeforeEnd` | src/sender/sender_common.hpp:46-51 | an index is below the due count exactly when its offset is before the end |
| `SenderSchedule.LimitIsAdjoint` | src/sender/sender_common.hpp:46-51 | the packet limit schedules exactly the packets due before the end if and only if their number fits 64 bits |
| `SenderSchedule.LimitDropsDuePackets` | src/sender/sender_common.hpp:46-51 | ten seconds at 2^63 packets per second, where the limit is zero |
| `SenderSchedule.OffsetIsFloor` | src/sender/sender_common.hpp:39-40 | an offset is the last whole nanosecond not after the packet's exact time |
| `SenderSchedule.DeadlineMeans` | src/sender/sender_common.hpp:36-44 | a deadline is the start plus the offset, or the largest 64-bit value where that does not fit |
| `SenderSchedule.DeadlineMonotone` | src/sender/sender_common.hpp:36-44 | deadlines never go backwards, saturated or not |
| `SenderSchedule.DriftFree` | src/sender/sender_common.hpp:36-44 | whole seconds of packets land on whole seconds |
| `SenderSchedule.EvenSpacing` | src/sender/sender_common.hpp:36-44 | consecutive offsets differ by the floor or the ceiling of the period |
| `SenderSchedule.InfeasibleStays` | src/sender/sender_common.hpp:64-71 | once a packet cannot join a batch no later one can |
| `SenderSchedule.AdaptiveBatchCount` | src/sender/sender_common.hpp:53-73 | the longest feasible batch; nothing after its end could have joined |
| `SenderSchedule.LongestBatchMeans` | src/sender/sender_common.hpp:59-72 | the last packet is below the limit and within the window; the next, if there is room, is not |
| `SenderSchedule.LongestBatchUnique` | src/sender/sender_common.hpp:53-73 | that determines the batch length |
| `SenderBooks.Classify` | src/sender/sender_common.hpp:21-29 | retry exactly on EINTR, failure of the whole remainder exactly on other non-positive results, partial exactly in between |
| `SenderBooks.EnteredBalances` | src/sender/sender.cpp:470-493 | a submission keeps bytes, histogram, samples, sums, maximum and trace in balance |
| `SenderBooks.ErroredBalances` | src/sender/sender.cpp:458-469 | an error return keeps them in balance |
| `SenderWorker.Worker.constructor` | src/sender/sender.cpp:379 | blank books balance |
| `SenderBooks.EndsForAReason` | src/sender/sender.cpp:449-494 | a batch is left only to a stop that interrupted a call, and still pending only with fewer answers than packets |
| `SenderBooks.BatchesAreNotEmpty` | src/sender/sender.cpp:434 | every pass attempts at least one packet |
| `SubmissionLaws.EverySubmissionIsTold` | src/sender/sender.cpp:449-494 | for every sequence of replies: which were used, what each call sent, how late it was against its due time, what its trace entry says, and what every counter, bucket and error became, in plain arithmetic |
| `SenderWorker.Worker.Submit` | src/sender/sender.cpp:449-494 | the books, the packets sent and the ending are those the replies lead to, and are told by such an account; the books balance, and the trace entries cover exactly the packets sent, each with its own deadline |
| `SenderWorker.Worker.Plan` | src/sender/sender.cpp:416-434 | the batch length and deadline each mode prescribes |
| `SenderWorker.Worker.TakeTurn` | src/sender/sender.cpp:413-495 | one pass plans the next batch, numbers it with its range and plays it against its replies |
| `SenderWorker.Worker.Run` | src/sender/sender.cpp:412-496 | every pass entered is taken until the limit is reached or a batch is left half way; the books are the batches played against their replies, and attempted = successful + failed + unsettled, nothing unsettled but by a stop that interrupted a call or for want of replies |
| `SenderPartition.VisitsItsStride` | src/sender/sender.cpp:477-495 | a worker visits its indices in order without a skip |
| `SenderPartition.VisitsBelowLimit` | src/sender/sender.cpp:413-415 | and none at or past the limit |
| `SenderPartition.FinishedWorkerCoversItsShare` | src/sender/sender.cpp:412-415 | a worker that reached the limit visited exactly the indices congruent to its own |
| `SenderPartition.StripingPartitions` | src/sender/sender.cpp:412-495 | together the workers visit every index below the limit once, and attempt exactly limit packets |
| `SenderPartition.BurstsAreNotCrossed` | src/sender/sender.cpp:420-426 | no burst-mode batch crosses a burst boundary |
| `SenderPartition.BurstBatchesAreLongest` | src/sender/sender.cpp:420-423 | a burst-mode batch is only shorter than allowed at the end of its burst or of the schedule |
| `SenderPartition.BatchesFitTheWindow` | src/sender/sender.cpp:427-433 | every packet of a steady batch is due within the window of its first |
| `SenderTotals.UnopenedBalances` | src/sender/sender.cpp:497-500 | a worker without a socket balances with one error that no call made |
| `SenderTotals.MergeBalances` | src/sender/sender.cpp:597-614 | merging balanced books balances |
| `SenderTotals.MergeOne` | src/sender/sender.cpp:597-614 | one pass of the merge loop adds every counter and histogram bucket |
| `SenderTotals.MergedAddsUp` | src/sender/sender.cpp:597-614 | every merged counter and bucket is the sum over the workers, the largest lateness is the largest of any, samples and traces follow one another, the last error is that of the last worker that had one |
| `SenderTotals.MergeWorkers` | src/sender/sender.cpp:593-614 | the merged books balance, attempted = successful + failed exactly when no worker left a batch half way, and the trace holds exactly the successful packets |
| `SenderTotals.RangesTile` | src/sender/sender_common.hpp:31-34 | under every interleaving the ranges are disjoint and tile the numbers handed out |
| `SenderTotals.AttemptedIsNextSequence` | src/sender/sender.cpp:435-448 | the packets attempted are the numbers handed out |
| `SenderTotals.ReportedAttempts` | src/sender/sender.cpp:497-598 | the reported total exceeds them by the sockets that never opened |
| `SenderTotals.FullScheduleNumbersEverything` | src/sender/sender.cpp:412-448 | a complete schedule hands out exactly the numbers below the limit |
| `SenderTotals.OneThreadNumbersByIndex` | src/sender/sender.cpp:435-437 | with one thread a packet's number is its index, in every mode |
| `SenderRun.NeverCutOffCompletes` | src/sender/sender.cpp:412-496 | a worker cut off neither by time nor by a stop reaches the limit |
| `SenderRun.RunWorker` | src/sender/sender.cpp:378-504 | one worker with or without a socket: its books are its batches played out, its trace records them, and it completes when nothing cuts it off |
| `SenderRun.Send` | src/sender/sender.cpp:578-614 | all workers and the merge: without a stop that interrupts a call, attempted = successful + failed; if no worker is cut off the run completes and attempts exactly the packet limit |
| `BinaryLog.DecodeUndoesEncode` | src/common/csv_writer.hpp:43-57 | decoding undoes encoding at every width |
| `BinaryLog.EncodeUndoesDecode` | src/common/csv_writer.hpp:43-57 | encoding undoes decoding of every byte string |
| `BinaryLog.EncodedByte` | src/common/csv_writer.hpp:46-47 | each byte is what shift and mask pick out |
| `BinaryLog.WriteLe` | src/common/csv_writer.hpp:43-48 | writes the encoding and nothing beside it |
| `BinaryLog.ReadLe` | src/common/csv_writer.hpp:50-57 | OR and shift accumulate the decoded value |
| `BinaryLog.EncodeLogEntry` | src/common/csv_writer.hpp:71-85 | lays the five fields out in 36 bytes |
| `LogFields.HeaderInFull` | src/common/csv_writer.hpp:59-69 | the sixteen bytes of the header |
| `LogFields.EntryLayout` | src/common/csv_writer.hpp:71-85 | where each field lies in an entry |
| `LogFields.LegacyLayout` | analysis/latency_utils.py:92-93 | where each field lies in a legacy record |
| `BinaryLog.EntryRoundTrip` | src/common/csv_writer.hpp:71-97 | an entry survives encoding and decoding |
| `BinaryLog.EntryBytesRoundTrip` | src/common/csv_writer.hpp:87-97 | 36 bytes survive decoding and encoding |
| `BinaryLog.HeaderAcceptedExactly` | src/common/csv_writer.hpp:99-111 | exactly the byte strings starting with the writer's header are accepted |
| `BinaryLog.BinaryLogger.constructor` | src/common/csv_writer.hpp:121-133 | a new log holds the header and no entry |
| `BinaryLog.BinaryLogger.Log` | src/common/csv_writer.hpp:139-143 | keeps every entry in order, flushing exactly when the next would not fit |
| `BinaryLog.BinaryLogger.Flush` | src/common/csv_writer.hpp:145-153 | moves all buffered entries to the file |
| `LogLoader.LoadBinaryFile` | analysis/latency_utils.py:58-100 | the loops compute the records of a version 1 or legacy file, or an error |
| `LogFields.VersionedAccepted` | analysis/latency_utils.py:72-86 | which files with the magic are read, byte by byte |
| `LogFields.LegacyAccepted` | analysis/latency_utils.py:89-91 | which files without it are |
| `LogFields.VersionedFields` | analysis/latency_utils.py:84-88 | each field of the k-th record, from the bytes where it lies, whatever the header's length |
| `LogFields.LegacyFields` | analysis/latency_utils.py:92-93 | the same of legacy records: signed latency, processing taken to start and finish at reception |
| `LogFields.LoadedFields` | analysis/latency_utils.py:84-88 | every field of every entry written comes back |
| `LogFields.LoadedLegacyFields` | analysis/latency_utils.py:92-93 | and of every legacy entry, unless the file begins with the magic |
| `LogLoader.TruncationOfAnyFile` | analysis/latency_utils.py:58-100 | every prefix of any accepted file, whichever its format and header length, is rejected or loads to a prefix of its records; accepted exactly when empty or between two records |
| `LogLoader.TruncationIsSafe` | analysis/latency_utils.py:58-88 | for a log of the writer: every prefix is rejected or loads to exactly the entries it holds whole; accepted exactly at entry boundaries or empty |
| `LogLoader.LogRoundTrip` | analysis/latency_utils.py:71-88 | a whole log loads to exactly its entries |
| `LogLoader.LegacyReadBackExactly` | analysis/latency_utils.py:89-93 | a legacy log is read back if and only if it does not begin with the version 1 magic |
| `LogLoader.MasqueradeIsMisread` | analysis/latency_utils.py:72-93 | a legacy entry that is not read back |
| `LogLoader.FlushedStaysDurable` | src/common/csv_writer.hpp:139-153 | a flushed entry stays in the file |
| `LogLoader.FullBuffersAreDurable` | src/common/csv_writer.hpp:139-153 | after a flush, exactly the full buffers of 1,820 entries before the newest entry reach the file |
| `LogLoader.WriteThenLoad` | src/common/csv_writer.hpp:117-160 | after any calls the file loads to exactly the entries flushed, explicitly or by a full buffer |
| `Sorting.OrderStatistic` | main.py:910-915 | the element of a rank in sorted order, told by counts alone |
| `PacingTrace.NearestRank` | main.py:910-915 | the smallest sample value that a rank's worth of samples do not exceed, and none for an empty sample |
| `PacingTrace.SortedKeepsPackets` | main.py:933-954 | sorting the trace loses no packet |
| `PacingLaws.SortedByTime` | main.py:933 | records sort by completion, then schedule, then size |
| `PacingLaws.WindowCountMeans` | main.py:936-938 | the windows are the whole milliseconds inside the 100 ms edges; none below 201 ms |
| `PacingLaws.RecordFillsItsWindow` | main.py:941-943 | a record puts all its packets into the millisecond it completed in and nothing elsewhere |
| `PacingLaws.WindowsConserve` | main.py:941-944 | the windows hold exactly the packets of the interior records |
| `PacingLaws.SortedKeepsWindows` | main.py:933-943 | sorting moves no packet to another window |
| `PacingLaws.InteriorMeans` | main.py:942-944 | exactly the records between the edges are interior, each as often as recorded |
| `PacingLaws.InteriorOrdered` | main.py:941-944 | and stay in their order |
| `PacingLaws.MaxExcessMeans` | main.py:947-955 | the largest excess is above a bound exactly when two neighbours are further apart than asked by more |
| `PacingLaws.BandMeans` | main.py:950-953 | p1 and p99 are in the band exactly when fewer than 1% of the windows are thin and at most 1% crowded |
| `PacingLaws.VerdictMeans` | main.py:918-972 | every reason in terms of the trace as recorded, without percentiles or sorting of windows |
| `PacingTrace.CountWindows` | main.py:938-943 | packets per one-millisecond interior window |
| `PacingTrace.LargestExcess` | main.py:947-955 | the largest gap the schedule did not ask for |
| `PacingTrace.AnalyzePacingTrace` | main.py:918-972 | an error exactly for an invalid record; each reason exactly when its condition holds |
| `IdealPacing.WindowHoldsItsPackets` | main.py:941-943 | a window of the ideal trace holds the packets due between its ends |
| `IdealPacing.IdealWindow` | main.py:938-953 | floor or ceiling of rate / 1000 packets in every counted window |
| `IdealPacing.TimelySenderHasNoUnexplainedGap` | main.py:947-964 | any trace with lateness within two batch windows raises no gap reason, whatever its batches |
| `IdealPacing.TenThousandIsEnough` | main.py:952-962 | at 10,000 packets per second and above both counts are in the band |
| `IdealPacing.IdealSchedulePasses` | main.py:918-972 | an ideal run of at least 201 ms gets no reason at any rate whose windows can be in the band |
| `IdealPacing.PunctualWorkerIsIdeal` | src/sender/sender.cpp:412-495 | a punctual one-packet-a-call worker that finishes leaves exactly the ideal trace |
| `IdealPacing.OnDeadlineRun` | src/sender/sender.cpp:412-495 | replies that succeed at the deadlines leave no failure and a trace on its deadlines |
| `IdealPacing.JudgeRun` | main.py:954-964 | for any number of workers and any replies the merged trace can be analysed and reconciles with the merged books; no gap reason when every entry completes within two batch windows of its deadline; a single-threaded run whose calls succeed at their deadlines completes and passes |
| `Validity.AccountingReasons` | main.py:1059-1067 | each accounting complaint exactly when its condition holds |
| `Validity.CarriedByMeans` | src/sender/sender.cpp:436-443 | the 32-bit numbers a trace put on the wire |
| `Validity.CarriedByFits` | src/sender/sender.cpp:473-492 | no more numbers go out than packets were submitted |
| `Validity.TooManyMeansRecounted` | main.py:1062-1063 | the unique check fires only when values were recounted, which takes an arrival out of window |
| `Validity.NeverTooManyExactly` | main.py:1062-1063 | no network trips the unique check of a trace if and only if no two of its numbers share a tracker slot in different blocks |
| `Validity.SoundUpTo65536` | main.py:1062-1063 | for packets numbered from 0, if and only if there are at most 65,536 |
| `Validity.RepeatedPacketTripsTheCheck` | main.py:1062-1063 | n packets sent, all delivered, the first repeated by the network: the check fires exactly from 65,537 packets on |
| `Validity.SoundRunsRaiseNoComplaint` | main.py:1059-1067 | over every schedule and every lossy, reordering, duplicating network, no complaint unless an arrival was out of window |
| `Qualification.TracesRange` | src/sender/sender.cpp:477-493 | the packets sent of a batch carry the first numbers of its range |
| `Qualification.InterleavedIsApart` | src/sender/sender_common.hpp:31-34 | under every interleaving no number lies in two batches, of one worker or of two |
| `Qualification.NumbersGoOutOnce` | src/sender/sender.cpp:435-493 | while the counter fits 32 bits no number goes out twice: the trace carries as many numbers as successful packets |
| `Qualification.OnceIsExact` | src/common/sequence_tracker.hpp:30-62 | packets that arrive once each are counted exactly, in any order and in or out of window |
| `Qualification.QualificationReasons` | main.py:997-1018 | each accounting reason exactly when its condition holds |
| `Qualification.NothingTripsMeans` | main.py:997-1018 | what a run without any of these reasons has achieved, counter by counter |
| `Qualification.CleanReport` | src/receiver/receiver_threaded.cpp:137-166 | on every schedule without overflow both sides of the report count each packet once, without gaps |
| `Qualification.CleanRunQualifies` | main.py:989-1018 | a sender without failures, its workers interleaved in any way, a network that delivers each packet once, and a receiver that does not overflow trip no accounting check but that for reordering, and that only when packets overtook one another |
| `Shutdown.SignalsClimbTheLadder` | main.py:464-500 | signals are initial parts of INT, TERM, KILL and of TERM, KILL, the second only after all of the first |
| `Shutdown.EverySignalIsNeeded` | main.py:470-505 | each signal but the first follows a wait that timed out or a workload seen alive since the one before |
| `Shutdown.WrapperOnlyAfterWorkload` | main.py:491-501 | the wrapper is signalled with every signal sent to its workload and the workload seen gone since |
| `Shutdown.ReturnedMeans` | main.py:478-489 | a returned status was given after the last signal, with a tracked workload seen gone |
| `Shutdown.SignalStage` | main.py:470-489 | one stage: settles with a status and a workload gone, or justifies escalating |
| `Shutdown.StopWrapper` | main.py:493-507 | the wrapper is only signalled once its workload is gone |
| `Shutdown.ShutdownProcess` | main.py:456-507 | for every way a node may answer: every signal is justified, every call given its own time, a return has a status and a workload seen gone, giving up comes after the last signal, any other failure is the node's, no assertion fails, waiting is bounded |
| `Representatives.Population` | analysis/profile_tools.py:31-44 | exactly the valid runs of the campaign off loopback |
| `Representatives.PopulationCounts` | analysis/profile_tools.py:31-44 | each as often as it was measured |
| `Representatives.GroupCounts` | analysis/profile_tools.py:66 | a group's members are its runs, each as often as it was measured |
| `Representatives.HighestRate` | analysis/profile_tools.py:63-70 | the highest rate tested at the identical configuration |
| `Representatives.Summarize` | analysis/profile_tools.py:66-85 | a row's extremes, median, loss, saturation and run ids are those of its repetitions |
| `Representatives.RowMeans` | analysis/profile_tools.py:66-79 | five sustainable repetitions, at most two below the median and three at most it; saturated exactly when the identical configuration was tested at a higher rate |
| `Representatives.SustainableGroups` | analysis/profile_tools.py:47-87 | one row for every group that met the rule and for no other |
| `Representatives.Pick` | analysis/profile_tools.py:110-112 | the first of a contest's highest rates |
| `Representatives.Choose` | analysis/profile_tools.py:112-116 | smallest batch within 2% of the best median, at its highest rate |
| `Representatives.SelectRepresentatives` | analysis/profile_tools.py:90-121 | the representatives, at one workload, or the reason there are none |
| `Representatives.RepresentativeMeans` | analysis/profile_tools.py:110-116 | a representative wins its contest, is within 2% of the best winner, and no other such winner has a smaller batch, or the same at a higher rate |
| `Representatives.HighestPassingRate` | analysis/profile_tools.py:105-112 | a representative runs at the highest rate its configuration passed |
| `Representatives.SaturatedMeansFailedAbove` | analysis/profile_tools.py:47-79 | a saturated representative has a higher rate tested at the identical configuration that failed the rule |
| `ClaimGate.ThroughputBlockers` | analysis/generate_claim_evidence.py:27-44 | no blocker exactly when repetitions, loss, saturation, effect and ranges all pass |
| `ClaimGate.ThroughputReasons` | analysis/generate_claim_evidence.py:27-44 | each throughput blocker is given exactly for its own reason |
| `ClaimGate.OverlapBlockers` | analysis/generate_claim_evidence.py:92-107 | no blocker exactly when five rows match and each column's largest filled value is zero |
| `ClaimGate.OverlapMeans` | analysis/generate_claim_evidence.py:92-107 | that is: five rows match, both columns exist, in each some row recorded zero and none more |
| `ClaimGate.MatchedCounts` | analysis/generate_claim_evidence.py:95-96 | the matched rows are those with a listed id, each as often as it appears |
| `ClaimGate.OverlapCheckIsExact` | analysis/generate_claim_evidence.py:92-107 | every repetition recorded zero if and only if the check passes and every repetition recorded a count |
| `ClaimGate.UnrecordedRepetitionPasses` | analysis/generate_claim_evidence.py:92-107 | five distinct repetitions, one without a recorded loss, that pass the whole overlap check |
| `ClaimGate.OverlapCoversRepetitions` | analysis/generate_claim_evidence.py:95-105 | what the check sees covers every repetition of the candidate |
| `ClaimGate.MechanismBlockers` | analysis/generate_claim_evidence.py:47-89 | no blocker exactly when the mechanism each architecture claims was observed |
| `ClaimGate.Judge` | analysis/generate_claim_evidence.py:120-132 | a claim exactly when the whole gate is met |
| `ClaimGate.GateMeans` | analysis/generate_claim_evidence.py:27-132 | evidence meets the gate exactly when throughput, mechanism and overlap are seen: profiles taken at the measured batches, 5% fewer receive calls, fewer cycles for the batched receiver |
| `ClaimGate.ClaimIsSound` | analysis/generate_claim_evidence.py:110-143 | behind a claim stand five valid repetitions a side at one workload, a failed higher rate for each, ranges that do not overlap, and the mechanism in plain arithmetic |
| `ClaimGate.Generate` | analysis/generate_claim_evidence.py:110-143 | evidence for both candidates between selected representatives; every emitted claim is sound |

## Left out

- Weak memory ordering: the threaded receiver is an interleaving of sequentially consistent steps.
- Sockets, clocks, sleeping, affinity, scheduling and process control: their answers are inputs, chosen freely.
- Time in the sender: whether a pass of the outer loop is entered is an input, so pacing waits and the end of a run are not derived from a clock.
- `truncated_packets`, system-call counts, timestamps, `interrupted` and pending bytes: they differ between receivers by design.
- 64-bit overflow of counters, packet indices and traced deadlines beyond the explicit saturation and casts; counters are unbounded.
- Partial writes and a log file that failed to open: the file is open and writes are full.
- Floating point: 0.90, 1.10, 0.98, 0.95, 1.05 and the percentile ranks are exact, so decisions at a rounding boundary may differ.
- The order in which groups are visited: any order of the distinct keys is allowed, so results hold for the sorted one.
- Missing values other than loss and overflow, and run ids that contain the separator.
- SequenceTracking.SequenceTracker: sequence numbers have 32 bits, as on the wire; the wrap of a longer run shows up as repeats.
- Qualification.QualificationReasons: only the accounting reasons; the achieved rate, counters, link, throttling, affinity and pacing reasons are conditions on other records.
- Validity.AccountingReasons: only the accounting reasons; affinity, buffer, clock-window, backlog, counter, pause-frame and throttling reasons are single conditions on recorded values.
- ClaimGate.Generate: payload, mode, duration and sampling of baseline and candidate are not compared, because the source compares only the work per packet.
- Log metrics derived after loading, drift correction, summaries, plots and publishing.
- SSH, build, preflight, campaign progress, configuration and option parsing.
