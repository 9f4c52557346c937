/** The baseline and batched receivers: one thread that accounts, processes and logs in place. */
module SynchronousReceivers {
  import opened Words
  import opened SequenceTracking
  import opened ReceiverAccounting

  /** The datagrams a receive loop takes in before it ends. */
  function Consumed(script: seq<Io>, batchSize: nat, maxPackets: nat, datagrams: nat): seq<Datagram> {
    if script == [] || (maxPackets != 0 && datagrams >= maxPackets) then []
    else
      match script[0]
      case Stop => []
      case Fatal => []
      case Retry => Consumed(script[1..], batchSize, maxPackets, datagrams)
      case Returned(ds) =>
        if |ds| > Request(batchSize, maxPackets, datagrams)
        then Consumed(script[1..], batchSize, maxPackets, datagrams)
        else ds + Consumed(script[1..], batchSize, maxPackets, datagrams + |ds|)
  }

  class Receiver {
    const sampleEvery: nat
    const receiveSequences: SequenceTracker
    const processedSequences: SequenceTracker
    var stats: Tally
    var processed: nat
    var log: seq<U32>
    ghost var received: seq<Datagram>

    ghost function Footprint(): set<object>
    {
      {this, receiveSequences, receiveSequences.blocks, receiveSequences.epochs,
       processedSequences, processedSequences.blocks, processedSequences.epochs}
    }

    ghost predicate Apart()
    {
      && receiveSequences != processedSequences
      && receiveSequences.blocks != processedSequences.blocks
      && receiveSequences.epochs != processedSequences.epochs
    }

    /** Receive-side statistics describe ds. */
    ghost predicate Received(ds: seq<Datagram>)
      reads `stats, receiveSequences, receiveSequences.blocks, receiveSequences.epochs
    {
      && stats == TallyOf(ds, sampleEvery)
      && receiveSequences.Valid() && receiveSequences.history == NumbersOf(Packets(ds, sampleEvery))
    }

    /** Processing-side statistics and the log describe ps. */
    ghost predicate Processed(ps: seq<Packet>)
      reads `processed, `log, processedSequences, processedSequences.blocks, processedSequences.epochs
    {
      && processed == |ps| && log == SampledOf(ps)
      && processedSequences.Valid() && processedSequences.history == NumbersOf(ps)
    }

    ghost predicate Valid()
      reads Footprint()
    {
      Apart() && Received(received) && Processed(Packets(received, sampleEvery))
    }

    constructor (sampleEvery: nat)
      ensures Valid() && fresh(Footprint())
      ensures this.sampleEvery == sampleEvery && received == []
    {
      this.sampleEvery := sampleEvery;
      receiveSequences := new SequenceTracker();
      processedSequences := new SequenceTracker();
      stats := Tally(0, 0, 0, 0, 0, 0, 0);
      processed, log, received := 0, [], [];
    }

    lemma CountsReceived()
      requires Valid()
      ensures stats.datagrams == |received|
    {
    }

    /** The checks of the receive loops; false means the datagram is dropped here. */
    method Classify(d: Datagram) returns (ok: bool)
      modifies `stats
      ensures stats == old(stats).Add(d, sampleEvery)
      ensures ok <==> KindOf(d) == Accepted
    {
      stats := stats.(datagrams := stats.datagrams + 1);
      if d.length < HEADER_BYTES { stats := stats.(short := stats.short + 1); return false; }
      if d.magic != MAGIC { stats := stats.(invalidMagic := stats.invalidMagic + 1); return false; }
      if d.version != VERSION { stats := stats.(unsupportedVersion := stats.unsupportedVersion + 1); return false; }
      stats := stats.(valid := stats.valid + 1);
      if Sampled(d.sequence, sampleEvery) { stats := stats.(sampled := stats.sampled + 1); }
      return true;
    }

    /** Classifies one datagram and accounts for it on the receive side. */
    method AccountReceive(d: Datagram, ghost ds: seq<Datagram>) returns (ok: bool)
      requires Received(ds)
      modifies `stats, receiveSequences, receiveSequences.blocks, receiveSequences.epochs
      ensures Received(ds + [d])
      ensures ok <==> KindOf(d) == Accepted
    {
      ghost var packets := Packets(ds, sampleEvery);
      TallyAfter(ds, d, sampleEvery);
      OneMoreDatagram(ds, d, sampleEvery);
      OneMorePacket(packets, PacketOf(d, sampleEvery));
      ok := Classify(d);
      if ok { var _ := receiveSequences.Observe(d.sequence); }
    }

    /** Counts one packet as processed and logs it when it is sampled. */
    method ProcessPacket(packet: Packet, ghost ps: seq<Packet>)
      requires Processed(ps)
      modifies `processed, `log
      modifies processedSequences, processedSequences.blocks, processedSequences.epochs
      ensures Processed(ps + [packet])
    {
      OneMorePacket(ps, packet);
      processed := processed + 1;
      var _ := processedSequences.Observe(packet.sequence);
      if packet.sampled { log := log + [packet.sequence]; }
    }

    /** One datagram, start to finish, on one thread. */
    method Ingest(d: Datagram)
      requires Valid()
      modifies Footprint()
      ensures Valid()
      ensures received == old(received) + [d]
    {
      hide SequenceTracker.Valid, Received, Processed, Packets, NumbersOf, SampledOf, TallyOf;
      ghost var packets := Packets(received, sampleEvery);
      OneMoreDatagram(received, d, sampleEvery);
      assert packets + [] == packets;
      var ok := AccountReceive(d, received);
      if ok { ProcessPacket(PacketOf(d, sampleEvery), packets); }
      received := received + [d];
    }

    /** receiver_baseline: one recvfrom per pass. */
    method RunBaseline(script: seq<Io>, maxPackets: nat)
      requires Valid()
      requires forall io :: io in script && io.Returned? ==> |io.ds| == 1
      modifies Footprint()
      ensures Valid()
      ensures received == old(received) + Consumed(script, 1, maxPackets, |old(received)|)
    {
      hide SequenceTracker.Valid, Valid, Consumed;
      CountsReceived();
      ghost var goal := received + Consumed(script, 1, maxPackets, |received|);
      var i := 0;
      assert script[0..] == script;
      while i < |script| && (maxPackets == 0 || stats.datagrams < maxPackets)
        invariant 0 <= i <= |script|
        invariant Valid() && stats.datagrams == |received|
        invariant received + Consumed(script[i..], 1, maxPackets, |received|) == goal
      {
        var io := script[i];
        ghost var before := received;
        ConsumedStep(script[i..], 1, maxPackets, |received|);
        assert script[i..][1..] == script[i + 1..];
        i := i + 1;
        if io.Stop? || io.Fatal? { return; }
        if io.Returned? {
          assert io.ds == [io.ds[0]];
          Ingest(io.ds[0]);
          CountsReceived();
          Associates(before, io.ds, Consumed(script[i..], 1, maxPackets, |received|));
        }
      }
      NothingMore(script[i..], 1, maxPackets, |received|);
    }

    /** receiver_batched: one recvmmsg per pass, then every message it returned. */
    method RunBatched(script: seq<Io>, batchSize: nat, maxPackets: nat)
      requires Valid()
      modifies Footprint()
      ensures Valid()
      ensures received == old(received) + Consumed(script, batchSize, maxPackets, |old(received)|)
    {
      hide SequenceTracker.Valid, Valid, Consumed;
      CountsReceived();
      ghost var goal := received + Consumed(script, batchSize, maxPackets, |received|);
      var i := 0;
      assert script[0..] == script;
      while i < |script| && (maxPackets == 0 || stats.datagrams < maxPackets)
        invariant 0 <= i <= |script|
        invariant Valid() && stats.datagrams == |received|
        invariant received + Consumed(script[i..], batchSize, maxPackets, |received|) == goal
      {
        var io := script[i];
        ghost var before := received;
        ConsumedStep(script[i..], batchSize, maxPackets, |received|);
        assert script[i..][1..] == script[i + 1..];
        i := i + 1;
        if io.Stop? || io.Fatal? { return; }
        if io.Returned? && |io.ds| <= Request(batchSize, maxPackets, stats.datagrams) {
          IngestAll(io.ds);
          CountsReceived();
          Associates(before, io.ds, Consumed(script[i..], batchSize, maxPackets, |received|));
        }
      }
      NothingMore(script[i..], batchSize, maxPackets, |received|);
    }

    method IngestAll(ds: seq<Datagram>)
      requires Valid()
      modifies Footprint()
      ensures Valid()
      ensures received == old(received) + ds
    {
      hide SequenceTracker.Valid;
      ghost var before := received;
      for j := 0 to |ds|
        invariant Valid()
        invariant received == before + ds[..j]
      {
        Ingest(ds[j]);
        assert ds[..j + 1] == ds[..j] + [ds[j]];
      }
      assert ds[..|ds|] == ds;
    }

    /** What one tracker contributes to the statistics file. */
    method Summary(t: SequenceTracker, count: nat) returns (r: SequenceReport)
      requires t.Valid() && count == |t.history|
      ensures r == SequencesOf(t.history)
    {
      var gaps := t.GapCount();
      r := SequenceReport(count, t.unique, gaps, t.duplicates, t.reordered, t.outOfWindow);
    }

    /** finalize_receive_sequences and merge_processing: the report of a finished run. */
    method Finish() returns (report: Report)
      requires Valid()
      ensures report == ReportOf(received, Packets(received, sampleEvery), sampleEvery)
    {
      hide SequenceTracker.Valid, SequencesOf;
      TallyMeans(received, sampleEvery);
      var receive := Summary(receiveSequences, stats.valid);
      var handled := Summary(processedSequences, processed);
      return Report(stats, receive, handled);
    }
  }

  lemma Associates<T>(a: seq<T>, b: seq<T>, c: seq<T>)
    ensures (a + b) + c == a + (b + c)
  {
  }

  lemma NothingMore(script: seq<Io>, batchSize: nat, maxPackets: nat, n: nat)
    ensures script == [] || (maxPackets != 0 && n >= maxPackets) ==> Consumed(script, batchSize, maxPackets, n) == []
  {
  }

  /** One pass of the receive loop. */
  lemma ConsumedStep(script: seq<Io>, batchSize: nat, maxPackets: nat, n: nat)
    requires script != [] && (maxPackets == 0 || n < maxPackets)
    ensures var rest := script[1..];
            Consumed(script, batchSize, maxPackets, n) ==
              match script[0]
              case Stop => []
              case Fatal => []
              case Retry => Consumed(rest, batchSize, maxPackets, n)
              case Returned(ds) =>
                if |ds| > Request(batchSize, maxPackets, n) then Consumed(rest, batchSize, maxPackets, n)
                else ds + Consumed(rest, batchSize, maxPackets, n + |ds|)
  {
  }

  /** What comes after a stop, an error or the packet limit is not taken in. */
  lemma {:induction false} NothingAfterTheEnd(script: seq<Io>, rest: seq<Io>, batchSize: nat, maxPackets: nat, n: nat)
    requires WellBehaved(script, batchSize, maxPackets, n)
    requires (script != [] && Ends(script[|script| - 1])) || (maxPackets != 0 && n + |Delivered(script)| >= maxPackets)
    ensures Consumed(script + rest, batchSize, maxPackets, n) == Delivered(script)
  {
    if script != [] {
      assert (script + rest)[0] == script[0] && (script + rest)[1..] == script[1..] + rest;
      match script[0]
      case Retry => NothingAfterTheEnd(script[1..], rest, batchSize, maxPackets, n);
      case Returned(ds) => NothingAfterTheEnd(script[1..], rest, batchSize, maxPackets, n + |ds|);
      case _ => assert script[1..] == [];
    } else {
      assert [] + rest == rest;
    }
  }

  /** No receiver takes in more datagrams than it was limited to. */
  lemma {:induction false} NeverBeyondLimit(script: seq<Io>, batchSize: nat, maxPackets: nat, n: nat)
    requires maxPackets != 0 && n <= maxPackets
    ensures n + |Consumed(script, batchSize, maxPackets, n)| <= maxPackets
  {
    if script != [] && n < maxPackets {
      ConsumedStep(script, batchSize, maxPackets, n);
      match script[0]
      case Retry => NeverBeyondLimit(script[1..], batchSize, maxPackets, n);
      case Returned(ds) =>
        if |ds| > Request(batchSize, maxPackets, n) { NeverBeyondLimit(script[1..], batchSize, maxPackets, n); }
        else { NeverBeyondLimit(script[1..], batchSize, maxPackets, n + |ds|); }
      case _ =>
    }
  }
}
