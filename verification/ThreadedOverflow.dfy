/** When the ring can overflow: a condition on the datagrams alone, known before any run. */
module ThreadedOverflow {
  import opened Words
  import opened Sequences
  import opened SpscRing
  import opened ReceiverAccounting
  import opened ThreadedReceiver
  import opened ThreadedRuns
  import opened ThreadedInput
  import opened ThreadedScripts

  // ----- Too few packets to fill the ring -----

  lemma OverflowStep(c: Config, s: State, e: Event)
    requires Inv(c, s)
    ensures var s' := Step(c, s, e);
            s'.tally.overflow >= s.tally.overflow && |s'.history.valid| >= |s.history.valid| &&
            (s'.tally.overflow > s.tally.overflow ==> |s.history.valid| >= Pow2(c.bits))
  {
    if e.Consuming? {
      ConsumerKeepsTally(c, s);
    } else if s.producer.Reserve? {
      FullAndEmpty(s.ring);
      KeptAndDropped(s.history.valid[..|s.history.accepted|], s.history.accepted);
    }
  }

  /** A push is only refused once the ring's whole capacity of valid packets has arrived. */
  lemma {:induction false} OverflowNeedsCapacity(c: Config, schedule: seq<Event>)
    ensures var s := After(c, schedule); s.tally.overflow > 0 ==> |s.history.valid| >= Pow2(c.bits)
  {
    hide Step, Inv;
    if schedule != [] {
      var past := schedule[..|schedule| - 1];
      OverflowNeedsCapacity(c, past);
      AlwaysHolds(c, past);
      OverflowStep(c, After(c, past), schedule[|schedule| - 1]);
    }
  }

  lemma {:induction false} PacketsGrow(a: seq<Datagram>, b: seq<Datagram>, sampleEvery: nat)
    ensures |Packets(a, sampleEvery)| <= |Packets(a + b, sampleEvery)|
  {
    if b == [] {
      assert a + b == a;
    } else {
      PacketsGrow(a, b[..|b| - 1], sampleEvery);
      assert a + b == (a + b[..|b| - 1]) + [b[|b| - 1]];
      OneMoreDatagram(a + b[..|b| - 1], b[|b| - 1], sampleEvery);
    }
  }

  /** Below the capacity no schedule overflows, at any instant. */
  lemma FewPacketsNeverOverflow(c: Config, schedule: seq<Event>)
    requires |Packets(Delivered(Calls(c, schedule)), c.sampleEvery)| < Pow2(c.bits)
    ensures After(c, schedule).tally.overflow == 0
  {
    hide After, Calls;
    var s := After(c, schedule);
    CallsAreTakenIn(c, schedule);
    OverflowNeedsCapacity(c, schedule);
    AlwaysHolds(c, schedule);
    PacketsGrow(s.history.received, PendingOf(s.producer), c.sampleEvery);
  }

  /** The singles of some datagrams: one call each, then a stop if the limit does not end the loop. */
  function SinglesOf(ds: seq<Datagram>): seq<Io> {
    if ds == [] then [] else SinglesOf(ds[..|ds| - 1]) + [Returned([ds[|ds| - 1]])]
  }

  lemma {:induction false} SinglesBehave(ds: seq<Datagram>, batchSize: nat, maxPackets: nat)
    requires batchSize > 0 && (maxPackets == 0 || |ds| <= maxPackets)
    ensures WellBehaved(SinglesOf(ds), batchSize, maxPackets, 0) && Delivered(SinglesOf(ds)) == ds
    ensures forall io :: io in SinglesOf(ds) ==> !Ends(io)
  {
    hide WellBehaved, Delivered;
    if ds == [] {
      NothingCalled(batchSize, maxPackets);
    } else {
      var past, d := ds[..|ds| - 1], ds[|ds| - 1];
      SinglesBehave(past, batchSize, maxPackets);
      WellBehavedAfter(SinglesOf(past), Returned([d]), batchSize, maxPackets, 0);
      DeliveredAfter(SinglesOf(past), Returned([d]));
      assert past + [d] == ds;
    }
  }

  lemma NothingCalled(batchSize: nat, maxPackets: nat)
    ensures WellBehaved([], batchSize, maxPackets, 0) && Delivered([]) == []
  {
  }

  /** Any datagrams within the packet limit are what some complete script delivers. */
  lemma ScriptFor(ds: seq<Datagram>, batchSize: nat, maxPackets: nat) returns (script: seq<Io>)
    requires batchSize > 0 && (maxPackets == 0 || |ds| <= maxPackets)
    ensures WellBehaved(script, batchSize, maxPackets, 0) && Complete(script, maxPackets) && Delivered(script) == ds
  {
    hide WellBehaved, Delivered;
    script := SinglesOf(ds);
    SinglesBehave(ds, batchSize, maxPackets);
    if maxPackets == 0 || |ds| < maxPackets {
      WellBehavedAfter(script, Stop, batchSize, maxPackets, 0);
      DeliveredAfter(script, Stop);
      assert ds + [] == ds;
      script := script + [Stop];
    }
  }

  /** A run to join in which the ring overflows by all valid packets but capacity - 1. */
  lemma LateWorkerRun(c: Config, ds: seq<Datagram>) returns (schedule: seq<Event>)
    requires c.batchSize > 0 && (c.maxPackets == 0 || |ds| <= c.maxPackets)
    ensures After(c, schedule).producer.Joined? && Delivered(Calls(c, schedule)) == ds
    ensures After(c, schedule).tally.overflow >= |Packets(ds, c.sampleEvery)| - (Pow2(c.bits) - 1)
  {
    hide After, Calls, Delivered, WellBehaved, Complete;
    var script := ScriptFor(ds, c.batchSize, c.maxPackets);
    schedule := RunOf(c, script);
  }

  // ----- The condition -----

  ghost predicate OverflowFree(c: Config, ds: seq<Datagram>) {
    forall schedule :: After(c, schedule).producer.Joined? && Delivered(Calls(c, schedule)) == ds ==>
      After(c, schedule).tally.overflow == 0
  }

  /** No run over the given datagrams overflows if and only if they hold at most capacity - 1 valid
      packets: below that the ring cannot fill, and from there on some schedule fills it. */
  lemma OverflowFreeExactly(c: Config, ds: seq<Datagram>)
    requires c.batchSize > 0 && (c.maxPackets == 0 || |ds| <= c.maxPackets)
    ensures OverflowFree(c, ds) <==> |Packets(ds, c.sampleEvery)| <= Pow2(c.bits) - 1
  {
    hide After, Calls, Delivered;
    if |Packets(ds, c.sampleEvery)| <= Pow2(c.bits) - 1 {
      forall schedule | After(c, schedule).producer.Joined? && Delivered(Calls(c, schedule)) == ds
        ensures After(c, schedule).tally.overflow == 0
      {
        FewPacketsNeverOverflow(c, schedule);
      }
    } else {
      var schedule := LateWorkerRun(c, ds);
      assert After(c, schedule).tally.overflow > 0;
    }
  }
}
