/** Every way the receive calls can go is the way they go in some run to join. */
module ThreadedScripts {
  import opened Words
  import opened Sequences
  import opened ReceiverAccounting
  import opened ThreadedReceiver
  import opened ThreadedRuns
  import opened ThreadedInput
  import opened ThreadedGuarantees

  // ----- A worker that never runs -----

  ghost predicate Idle(s: State) { s.consumer.Poll? && s.popped == [] }

  lemma IdleStep(c: Config, s: State, io: Io)
    requires TypeOk(c, s) && Idle(s)
    ensures Idle(Step(c, s, Producing(io)))
  {
  }

  /** A schedule that has made the calls of a script while the worker slept. */
  ghost predicate Received(c: Config, schedule: seq<Event>, script: seq<Io>) {
    var s := After(c, schedule);
    Idle(s) && s.producer.Receive? && Calls(c, schedule) == script
  }

  function StepsLeft(p: Producer): nat {
    match p case Ingest(_) => 1 case Commit(_) => 2 case Store(_, _, _) => 3 case Reserve(_, _) => 4 case _ => 0
  }

  /** An upper bound on the steps until the ingress is through with the datagrams in hand. */
  function Weight(p: Producer): nat { 5 * |PendingOf(p)| + StepsLeft(p) }

  lemma SettleStep(c: Config, s: State)
    requires TypeOk(c, s) && StepsLeft(s.producer) > 0
    ensures !IsCall(c, s, Producing(Stop))
    ensures var s' := Step(c, s, Producing(Stop));
            Weight(s'.producer) < Weight(s.producer) && (s'.producer.Receive? || StepsLeft(s'.producer) > 0)
  {
  }

  lemma {:induction false} Settle(c: Config, schedule: seq<Event>, script: seq<Io>) returns (settled: seq<Event>)
    requires var s := After(c, schedule); Idle(s) && (StepsLeft(s.producer) > 0 || s.producer.Receive?)
    requires Calls(c, schedule) == script
    ensures Received(c, settled, script)
    decreases Weight(After(c, schedule).producer)
  {
    hide Step, IsCall, After, Calls, StepsLeft, Weight;
    var s := After(c, schedule);
    if s.producer.Receive? { return schedule; }
    SettleStep(c, s);
    IdleStep(c, s, Stop);
    StepAfter(c, schedule, Producing(Stop));
    assert Calls(c, schedule) + [] == Calls(c, schedule);
    settled := Settle(c, schedule + [Producing(Stop)], script);
  }

  ghost predicate Possible(c: Config, s: State, io: Io) {
    && (c.maxPackets != 0 ==> s.tally.datagrams < c.maxPackets)
    && (io.Returned? ==> |io.ds| <= Request(c.batchSize, c.maxPackets, s.tally.datagrams))
  }

  lemma CallStep(c: Config, s: State, io: Io)
    requires TypeOk(c, s) && s.producer.Receive? && Possible(c, s, io)
    ensures IsCall(c, s, Producing(io))
    ensures var s' := Step(c, s, Producing(io));
            if Ends(io) then s'.producer.Measure? else s'.producer.Receive? || StepsLeft(s'.producer) > 0
  {
  }

  /** One more call that does not end the loop. */
  lemma CallOnce(c: Config, schedule: seq<Event>, script: seq<Io>, io: Io) returns (called: seq<Event>)
    requires Received(c, schedule, script) && Possible(c, After(c, schedule), io) && !Ends(io)
    ensures Received(c, called, script + [io])
  {
    hide Step, IsCall, After, Calls, StepsLeft, Possible;
    CallStep(c, After(c, schedule), io);
    IdleStep(c, After(c, schedule), io);
    StepAfter(c, schedule, Producing(io));
    called := Settle(c, schedule + [Producing(io)], script + [io]);
  }

  lemma {:induction false} WellBehavedBefore(past: seq<Io>, io: Io, batchSize: nat, maxPackets: nat, n: nat)
    requires WellBehaved(past + [io], batchSize, maxPackets, n)
    ensures WellBehaved(past, batchSize, maxPackets, n) && forall o :: o in past ==> !Ends(o)
    ensures var m := n + |Delivered(past)|;
            (maxPackets != 0 ==> m < maxPackets) && (io.Returned? ==> |io.ds| <= Request(batchSize, maxPackets, m))
  {
    if past == [] {
      assert ([] + [io])[0] == io;
    } else {
      assert (past + [io])[1..] == past[1..] + [io] && (past + [io])[0] == past[0];
      var got := if past[0].Returned? then |past[0].ds| else 0;
      WellBehavedBefore(past[1..], io, batchSize, maxPackets, n + got);
    }
  }

  lemma ReceivedCount(c: Config, schedule: seq<Event>, script: seq<Io>)
    requires Received(c, schedule, script)
    ensures After(c, schedule).history.received == Delivered(script)
    ensures After(c, schedule).tally.datagrams == |Delivered(script)|
  {
    CallsAreTakenIn(c, schedule);
    CountsReceived(c, schedule);
  }

  /** Any calls that do not end the loop can all be made before the worker's first step. */
  lemma {:induction false} Flood(c: Config, script: seq<Io>) returns (schedule: seq<Event>)
    requires WellBehaved(script, c.batchSize, c.maxPackets, 0) && forall io :: io in script ==> !Ends(io)
    ensures Received(c, schedule, script)
  {
    hide WellBehaved, Delivered;
    if script == [] {
      schedule := [];
    } else {
      var past, io := script[..|script| - 1], script[|script| - 1];
      assert script == past + [io];
      WellBehavedBefore(past, io, c.batchSize, c.maxPackets, 0);
      schedule := Flood(c, past);
      ReceivedCount(c, schedule, past);
      schedule := CallOnce(c, schedule, past, io);
    }
  }

  /** Then the ring holds at most capacity - 1 of the packets, and the others have overflowed. */
  lemma FloodOverflows(c: Config, schedule: seq<Event>, script: seq<Io>)
    requires Received(c, schedule, script)
    ensures After(c, schedule).tally.overflow >=
              |Packets(Delivered(script), c.sampleEvery)| - (Pow2(c.bits) - 1)
  {
    ReceivedCount(c, schedule, script);
    AlwaysHolds(c, schedule);
    var h := After(c, schedule).history;
    KeptAndDropped(h.valid[..|h.accepted|], h.accepted);
  }

  // ----- On to join -----

  lemma {:induction false} WorkerAlone(c: Config, schedule: seq<Event>, n: nat) returns (rest: seq<Event>)
    ensures WorkerSteps(rest) == n && Calls(c, schedule + rest) == Calls(c, schedule)
    ensures After(c, schedule + rest).tally == After(c, schedule).tally
  {
    hide Step, IsCall;
    if n == 0 {
      rest := [];
      assert schedule + rest == schedule;
    } else {
      var most := WorkerAlone(c, schedule, n - 1);
      rest := most + [Consuming];
      assert schedule + rest == (schedule + most) + [Consuming];
      assert rest[..|rest| - 1] == most;
      StepAfter(c, schedule + most, Consuming);
      WorkerMakesNoCall(c, After(c, schedule + most));
      assert Calls(c, schedule) + [] == Calls(c, schedule);
    }
  }

  lemma WorkerMakesNoCall(c: Config, s: State)
    requires TypeOk(c, s)
    ensures !IsCall(c, s, Consuming) && Step(c, s, Consuming).tally == s.tally
  {
    ConsumerKeepsTally(c, s);
  }

  lemma MeasureStep(c: Config, s: State)
    requires TypeOk(c, s) && s.producer.Measure?
    ensures var stop := Producing(Stop);
            var s' := Step(c, s, stop);
            !IsCall(c, s, stop) && !IsCall(c, s', stop) &&
            Step(c, s', stop).producerDone && Step(c, s', stop).tally == s.tally
  {
  }

  lemma JoinStep(c: Config, s: State)
    requires TypeOk(c, s) && Handshake(s) && s.producerDone
    ensures !IsCall(c, s, Producing(Stop)) && Step(c, s, Producing(Stop)).tally == s.tally
  {
  }

  lemma HandshakeHolds(c: Config, schedule: seq<Event>)
    ensures Handshake(After(c, schedule))
  {
    AlwaysHolds(c, schedule);
  }

  /** From the end of the receive loop the run goes on to join. */
  lemma OnToJoin(c: Config, schedule: seq<Event>) returns (joined: seq<Event>)
    requires After(c, schedule).producer.Measure?
    ensures After(c, joined).producer.Joined? && Calls(c, joined) == Calls(c, schedule)
    ensures After(c, joined).tally == After(c, schedule).tally
  {
    hide Step, IsCall, After, Calls, Inv;
    var stop := Producing(Stop);
    MeasureStep(c, After(c, schedule));
    StepAfter(c, schedule, stop);
    StepAfter(c, schedule + [stop], stop);
    assert Calls(c, schedule) + [] == Calls(c, schedule);
    var stopped := schedule + [stop] + [stop];
    var rest := WorkerAlone(c, stopped, 4 * Pow2(c.bits));
    joined := stopped + rest + [stop];
    DrainRuns(c, stopped, rest);
    ShutdownTerminates(c, stopped, rest, Stop);
    HandshakeHolds(c, stopped + rest);
    JoinStep(c, After(c, stopped + rest));
    StepAfter(c, stopped + rest, stop);
  }

  lemma LimitStep(c: Config, s: State)
    requires TypeOk(c, s) && s.producer.Receive? && c.maxPackets != 0 && s.tally.datagrams >= c.maxPackets
    ensures var s' := Step(c, s, Producing(Stop));
            !IsCall(c, s, Producing(Stop)) && s'.producer.Measure? && s'.tally == s.tally
  {
  }

  /** Whatever the calls return, timeouts and interruptions included, up to what ends the loop: there
      is a run to join that makes exactly these calls. In this one the worker sleeps until then, so
      all valid packets but capacity - 1 overflow. */
  lemma RunOf(c: Config, script: seq<Io>) returns (schedule: seq<Event>)
    requires WellBehaved(script, c.batchSize, c.maxPackets, 0) && Complete(script, c.maxPackets)
    ensures After(c, schedule).producer.Joined? && Calls(c, schedule) == script
    ensures After(c, schedule).tally.overflow >=
              |Packets(Delivered(script), c.sampleEvery)| - (Pow2(c.bits) - 1)
  {
    hide WellBehaved, Delivered, After, Calls, Step, IsCall;
    if script != [] && Ends(script[|script| - 1]) {
      var past, io := script[..|script| - 1], script[|script| - 1];
      assert script == past + [io];
      WellBehavedBefore(past, io, c.batchSize, c.maxPackets, 0);
      schedule := Flood(c, past);
      ReceivedCount(c, schedule, past);
      FloodOverflows(c, schedule, past);
      DeliveredAfter(past, io);
      assert Delivered(past) + [] == Delivered(past);
      CallStep(c, After(c, schedule), io);
      EndTallies(c, After(c, schedule), io);
      StepAfter(c, schedule, Producing(io));
      schedule := OnToJoin(c, schedule + [Producing(io)]);
    } else {
      NoEnds(script, c.batchSize, c.maxPackets, 0);
      schedule := Flood(c, script);
      ReceivedCount(c, schedule, script);
      FloodOverflows(c, schedule, script);
      LimitStep(c, After(c, schedule));
      StepAfter(c, schedule, Producing(Stop));
      assert Calls(c, schedule) + [] == Calls(c, schedule);
      schedule := OnToJoin(c, schedule + [Producing(Stop)]);
    }
  }

  lemma EndTallies(c: Config, s: State, io: Io)
    requires TypeOk(c, s) && s.producer.Receive? && Ends(io)
    ensures Step(c, s, Producing(io)).tally == s.tally
  {
  }

  lemma {:induction false} NoEnds(script: seq<Io>, batchSize: nat, maxPackets: nat, n: nat)
    requires WellBehaved(script, batchSize, maxPackets, n) && script != [] ==> !Ends(script[|script| - 1])
    requires WellBehaved(script, batchSize, maxPackets, n)
    ensures forall io :: io in script ==> !Ends(io)
  {
    if script != [] {
      var past, io := script[..|script| - 1], script[|script| - 1];
      assert script == past + [io];
      WellBehavedBefore(past, io, batchSize, maxPackets, n);
    }
  }

  /** The calls of the runs to join are exactly the well-behaved scripts that bring the loop to its end. */
  lemma CallsOfRuns(c: Config, script: seq<Io>)
    ensures (exists schedule :: After(c, schedule).producer.Joined? && Calls(c, schedule) == script) <==>
              WellBehaved(script, c.batchSize, c.maxPackets, 0) && Complete(script, c.maxPackets)
  {
    hide WellBehaved, Complete, After, Calls;
    if WellBehaved(script, c.batchSize, c.maxPackets, 0) && Complete(script, c.maxPackets) {
      var schedule := RunOf(c, script);
    }
    forall schedule | After(c, schedule).producer.Joined? && Calls(c, schedule) == script
      ensures WellBehaved(script, c.batchSize, c.maxPackets, 0) && Complete(script, c.maxPackets)
    {
      ReceivedIsDelivered(c, schedule);
      LeavesForAReason(c, schedule);
    }
  }

  /** At join the reported depth is how many packets the ring held at that instant. */
  lemma DepthAtJoin(c: Config, schedule: seq<Event>) returns (n: nat)
    requires c.bits <= 64 && After(c, schedule).producer.Joined?
    ensures n < |schedule| && After(c, schedule[..n]).producer.Measure?
    ensures var s := After(c, schedule[..n]);
            s.ring.WellFormed() && After(c, schedule).depth == |s.ring.Contents()|
  {
    hide After;
    n := DepthWasMeasured(c, schedule);
    assert schedule[..n + 1] == schedule[..n] + [schedule[n]];
    DepthIsOccupancy(c, schedule[..n], schedule[n].io);
  }
}
