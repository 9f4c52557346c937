/** The threaded receiver takes in what its calls hand over: nothing more, nothing less, in order. */
module ThreadedInput {
  import opened ReceiverAccounting
  import opened ThreadedReceiver
  import opened ThreadedRuns

  /** Whether a step is a receive call, with an outcome recvmmsg can have. */
  predicate IsCall(c: Config, s: State, e: Event) {
    && e.Producing? && s.producer.Receive? && !(c.maxPackets != 0 && s.tally.datagrams >= c.maxPackets)
    && (e.io.Returned? ==> |e.io.ds| <= Request(c.batchSize, c.maxPackets, s.tally.datagrams))
  }

  /** The calls a schedule makes, with their outcomes. */
  function Calls(c: Config, schedule: seq<Event>): seq<Io> {
    if schedule == [] then []
    else
      var past, e := schedule[..|schedule| - 1], schedule[|schedule| - 1];
      Calls(c, past) + (if IsCall(c, After(c, past), e) then [e.io] else [])
  }

  lemma StepAfter(c: Config, schedule: seq<Event>, e: Event)
    ensures After(c, schedule + [e]) == Step(c, After(c, schedule), e)
    ensures Calls(c, schedule + [e]) == Calls(c, schedule) + (if IsCall(c, After(c, schedule), e) then [e.io] else [])
  {
    assert (schedule + [e])[..|schedule|] == schedule;
  }

  /** Datagrams handed over but not yet looked at. */
  function PendingOf(p: Producer): seq<Datagram> {
    if p.Ingest? || p.Reserve? || p.Store? || p.Commit? then p.pending else []
  }

  predicate Receiving(p: Producer) { p.Receive? || p.Ingest? || Pushing(p) }

  ghost predicate TakesIn(c: Config, s: State, calls: seq<Io>) {
    && s.history.received + PendingOf(s.producer) == Delivered(calls)
    && WellBehaved(calls, c.batchSize, c.maxPackets, 0)
    && (Receiving(s.producer) ==> forall io :: io in calls ==> !Ends(io))
  }

  lemma {:induction false} DeliveredAfter(calls: seq<Io>, io: Io)
    ensures Delivered(calls + [io]) == Delivered(calls) + (if io.Returned? then io.ds else [])
  {
    if calls == [] {
      assert [io][1..] == [] && [] + [io] == [io];
      assert Delivered([io]) == (if io.Returned? then io.ds else []) + Delivered([]);
    } else {
      var first := if calls[0].Returned? then calls[0].ds else [];
      DeliveredAfter(calls[1..], io);
      assert (calls + [io])[1..] == calls[1..] + [io] && (calls + [io])[0] == calls[0];
      assert Delivered(calls + [io]) == first + Delivered(calls[1..] + [io]);
      assert Delivered(calls) == first + Delivered(calls[1..]);
    }
  }

  lemma {:induction false} WellBehavedAfter(calls: seq<Io>, io: Io, batchSize: nat, maxPackets: nat, n: nat)
    requires WellBehaved(calls, batchSize, maxPackets, n) && forall o :: o in calls ==> !Ends(o)
    requires var m := n + |Delivered(calls)|;
             (maxPackets != 0 ==> m < maxPackets) && (io.Returned? ==> |io.ds| <= Request(batchSize, maxPackets, m))
    ensures WellBehaved(calls + [io], batchSize, maxPackets, n)
  {
    if calls == [] {
      assert WellBehaved([io], batchSize, maxPackets, n);
    } else {
      assert calls[0] in calls;
      var got := if calls[0].Returned? then |calls[0].ds| else 0;
      WellBehavedAfter(calls[1..], io, batchSize, maxPackets, n + got);
      assert (calls + [io])[1..] == calls[1..] + [io];
    }
  }

  /** A step that makes no call moves datagrams from pending to received, keeping their order. */
  lemma NoCallMovesOn(c: Config, s: State, e: Event)
    requires TypeOk(c, s) && !IsCall(c, s, e)
    ensures var s' := Step(c, s, e);
            s'.history.received + PendingOf(s'.producer) == s.history.received + PendingOf(s.producer) &&
            (Receiving(s'.producer) ==> Receiving(s.producer))
  {
    if e.Consuming? {
      ConsumerKeepsTally(c, s);
    } else if s.producer.Ingest? && s.producer.pending != [] {
      var pending := s.producer.pending;
      assert pending == [pending[0]] + pending[1..];
    }
  }

  /** A call puts what it returned before the receiver; a stop or an error ends receiving. */
  lemma CallHandsOver(c: Config, s: State, e: Event)
    requires TypeOk(c, s) && IsCall(c, s, e)
    ensures var s' := Step(c, s, e);
            s'.history == s.history && PendingOf(s'.producer) == (if e.io.Returned? then e.io.ds else []) &&
            (Receiving(s'.producer) ==> !Ends(e.io))
  {
  }

  /** At every instant the datagrams looked at and those pending are exactly those the calls
      returned, in order. */
  lemma {:induction false} CallsAreTakenIn(c: Config, schedule: seq<Event>)
    ensures TakesIn(c, After(c, schedule), Calls(c, schedule))
  {
    hide Step, Inv;
    if schedule != [] {
      var past, e := schedule[..|schedule| - 1], schedule[|schedule| - 1];
      assert schedule == past + [e];
      CallsAreTakenIn(c, past);
      StepAfter(c, past, e);
      StepTakesIn(c, past, e);
    } else {
      assert Delivered([]) == [];
    }
  }

  lemma StepTakesIn(c: Config, past: seq<Event>, e: Event)
    requires TakesIn(c, After(c, past), Calls(c, past))
    ensures TakesIn(c, Step(c, After(c, past), e),
                    Calls(c, past) + (if IsCall(c, After(c, past), e) then [e.io] else []))
  {
    hide After, Step, WellBehaved, Delivered, Calls;
    var s, calls := After(c, past), Calls(c, past);
    if IsCall(c, s, e) {
      CountsReceived(c, past);
      CallHandsOver(c, s, e);
      DeliveredAfter(calls, e.io);
      WellBehavedAfter(calls, e.io, c.batchSize, c.maxPackets, 0);
      assert s.history.received + [] == s.history.received;
    } else {
      NoCallMovesOn(c, s, e);
      assert calls + [] == calls;
    }
  }

  lemma CountsReceived(c: Config, schedule: seq<Event>)
    ensures var s := After(c, schedule); s.tally.datagrams == |s.history.received|
  {
    AlwaysHolds(c, schedule);
  }

  /** Once receiving has ended, the datagrams accounted for are exactly those the calls returned. */
  lemma ReceivedIsDelivered(c: Config, schedule: seq<Event>)
    requires !Receiving(After(c, schedule).producer)
    ensures After(c, schedule).history.received == Delivered(Calls(c, schedule))
    ensures WellBehaved(Calls(c, schedule), c.batchSize, c.maxPackets, 0)
  {
    CallsAreTakenIn(c, schedule);
  }

  // ----- Why the loop is left -----

  lemma LeavingStep(c: Config, s: State, e: Event)
    requires TypeOk(c, s) && Receiving(s.producer) && !Receiving(Step(c, s, e).producer)
    ensures e.Producing? && s.producer.Receive?
    ensures (IsCall(c, s, e) && Ends(e.io)) || (c.maxPackets != 0 && s.tally.datagrams >= c.maxPackets)
  {
    if e.Consuming? { ConsumerKeepsTally(c, s); }
  }

  lemma NotReceivingStays(c: Config, s: State, e: Event)
    requires TypeOk(c, s) && !Receiving(s.producer)
    ensures !Receiving(Step(c, s, e).producer) && !IsCall(c, s, e)
  {
    if e.Consuming? { ConsumerKeepsTally(c, s); }
  }

  /** The ingress leaves its loop only for a stop, for an error, or at the packet limit: a timeout or
      an interruption never ends it. */
  lemma {:induction false} LeavesForAReason(c: Config, schedule: seq<Event>)
    requires !Receiving(After(c, schedule).producer)
    ensures Complete(Calls(c, schedule), c.maxPackets)
    ensures (exists io :: io in Calls(c, schedule) && (io.Stop? || io.Fatal?)) ||
            (c.maxPackets != 0 && After(c, schedule).tally.datagrams >= c.maxPackets)
  {
    hide Step, Delivered, IsCall;
    var past, e := schedule[..|schedule| - 1], schedule[|schedule| - 1];
    assert schedule == past + [e];
    var s := After(c, past);
    StepAfter(c, past, e);
    CountsReceived(c, schedule);
    ReceivedIsDelivered(c, schedule);
    if Receiving(s.producer) {
      LeavingStep(c, s, e);
      if IsCall(c, s, e) && Ends(e.io) {
        assert Calls(c, schedule)[|Calls(c, schedule)| - 1] == e.io;
      } else {
        LimitStays(c, s, e);
      }
    } else {
      NotReceivingStays(c, s, e);
      LeavesForAReason(c, past);
      LimitStays(c, s, e);
      assert Calls(c, schedule) == Calls(c, past);
    }
  }

  lemma LimitStays(c: Config, s: State, e: Event)
    requires TypeOk(c, s)
    ensures Step(c, s, e).tally.datagrams >= s.tally.datagrams
  {
    if e.Consuming? { ConsumerKeepsTally(c, s); }
  }

  // ----- The depth reported -----

  predicate Measured(p: Producer) { p.Signal? || p.Join? || p.Joined? }

  lemma MeasuringStep(c: Config, s: State, e: Event)
    requires TypeOk(c, s) && Measured(Step(c, s, e).producer)
    ensures Measured(s.producer) ==> Step(c, s, e).depth == s.depth
    ensures !Measured(s.producer) ==>
              e.Producing? && s.producer.Measure? && Step(c, s, e).depth == ProducerStep(c, s, e.io).depth
  {
    if e.Consuming? { ConsumerKeepsTally(c, s); }
  }

  /** The reported depth was measured: there was one instant, after the receive loop and before the done
      flag, at which it was what size() computes. */
  lemma {:induction false} DepthWasMeasured(c: Config, schedule: seq<Event>) returns (n: nat)
    requires Measured(After(c, schedule).producer)
    ensures n < |schedule| && schedule[n].Producing? && After(c, schedule[..n]).producer.Measure?
    ensures After(c, schedule).depth == After(c, schedule[..n + 1]).depth
  {
    hide Step;
    var last := |schedule| - 1;
    var past, e := schedule[..last], schedule[last];
    MeasuringStep(c, After(c, past), e);
    if Measured(After(c, past).producer) {
      n := DepthWasMeasured(c, past);
      assert past[..n] == schedule[..n] && past[..n + 1] == schedule[..n + 1];
    } else {
      n := last;
      assert schedule[..last + 1] == schedule;
    }
  }
}
