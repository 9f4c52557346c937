/** Stopping a process on a node: signals escalate, and a tracked workload goes before its wrapper. */
module Shutdown {
  import opened Options

  datatype Signum = INT | TERM | KILL

  const LADDER: seq<Signum> := [INT, TERM, KILL]
  const WRAPPER_LADDER: seq<Signum> := [TERM, KILL]

  /** What a node reports of one wait for the wrapper's exit status, or of one look at a process. */
  datatype Reply = Status(code: int) | Timeout | Raised
  datatype Sight = Gone | Alive | Blind

  datatype Event =
    | ToWorkload(signum: Signum)
    | ToWrapper(signum: Signum)
    | Waited(reply: Reply, budget: real)
    | Looked(sight: Sight, budget: real)

  /** How shutting down ends: with a status, by raising the last timeout, or with any other exception
      of the node; AssertionFailed is the closing assertion. */
  datatype Outcome = Returned(code: int) | TimedOut | Failed | AssertionFailed

  // ----- Reading a trace -----

  function WorkloadSignals(trace: seq<Event>): seq<Signum> {
    if trace == [] then []
    else
      WorkloadSignals(trace[..|trace| - 1]) +
      (match trace[|trace| - 1] case ToWorkload(s) => [s] case _ => [])
  }

  function WrapperSignals(trace: seq<Event>): seq<Signum> {
    if trace == [] then []
    else
      WrapperSignals(trace[..|trace| - 1]) +
      (match trace[|trace| - 1] case ToWrapper(s) => [s] case _ => [])
  }

  /** The time a trace allows its waits and looks together. */
  function Budget(trace: seq<Event>): real {
    if trace == [] then 0.0
    else
      Budget(trace[..|trace| - 1]) +
      (match trace[|trace| - 1] case Waited(_, b) => b case Looked(_, b) => b case _ => 0.0)
  }

  /** The newest look at the workload since the last signal to it. */
  function LastSight(trace: seq<Event>): Sight {
    if trace == [] then Blind
    else
      match trace[|trace| - 1]
      case Looked(sight, _) => sight
      case ToWorkload(_) => Blind
      case _ => LastSight(trace[..|trace| - 1])
  }

  /** The newest wait for the wrapper since the last signal to either process. */
  function LastReply(trace: seq<Event>): Reply {
    if trace == [] then Raised
    else
      match trace[|trace| - 1]
      case Waited(reply, _) => reply
      case Looked(_, _) => LastReply(trace[..|trace| - 1])
      case _ => Raised
  }

  lemma TraceAfter(trace: seq<Event>, e: Event)
    ensures (trace + [e])[..|trace|] == trace && (trace + [e])[|trace|] == e
    ensures WorkloadSignals(trace + [e]) == WorkloadSignals(trace) + (match e case ToWorkload(s) => [s] case _ => [])
    ensures WrapperSignals(trace + [e]) == WrapperSignals(trace) + (match e case ToWrapper(s) => [s] case _ => [])
    ensures Budget(trace + [e]) == Budget(trace) + (match e case Waited(_, b) => b case Looked(_, b) => b case _ => 0.0)
    ensures LastSight(trace + [e]) ==
              match e case Looked(s, _) => s case ToWorkload(_) => Blind case _ => LastSight(trace)
    ensures LastReply(trace + [e]) ==
              match e case Waited(r, _) => r case Looked(_, _) => LastReply(trace) case _ => Raised
  {
    assert (trace + [e])[..|trace|] == trace;
  }

  /** What justifies an event by what came before it. A workload is only signalled again when it, or
      the process itself where none is tracked, has not been seen to end; a wrapper is only signalled
      once its workload was sent every signal and then seen gone, and its own end still not reported. */
  predicate Justified(tracked: bool, past: seq<Event>, e: Event) {
    match e
    case ToWorkload(s) =>
      var sent := WorkloadSignals(past);
      && |sent| < 3 && s == LADDER[|sent|] && WrapperSignals(past) == []
      && (sent != [] ==> LastReply(past).Timeout? || (tracked && LastSight(past).Alive?))
    case ToWrapper(s) =>
      var sent := WrapperSignals(past);
      && tracked && WorkloadSignals(past) == LADDER && LastSight(past).Gone?
      && |sent| < 2 && s == WRAPPER_LADDER[|sent|]
      && (sent != [] ==> LastReply(past).Timeout?)
    case Waited(_, _) => WorkloadSignals(past) != []
    case Looked(_, _) => tracked && WorkloadSignals(past) != []
  }

  predicate AllJustified(tracked: bool, trace: seq<Event>) {
    forall i :: 0 <= i < |trace| ==> Justified(tracked, trace[..i], trace[i])
  }

  lemma JustifiedAfter(tracked: bool, trace: seq<Event>, e: Event)
    requires AllJustified(tracked, trace) && Justified(tracked, trace, e)
    ensures AllJustified(tracked, trace + [e])
  {
    hide Justified;
    forall i | 0 <= i <= |trace|
      ensures (trace + [e])[..i] == trace[..i]
    {
    }
    assert trace[..|trace|] == trace;
  }

  function Prefix(s: seq<Signum>, n: nat): seq<Signum> {
    if n < |s| then s[..n] else s
  }

  /** However far a justified trace got, its signals are an initial part of each ladder, and the
      wrapper's only start once the workload's are complete. */
  lemma {:induction false} SignalsClimbTheLadder(tracked: bool, trace: seq<Event>)
    requires AllJustified(tracked, trace)
    ensures WorkloadSignals(trace) == Prefix(LADDER, |WorkloadSignals(trace)|)
    ensures WrapperSignals(trace) == Prefix(WRAPPER_LADDER, |WrapperSignals(trace)|)
    ensures WorkloadSignals(trace) <= [INT, TERM, KILL] && WrapperSignals(trace) <= [TERM, KILL]
    ensures WrapperSignals(trace) != [] ==> tracked && WorkloadSignals(trace) == [INT, TERM, KILL]
  {
    hide AllJustified, WorkloadSignals, WrapperSignals, Prefix;
    if trace == [] {
      NothingRecorded(tracked);
      PrefixGrows(LADDER, 0);
      PrefixGrows(WRAPPER_LADDER, 0);
    } else {
      var past, e := trace[..|trace| - 1], trace[|trace| - 1];
      assert trace == past + [e];
      JustifiedBefore(tracked, past, e);
      SignalsClimbTheLadder(tracked, past);
      TraceAfter(past, e);
      if e.ToWorkload? { PrefixGrows(LADDER, |WorkloadSignals(past)|); }
      if e.ToWrapper? { PrefixGrows(WRAPPER_LADDER, |WrapperSignals(past)|); }
    }
  }

  lemma PrefixGrows(s: seq<Signum>, n: nat)
    requires n < |s|
    ensures Prefix(s, n) + [s[n]] == Prefix(s, n + 1) && Prefix(s, 0) == []
  {
  }

  lemma JustifiedBefore(tracked: bool, past: seq<Event>, e: Event)
    requires AllJustified(tracked, past + [e])
    ensures AllJustified(tracked, past) && Justified(tracked, past, e)
  {
    hide Justified;
    var trace := past + [e];
    forall i | 0 <= i <= |past|
      ensures trace[..i] == past[..i]
    {
    }
    assert past[..|past|] == past;
    assert Justified(tracked, trace[..|past|], trace[|past|]);
  }

  lemma NothingRecorded(tracked: bool)
    ensures forall timeout: real :: AllTimed(timeout, [])
    ensures AllJustified(tracked, []) && WorkloadSignals([]) == [] && WrapperSignals([]) == [] && Budget([]) == 0.0
  {
  }

  /** How long each call may take: the caller's timeout for the wait after the first signal, and for all
      others that timeout kept between 0.1 and 2 seconds; the last look at a workload does not wait. */
  predicate Timed(timeout: real, past: seq<Event>, e: Event) {
    var short := if timeout < 0.1 then 0.1 else if timeout > 2.0 then 2.0 else timeout;
    match e
    case Waited(_, b) => b == if WorkloadSignals(past) == [INT] then timeout else short
    case Looked(_, b) => b == short || (b == 0.0 && WorkloadSignals(past) == [INT, TERM, KILL])
    case _ => true
  }

  predicate AllTimed(timeout: real, trace: seq<Event>) {
    forall i :: 0 <= i < |trace| ==> Timed(timeout, trace[..i], trace[i])
  }

  lemma TimedAfter(timeout: real, trace: seq<Event>, e: Event)
    requires AllTimed(timeout, trace) && Timed(timeout, trace, e)
    ensures AllTimed(timeout, trace + [e])
  {
    hide Timed;
    forall i | 0 <= i <= |trace|
      ensures (trace + [e])[..i] == trace[..i]
    {
    }
    assert trace[..|trace|] == trace;
  }

  // ----- The node -----

  /** A node answers as it likes, and keeps a record of what it was asked. */
  class Node {
    ghost var trace: seq<Event>
    /** A call raised instead of answering; the node is not asked again. */
    ghost var raised: bool

    method Signal(e: Event) returns (delivered: bool)
      requires !raised && (e.ToWorkload? || e.ToWrapper?)
      modifies this
      ensures trace == old(trace) + [e] && raised == !delivered
    {
      delivered := *;
      trace, raised := trace + [e], !delivered;
    }

    method Wait(budget: real) returns (reply: Reply)
      requires !raised
      modifies this
      ensures trace == old(trace) + [Waited(reply, budget)] && raised == reply.Raised?
    {
      reply := *;
      trace, raised := trace + [Waited(reply, budget)], reply.Raised?;
    }

    method Look(budget: real) returns (sight: Sight)
      requires !raised
      modifies this
      ensures trace == old(trace) + [Looked(sight, budget)] && raised == sight.Blind?
    {
      sight := *;
      trace, raised := trace + [Looked(sight, budget)], sight.Blind?;
    }
  }

  function Escalation(timeout: real): (e: real)
    ensures 0.1 <= e <= 2.0 && (timeout <= 2.0 && e > 0.1 ==> e == timeout) && (timeout > 2.0 ==> e == 2.0)
  {
    var capped := if timeout < 2.0 then timeout else 2.0;
    if capped < 0.1 then 0.1 else capped
  }

  /** What the outcome says about the trace. */
  ghost predicate Explains(tracked: bool, outcome: Outcome, trace: seq<Event>) {
    match outcome
    case Returned(code) => LastReply(trace) == Status(code) && (tracked ==> LastSight(trace).Gone?)
    case TimedOut =>
      && WorkloadSignals(trace) == [INT, TERM, KILL]
      && (if !tracked then LastReply(trace).Timeout?
          else LastSight(trace).Alive? ||
               (LastSight(trace).Gone? && WrapperSignals(trace) == [TERM, KILL] && LastReply(trace).Timeout?))
    case Failed => true
    case AssertionFailed => false
  }

  /** A stage that did not settle: no status in time, or a tracked workload still seen. */
  ghost predicate Escalates(tracked: bool, trace: seq<Event>) {
    && (LastReply(trace).Timeout? || (tracked && LastSight(trace).Alive?))
    && (tracked ==> !LastSight(trace).Blind?)
  }

  /** One more event on the record. */
  lemma Extend(tracked: bool, trace: seq<Event>, e: Event)
    requires AllJustified(tracked, trace) && Justified(tracked, trace, e)
    ensures AllJustified(tracked, trace + [e])
    ensures WorkloadSignals(trace + [e]) == WorkloadSignals(trace) + (match e case ToWorkload(s) => [s] case _ => [])
    ensures WrapperSignals(trace + [e]) == WrapperSignals(trace) + (match e case ToWrapper(s) => [s] case _ => [])
    ensures Budget(trace + [e]) == Budget(trace) + (match e case Waited(_, b) => b case Looked(_, b) => b case _ => 0.0)
    ensures LastSight(trace + [e]) ==
              match e case Looked(s, _) => s case ToWorkload(_) => Blind case _ => LastSight(trace)
    ensures LastReply(trace + [e]) ==
              match e case Waited(r, _) => r case Looked(_, _) => LastReply(trace) case _ => Raised
  {
    hide *;
    TraceAfter(trace, e);
    JustifiedAfter(tracked, trace, e);
  }

  /** One stage of the workload's ladder: a signal, a wait, and a look at a tracked workload. An
      outcome of None means the next stage follows. */
  method SignalStage(node: Node, tracked: bool, i: nat, wait: real, e: real, ghost timeout: real)
    returns (outcome: Option<Outcome>, lastTimeout: bool)
    requires i < 3 && !node.raised && AllJustified(tracked, node.trace)
    requires WorkloadSignals(node.trace) == LADDER[..i] && WrapperSignals(node.trace) == []
    requires i > 0 ==> Escalates(tracked, node.trace)
    requires e == Escalation(timeout) && wait == (if i == 0 then timeout else e) && AllTimed(timeout, node.trace)
    modifies node
    ensures AllTimed(timeout, node.trace)
    ensures AllJustified(tracked, node.trace)
    ensures WorkloadSignals(node.trace) == LADDER[..i + 1] && WrapperSignals(node.trace) == []
    ensures wait >= 0.0 && e >= 0.0 ==> Budget(node.trace) <= old(Budget(node.trace)) + wait + e
    ensures outcome == Some(Failed) <==> node.raised
    ensures outcome.None? ==> lastTimeout && Escalates(tracked, node.trace)
    ensures outcome.Some? ==> !outcome.value.TimedOut? && Explains(tracked, outcome.value, node.trace)
  {
    hide AllJustified, WorkloadSignals, WrapperSignals, Budget, LastSight, LastReply, AllTimed;
    lastTimeout := false;
    assert LADDER[..i] + [LADDER[i]] == LADDER[..i + 1];
    assert i > 0 || LADDER[..i] == [];
    Extend(tracked, node.trace, ToWorkload(LADDER[i]));
    TimedAfter(timeout, node.trace, ToWorkload(LADDER[i]));
    var delivered := node.Signal(ToWorkload(LADDER[i]));
    if !delivered { return Some(Failed), lastTimeout; }
    ghost var past := node.trace;
    var reply := node.Wait(wait);
    Extend(tracked, past, Waited(reply, wait));
    assert WorkloadSignals(past) == [INT] <==> i == 0;
    TimedAfter(timeout, past, Waited(reply, wait));
    if reply.Raised? { return Some(Failed), lastTimeout; }
    if reply.Timeout? { lastTimeout := true; }
    if tracked {
      past := node.trace;
      var sight := node.Look(e);
      Extend(tracked, past, Looked(sight, e));
      TimedAfter(timeout, past, Looked(sight, e));
      if sight.Blind? { return Some(Failed), lastTimeout; }
      if reply.Status? && sight.Gone? { return Some(Returned(reply.code)), lastTimeout; }
      if sight.Alive? { lastTimeout := true; }
    } else if reply.Status? {
      return Some(Returned(reply.code)), lastTimeout;
    }
    return None, lastTimeout;
  }

  /** The wrapper's turn: only once its workload, sent every signal, is seen gone. */
  method StopWrapper(node: Node, e: real, ghost timeout: real) returns (outcome: Outcome)
    requires !node.raised && AllJustified(true, node.trace) && AllTimed(timeout, node.trace) && e == Escalation(timeout)
    requires WorkloadSignals(node.trace) == LADDER && WrapperSignals(node.trace) == []
    modifies node
    ensures AllJustified(true, node.trace) && AllTimed(timeout, node.trace)
    ensures WorkloadSignals(node.trace) == LADDER
    ensures Explains(true, outcome, node.trace) && (outcome.Failed? <==> node.raised)
    ensures Budget(node.trace) <= old(Budget(node.trace)) + 2.0 * e
  {
    hide AllJustified, WorkloadSignals, WrapperSignals, Budget, LastSight, LastReply, AllTimed;
    ghost var past := node.trace;
    var sight := node.Look(0.0);
    Extend(true, past, Looked(sight, 0.0));
    TimedAfter(timeout, past, Looked(sight, 0.0));
    if sight.Blind? { return Failed; }
    if sight.Alive? { return TimedOut; }
    for i := 0 to 2
      invariant AllJustified(true, node.trace) && AllTimed(timeout, node.trace)
      invariant WorkloadSignals(node.trace) == LADDER && WrapperSignals(node.trace) == WRAPPER_LADDER[..i]
      invariant LastSight(node.trace).Gone?
      invariant i > 0 ==> LastReply(node.trace).Timeout?
      invariant !node.raised
      invariant Budget(node.trace) <= old(Budget(node.trace)) + i as real * e
    {
      assert WRAPPER_LADDER[..i] + [WRAPPER_LADDER[i]] == WRAPPER_LADDER[..i + 1];
      Extend(true, node.trace, ToWrapper(WRAPPER_LADDER[i]));
      TimedAfter(timeout, node.trace, ToWrapper(WRAPPER_LADDER[i]));
      var delivered := node.Signal(ToWrapper(WRAPPER_LADDER[i]));
      if !delivered { return Failed; }
      past := node.trace;
      var reply := node.Wait(e);
      Extend(true, past, Waited(reply, e));
      TimedAfter(timeout, past, Waited(reply, e));
      match reply {
        case Status(code) => return Returned(code);
        case Timeout =>
        case Raised => return Failed;
      }
    }
    return TimedOut;
  }

  /** shutdown_process, for every way the node may answer. */
  method ShutdownProcess(node: Node, tracked: bool, timeout: real) returns (outcome: Outcome)
    requires node.trace == [] && !node.raised
    modifies node
    ensures AllJustified(tracked, node.trace) && AllTimed(timeout, node.trace)
    ensures Explains(tracked, outcome, node.trace) && (outcome.Failed? <==> node.raised)
    ensures WorkloadSignals(node.trace) != []
    ensures timeout >= 0.0 ==> Budget(node.trace) <= timeout + 7.0 * Escalation(timeout)
  {
    hide Justified, AllJustified, WorkloadSignals, WrapperSignals, Budget, LastSight, LastReply;
    hide Escalation, Timed, AllTimed;
    var e := Escalation(timeout);
    var lastTimeout := false;
    NothingRecorded(tracked);
    for i := 0 to 3
      invariant AllJustified(tracked, node.trace) && AllTimed(timeout, node.trace)
      invariant WorkloadSignals(node.trace) == LADDER[..i] && WrapperSignals(node.trace) == []
      invariant !node.raised && (i > 0 ==> lastTimeout && Escalates(tracked, node.trace))
      invariant timeout >= 0.0 ==>
                  Budget(node.trace) <= if i == 0 then 0.0 else if i == 1 then timeout + e
                                        else if i == 2 then timeout + 3.0 * e else timeout + 5.0 * e
    {
      var ending, late := SignalStage(node, tracked, i, if i == 0 then timeout else e, e, timeout);
      if ending.Some? { return ending.value; }
      lastTimeout := lastTimeout || late;
    }
    assert LADDER[..3] == LADDER;
    if !lastTimeout { return AssertionFailed; }
    if tracked {
      outcome := StopWrapper(node, e, timeout);
    } else {
      outcome := TimedOut;
    }
  }

  // ----- What the trace shows -----

  predicate IsSignal(e: Event) { e.ToWorkload? || e.ToWrapper? }

  /** Event i is a wait or a look after which nothing was signalled before position n. */
  predicate Fresh(trace: seq<Event>, i: nat, n: nat)
    requires i < n <= |trace|
  {
    forall j :: i <= j < n ==> !IsSignal(trace[j])
  }

  lemma {:induction false} LastReplyMeans(trace: seq<Event>) returns (i: nat)
    requires !LastReply(trace).Raised?
    ensures i < |trace| && trace[i].Waited? && trace[i].reply == LastReply(trace) && Fresh(trace, i, |trace|)
  {
    i := |trace| - 1;
    if trace[i].Looked? {
      var past := trace[..i];
      i := LastReplyMeans(past);
      assert forall j :: i <= j < |past| ==> trace[j] == past[j];
    }
  }

  lemma {:induction false} LastSightMeans(trace: seq<Event>) returns (i: nat)
    requires !LastSight(trace).Blind?
    ensures i < |trace| && trace[i].Looked? && trace[i].sight == LastSight(trace)
    ensures forall j :: i <= j < |trace| ==> !trace[j].ToWorkload?
  {
    i := |trace| - 1;
    if !trace[i].Looked? {
      var past := trace[..i];
      i := LastSightMeans(past);
      assert forall j :: i <= j < |past| ==> trace[j] == past[j];
    }
  }

  lemma {:induction false} SignalledBefore(trace: seq<Event>, i: nat)
    requires i < |trace|
    ensures trace[i].ToWorkload? ==> WorkloadSignals(trace) != []
    ensures trace[i].ToWrapper? ==> WrapperSignals(trace) != []
  {
    var past := trace[..|trace| - 1];
    if i < |past| { SignalledBefore(past, i); }
  }

  /** No signal is sent needlessly: before each but the first, since the one before it, either a wait
      timed out or a tracked workload was seen alive; and the wrapper is only signalled with its
      workload seen gone since the last signal to it. */
  lemma EverySignalIsNeeded(tracked: bool, trace: seq<Event>, earlier: nat, n: nat) returns (i: nat)
    requires AllJustified(tracked, trace) && n < |trace| && IsSignal(trace[n])
    requires earlier < n && (if trace[n].ToWorkload? then trace[earlier].ToWorkload? else trace[earlier].ToWrapper?)
    ensures i < n
    ensures if trace[i].Waited? then trace[i].reply.Timeout? && Fresh(trace, i, n)
            else tracked && trace[i].Looked? && trace[i].sight.Alive? &&
                 forall j :: i <= j < n ==> !trace[j].ToWorkload?
  {
    hide LastReply, LastSight, WorkloadSignals, WrapperSignals;
    var past := trace[..n];
    assert forall j :: 0 <= j < n ==> past[j] == trace[j];
    SignalledBefore(past, earlier);
    assert Justified(tracked, past, trace[n]);
    if LastReply(past).Timeout? {
      i := LastReplyMeans(past);
    } else {
      i := LastSightMeans(past);
    }
  }

  lemma WrapperOnlyAfterWorkload(tracked: bool, trace: seq<Event>, n: nat) returns (i: nat)
    requires AllJustified(tracked, trace) && n < |trace| && trace[n].ToWrapper?
    ensures tracked && WorkloadSignals(trace[..n]) == [INT, TERM, KILL]
    ensures i < n && trace[i].Looked? && trace[i].sight.Gone? && forall j :: i <= j < n ==> !trace[j].ToWorkload?
  {
    hide LastReply, LastSight, WorkloadSignals, WrapperSignals;
    var past := trace[..n];
    assert forall j :: 0 <= j < n ==> past[j] == trace[j];
    assert Justified(tracked, past, trace[n]);
    i := LastSightMeans(past);
  }

  /** A status is only returned when a wait gave it after the last signal of all, and a tracked workload
      was seen gone after the last signal to it. */
  lemma ReturnedMeans(tracked: bool, trace: seq<Event>, code: int) returns (i: nat, k: nat)
    requires Explains(tracked, Returned(code), trace)
    ensures i < |trace| && trace[i].Waited? && trace[i].reply == Status(code) && Fresh(trace, i, |trace|)
    ensures tracked ==> k < |trace| && trace[k].Looked? && trace[k].sight.Gone? &&
                        forall j :: k <= j < |trace| ==> !trace[j].ToWorkload?
  {
    i := LastReplyMeans(trace);
    k := 0;
    if tracked { k := LastSightMeans(trace); }
  }
}
