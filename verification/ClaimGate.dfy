/** When measured and profiled runs may become a published claim. */
module ClaimGate {
  import opened Options
  import opened Sorting
  import opened Representatives

  /** The median profile of a receiver; a value may be missing. */
  datatype Profile = Profile(batch: Option<real>, syscalls: Option<real>, cycles: Option<real>)

  datatype Side = BaselineSide | CandidateSide

  datatype Overlap = IngressLoss | SpscOverflow

  datatype Blocker =
    | Repetitions(side: Side)
    | Lossy(side: Side)
    | SenderLimited(side: Side)
    | SmallEffect
    | RangesOverlap
    | ProfiledElsewhere(side: Side)
    | SyscallsUnavailable
    | SyscallsNotReduced
    | CyclesUnavailable
    | CyclesNotReduced
    | Unmatched
    | ColumnMissing(column: Overlap)
    | NotClean(column: Overlap)
    | NoProfile

  // ----- Throughput -----

  function SideBlockers(side: Side, row: Row): (b: seq<Blocker>)
    ensures Repetitions(side) in b <==> row.repetitions != 5
    ensures Lossy(side) in b <==> row.lossMax > 0.1
    ensures SenderLimited(side) in b <==> !row.saturated
    ensures b == [] <==> row.repetitions == 5 && row.lossMax <= 0.1 && row.saturated
    ensures forall x :: x in b ==> x == Repetitions(side) || x == Lossy(side) || x == SenderLimited(side)
  {
    (if row.repetitions != REQUIRED_REPETITIONS then [Repetitions(side)] else []) +
    (if row.lossMax > 0.1 then [Lossy(side)] else []) +
    (if !row.saturated then [SenderLimited(side)] else [])
  }

  function ThroughputBlockers(baseline: Row, candidate: Row, improvement: real): (b: seq<Blocker>)
    ensures b == [] <==>
              && SideBlockers(BaselineSide, baseline) == [] && SideBlockers(CandidateSide, candidate) == []
              && improvement >= 1.05 && candidate.min > baseline.max
  {
    SideBlockers(BaselineSide, baseline) + SideBlockers(CandidateSide, candidate) +
    (if improvement < 1.05 then [SmallEffect] else []) +
    (if candidate.min <= baseline.max then [RangesOverlap] else [])
  }

  lemma InFour<T>(x: T, a: seq<T>, b: seq<T>, c: seq<T>, d: seq<T>)
    ensures x in a + b + c + d <==> x in a || x in b || x in c || x in d
  {
    assert x in a + b + c + d <==> x in a + b + c || x in d;
    assert x in a + b + c <==> x in a + b || x in c;
  }

  /** Each throughput blocker is given exactly for its own reason. */
  lemma ThroughputReasons(baseline: Row, candidate: Row, improvement: real, side: Side)
    ensures var b := ThroughputBlockers(baseline, candidate, improvement);
            var row := if side.BaselineSide? then baseline else candidate;
            && (SmallEffect in b <==> improvement < 1.05)
            && (RangesOverlap in b <==> candidate.min <= baseline.max)
            && (Repetitions(side) in b <==> row.repetitions != 5)
            && (Lossy(side) in b <==> row.lossMax > 0.1)
            && (SenderLimited(side) in b <==> !row.saturated)
  {
    hide SideBlockers;
    var p, q := SideBlockers(BaselineSide, baseline), SideBlockers(CandidateSide, candidate);
    var r: seq<Blocker> := if improvement < 1.05 then [SmallEffect] else [];
    var s: seq<Blocker> := if candidate.min <= baseline.max then [RangesOverlap] else [];
    InFour(SmallEffect, p, q, r, s);
    InFour(RangesOverlap, p, q, r, s);
    InFour(Repetitions(side), p, q, r, s);
    InFour(Lossy(side), p, q, r, s);
    InFour(SenderLimited(side), p, q, r, s);
  }

  // ----- Overlap -----

  function ColumnOf(r: Run, column: Overlap): Option<int> {
    match column case IngressLoss => r.ingressLoss case SpscOverflow => r.spscOverflow
  }

  /** A missing value counts as -1. */
  function Filled(v: Option<int>): int { if v.None? then -1 else v.value }

  function Matched(runs: seq<Run>, ids: set<string>): (m: seq<Run>)
    ensures forall r :: r in m <==> r in runs && r.id in ids
  {
    if runs == [] then []
    else Matched(runs[..|runs| - 1], ids) + (if runs[|runs| - 1].id in ids then [runs[|runs| - 1]] else [])
  }

  ghost predicate IsLargest(v: int, runs: seq<Run>, column: Overlap) {
    && (exists r :: r in runs && Filled(ColumnOf(r, column)) == v)
    && (forall r :: r in runs ==> Filled(ColumnOf(r, column)) <= v)
  }

  method Largest(runs: seq<Run>, column: Overlap) returns (v: int)
    requires runs != []
    ensures IsLargest(v, runs, column)
  {
    v := Filled(ColumnOf(runs[0], column));
    assert runs[0] in runs;
    for i := 1 to |runs|
      invariant exists r :: r in runs && Filled(ColumnOf(r, column)) == v
      invariant forall j :: 0 <= j < i ==> Filled(ColumnOf(runs[j], column)) <= v
    {
      assert runs[i] in runs;
      if Filled(ColumnOf(runs[i], column)) > v { v := Filled(ColumnOf(runs[i], column)); }
    }
  }

  /** What the gate is meant to establish: every repetition recorded zero. */
  predicate Clean(runs: seq<Run>, column: Overlap) {
    forall r :: r in runs ==> ColumnOf(r, column) == Some(0)
  }

  /** What it does establish: some repetition recorded zero and none recorded more. */
  ghost predicate LooksClean(runs: seq<Run>, column: Overlap) { IsLargest(0, runs, column) }

  predicate Recorded(runs: seq<Run>, column: Overlap) {
    forall r :: r in runs ==> ColumnOf(r, column).Some? && ColumnOf(r, column).value >= 0
  }

  /** The overlap check is sound exactly for repetitions that all recorded a count: a repetition
      without one, or with a negative one, passes unseen beside one that recorded zero. */
  lemma OverlapCheckIsExact(runs: seq<Run>, column: Overlap)
    requires runs != []
    ensures Clean(runs, column) <==> LooksClean(runs, column) && Recorded(runs, column)
  {
    if Clean(runs, column) {
      assert runs[0] in runs;
    }
  }

  /** Which of the two columns the per-run table has. */
  datatype Columns = Columns(ingressLoss: bool, spscOverflow: bool) {
    predicate Has(column: Overlap) { match column case IngressLoss => ingressLoss case SpscOverflow => spscOverflow }
  }

  method ColumnBlockers(runs: seq<Run>, columns: Columns, column: Overlap) returns (b: seq<Blocker>)
    requires runs != []
    ensures b == if !columns.Has(column) then [ColumnMissing(column)]
                 else if LooksClean(runs, column) then [] else [NotClean(column)]
  {
    if !columns.Has(column) { return [ColumnMissing(column)]; }
    var v := Largest(runs, column);
    return if v != 0 then [NotClean(column)] else [];
  }

  ghost predicate Overlapped(runs: seq<Run>, ids: set<string>, columns: Columns) {
    && |Matched(runs, ids)| == REQUIRED_REPETITIONS
    && columns.ingressLoss && LooksClean(Matched(runs, ids), IngressLoss)
    && columns.spscOverflow && LooksClean(Matched(runs, ids), SpscOverflow)
  }

  method OverlapBlockers(runs: seq<Run>, ids: set<string>, columns: Columns) returns (b: seq<Blocker>)
    ensures b == [] <==> Overlapped(runs, ids, columns)
    ensures Unmatched in b <==> |Matched(runs, ids)| != 5
    ensures forall x :: x in b ==> x.Unmatched? || x.ColumnMissing? || x.NotClean?
    ensures |Matched(runs, ids)| == 5 ==>
              && (ColumnMissing(IngressLoss) in b <==> !columns.ingressLoss)
              && (ColumnMissing(SpscOverflow) in b <==> !columns.spscOverflow)
  {
    var matched := Matched(runs, ids);
    if |matched| != REQUIRED_REPETITIONS { return [Unmatched]; }
    var loss := ColumnBlockers(matched, columns, IngressLoss);
    var overflow := ColumnBlockers(matched, columns, SpscOverflow);
    b := loss + overflow;
  }

  lemma {:induction false} MatchedAll(runs: seq<Run>, ids: set<string>)
    requires forall r :: r in runs ==> r.id in ids
    ensures Matched(runs, ids) == runs
  {
    if runs != [] {
      var past, r := runs[..|runs| - 1], runs[|runs| - 1];
      assert runs == past + [r];
      MatchedAll(past, ids);
    }
  }

  const IDS: seq<string> := ["a", "b", "c", "d", "e"]

  const CONFIGURATION: Key := Key(Threaded, 8, 100_000, Workload("steady", 1, 64, 10.0, 5000, 0))

  function Repetition(i: nat): Run
    requires i < |IDS|
  {
    Run(IDS[i], "raw", false, true, CONFIGURATION, true, 100_000.0, 0.0, if i == 0 then None else Some(0), Some(0))
  }

  /** Five sustainable repetitions of one configuration; the kernel loss of the first is unknown. */
  function FiveRuns(): (runs: seq<Run>)
    ensures |runs| == |IDS| && forall i :: 0 <= i < |runs| ==> runs[i] == Repetition(i) && runs[i] in runs
  {
    seq(|IDS|, i requires 0 <= i < |IDS| => Repetition(i))
  }

  lemma IdsDiffer()
    ensures |IDS| == 5 && forall i, j :: 0 <= i < j < |IDS| ==> IDS[i] != IDS[j]
  {
    forall i, j | 0 <= i < j < |IDS|
      ensures IDS[i] != IDS[j]
    {
      assert IDS[i][0] as int == 'a' as int + i && IDS[j][0] as int == 'a' as int + j;
    }
  }

  /** A repetition without a recorded loss passes the whole overlap check, beside four that lost nothing. */
  lemma UnrecordedRepetitionPasses()
    ensures var runs := FiveRuns();
            && (forall i, j :: 0 <= i < j < |runs| ==> runs[i].id != runs[j].id)
            && (forall r :: r in runs ==> r.key == CONFIGURATION && r.sustainable)
            && Overlapped(runs, (set id | id in IDS), Columns(true, true)) && !Clean(runs, IngressLoss)
  {
    hide IDS, CONFIGURATION, FiveRuns, Matched;
    var runs := FiveRuns();
    IdsDiffer();
    MatchedAll(runs, (set id | id in IDS));
    assert ColumnOf(runs[0], IngressLoss) == None;
    assert Filled(ColumnOf(runs[1], IngressLoss)) == 0 == Filled(ColumnOf(runs[1], SpscOverflow));
  }

  // ----- Mechanism -----

  predicate ProfiledAt(p: Profile, row: Row) { p.batch.Some? ==> Truncated(p.batch.value) == row.key.batch }

  /** int() of a float */
  function Truncated(x: real): int { if x >= 0.0 then x.Floor else -(-x).Floor }

  predicate SyscallsFell(base: Profile, candidate: Profile) {
    base.syscalls.Some? && candidate.syscalls.Some? && candidate.syscalls.value <= 0.95 * base.syscalls.value
  }

  predicate CyclesFell(base: Profile, candidate: Profile) {
    base.cycles.Some? && candidate.cycles.Some? && candidate.cycles.value < base.cycles.value
  }

  method MechanismBlockers(base: Profile, profile: Profile, baseline: Row, candidate: Row, receiver: Variant,
                           runs: seq<Run>, columns: Columns)
    returns (b: seq<Blocker>)
    ensures b == [] <==>
              && ProfiledAt(base, baseline) && ProfiledAt(profile, candidate)
              && SyscallsFell(base, profile)
              && (if receiver == Threaded then Overlapped(runs, candidate.ids, columns) else CyclesFell(base, profile))
    ensures ProfiledElsewhere(BaselineSide) in b <==> !ProfiledAt(base, baseline)
    ensures ProfiledElsewhere(CandidateSide) in b <==> !ProfiledAt(profile, candidate)
    ensures SyscallsUnavailable in b <==> base.syscalls == None || profile.syscalls == None
    ensures CyclesUnavailable in b <==> receiver != Threaded && (base.cycles == None || profile.cycles == None)
    ensures SyscallsNotReduced in b <==>
              base.syscalls.Some? && profile.syscalls.Some? && !SyscallsFell(base, profile)
    ensures CyclesNotReduced in b <==>
              receiver != Threaded && base.cycles.Some? && profile.cycles.Some? && !CyclesFell(base, profile)
  {
    hide Overlapped;
    b := [];
    if !ProfiledAt(base, baseline) { b := b + [ProfiledElsewhere(BaselineSide)]; }
    if !ProfiledAt(profile, candidate) { b := b + [ProfiledElsewhere(CandidateSide)]; }
    if base.syscalls.None? || profile.syscalls.None? {
      b := b + [SyscallsUnavailable];
    } else if profile.syscalls.value > 0.95 * base.syscalls.value {
      b := b + [SyscallsNotReduced];
    }
    if receiver == Threaded {
      var more := OverlapBlockers(runs, candidate.ids, columns);
      b := b + more;
    } else if base.cycles.None? || profile.cycles.None? {
      b := b + [CyclesUnavailable];
    } else if profile.cycles.value >= base.cycles.value {
      b := b + [CyclesNotReduced];
    }
  }

  // ----- The gate -----

  datatype Evidence = Evidence(baseline: Row, candidate: Row, improvement: real, blockers: seq<Blocker>) {
    predicate Claims() { blockers == [] }
  }

  datatype Outcome = Judged(batched: Evidence, threaded: Evidence) | Unselectable(why: Selection) | NoBaselineRate

  /** Five valid, sustainable repetitions of one configuration on real hardware, within the loss
      limit, below a rate that was tried at the identical configuration and failed. */
  ghost predicate WellMeasured(row: Row, data: seq<Run>) {
    var group := Group(data, row.key);
    && |group| == 5
    && (forall r :: r in group ==> r.valid && !r.loopback && r.sustainable && r.lossPct <= 0.1)
    && FailedAbove(row, data)
  }

  /** Every candidate repetition beats every baseline repetition. */
  ghost predicate Beats(candidate: Row, baseline: Row, data: seq<Run>) {
    forall c, b :: c in Group(data, candidate.key) && b in Group(data, baseline.key) ==> c.pps > b.pps
  }

  /** No repetition of a configuration recorded loss in a column. */
  ghost predicate NoneRecorded(row: Row, data: seq<Run>, column: Overlap) {
    forall r :: r in Group(data, row.key) ==>
      match column
      case IngressLoss => r.ingressLoss == None || r.ingressLoss.value <= 0
      case SpscOverflow => r.spscOverflow == None || r.spscOverflow.value <= 0
  }

  /** What stands behind a claim. */
  ghost predicate Sound(e: Evidence, receiver: Variant, data: seq<Run>) {
    && e.baseline.key.receiver == Baseline && e.candidate.key.receiver == receiver
    && e.baseline.key.workload.workNs == e.candidate.key.workload.workNs
    && WellMeasured(e.baseline, data) && WellMeasured(e.candidate, data)
    && Beats(e.candidate, e.baseline, data)
    && e.candidate.median >= 1.05 * e.baseline.median
    && (receiver == Threaded ==>
          NoneRecorded(e.candidate, data, IngressLoss) && NoneRecorded(e.candidate, data, SpscOverflow))
  }

  lemma WellMeasuredRow(row: Row, rows: seq<Row>, runs: seq<Run>, campaign: string, receiver: Variant,
                        workNs: Option<nat>, side: Side)
    requires Passing(rows, Population(runs, campaign)) && Represents(row, rows, receiver, workNs)
    requires SideBlockers(side, row) == []
    ensures WellMeasured(row, Population(runs, campaign)) && row.key.receiver == receiver
    ensures Describes(row, Population(runs, campaign))
  {
    hide Passing, Represents, FailedAbove, IsOrderStatistic, IsHighestRate;
    SaturatedMeansFailedAbove(row, rows, Population(runs, campaign), receiver, workNs);
  }

  lemma RangesApart(candidate: Row, baseline: Row, data: seq<Run>)
    requires Describes(candidate, data) && Describes(baseline, data) && candidate.min > baseline.max
    ensures Beats(candidate, baseline, data)
  {
    hide IsOrderStatistic, IsHighestRate, Sustainable;
  }

  /** The matched rows include every repetition, so what the overlap check sees covers them all. */
  lemma OverlapCoversRepetitions(row: Row, runs: seq<Run>, campaign: string, columns: Columns, column: Overlap)
    requires Describes(row, Population(runs, campaign)) && Overlapped(runs, row.ids, columns)
    ensures NoneRecorded(row, Population(runs, campaign), column)
    ensures Recorded(Matched(runs, row.ids), column) ==> Clean(Group(Population(runs, campaign), row.key), column)
  {
    hide IsOrderStatistic, IsHighestRate, Sustainable;
    var group, matched := Group(Population(runs, campaign), row.key), Matched(runs, row.ids);
    assert LooksClean(matched, column);
    OverlapCheckIsExact(matched, column);
    assert forall r :: r in group ==> r in matched;
  }

  /** Everything the gate asks for. */
  ghost predicate Gate(e: Evidence, receiver: Variant, base: Option<Profile>, profile: Option<Profile>,
                       runs: seq<Run>, columns: Columns)
  {
    && ThroughputBlockers(e.baseline, e.candidate, e.improvement) == []
    && base.Some? && profile.Some?
    && ProfiledAt(base.value, e.baseline) && ProfiledAt(profile.value, e.candidate)
    && SyscallsFell(base.value, profile.value)
    && (if receiver == Threaded then Overlapped(runs, e.candidate.ids, columns)
        else CyclesFell(base.value, profile.value))
  }

  method Judge(baseline: Row, candidate: Row, receiver: Variant, base: Option<Profile>, profile: Option<Profile>,
               runs: seq<Run>, columns: Columns)
    returns (e: Evidence)
    requires baseline.median > 0.0
    ensures e.baseline == baseline && e.candidate == candidate && e.improvement == candidate.median / baseline.median
    ensures e.Claims() <==> Gate(e, receiver, base, profile, runs, columns)
  {
    hide Overlapped, ProfiledAt, SyscallsFell, CyclesFell;
    var improvement := candidate.median / baseline.median;
    var blockers := ThroughputBlockers(baseline, candidate, improvement);
    var mechanism := [NoProfile];
    if base.Some? && profile.Some? {
      mechanism := MechanismBlockers(base.value, profile.value, baseline, candidate, receiver, runs, columns);
    }
    return Evidence(baseline, candidate, improvement, blockers + mechanism);
  }

  lemma RatioMeansFaster(candidate: real, baseline: real)
    requires baseline > 0.0 && candidate / baseline >= 1.05
    ensures candidate >= 1.05 * baseline
  {
    assert candidate == (candidate / baseline) * baseline;
  }

  // ----- What the gate means -----

  /** A profile taken at a batch size, recorded as a float that int() cuts to it. */
  predicate TakenAt(batch: real, size: nat) {
    if batch >= 0.0 then size as real <= batch < size as real + 1.0 else size == 0 && batch > -1.0
  }

  /** The mechanism in plain arithmetic: both sides profiled at the batch they were measured at, at least
      5% fewer receive calls per packet, and fewer cycles where the candidate claims to be cheaper. */
  ghost predicate MechanismSeen(e: Evidence, receiver: Variant, base: Option<Profile>, profile: Option<Profile>) {
    && base.Some? && profile.Some?
    && (base.value.batch.Some? ==> TakenAt(base.value.batch.value, e.baseline.key.batch))
    && (profile.value.batch.Some? ==> TakenAt(profile.value.batch.value, e.candidate.key.batch))
    && base.value.syscalls.Some? && profile.value.syscalls.Some?
    && 100.0 * profile.value.syscalls.value <= 95.0 * base.value.syscalls.value
    && (receiver != Threaded ==>
          base.value.cycles.Some? && profile.value.cycles.Some? && profile.value.cycles.value < base.value.cycles.value)
  }

  /** The overlap in plain terms: five rows match, both columns exist, in each some row recorded zero and
      none more. */
  ghost predicate OverlapSeen(runs: seq<Run>, ids: set<string>, columns: Columns) {
    var matched := Matched(runs, ids);
    && |matched| == 5 && columns.ingressLoss && columns.spscOverflow
    && (exists r :: r in matched && r.ingressLoss == Some(0))
    && (exists r :: r in matched && r.spscOverflow == Some(0))
    && (forall r :: r in matched ==> r.ingressLoss == None || r.ingressLoss.value <= 0)
    && (forall r :: r in matched ==> r.spscOverflow == None || r.spscOverflow.value <= 0)
  }

  /** Both rows are measured well enough, and apart. */
  ghost predicate ThroughputSeen(e: Evidence) {
    && e.baseline.repetitions == 5 && e.baseline.lossMax <= 0.1 && e.baseline.saturated
    && e.candidate.repetitions == 5 && e.candidate.lossMax <= 0.1 && e.candidate.saturated
    && e.improvement >= 1.05 && e.candidate.min > e.baseline.max
  }

  lemma OverlapMeans(runs: seq<Run>, ids: set<string>, columns: Columns)
    ensures Overlapped(runs, ids, columns) <==> OverlapSeen(runs, ids, columns)
  {
    var matched := Matched(runs, ids);
    ColumnMeans(matched, IngressLoss);
    ColumnMeans(matched, SpscOverflow);
  }

  lemma ColumnMeans(runs: seq<Run>, column: Overlap)
    ensures LooksClean(runs, column) <==>
              match column
              case IngressLoss =>
                && (exists r :: r in runs && r.ingressLoss == Some(0))
                && (forall r :: r in runs ==> r.ingressLoss == None || r.ingressLoss.value <= 0)
              case SpscOverflow =>
                && (exists r :: r in runs && r.spscOverflow == Some(0))
                && (forall r :: r in runs ==> r.spscOverflow == None || r.spscOverflow.value <= 0)
  {
    forall r | r in runs
      ensures Filled(ColumnOf(r, column)) == 0 <==>
                (column == IngressLoss && r.ingressLoss == Some(0)) ||
                (column == SpscOverflow && r.spscOverflow == Some(0))
      ensures Filled(ColumnOf(r, column)) <= 0 <==>
                match column
                case IngressLoss => r.ingressLoss == None || r.ingressLoss.value <= 0
                case SpscOverflow => r.spscOverflow == None || r.spscOverflow.value <= 0
    {
    }
  }

  /** The matched rows are those with a listed id, each as often as it appears. */
  lemma {:induction false} MatchedCounts(runs: seq<Run>, ids: set<string>, r: Run)
    ensures multiset(Matched(runs, ids))[r] == if r.id in ids then multiset(runs)[r] else 0
  {
    if runs != [] {
      MatchedCounts(runs[..|runs| - 1], ids, r);
      assert runs == runs[..|runs| - 1] + [runs[|runs| - 1]];
    }
  }

  lemma ProfiledMeans(p: Profile, row: Row)
    ensures ProfiledAt(p, row) <==> (p.batch.Some? ==> TakenAt(p.batch.value, row.key.batch))
  {
  }

  /** Evidence meets the gate exactly when throughput, mechanism and overlap are all seen: one that does
      gets no blocker, and one that gets none does. */
  lemma GateMeans(e: Evidence, receiver: Variant, base: Option<Profile>, profile: Option<Profile>, runs: seq<Run>,
                  columns: Columns)
    ensures Gate(e, receiver, base, profile, runs, columns) <==>
              && ThroughputSeen(e) && MechanismSeen(e, receiver, base, profile)
              && (receiver == Threaded ==> OverlapSeen(runs, e.candidate.ids, columns))
  {
    hide OverlapSeen, Overlapped, ProfiledAt, TakenAt;
    OverlapMeans(runs, e.candidate.ids, columns);
    if base.Some? { ProfiledMeans(base.value, e.baseline); }
    if profile.Some? { ProfiledMeans(profile.value, e.candidate); }
  }

  /** Both sides of the evidence are the selected representatives, at one workload. */
  ghost predicate Selects(e: Evidence, rows: seq<Row>, receiver: Variant, workNs: Option<nat>) {
    && Represents(e.baseline, rows, Baseline, workNs) && Represents(e.candidate, rows, receiver, workNs)
    && e.baseline.key.workload.workNs == e.candidate.key.workload.workNs
    && e.baseline.median > 0.0 && e.improvement == e.candidate.median / e.baseline.median
  }

  /** Evidence that passes the gate is sound. */
  lemma ClaimIsSound(e: Evidence, rows: seq<Row>, runs: seq<Run>, campaign: string, receiver: Variant,
                     workNs: Option<nat>, base: Option<Profile>, profile: Option<Profile>, columns: Columns)
    requires Passing(rows, Population(runs, campaign)) && Selects(e, rows, receiver, workNs)
    requires Gate(e, receiver, base, profile, runs, columns)
    ensures Sound(e, receiver, Population(runs, campaign))
    ensures MechanismSeen(e, receiver, base, profile)
    ensures receiver == Threaded ==> OverlapSeen(runs, e.candidate.ids, columns)
  {
    GateMeans(e, receiver, base, profile, runs, columns);
    hide Represents, Describes, Passing, Overlapped, WellMeasured, Beats, NoneRecorded;
    hide ProfiledAt, SyscallsFell, CyclesFell, MechanismSeen, OverlapSeen;
    WellMeasuredRow(e.baseline, rows, runs, campaign, Baseline, workNs, BaselineSide);
    WellMeasuredRow(e.candidate, rows, runs, campaign, receiver, workNs, CandidateSide);
    RangesApart(e.candidate, e.baseline, Population(runs, campaign));
    RatioMeansFaster(e.candidate.median, e.baseline.median);
    if receiver == Threaded {
      OverlapCoversRepetitions(e.candidate, runs, campaign, columns, IngressLoss);
      OverlapCoversRepetitions(e.candidate, runs, campaign, columns, SpscOverflow);
    }
  }

  /** generate: evidence for both candidates. A claim is emitted exactly when the gate is met, between
      the selected representatives, and is then sound. */
  method Generate(runs: seq<Run>, campaign: string, workNs: Option<nat>, keys: seq<Key>,
                  profiles: Variant -> Option<Profile>, columns: Columns)
    returns (outcome: Outcome, ghost rows: seq<Row>)
    requires Enumerates(keys, Population(runs, campaign))
    ensures Passing(rows, Population(runs, campaign))
    ensures outcome.Judged? ==>
              && Selects(outcome.batched, rows, Batched, workNs) && Selects(outcome.threaded, rows, Threaded, workNs)
              && (outcome.batched.Claims() <==>
                    Gate(outcome.batched, Batched, profiles(Baseline), profiles(Batched), runs, columns))
              && (outcome.threaded.Claims() <==>
                    Gate(outcome.threaded, Threaded, profiles(Baseline), profiles(Threaded), runs, columns))
    ensures outcome.Judged? && outcome.batched.Claims() ==>
              Sound(outcome.batched, Batched, Population(runs, campaign))
    ensures outcome.Judged? && outcome.threaded.Claims() ==>
              Sound(outcome.threaded, Threaded, Population(runs, campaign))
    ensures outcome.Judged? ==>
              && (outcome.batched.Claims() <==>
                    && ThroughputSeen(outcome.batched)
                    && MechanismSeen(outcome.batched, Batched, profiles(Baseline), profiles(Batched)))
              && (outcome.threaded.Claims() <==>
                    && ThroughputSeen(outcome.threaded)
                    && MechanismSeen(outcome.threaded, Threaded, profiles(Baseline), profiles(Threaded))
                    && OverlapSeen(runs, outcome.threaded.candidate.ids, columns))
    ensures outcome.Unselectable? ==>
              !outcome.why.Selected? && Justifies(outcome.why, rows, Population(runs, campaign), workNs)
    ensures outcome.NoBaselineRate? ==> exists row :: Represents(row, rows, Baseline, workNs) && row.median == 0.0
  {
    hide Represents, Passing, Sound, Enumerates, Gate, ThroughputSeen, MechanismSeen, OverlapSeen;
    var data := Population(runs, campaign);
    var selection: Selection;
    selection, rows := SelectRepresentatives(data, keys, workNs);
    if !selection.Selected? { return Unselectable(selection), rows; }
    var baseline := selection.baseline;
    if baseline.median == 0.0 { return NoBaselineRate, rows; }
    var base := profiles(Baseline);
    var batched := Judge(baseline, selection.batched, Batched, base, profiles(Batched), runs, columns);
    var threaded := Judge(baseline, selection.threaded, Threaded, base, profiles(Threaded), runs, columns);
    GateMeans(batched, Batched, base, profiles(Batched), runs, columns);
    GateMeans(threaded, Threaded, base, profiles(Threaded), runs, columns);
    if batched.Claims() {
      ClaimIsSound(batched, rows, runs, campaign, Batched, workNs, base, profiles(Batched), columns);
    }
    if threaded.Claims() {
      ClaimIsSound(threaded, rows, runs, campaign, Threaded, workNs, base, profiles(Threaded), columns);
    }
    return Judged(batched, threaded), rows;
  }
}
