/** Which measured configurations may stand for their receiver. */
module Representatives {
  import opened Options
  import opened Sorting

  const REQUIRED_REPETITIONS: nat := 5

  datatype Variant = Baseline | Batched | Threaded

  /** The workload identity of a run: CONFIGURATION_KEYS. */
  datatype Workload = Workload(mode: string, burstSize: nat, payloadSize: nat, duration: real, workNs: nat,
                               sampleEvery: nat)

  /** A group key: what the repetitions of one measurement share. */
  datatype Key = Key(receiver: Variant, batch: nat, rate: nat, workload: Workload)

  /** A processed rate is a count over a duration. */
  type Pps = x: real | x >= 0.0

  datatype Run = Run(id: string, campaign: string, loopback: bool, valid: bool, key: Key, sustainable: bool,
                     pps: Pps, lossPct: real, ingressLoss: Option<int>, spscOverflow: Option<int>)

  // ----- Population and groups -----

  predicate Eligible(r: Run, campaign: string) { r.campaign == campaign && !r.loopback && r.valid }

  /** claim_population */
  function Population(runs: seq<Run>, campaign: string): (data: seq<Run>)
    ensures forall r :: r in data <==> r in runs && r.campaign == campaign && !r.loopback && r.valid
  {
    if runs == [] then []
    else
      Population(runs[..|runs| - 1], campaign) +
      (if Eligible(runs[|runs| - 1], campaign) then [runs[|runs| - 1]] else [])
  }

  function Group(data: seq<Run>, key: Key): (group: seq<Run>)
    ensures forall r :: r in group <==> r in data && r.key == key
  {
    if data == [] then []
    else Group(data[..|data| - 1], key) + (if data[|data| - 1].key == key then [data[|data| - 1]] else [])
  }

  /** The five-repetition rule. */
  predicate Sustainable(data: seq<Run>, key: Key) {
    |Group(data, key)| == REQUIRED_REPETITIONS && forall r :: r in Group(data, key) ==> r.sustainable
  }

  /** Two keys that differ at most in their rate. */
  predicate SameSweep(a: Key, b: Key) { a == b.(rate := a.rate) }

  datatype Row = Row(key: Key, repetitions: nat, median: Pps, min: Pps, max: Pps, lossMax: real,
                     maxTested: nat, saturated: bool, ids: set<string>)

  predicate AtMost(a: Pps, b: Pps) { a <= b }

  function Rates(group: seq<Run>): seq<Pps> { seq(|group|, i requires 0 <= i < |group| => group[i].pps) }

  ghost predicate IsHighestRate(rate: nat, data: seq<Run>, key: Key) {
    && (exists r :: r in data && SameSweep(r.key, key) && r.key.rate == rate)
    && (forall r :: r in data && SameSweep(r.key, key) ==> r.key.rate <= rate)
  }

  /** What a row of sustainable_groups says of its repetitions. */
  ghost predicate Describes(row: Row, data: seq<Run>) {
    var group := Group(data, row.key);
    && Sustainable(data, row.key)
    && row.repetitions == |group|
    && IsOrderStatistic(row.median, Rates(group), |group| / 2, AtMost)
    && (forall r :: r in group ==> row.min <= r.pps <= row.max && r.lossPct <= row.lossMax)
    && IsHighestRate(row.maxTested, data, row.key)
    && (row.saturated <==> row.key.rate < row.maxTested)
    && (exists r :: r in group && r.pps == row.min)
    && (exists r :: r in group && r.pps == row.max)
    && (exists r :: r in group && r.lossPct == row.lossMax)
    && (forall id :: id in row.ids <==> exists r :: r in group && r.id == id)
  }

  method HighestRate(data: seq<Run>, key: Key) returns (rate: nat)
    requires exists r :: r in data && r.key == key
    ensures IsHighestRate(rate, data, key)
  {
    rate := key.rate;
    for i := 0 to |data|
      invariant exists r :: r in data && SameSweep(r.key, key) && r.key.rate == rate
      invariant forall j :: 0 <= j < i && SameSweep(data[j].key, key) ==> data[j].key.rate <= rate
    {
      if SameSweep(data[i].key, key) && data[i].key.rate > rate { rate := data[i].key.rate; }
    }
  }

  lemma AtMostIsTotal()
    ensures TotalOrder(AtMost)
  {
  }

  method Summarize(data: seq<Run>, key: Key) returns (row: Row)
    requires Sustainable(data, key)
    ensures row.key == key && Describes(row, data)
  {
    hide IsOrderStatistic, TotalOrder, Group, IsHighestRate;
    var group := Group(data, key);
    assert group[0] in group;
    AtMostIsTotal();
    var median := OrderStatistic(Rates(group), |group| / 2, AtMost);
    var low: Pps, high: Pps, loss, ids := group[0].pps, group[0].pps, group[0].lossPct, {};
    for i := 0 to |group|
      invariant forall j :: 0 <= j < i ==> low <= group[j].pps <= high && group[j].lossPct <= loss && group[j].id in ids
      invariant exists r :: r in group && r.pps == low
      invariant exists r :: r in group && r.pps == high
      invariant exists r :: r in group && r.lossPct == loss
      invariant forall id :: id in ids ==> exists r :: r in group && r.id == id
    {
      var r := group[i];
      assert r in group;
      if r.pps < low { low := r.pps; }
      if r.pps > high { high := r.pps; }
      if r.lossPct > loss { loss := r.lossPct; }
      ids := ids + {r.id};
    }
    var highest := HighestRate(data, key);
    row := Row(key, |group|, median, low, high, loss, highest, key.rate < highest, ids);
  }

  /** An enumeration of the groups, in the order they are visited. */
  ghost predicate Enumerates(keys: seq<Key>, data: seq<Run>) {
    && (forall k :: k in keys <==> exists r :: r in data && r.key == k)
    && (forall i, j :: 0 <= i < j < |keys| ==> keys[i] != keys[j])
  }

  /** One row for every group that met the rule, and for no other. */
  ghost predicate Passing(rows: seq<Row>, data: seq<Run>) {
    && (forall row :: row in rows ==> Describes(row, data))
    && (forall k: Key :: Sustainable(data, k) ==> exists row :: row in rows && row.key == k)
    && (forall i, j :: 0 <= i < j < |rows| ==> rows[i].key != rows[j].key)
  }

  /** sustainable_groups, whatever order the groups come in. */
  method SustainableGroups(data: seq<Run>, keys: seq<Key>) returns (rows: seq<Row>)
    requires Enumerates(keys, data)
    ensures Passing(rows, data)
  {
    hide Describes, Group;
    rows := [];
    for i := 0 to |keys|
      invariant forall row :: row in rows ==> Describes(row, data)
      invariant forall j :: 0 <= j < i && Sustainable(data, keys[j]) ==> exists row :: row in rows && row.key == keys[j]
      invariant forall j :: 0 <= j < |rows| ==> rows[j].key in keys[..i]
      invariant forall j, k :: 0 <= j < k < |rows| ==> rows[j].key != rows[k].key
    {
      if Sustainable(data, keys[i]) {
        var row := Summarize(data, keys[i]);
        assert forall j :: 0 <= j < i ==> keys[j] != keys[i];
        rows := rows + [row];
        assert row in rows;
      }
    }
    forall k: Key | Sustainable(data, k)
      ensures exists row :: row in rows && row.key == k
    {
      assert Group(data, k)[0] in Group(data, k);
      assert k in keys;
    }
  }

  // ----- Selection -----

  predicate SameContest(a: Row, b: Row) {
    a.key.batch == b.key.batch && a.key.workload.workNs == b.key.workload.workNs &&
    a.key.workload.sampleEvery == b.key.workload.sampleEvery
  }

  /** idxmax of the rate: the first of the rows with its contest's highest rate. */
  predicate Picked(rows: seq<Row>, i: nat)
    requires i < |rows|
  {
    forall j :: 0 <= j < |rows| && SameContest(rows[i], rows[j]) ==>
      rows[j].key.rate < rows[i].key.rate || (rows[j].key.rate == rows[i].key.rate && i <= j)
  }

  predicate NearBest(rows: seq<Row>, i: nat)
    requires i < |rows|
  {
    forall j :: 0 <= j < |rows| && Picked(rows, j) ==> 100.0 * rows[i].median >= 98.0 * rows[j].median
  }

  predicate Finalist(rows: seq<Row>, i: nat) { i < |rows| && Picked(rows, i) && NearBest(rows, i) }

  /** The choice: the smallest batch within 2% of the best median, at its highest rate. */
  predicate Chosen(rows: seq<Row>, i: nat)
    ensures Chosen(rows, i) ==> i < |rows|
  {
    Finalist(rows, i) &&
    forall j :: 0 <= j < |rows| && Finalist(rows, j) ==> Preferred(rows, i, j)
  }

  /** The pick of a row's contest. */
  method Pick(rows: seq<Row>, i: nat) returns (p: nat)
    requires i < |rows|
    ensures p < |rows| && SameContest(rows[i], rows[p]) && Picked(rows, p)
  {
    p := i;
    for j := 0 to |rows|
      invariant p < |rows| && SameContest(rows[i], rows[p])
      invariant forall k :: 0 <= k < j && SameContest(rows[p], rows[k]) ==>
                  rows[k].key.rate < rows[p].key.rate || (rows[k].key.rate == rows[p].key.rate && p <= k)
    {
      if SameContest(rows[p], rows[j]) &&
         (rows[j].key.rate > rows[p].key.rate || (rows[j].key.rate == rows[p].key.rate && j < p))
      {
        p := j;
      }
    }
  }

  /** A pick with the best median. */
  method FastestPick(rows: seq<Row>) returns (best: nat)
    requires rows != []
    ensures Finalist(rows, best)
  {
    best := Pick(rows, 0);
    for j := 0 to |rows|
      invariant best < |rows| && Picked(rows, best)
      invariant forall k :: 0 <= k < j && Picked(rows, k) ==> rows[k].median <= rows[best].median
    {
      if Picked(rows, j) && rows[j].median > rows[best].median { best := j; }
    }
  }

  /** Whether row i is at least as good a choice as row k: a smaller batch, or the same at no lower rate. */
  predicate Preferred(rows: seq<Row>, i: nat, k: nat)
    requires i < |rows| && k < |rows|
  {
    rows[i].key.batch < rows[k].key.batch ||
    (rows[i].key.batch == rows[k].key.batch && rows[i].key.rate >= rows[k].key.rate)
  }

  method Choose(rows: seq<Row>) returns (i: nat)
    requires rows != []
    ensures Chosen(rows, i)
  {
    hide Picked, NearBest;
    i := FastestPick(rows);
    for j := 0 to |rows|
      invariant Finalist(rows, i)
      invariant forall k :: 0 <= k < j && Finalist(rows, k) ==> Preferred(rows, i, k)
    {
      if Finalist(rows, j) && !Preferred(rows, i, j) { i := j; }
    }
  }

  predicate Contends(row: Row, receiver: Variant, workNs: Option<nat>) {
    row.key.receiver == receiver && (workNs.Some? ==> row.key.workload.workNs == workNs.value)
  }

  /** The passing rows of one receiver, at one workload if one is asked for. */
  function Contenders(rows: seq<Row>, receiver: Variant, workNs: Option<nat>): (c: seq<Row>)
    ensures forall row :: row in c <==> row in rows && row.key.receiver == receiver &&
                                        (workNs == None || workNs == Some(row.key.workload.workNs))
  {
    if rows == [] then []
    else
      var last := rows[|rows| - 1];
      Contenders(rows[..|rows| - 1], receiver, workNs) +
      (if Contends(last, receiver, workNs) then [last] else [])
  }

  ghost predicate Represents(row: Row, rows: seq<Row>, receiver: Variant, workNs: Option<nat>) {
    exists i: nat :: Chosen(Contenders(rows, receiver, workNs), i) && row == Contenders(rows, receiver, workNs)[i]
  }

  datatype Selection =
    | Selected(baseline: Row, batched: Row, threaded: Row)
    | NoneSustainable
    | NoneAtWorkload
    | NoneFor(receiver: Variant)
    | MixedWorkloads

  method Representative(rows: seq<Row>, receiver: Variant, workNs: Option<nat>) returns (row: Option<Row>)
    ensures row.None? <==> Contenders(rows, receiver, workNs) == []
    ensures row.Some? ==> Represents(row.value, rows, receiver, workNs) && Contends(row.value, receiver, workNs)
  {
    var contenders := Contenders(rows, receiver, workNs);
    if contenders == [] { return None; }
    var i := Choose(contenders);
    return Some(contenders[i]);
  }

  /** What a selection, or the refusal to make one, says of the passing rows. */
  ghost predicate Justifies(selection: Selection, rows: seq<Row>, data: seq<Run>, workNs: Option<nat>) {
    match selection
    case Selected(baseline, batched, threaded) =>
      && Represents(baseline, rows, Baseline, workNs)
      && Represents(batched, rows, Batched, workNs)
      && Represents(threaded, rows, Threaded, workNs)
      && baseline.key.workload.workNs == batched.key.workload.workNs == threaded.key.workload.workNs
    case NoneSustainable => forall k :: !Sustainable(data, k)
    case NoneAtWorkload => workNs.Some? && forall row :: row in rows ==> row.key.workload.workNs != workNs.value
    case NoneFor(receiver) => Contenders(rows, receiver, workNs) == []
    case MixedWorkloads =>
      workNs.None? &&
      exists a, b, ra, rb :: Represents(a, rows, ra, workNs) && Represents(b, rows, rb, workNs) &&
                             a.key.workload.workNs != b.key.workload.workNs
  }

  /** select_representatives */
  method SelectRepresentatives(data: seq<Run>, keys: seq<Key>, workNs: Option<nat>)
    returns (selection: Selection, ghost rows: seq<Row>)
    requires Enumerates(keys, data)
    ensures Passing(rows, data)
    ensures Justifies(selection, rows, data, workNs)
  {
    hide Represents, Contenders, Describes, Sustainable;
    var passing := SustainableGroups(data, keys);
    rows := passing;
    RowsExist(rows, data);
    if passing == [] { return NoneSustainable, rows; }
    if workNs.Some? && forall row :: row in passing ==> row.key.workload.workNs != workNs.value {
      return NoneAtWorkload, rows;
    }
    var baseline := Representative(passing, Baseline, workNs);
    if baseline.None? { return NoneFor(Baseline), rows; }
    var batched := Representative(passing, Batched, workNs);
    if batched.None? { return NoneFor(Batched), rows; }
    var threaded := Representative(passing, Threaded, workNs);
    if threaded.None? { return NoneFor(Threaded), rows; }
    if !(baseline.value.key.workload.workNs == batched.value.key.workload.workNs
         == threaded.value.key.workload.workNs) {
      if baseline.value.key.workload.workNs != batched.value.key.workload.workNs {
        Mixed(baseline.value, batched.value, Baseline, Batched, rows, data);
      } else {
        Mixed(batched.value, threaded.value, Batched, Threaded, rows, data);
      }
      return MixedWorkloads, rows;
    }
    return Selected(baseline.value, batched.value, threaded.value), rows;
  }

  lemma Mixed(a: Row, b: Row, ra: Variant, rb: Variant, rows: seq<Row>, data: seq<Run>)
    requires Represents(a, rows, ra, None) && Represents(b, rows, rb, None)
    requires a.key.workload.workNs != b.key.workload.workNs
    ensures Justifies(MixedWorkloads, rows, data, None)
  {
    hide Represents;
  }

  lemma RowsExist(rows: seq<Row>, data: seq<Run>)
    requires Passing(rows, data)
    ensures rows == [] <==> forall k :: !Sustainable(data, k)
  {
    if rows != [] {
      assert rows[0] in rows;
      assert Describes(rows[0], data);
    }
  }

  /** Someone tested the identical configuration at a higher rate, and it failed the rule. */
  ghost predicate FailedAbove(row: Row, data: seq<Run>) {
    exists r :: r in data && r.key.receiver == row.key.receiver && r.key.batch == row.key.batch &&
      r.key.workload == row.key.workload && r.key.rate > row.key.rate &&
      (|Group(data, r.key)| != 5 || exists failed :: failed in Group(data, r.key) && !failed.sustainable)
  }

  /** A group's members are its runs, each as often as it was measured. */
  lemma {:induction false} GroupCounts(data: seq<Run>, key: Key, r: Run)
    ensures multiset(Group(data, key))[r] == if r.key == key then multiset(data)[r] else 0
  {
    if data != [] {
      GroupCounts(data[..|data| - 1], key, r);
      assert data == data[..|data| - 1] + [data[|data| - 1]];
    }
  }

  lemma {:induction false} PopulationCounts(runs: seq<Run>, campaign: string, r: Run)
    ensures multiset(Population(runs, campaign))[r] ==
              if r.campaign == campaign && !r.loopback && r.valid then multiset(runs)[r] else 0
  {
    if runs != [] {
      PopulationCounts(runs[..|runs| - 1], campaign, r);
      assert runs == runs[..|runs| - 1] + [runs[|runs| - 1]];
    }
  }

  /** A row describes five sustainable repetitions: its median has at most two below it and at least
      three at most it, and it is saturated exactly when the same receiver, batch and workload were
      tested at a higher rate. */
  lemma RowMeans(row: Row, data: seq<Run>)
    requires Describes(row, data)
    ensures var group := Group(data, row.key);
            && row.repetitions == |group| == 5 && (forall r :: r in group ==> r.sustainable)
            && (exists r :: r in group && r.pps == row.median)
            && CountBelow(Rates(group), row.median, AtMost) <= 2
            && CountAtMost(Rates(group), row.median, AtMost) >= 3
    ensures row.saturated <==>
              exists r :: r in data && r.key.receiver == row.key.receiver && r.key.batch == row.key.batch &&
                          r.key.workload == row.key.workload && r.key.rate > row.key.rate
  {
    hide CountBelow, CountAtMost;
    var group := Group(data, row.key);
    var i :| 0 <= i < |group| && Rates(group)[i] == row.median;
    assert group[i] in group;
    if row.saturated {
      var r :| r in data && SameSweep(r.key, row.key) && r.key.rate == row.maxTested;
    }
    forall r | r in data && r.key.receiver == row.key.receiver && r.key.batch == row.key.batch &&
               r.key.workload == row.key.workload && r.key.rate > row.key.rate
      ensures row.saturated
    {
      assert SameSweep(r.key, row.key);
    }
  }

  /** No row of the same batch, work and sampling has a higher rate, and none before it as high a one. */
  ghost predicate Wins(rows: seq<Row>, i: nat) {
    i < |rows| &&
    forall j :: 0 <= j < |rows| && rows[j].key.batch == rows[i].key.batch &&
                rows[j].key.workload.workNs == rows[i].key.workload.workNs &&
                rows[j].key.workload.sampleEvery == rows[i].key.workload.sampleEvery ==>
      rows[j].key.rate <= rows[i].key.rate && (j < i ==> rows[j].key.rate < rows[i].key.rate)
  }

  lemma PickedWins(rows: seq<Row>, i: nat)
    requires i < |rows|
    ensures Picked(rows, i) <==> Wins(rows, i)
  {
  }

  /** At least 98% of the best winning median. */
  ghost predicate WithinTwoPercent(rows: seq<Row>, i: nat)
    requires i < |rows|
  {
    forall j :: 0 <= j < |rows| && Wins(rows, j) ==> rows[i].median >= 0.98 * rows[j].median
  }

  /** It wins its contest and is within 2% of the best winner; any other such winner has a larger batch,
      or the same at no higher rate. */
  ghost predicate SmallestOfTheBest(rows: seq<Row>, i: nat)
    ensures SmallestOfTheBest(rows, i) ==> i < |rows|
  {
    && Wins(rows, i) && WithinTwoPercent(rows, i)
    && forall j :: 0 <= j < |rows| && Wins(rows, j) && WithinTwoPercent(rows, j) ==>
         rows[i].key.batch < rows[j].key.batch ||
         (rows[i].key.batch == rows[j].key.batch && rows[i].key.rate >= rows[j].key.rate)
  }

  /** What a representative is. */
  lemma RepresentativeMeans(row: Row, rows: seq<Row>, receiver: Variant, workNs: Option<nat>) returns (i: nat)
    requires Represents(row, rows, receiver, workNs)
    ensures var all := Contenders(rows, receiver, workNs);
            i < |all| && all[i] == row && SmallestOfTheBest(all, i)
  {
    hide Chosen, Contenders;
    i :| Chosen(Contenders(rows, receiver, workNs), i) && row == Contenders(rows, receiver, workNs)[i];
    ChosenMeans(Contenders(rows, receiver, workNs), i);
  }

  lemma ChosenMeans(rows: seq<Row>, i: nat)
    requires Chosen(rows, i)
    ensures SmallestOfTheBest(rows, i) && i < |rows|
  {
    hide Wins, Picked;
    forall j: nat | j < |rows|
      ensures Picked(rows, j) <==> Wins(rows, j)
    {
      PickedWins(rows, j);
    }
    forall j: nat | Wins(rows, j) && j < |rows|
      ensures WithinTwoPercent(rows, j) <==> NearBest(rows, j)
    {
    }
    forall j: nat | j < |rows| && Wins(rows, j) && WithinTwoPercent(rows, j)
      ensures Preferred(rows, i, j)
    {
      assert Finalist(rows, j);
    }
  }

  /** A representative runs at the highest rate its configuration passed. */
  lemma HighestPassingRate(row: Row, rows: seq<Row>, data: seq<Run>, receiver: Variant, workNs: Option<nat>, k: Key)
    requires Passing(rows, data) && Represents(row, rows, receiver, workNs)
    requires SameSweep(k, row.key) && Sustainable(data, k)
    ensures k.rate <= row.key.rate
  {
    hide Describes, Sustainable;
    var contenders := Contenders(rows, receiver, workNs);
    var i: nat :| Chosen(contenders, i) && row == contenders[i];
    assert row in contenders;
    var other :| other in rows && other.key == k;
    assert other in contenders;
    var j :| 0 <= j < |contenders| && contenders[j] == other;
    assert SameContest(contenders[i], contenders[j]);
  }

  /** A saturated representative is limited by its receiver: a higher rate was tested and lost,
      because selection would have taken it had it passed. */
  lemma SaturatedMeansFailedAbove(row: Row, rows: seq<Row>, data: seq<Run>, receiver: Variant, workNs: Option<nat>)
    requires Passing(rows, data) && Represents(row, rows, receiver, workNs)
    ensures row in rows && row.key.receiver == receiver && Describes(row, data)
    ensures row.saturated ==> FailedAbove(row, data)
  {
    hide Group, IsOrderStatistic, Sustainable;
    var contenders := Contenders(rows, receiver, workNs);
    var i: nat :| Chosen(contenders, i) && row == contenders[i];
    assert row in contenders;
    if row.saturated {
      var r :| r in data && SameSweep(r.key, row.key) && r.key.rate == row.maxTested;
      if Sustainable(data, r.key) { HighestPassingRate(row, rows, data, receiver, workNs, r.key); }
      NotSustainable(data, r.key);
    }
  }

  lemma NotSustainable(data: seq<Run>, key: Key)
    ensures Sustainable(data, key) <==>
              |Group(data, key)| == 5 && forall r :: r in Group(data, key) ==> r.sustainable
  {
  }
}
