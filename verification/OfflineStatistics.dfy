/** The offline statistics of a recorded log, and how far the online tracker is from them. */
module OfflineStatistics {
  import opened Words
  import opened SequenceHistory
  import TrackerLaws

  datatype Statistics = Statistics(gapLoss: nat, duplicates: nat, reordered: nat)

  ghost predicate StrictlySorted(u: seq<nat>) {
    forall i, j :: 0 <= i < j < |u| ==> u[i] < u[j]
  }

  /** First occurrences that arrived below the highest value so far. */
  function LateFirsts(h: Stream): nat {
    if h == [] then 0
    else LateFirsts(Init(h)) +
         (if Last(h) !in Init(h) && |h| > 1 && Last(h) < High(Init(h)) then 1 else 0)
  }

  lemma LateFirstsAfter(h: Stream, s: U32)
    ensures LateFirsts(h + [s]) == LateFirsts(h) + (if s !in h && h != [] && s < High(h) then 1 else 0)
    ensures High(h + [s]) == if h == [] || s > High(h) then s else High(h)
    ensures Distinct(h + [s]) == Distinct(h) + {s}
  {
    Snoc(h, s);
  }

  /** How many elements of a sorted sequence lie below x. */
  function Below(u: seq<nat>, x: nat): (n: nat)
    requires StrictlySorted(u)
    ensures n <= |u|
    ensures forall i :: 0 <= i < n ==> u[i] < x
    ensures forall i :: n <= i < |u| ==> u[i] >= x
  {
    if u == [] || u[|u| - 1] < x then |u| else Below(u[..|u| - 1], x)
  }

  /** sorted(set(values)) */
  method SortedDistinct(values: Stream) returns (u: seq<nat>)
    ensures StrictlySorted(u)
    ensures forall v :: v in u <==> v in values
  {
    u := [];
    for i := 0 to |values|
      invariant StrictlySorted(u)
      invariant forall v :: v in u <==> v in values[..i]
    {
      var x := values[i];
      var n := Below(u, x);
      if n == |u| || u[n] != x {
        assert u == u[..n] + u[n..];
        u := u[..n] + [x] + u[n..];
      }
      assert values[..i + 1] == values[..i] + [x];
    }
    assert values[..|values|] == values;
  }

  lemma {:induction false} SortedSize(u: seq<nat>, all: set<nat>)
    requires StrictlySorted(u) && forall v :: v in u <==> v in all
    ensures |u| == |all|
  {
    if u == [] {
      assert all == {};
    } else {
      var x := u[|u| - 1];
      assert u == u[..|u| - 1] + [x];
      SortedSize(u[..|u| - 1], all - {x});
    }
  }

  method GapLoss(unique: seq<nat>) returns (gaps: nat)
    requires StrictlySorted(unique) && unique != []
    ensures gaps == unique[|unique| - 1] - unique[0] + 1 - |unique|
  {
    gaps := 0;
    for i := 1 to |unique|
      invariant gaps == unique[i - 1] - unique[0] + 1 - i
    {
      var between := unique[i] - unique[i - 1] - 1;
      gaps := gaps + (if between > 0 then between else 0);
    }
  }

  method CountReordered(values: Stream) returns (reordered: nat)
    requires values != []
    ensures reordered == LateFirsts(values)
  {
    var highWatermark, seen := values[0], {};
    reordered := 0;
    for i := 0 to |values|
      invariant reordered == LateFirsts(values[..i])
      invariant seen == Distinct(values[..i])
      invariant highWatermark == if i == 0 then values[0] else High(values[..i])
    {
      var value := values[i];
      assert values[..i + 1] == values[..i] + [value];
      LateFirstsAfter(values[..i], value);
      if value !in seen && value < highWatermark { reordered := reordered + 1; }
      if value > highWatermark { highWatermark := value; }
      seen := seen + {value};
    }
    assert values[..|values|] == values;
  }

  /** Counts internal gaps, duplicate records, and arrival-order reordering. */
  method SequenceStatistics(values: Stream) returns (r: Statistics)
    ensures r.gapLoss == |Missing(values)|
    ensures r.duplicates == |values| - |Distinct(values)|
    ensures r.reordered == LateFirsts(values)
  {
    if values == [] {
      return Statistics(0, 0, 0);
    }
    var unique := SortedDistinct(values);
    SortedIsDistinct(values, unique);
    OnlineVersusOffline(values);
    var gaps := GapLoss(unique);
    var reordered := CountReordered(values);
    return Statistics(gaps, |values| - |unique|, reordered);
  }

  lemma SortedIsDistinct(values: Stream, unique: seq<nat>)
    requires values != [] && StrictlySorted(unique)
    requires forall v :: v in unique <==> v in values
    ensures |unique| == |Distinct(values)| > 0
    ensures unique[|unique| - 1] - unique[0] + 1 - |unique| == |Missing(values)|
  {
    var all := set v: nat | v in Distinct(values);
    SortedSize(unique, all);
    assert all == Distinct(values);
    TrackerLaws.MissingSize(values);
    assert values[0] in unique;
    assert unique[0] in values && unique[|unique| - 1] in values;
    assert Low(values) in unique && High(values) in unique;
  }

  /** The exact difference, for every stream: each value accepted a second time is one duplicate
      the tracker misses, one reordering it invents, and one gap it hides. */
  lemma OnlineVersusOffline(h: Stream)
    ensures Duplicates(h) == |h| - |Distinct(h)| - Recounted(h)
    ensures Reordered(h) == LateFirsts(h) + Recounted(h)
    ensures Gaps(h) == Clamp(|Missing(h)| - Recounted(h))
  {
    TrackerLaws.EveryObservationCounted(h);
    TrackerLaws.UniqueIsDistinct(h);
    TrackerLaws.GapsAreMissing(h);
    LateFirstsOrRecounted(h);
  }

  lemma {:induction false} LateFirstsOrRecounted(h: Stream)
    ensures Reordered(h) == LateFirsts(h) + Recounted(h)
  {
    if h != [] {
      LateFirstsOrRecounted(Init(h));
      if Retired(Init(h), Last(h)) { TrackerLaws.LateMeansSixteenBlocks(Init(h), Last(h)); }
    }
  }

  ghost predicate Agree(h: Stream) {
    && Duplicates(h) == |h| - |Distinct(h)|
    && Reordered(h) == LateFirsts(h)
    && Gaps(h) == |Missing(h)|
  }

  /** The two agree exactly on the streams in which no late arrival repeats a value. */
  lemma AgreeExactlyWhenNothingRecounted(h: Stream)
    ensures Agree(h) <==> Recounted(h) == 0
    ensures OutOfWindow(h) == 0 ==> Agree(h)
  {
    OnlineVersusOffline(h);
    TrackerLaws.RecountedAreLate(h);
  }
}
