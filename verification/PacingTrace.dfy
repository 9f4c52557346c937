/** The pacing verdict: one-millisecond windows, percentiles, and enqueue gaps, in exact arithmetic. */
module PacingTrace {
  import opened Options
  import opened Sorting

  const EDGE: nat := 100_000_000
  const WINDOW: nat := 1_000_000

  datatype Row = Row(actual: int, scheduled: int, packets: int)

  datatype Reason = TooShort | DoesNotReconcile | OutsideBand | UnexplainedGap

  datatype Analysis = Analysis(tracePackets: int, windowCount: nat, p1: int, p99: int,
                               maxUnexplained: int, reasons: seq<Reason>) {
    predicate Passed() { reasons == [] }
  }

  datatype Outcome = Analysed(analysis: Analysis) | InvalidRecord

  /** Records sort by actual time, then scheduled time, then packet count. */
  predicate Before(a: Row, b: Row) {
    a.actual < b.actual ||
    (a.actual == b.actual && (a.scheduled < b.scheduled || (a.scheduled == b.scheduled && a.packets <= b.packets)))
  }

  predicate AtMost(a: int, b: int) { a <= b }

  lemma OrdersAreTotal()
    ensures TotalOrder(Before) && TotalOrder(AtMost)
  {
  }

  function SortedRows(rows: seq<Row>): seq<Row> {
    OrdersAreTotal();
    Sorted(rows, Before)
  }

  function Packets(rows: seq<Row>): int {
    if rows == [] then 0 else Packets(rows[..|rows| - 1]) + rows[|rows| - 1].packets
  }

  lemma {:induction false} InsertKeepsPackets(rows: seq<Row>, r: Row)
    requires TotalOrder(Before) && Ordered(rows, Before)
    ensures Packets(Insert(rows, r, Before)) == Packets(rows) + r.packets
  {
    if rows == [] || Before(rows[|rows| - 1], r) {
      assert (rows + [r])[..|rows|] == rows;
    } else {
      InsertKeepsPackets(rows[..|rows| - 1], r);
      var out := Insert(rows[..|rows| - 1], r, Before);
      assert (out + [rows[|rows| - 1]])[..|out|] == out;
    }
  }

  /** Sorting the trace does not change how many packets it holds. */
  lemma {:induction false} SortedKeepsPackets(rows: seq<Row>)
    ensures Packets(SortedRows(rows)) == Packets(rows)
  {
    OrdersAreTotal();
    if rows != [] {
      SortedKeepsPackets(rows[..|rows| - 1]);
      InsertKeepsPackets(Sorted(rows[..|rows| - 1], Before), rows[|rows| - 1]);
    }
  }

  // ----- Percentiles -----

  /** ceil(percent / 100 * n) clamped to 1..n */
  function Rank(n: nat, percent: nat): (rank: nat)
    requires n > 0
    ensures 1 <= rank <= n
    ensures 0 < percent <= 100 ==> 100 * (rank - 1) < percent * n <= 100 * rank
    ensures percent == 0 ==> rank == 1
  {
    var up := (n * percent + 99) / 100;
    if up < 1 then 1 else if up > n then n else up
  }

  /** The smallest sample value that at least rank sample values do not exceed. */
  ghost predicate IsNearestRank(r: int, values: seq<int>, percent: nat)
    requires values != []
  {
    IsOrderStatistic(r, values, Rank(|values|, percent) - 1, AtMost)
  }

  /** nearest_rank */
  method NearestRank(values: seq<int>, percent: nat) returns (r: Option<int>)
    ensures r.None? <==> values == []
    ensures r.Some? ==> IsNearestRank(r.value, values, percent)
  {
    if values == [] { return None; }
    OrdersAreTotal();
    var v := OrderStatistic(values, Rank(|values|, percent) - 1, AtMost);
    return Some(v);
  }

  // ----- Windows and gaps -----

  function WindowCount(start: int, end: int): nat {
    var n := (end - EDGE - (start + EDGE)) / WINDOW;
    if n < 0 then 0 else n
  }

  /** The interior rows are those in one of the counted windows. */
  predicate Interior(r: Row, start: int, windows: nat) {
    start + EDGE <= r.actual < start + EDGE + windows * WINDOW
  }

  function InteriorRows(rows: seq<Row>, start: int, windows: nat): seq<Row> {
    if rows == [] then []
    else
      InteriorRows(rows[..|rows| - 1], start, windows) +
      (if Interior(rows[|rows| - 1], start, windows) then [rows[|rows| - 1]] else [])
  }

  /** Packets submitted in the j-th interior window. */
  function InWindow(rows: seq<Row>, start: int, j: nat): int {
    if rows == [] then 0
    else
      var r := rows[|rows| - 1];
      InWindow(rows[..|rows| - 1], start, j) +
      (if start + EDGE + j * WINDOW <= r.actual < start + EDGE + (j + 1) * WINDOW then r.packets else 0)
  }

  function Positive(x: int): int { if x > 0 then x else 0 }

  /** How much longer an enqueue gap was than the schedule asked for. */
  function Excess(left: Row, right: Row): int {
    Positive((right.actual - left.actual) - Positive(right.scheduled - left.scheduled))
  }

  /** The largest excess between neighbours, 0 if there are none. */
  function MaxExcess(rows: seq<Row>): int {
    if |rows| < 2 then 0
    else
      var rest, gap := MaxExcess(rows[..|rows| - 1]), Excess(rows[|rows| - 2], rows[|rows| - 1]);
      if gap > rest then gap else rest
  }

  predicate ValidRow(r: Row) { r.actual >= 0 && r.scheduled >= 0 && r.packets > 0 }

  /** p1 at least 90% and p99 at most 110% of rate / 1000, cross-multiplied. */
  predicate InBand(p1: int, p99: int, rate: nat) { 10_000 * p1 >= 9 * rate && 10_000 * p99 <= 11 * rate }

  // ----- The analyser -----

  method CountWindows(rows: seq<Row>, start: int, windows: nat) returns (counts: seq<int>)
    ensures |counts| == windows
    ensures forall j :: 0 <= j < windows ==> counts[j] == InWindow(rows, start, j)
  {
    counts := seq(windows, _ => 0);
    for i := 0 to |rows|
      invariant |counts| == windows
      invariant forall j :: 0 <= j < windows ==> counts[j] == InWindow(rows[..i], start, j)
    {
      var r := rows[i];
      assert rows[..i + 1][..i] == rows[..i];
      if Interior(r, start, windows) {
        var j := (r.actual - (start + EDGE)) / WINDOW;
        counts := counts[j := counts[j] + r.packets];
      }
    }
    assert rows[..|rows|] == rows;
  }

  method CollectInterior(rows: seq<Row>, start: int, windows: nat) returns (interior: seq<Row>)
    ensures interior == InteriorRows(rows, start, windows)
  {
    interior := [];
    for i := 0 to |rows|
      invariant interior == InteriorRows(rows[..i], start, windows)
    {
      assert rows[..i + 1][..i] == rows[..i];
      if Interior(rows[i], start, windows) { interior := interior + [rows[i]]; }
    }
    assert rows[..|rows|] == rows;
  }

  method LargestExcess(rows: seq<Row>) returns (largest: int)
    ensures largest == MaxExcess(rows)
  {
    largest := 0;
    if rows == [] { return; }
    for i := 1 to |rows|
      invariant largest == MaxExcess(rows[..i])
    {
      assert rows[..i + 1][..i] == rows[..i];
      var gap := Excess(rows[i - 1], rows[i]);
      if gap > largest { largest := gap; }
    }
    assert rows[..|rows|] == rows;
  }

  method TotalPackets(rows: seq<Row>) returns (total: int)
    ensures total == Packets(rows)
  {
    total := 0;
    for i := 0 to |rows|
      invariant total == Packets(rows[..i])
    {
      assert rows[..i + 1][..i] == rows[..i];
      total := total + rows[i].packets;
    }
    assert rows[..|rows|] == rows;
  }

  /** Whether a value is the percentile nearest_rank picks; 0 stands for an empty sample. */
  ghost predicate IsPercentile(p: int, counts: seq<int>, percent: nat) {
    if counts == [] then p == 0 else IsNearestRank(p, counts, percent)
  }

  /** What the verdict rests on. */
  ghost predicate Judges(a: Analysis, rows: seq<Row>, start: int, end: int, successful: int, rate: nat, windowUs: nat) {
    var sorted, windows := SortedRows(rows), WindowCount(start, end);
    && a.tracePackets == Packets(rows)
    && a.windowCount == windows
    && a.maxUnexplained == MaxExcess(InteriorRows(sorted, start, windows))
    && (exists counts: seq<int> ::
          |counts| == windows && (forall j :: 0 <= j < windows ==> counts[j] == InWindow(sorted, start, j)) &&
          IsPercentile(a.p1, counts, 1) && IsPercentile(a.p99, counts, 99))
    && (TooShort in a.reasons <==> windows == 0)
    && (DoesNotReconcile in a.reasons <==> a.tracePackets != successful)
    && (OutsideBand in a.reasons <==> windows > 0 && !InBand(a.p1, a.p99, rate))
    && (UnexplainedGap in a.reasons <==> a.maxUnexplained > 2 * windowUs * 1000)
  }

  method AnalyzePacingTrace(rows: seq<Row>, start: int, end: int, successful: int, rate: nat, windowUs: nat)
    returns (r: Outcome)
    ensures r.InvalidRecord? <==>
              exists row :: row in rows && (row.actual < 0 || row.scheduled < 0 || row.packets <= 0)
    ensures r.Analysed? ==> Judges(r.analysis, rows, start, end, successful, rate, windowUs)
  {
    hide SortedRows, InteriorRows, MaxExcess, InWindow, IsNearestRank;
    for i := 0 to |rows|
      invariant forall j :: 0 <= j < i ==> ValidRow(rows[j])
    {
      if !ValidRow(rows[i]) { return InvalidRecord; }
    }
    var records := SortedRows(rows);
    var windows := WindowCount(start, end);
    var counts := CountWindows(records, start, windows);
    var interior := CollectInterior(records, start, windows);
    var p1, p99 := 0, 0;
    if counts != [] {
      var low := NearestRank(counts, 1);
      var high := NearestRank(counts, 99);
      p1, p99 := low.value, high.value;
    }
    var tracePackets := TotalPackets(records);
    SortedKeepsPackets(rows);
    var maxUnexplained := LargestExcess(interior);
    var reasons := [];
    if windows == 0 { reasons := reasons + [TooShort]; }
    if tracePackets != successful { reasons := reasons + [DoesNotReconcile]; }
    if counts != [] && !InBand(p1, p99, rate) { reasons := reasons + [OutsideBand]; }
    if maxUnexplained > 2 * windowUs * 1000 { reasons := reasons + [UnexplainedGap]; }
    return Analysed(Analysis(tracePackets, windows, p1, p99, maxUnexplained, reasons));
  }
}
