/** The pacing verdict in plain arithmetic: how many windows may be thin or crowded, and which gap is
    too long. */
module PacingLaws {
  import opened Sorting
  import opened PacingTrace

  // ----- Sorting by time -----

  /** Sorted records go forward in time; records of the same time by schedule, then by size. */
  lemma SortedByTime(rows: seq<Row>, i: nat, j: nat)
    requires i < j < |SortedRows(rows)|
    ensures var a, b := SortedRows(rows)[i], SortedRows(rows)[j];
            a.actual < b.actual ||
            (a.actual == b.actual &&
             (a.scheduled < b.scheduled || (a.scheduled == b.scheduled && a.packets <= b.packets)))
  {
    OrdersAreTotal();
  }

  // ----- Windows -----

  /** The counted windows are the whole milliseconds between 100 ms after the start and 100 ms before the end. */
  lemma WindowCountMeans(start: int, end: int)
    ensures var n := WindowCount(start, end);
            && end < start + 200_000_000 + (n + 1) * 1_000_000
            && (n > 0 ==> start + 200_000_000 + n * 1_000_000 <= end)
    ensures WindowCount(start, end) == 0 <==> end - start < 201_000_000
  {
  }

  /** A record puts all its packets into the millisecond it completed in, and nothing elsewhere. */
  lemma RecordFillsItsWindow(rows: seq<Row>, r: Row, start: int, j: nat)
    ensures var from := start + 100_000_000 + j * 1_000_000;
            InWindow(rows + [r], start, j) ==
              InWindow(rows, start, j) + (if from <= r.actual < from + 1_000_000 then r.packets else 0)
    ensures InWindow([], start, j) == 0
  {
    assert (rows + [r])[..|rows|] == rows;
  }

  function WindowSum(rows: seq<Row>, start: int, windows: nat): int {
    if windows == 0 then 0 else WindowSum(rows, start, windows - 1) + InWindow(rows, start, windows - 1)
  }

  lemma {:induction false} OneMoreRecord(rows: seq<Row>, r: Row, start: int, windows: nat)
    ensures WindowSum(rows + [r], start, windows) ==
              WindowSum(rows, start, windows) +
              (if start + 100_000_000 <= r.actual < start + 100_000_000 + windows * 1_000_000 then r.packets else 0)
  {
    if windows > 0 {
      OneMoreRecord(rows, r, start, windows - 1);
      RecordFillsItsWindow(rows, r, start, windows - 1);
    }
  }

  lemma {:induction false} NoRecords(start: int, windows: nat)
    ensures WindowSum([], start, windows) == 0
  {
    if windows > 0 { NoRecords(start, windows - 1); }
  }

  /** The windows hold exactly the packets of the interior records between them. */
  lemma {:induction false} WindowsConserve(rows: seq<Row>, start: int, windows: nat)
    ensures WindowSum(rows, start, windows) == Packets(InteriorRows(rows, start, windows))
  {
    if rows == [] {
      NoRecords(start, windows);
    } else {
      var past, r := rows[..|rows| - 1], rows[|rows| - 1];
      assert rows == past + [r];
      WindowsConserve(past, start, windows);
      OneMoreRecord(past, r, start, windows);
      var interior := InteriorRows(past, start, windows);
      assert interior + [] == interior && (interior + [r])[..|interior|] == interior;
    }
  }

  lemma {:induction false} InsertKeepsWindow(rows: seq<Row>, r: Row, start: int, j: nat)
    requires TotalOrder(Before) && Ordered(rows, Before)
    ensures InWindow(Insert(rows, r, Before), start, j) == InWindow(rows + [r], start, j)
  {
    hide InWindow, TotalOrder;
    RecordFillsItsWindow(rows, r, start, j);
    if !(rows == [] || Before(rows[|rows| - 1], r)) {
      var past, last := rows[..|rows| - 1], rows[|rows| - 1];
      assert rows == past + [last] && Insert(rows, r, Before) == Insert(past, r, Before) + [last];
      InsertKeepsWindow(past, r, start, j);
      RecordFillsItsWindow(past, r, start, j);
      RecordFillsItsWindow(past, last, start, j);
      RecordFillsItsWindow(Insert(past, r, Before), last, start, j);
    }
  }

  /** Sorting moves no packet to another window. */
  lemma {:induction false} SortedKeepsWindows(rows: seq<Row>, start: int, j: nat)
    ensures InWindow(SortedRows(rows), start, j) == InWindow(rows, start, j)
  {
    OrdersAreTotal();
    if rows != [] {
      var past, r := rows[..|rows| - 1], rows[|rows| - 1];
      assert rows == past + [r];
      SortedKeepsWindows(past, start, j);
      InsertKeepsWindow(Sorted(past, Before), r, start, j);
      RecordFillsItsWindow(past, r, start, j);
      RecordFillsItsWindow(Sorted(past, Before), r, start, j);
    }
  }

  // ----- Interior records -----

  /** Exactly the records between the edges are interior, each as often as it was recorded. */
  lemma {:induction false} InteriorMeans(rows: seq<Row>, start: int, windows: nat, r: Row)
    ensures multiset(InteriorRows(rows, start, windows))[r] ==
              if start + 100_000_000 <= r.actual < start + 100_000_000 + windows * 1_000_000 then multiset(rows)[r]
              else 0
  {
    if rows != [] {
      InteriorMeans(rows[..|rows| - 1], start, windows, r);
      assert rows == rows[..|rows| - 1] + [rows[|rows| - 1]];
    }
  }

  /** Interior records stay in their order. */
  lemma {:induction false} InteriorOrdered(rows: seq<Row>, start: int, windows: nat)
    requires Ordered(rows, Before)
    ensures Ordered(InteriorRows(rows, start, windows), Before)
  {
    if rows != [] {
      var past, r := rows[..|rows| - 1], rows[|rows| - 1];
      InteriorOrdered(past, start, windows);
      InteriorAmong(past, start, windows);
      forall x | x in InteriorRows(past, start, windows)
        ensures Before(x, r)
      {
        var i :| 0 <= i < |past| && past[i] == x;
        assert Before(rows[i], rows[|past|]);
      }
    }
  }

  lemma {:induction false} InteriorAmong(rows: seq<Row>, start: int, windows: nat)
    ensures forall r :: r in InteriorRows(rows, start, windows) ==> r in rows
  {
    if rows != [] { InteriorAmong(rows[..|rows| - 1], start, windows); }
  }

  // ----- Gaps -----

  /** Between neighbours i and i + 1 the sender waited more than bound longer than the schedule asked. */
  predicate LongGap(rows: seq<Row>, i: nat, bound: int)
    requires i + 1 < |rows|
  {
    var waited, asked := rows[i + 1].actual - rows[i].actual, rows[i + 1].scheduled - rows[i].scheduled;
    waited - (if asked > 0 then asked else 0) > bound
  }

  /** The largest excess is above a bound exactly when some gap is. */
  lemma {:induction false} MaxExcessMeans(rows: seq<Row>, bound: nat)
    ensures MaxExcess(rows) > bound <==> exists i :: 0 <= i < |rows| - 1 && LongGap(rows, i, bound)
    ensures MaxExcess(rows) >= 0
  {
    if |rows| >= 2 {
      var past := rows[..|rows| - 1];
      MaxExcessMeans(past, bound);
      forall i | 0 <= i < |past| - 1
        ensures LongGap(past, i, bound) <==> LongGap(rows, i, bound)
      {
      }
      assert LongGap(rows, |rows| - 2, bound) <==> Excess(rows[|rows| - 2], rows[|rows| - 1]) > bound;
    }
  }

  // ----- The band -----

  /** How many windows hold less than 90%, and how many more than 110%, of rate / 1000 packets. */
  function Thin(counts: seq<int>, rate: nat): nat {
    if counts == [] then 0
    else Thin(counts[..|counts| - 1], rate) + (if counts[|counts| - 1] * 10_000 < 9 * rate then 1 else 0)
  }

  function Crowded(counts: seq<int>, rate: nat): nat {
    if counts == [] then 0
    else Crowded(counts[..|counts| - 1], rate) + (if counts[|counts| - 1] * 10_000 > 11 * rate then 1 else 0)
  }

  lemma {:induction false} ThinOnes(counts: seq<int>, p: int, rate: nat)
    ensures 10_000 * p >= 9 * rate ==> Thin(counts, rate) <= CountBelow(counts, p, AtMost)
    ensures 10_000 * p < 9 * rate ==> Thin(counts, rate) >= CountAtMost(counts, p, AtMost)
  {
    if counts != [] { ThinOnes(counts[..|counts| - 1], p, rate); }
  }

  lemma {:induction false} CrowdedOnes(counts: seq<int>, p: int, rate: nat)
    ensures 10_000 * p <= 11 * rate ==> Crowded(counts, rate) + CountAtMost(counts, p, AtMost) <= |counts|
    ensures 10_000 * p > 11 * rate ==> Crowded(counts, rate) + CountBelow(counts, p, AtMost) >= |counts|
  {
    if counts != [] { CrowdedOnes(counts[..|counts| - 1], p, rate); }
  }

  /** p1 and p99 are in the band exactly when fewer than 1% of the windows are thin and at most 1% crowded. */
  lemma BandMeans(counts: seq<int>, p1: int, p99: int, rate: nat)
    requires counts != [] && IsPercentile(p1, counts, 1) && IsPercentile(p99, counts, 99)
    ensures InBand(p1, p99, rate) <==> 100 * Thin(counts, rate) < |counts| && 100 * Crowded(counts, rate) <= |counts|
  {
    hide Thin, Crowded, CountBelow, CountAtMost;
    ThinOnes(counts, p1, rate);
    CrowdedOnes(counts, p99, rate);
  }

  // ----- The verdict -----

  function WindowCounts(rows: seq<Row>, start: int, windows: nat): seq<int> {
    seq(windows, j requires 0 <= j < windows => InWindow(rows, start, j))
  }

  /** What each reason means of the trace as recorded: too short below 201 ms; not reconciled when its
      packets are not those sent; outside the band when 1% of the windows are thin or more than 1%
      crowded; and an unexplained gap when two neighbouring interior records are further apart than
      the schedule asked, by more than two batch windows. */
  lemma VerdictMeans(a: Analysis, rows: seq<Row>, start: int, end: int, successful: int, rate: nat, windowUs: nat)
    requires Judges(a, rows, start, end, successful, rate, windowUs)
    ensures TooShort in a.reasons <==> end - start < 201_000_000
    ensures DoesNotReconcile in a.reasons <==> Packets(rows) != successful
    ensures var counts := WindowCounts(rows, start, WindowCount(start, end));
            OutsideBand in a.reasons <==>
              counts != [] && (100 * Thin(counts, rate) >= |counts| || 100 * Crowded(counts, rate) > |counts|)
    ensures var interior := InteriorRows(SortedRows(rows), start, WindowCount(start, end));
            UnexplainedGap in a.reasons <==>
              exists i :: 0 <= i < |interior| - 1 && LongGap(interior, i, 2_000 * windowUs)
  {
    hide SortedRows, InteriorRows, MaxExcess, InWindow, InBand, Thin, Crowded, IsNearestRank, LongGap;
    var n := WindowCount(start, end);
    WindowCountMeans(start, end);
    MaxExcessMeans(InteriorRows(SortedRows(rows), start, n), 2_000 * windowUs);
    var counts: seq<int> :|
      |counts| == n && (forall j :: 0 <= j < n ==> counts[j] == InWindow(SortedRows(rows), start, j)) &&
      IsPercentile(a.p1, counts, 1) && IsPercentile(a.p99, counts, 99);
    forall j | 0 <= j < n
      ensures counts[j] == InWindow(rows, start, j)
    {
      SortedKeepsWindows(rows, start, j);
    }
    assert counts == WindowCounts(rows, start, n);
    if n > 0 { BandMeans(counts, a.p1, a.p99, rate); }
  }
}
