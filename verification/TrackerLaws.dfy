/** How far the bounded tracker can be from the unbounded truth, on every stream. */
module TrackerLaws {
  import opened Words
  import opened Sequences
  import opened SequenceHistory

  /** Every observation is counted exactly once, as new or as duplicate. */
  lemma {:induction false} EveryObservationCounted(h: Stream)
    ensures Unique(h) + Duplicates(h) == |h|
  {
    if h != [] { EveryObservationCounted(Init(h)); }
  }

  lemma {:induction false} RecountedAreLate(h: Stream)
    ensures Recounted(h) <= OutOfWindow(h)
  {
    if h != [] { RecountedAreLate(Init(h)); }
  }

  /** The unique count is off by exactly the values accepted twice. */
  lemma {:induction false} UniqueIsDistinct(h: Stream)
    ensures Unique(h) == |Distinct(h)| + Recounted(h)
    ensures |Distinct(h)| <= Unique(h) <= |Distinct(h)| + OutOfWindow(h)
  {
    RecountedAreLate(h);
    if h == [] {
      assert Distinct(h) == {};
    } else {
      UniqueIsDistinct(Init(h));
      Unsnoc(h);
      CountersAfter(Init(h), Last(h));
      assert Distinct(h) == Distinct(Init(h)) + {Last(h)};
    }
  }

  lemma MissingSize(h: Stream)
    ensures |Missing(h)| + |Distinct(h)| == Span(h)
  {
    if h != [] {
      var all := Interval(Low(h), High(h));
      var seen: set<nat> := set s: nat | s in Distinct(h);
      assert all == Missing(h) + seen && Missing(h) !! seen;
      assert seen == Distinct(h);
    } else {
      assert Distinct(h) == {};
    }
  }

  /** Gaps are the missing values less the double-counted ones, clamped at zero. */
  lemma GapsAreMissing(h: Stream)
    ensures Gaps(h) == Clamp(|Missing(h)| - Recounted(h))
    ensures |Missing(h)| - OutOfWindow(h) <= Gaps(h) <= |Missing(h)|
  {
    UniqueIsDistinct(h);
    MissingSize(h);
    RecountedAreLate(h);
  }

  /** With nothing out of window, all counts are exact. */
  lemma ExactInsideWindow(h: Stream)
    requires OutOfWindow(h) == 0
    ensures Unique(h) == |Distinct(h)|
    ensures Duplicates(h) == |h| - |Distinct(h)|
    ensures Gaps(h) == |Missing(h)|
  {
    EveryObservationCounted(h);
    UniqueIsDistinct(h);
    GapsAreMissing(h);
    RecountedAreLate(h);
  }

  /** Lookback: an arrival is judged late only when the newest block is 16 or more ahead. */
  lemma LateMeansSixteenBlocks(h: Stream, s: U32)
    requires Retired(h, s)
    ensures Block(High(h)) - Block(s) >= BLOCK_COUNT
    ensures High(h) - s > 61440
  {
    var v :| v in h && Slot(v) == Slot(s) && Block(v) > Block(s);
    assert Block(v) == BLOCK_COUNT * (Block(v) / BLOCK_COUNT) + Slot(v);
    assert Block(s) == BLOCK_COUNT * (Block(s) / BLOCK_COUNT) + Slot(s);
    assert v <= High(h);
    assert Block(v) <= Block(High(h));
  }

  /** Every arrival at that distance below the maximum is called a duplicate exactly when it is one. */
  ghost predicate JudgedExactly(distance: nat) {
    forall h: Stream, s: U32 :: h != [] && High(h) == s + distance ==> (Rejected(h, s) <==> s in h)
  }

  /** 61,440 is the exact lookback: every arrival that close is judged exactly, and at any larger
      distance some repeat is taken for new. */
  lemma LookbackIsExact(distance: nat)
    requires distance < TWO_TO_32
    ensures JudgedExactly(distance) <==> distance <= 61440
  {
    if distance <= 61440 {
      forall h: Stream, s: U32 | h != [] && High(h) == s + distance
        ensures !Retired(h, s)
      {
        if Retired(h, s) { LateMeansSixteenBlocks(h, s); }
      }
    } else {
      var s: U32 := if distance >= 65536 then 0 else BLOCK_SIZE - 1;
      var h: Stream := [s, 65536, s + distance];
      assert h[0] in h && h[1] in h && h[2] in h;
      assert Slot(65536) == Slot(s) && Block(65536) > Block(s);
      assert High(h) == s + distance;
      assert s in h && !Rejected(h, s);
    }
  }

  // ----- Dropping arrivals -----

  /** Values the full stream still remembers and the thinned stream never saw. */
  ghost function Lost(h: Stream, g: Stream): set<U32> {
    set s | s in h && s !in g && !Retired(h, s)
  }

  lemma ThinnedRetiresLess(h: Stream, mask: seq<bool>, s: U32)
    requires |h| == |mask|
    ensures Retired(Keep(h, mask), s) ==> Retired(h, s)
    ensures Rejected(Keep(h, mask), s) && !Retired(h, s) ==> Rejected(h, s)
  {
  }

  /** Dropping arrivals never makes the unique count grow, evictions or not. */
  lemma {:induction false} DroppingNeverAdds(h: Stream, mask: seq<bool>)
    requires |h| == |mask|
    ensures Unique(Keep(h, mask)) + |Lost(h, Keep(h, mask))| <= Unique(h)
  {
    if h == [] {
      assert Lost(h, Keep(h, mask)) == {};
    } else {
      var past, bits := Init(h), mask[..|h| - 1];
      Unsnoc(h);
      DroppingNeverAdds(past, bits);
      DropOrKeepOne(past, Keep(past, bits), Last(h), mask[|h| - 1]);
    }
  }

  lemma DropOrKeepOne(h: Stream, g: Stream, s: U32, kept: bool)
    requires forall v :: v in g ==> v in h
    requires Unique(g) + |Lost(h, g)| <= Unique(h)
    ensures var g' := g + (if kept then [s] else []);
            Unique(g') + |Lost(h + [s], g')| <= Unique(h + [s])
  {
    var lost := Lost(h, g);
    CountersAfter(h, s);
    LostAfter(h, g, s, kept);
    if kept {
      CountersAfter(g, s);
      SubsetSize(Lost(h + [s], g + [s]), lost - {s});
      assert s in lost ==> |lost - {s}| == |lost| - 1;
    } else {
      assert g + [] == g;
      SubsetSize(Lost(h + [s], g), lost + (if Rejected(h, s) then {} else {s}));
    }
  }

  lemma LostAfter(h: Stream, g: Stream, s: U32, kept: bool)
    ensures kept ==> Lost(h + [s], g + [s]) <= Lost(h, g) - {s}
    ensures !kept ==> Lost(h + [s], g) <= Lost(h, g) + (if Rejected(h, s) then {} else {s})
  {
    forall v: U32 | Retired(h, v)
      ensures Retired(h + [s], v)
    {
      var w :| w in h && Slot(w) == Slot(v) && Block(w) > Block(v);
      assert w in h + [s];
    }
  }

  /** With no late arrival, the thinned stream has none either, and every duplicate it reports was
      one in the full stream. */
  lemma {:induction false} InsideWindowSurvivesDropping(h: Stream, mask: seq<bool>)
    requires |h| == |mask| && OutOfWindow(h) == 0
    ensures OutOfWindow(Keep(h, mask)) == 0
    ensures Duplicates(Keep(h, mask)) <= Duplicates(h)
  {
    if h != [] {
      var past, bits := Init(h), mask[..|h| - 1];
      Unsnoc(h);
      CountersAfter(past, Last(h));
      InsideWindowSurvivesDropping(past, bits);
      ThinnedRetiresLess(past, bits, Last(h));
      KeepInside(past, Keep(past, bits), Last(h), mask[|h| - 1]);
    }
  }

  lemma KeepInside(h: Stream, g: Stream, s: U32, kept: bool)
    requires !Retired(h, s) && !Retired(g, s) && (s in g ==> s in h)
    requires OutOfWindow(g) == 0 && Duplicates(g) <= Duplicates(h)
    ensures var g' := g + (if kept then [s] else []);
            OutOfWindow(g') == 0 && Duplicates(g') <= Duplicates(h + [s])
  {
    CountersAfter(h, s);
    if kept { CountersAfter(g, s); } else { assert g + [] == g; }
  }

  /** What overflow does to the unique counts: the shortfall is the number of dropped arrivals less
      the duplicates that went with them. */
  lemma UniqueShortfall(h: Stream, mask: seq<bool>)
    requires |h| == |mask|
    ensures Unique(Keep(h, mask)) <= Unique(h)
    ensures Unique(h) - Unique(Keep(h, mask)) == Dropped(mask) - (Duplicates(h) - Duplicates(Keep(h, mask)))
    ensures OutOfWindow(h) == 0 ==>
              OutOfWindow(Keep(h, mask)) == 0 && Unique(h) - Unique(Keep(h, mask)) <= Dropped(mask)
    ensures OutOfWindow(h) == 0 && Duplicates(h) == 0 ==>
              Unique(h) - Unique(Keep(h, mask)) == Dropped(mask)
  {
    DroppingNeverAdds(h, mask);
    EveryObservationCounted(h);
    EveryObservationCounted(Keep(h, mask));
    KeptAndDropped(h, mask);
    if OutOfWindow(h) == 0 { InsideWindowSurvivesDropping(h, mask); }
  }

  // ----- The stream the sender emits -----

  ghost predicate Increasing(h: Stream) {
    forall i, j :: 0 <= i < j < |h| ==> h[i] < h[j]
  }

  /** A strictly increasing stream, of any length and with any gaps, is reported clean. */
  lemma {:induction false} IncreasingIsClean(h: Stream)
    requires Increasing(h)
    ensures Unique(h) == |h| && Duplicates(h) == 0 && Reordered(h) == 0 && OutOfWindow(h) == 0
    ensures h != [] ==> Low(h) == h[0] && High(h) == h[|h| - 1]
  {
    if h != [] {
      IncreasingIsClean(Init(h));
      Unsnoc(h);
      GrowUpwards(Init(h), Last(h));
    }
  }

  lemma GrowUpwards(h: Stream, s: U32)
    requires forall v :: v in h ==> v < s
    ensures Unique(h + [s]) == Unique(h) + 1 && Duplicates(h + [s]) == Duplicates(h)
    ensures Reordered(h + [s]) == Reordered(h) && OutOfWindow(h + [s]) == OutOfWindow(h)
    ensures High(h + [s]) == s && Low(h + [s]) == if h == [] then s else Low(h)
  {
    CountersAfter(h, s);
    forall v | v in h
      ensures Block(v) <= Block(s)
    {
    }
  }

  /** Its gap count is the number of sequence numbers it skipped. */
  lemma IncreasingGaps(h: Stream)
    requires Increasing(h) && h != []
    ensures Gaps(h) == h[|h| - 1] - h[0] + 1 - |h|
  {
    IncreasingIsClean(h);
    SpreadAtLeast(h);
  }

  lemma {:induction false} SpreadAtLeast(h: Stream)
    requires Increasing(h) && h != []
    ensures h[|h| - 1] - h[0] >= |h| - 1
  {
    if |h| > 1 { SpreadAtLeast(Init(h)); }
  }
}
