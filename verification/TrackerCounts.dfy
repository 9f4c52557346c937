/** The tracker's counters as numbers of arrivals, each judged by what came before it. */
module TrackerCounts {
  import opened Words
  import opened SequenceHistory
  import opened ReceiverAccounting
  import TrackerLaws

  /** v takes the place of s: same slot, later block of 4096 numbers. */
  predicate Displaces(v: U32, s: U32) { v / 4096 % 16 == s / 4096 % 16 && v / 4096 > s / 4096 }

  /** An earlier arrival took the place of arrival i. */
  ghost predicate Displaced(h: Stream, i: nat)
    requires i < |h|
  {
    exists j :: 0 <= j < i && Displaces(h[j], h[i])
  }

  ghost predicate Repeats(h: Stream, i: nat)
    requires i < |h|
  {
    exists j :: 0 <= j < i && h[j] == h[i]
  }

  ghost predicate Overtaken(h: Stream, i: nat)
    requires i < |h|
  {
    exists j :: 0 <= j < i && h[j] > h[i]
  }

  ghost function Late(h: Stream): set<nat> { set i: nat | i < |h| && Displaced(h, i) }

  ghost function RememberedRepeats(h: Stream): set<nat> { set i: nat | i < |h| && Repeats(h, i) && !Displaced(h, i) }

  ghost function AcceptedOvertaken(h: Stream): set<nat> {
    set i: nat | i < |h| && Overtaken(h, i) && !(Repeats(h, i) && !Displaced(h, i))
  }

  ghost function AcceptedRepeats(h: Stream): set<nat> { set i: nat | i < |h| && Repeats(h, i) && Displaced(h, i) }

  lemma EarlierAlike(h: Stream, s: U32, i: nat)
    requires i < |h|
    ensures Displaced(h + [s], i) <==> Displaced(h, i)
    ensures Repeats(h + [s], i) <==> Repeats(h, i)
    ensures Overtaken(h + [s], i) <==> Overtaken(h, i)
  {
    var all := h + [s];
    assert forall j :: 0 <= j <= i ==> all[j] == h[j];
  }

  lemma DisplacesMeans(v: U32, s: U32)
    ensures Displaces(v, s) <==> Slot(v) == Slot(s) && Block(v) > Block(s)
  {
  }

  lemma NewestDisplaced(h: Stream, s: U32)
    ensures Displaced(h + [s], |h|) <==> Retired(h, s)
  {
    hide Displaces, Slot, Block;
    var all := h + [s];
    assert all[|h|] == s && forall j :: 0 <= j < |h| ==> all[j] == h[j];
    forall v { DisplacesMeans(v, s); }
    if Retired(h, s) {
      var v :| v in h && Slot(v) == Slot(s) && Block(v) > Block(s);
      var j :| 0 <= j < |h| && h[j] == v;
      assert Displaces(all[j], all[|h|]);
    }
  }

  lemma NewestRepeats(h: Stream, s: U32)
    ensures Repeats(h + [s], |h|) <==> s in h
  {
    var all := h + [s];
    assert all[|h|] == s && forall j :: 0 <= j < |h| ==> all[j] == h[j];
  }

  lemma NewestOvertaken(h: Stream, s: U32)
    ensures Overtaken(h + [s], |h|) <==> h != [] && s < High(h)
  {
    hide High;
    var all := h + [s];
    if Overtaken(all, |h|) {
      var j :| 0 <= j < |h| && all[j] > all[|h|];
      assert h[j] in h && h[j] == all[j];
    }
    if h != [] && s < High(h) {
      var top := High(h);
      var j :| 0 <= j < |h| && h[j] == top;
      assert all[j] == top && all[|h|] == s;
    }
  }

  lemma GrowBy(a: set<nat>, b: set<nat>, n: nat, more: bool)
    requires forall i :: i in a ==> i < n
    requires forall i :: i in b ==> i <= n
    requires forall i: nat :: i < n ==> (i in a <==> i in b)
    requires n in b <==> more
    ensures |b| == |a| + (if more then 1 else 0)
  {
    assert b == a + (if more then {n} else {});
  }

  /** Every counter is the number of arrivals it is named for: late ones, repeats of a remembered value,
      accepted ones that an earlier arrival exceeds, and repeats accepted for being late. */
  lemma {:induction false} CountersAreCounts(h: Stream)
    ensures OutOfWindow(h) == |Late(h)|
    ensures Duplicates(h) == |RememberedRepeats(h)|
    ensures Reordered(h) == |AcceptedOvertaken(h)|
    ensures Recounted(h) == |AcceptedRepeats(h)|
  {
    if h == [] {
      assert Late(h) == {} && RememberedRepeats(h) == {} && AcceptedOvertaken(h) == {} && AcceptedRepeats(h) == {};
    } else {
      var past, s := Init(h), Last(h);
      Unsnoc(h);
      CountersAreCounts(past);
      SetsGrow(past, s);
      CountersAfter(past, s);
    }
  }

  lemma SetsGrow(h: Stream, s: U32)
    ensures |Late(h + [s])| == |Late(h)| + (if Retired(h, s) then 1 else 0)
    ensures |RememberedRepeats(h + [s])| == |RememberedRepeats(h)| + (if Rejected(h, s) then 1 else 0)
    ensures |AcceptedOvertaken(h + [s])| ==
              |AcceptedOvertaken(h)| + (if !Rejected(h, s) && h != [] && s < High(h) then 1 else 0)
    ensures |AcceptedRepeats(h + [s])| == |AcceptedRepeats(h)| + (if Retired(h, s) && s in h then 1 else 0)
  {
    hide Displaced, Repeats, Overtaken, Retired, High;
    var n := |h|;
    NewestDisplaced(h, s);
    NewestRepeats(h, s);
    NewestOvertaken(h, s);
    forall i: nat | i < n { EarlierAlike(h, s, i); }
    GrowBy(Late(h), Late(h + [s]), n, Retired(h, s));
    GrowBy(RememberedRepeats(h), RememberedRepeats(h + [s]), n, Rejected(h, s));
    GrowBy(AcceptedOvertaken(h), AcceptedOvertaken(h + [s]), n, !Rejected(h, s) && h != [] && s < High(h));
    GrowBy(AcceptedRepeats(h), AcceptedRepeats(h + [s]), n, Retired(h, s) && s in h);
  }

  /** What a receiver reports of the numbers it saw. */
  lemma ReportMeans(h: Stream)
    ensures var r := SequencesOf(h);
            && r.count == |h|
            && r.duplicates == |RememberedRepeats(h)|
            && r.unique == |h| - |RememberedRepeats(h)|
            && r.reordered == |AcceptedOvertaken(h)|
            && r.outOfWindow == |Late(h)|
            && r.gaps == if |Missing(h)| > |AcceptedRepeats(h)| then |Missing(h)| - |AcceptedRepeats(h)| else 0
  {
    CountersAreCounts(h);
    TrackerLaws.EveryObservationCounted(h);
    TrackerLaws.GapsAreMissing(h);
  }
}
