/** Sorting by a total order, and the order statistics read off a sorted sequence. */
module Sorting {
  ghost predicate TotalOrder<T(!new)>(le: (T, T) -> bool) {
    && (forall a, b :: le(a, b) || le(b, a))
    && (forall a, b :: le(a, b) && le(b, a) ==> a == b)
    && (forall a, b, c :: le(a, b) && le(b, c) ==> le(a, c))
  }

  ghost predicate Ordered<T(!new)>(s: seq<T>, le: (T, T) -> bool) {
    forall i, j :: 0 <= i < j < |s| ==> le(s[i], s[j])
  }

  function Insert<T(!new)>(s: seq<T>, x: T, le: (T, T) -> bool): (r: seq<T>)
    requires TotalOrder(le) && Ordered(s, le)
    ensures Ordered(r, le) && multiset(r) == multiset(s) + multiset{x}
  {
    if s == [] || le(s[|s| - 1], x) then
      LargestLast(s, x, le);
      s + [x]
    else
      var past, last := s[..|s| - 1], s[|s| - 1];
      assert s == past + [last];
      var r := Insert(past, x, le);
      LargestLastOf(past, x, r, last, le);
      r + [last]
  }

  lemma LargestLast<T(!new)>(s: seq<T>, x: T, le: (T, T) -> bool)
    requires TotalOrder(le) && Ordered(s, le) && (s != [] ==> le(s[|s| - 1], x))
    ensures Ordered(s + [x], le)
  {
    forall i | 0 <= i < |s|
      ensures le(s[i], x)
    {
      assert le(s[i], s[|s| - 1]);
    }
  }

  lemma LargestLastOf<T(!new)>(past: seq<T>, x: T, r: seq<T>, last: T, le: (T, T) -> bool)
    requires TotalOrder(le) && Ordered(past + [last], le) && Ordered(r, le) && le(x, last)
    requires multiset(r) == multiset(past) + multiset{x}
    ensures Ordered(r + [last], le)
  {
    if r != [] {
      var y := r[|r| - 1];
      assert y in multiset(r);
      if y != x {
        assert y in past;
        var i :| 0 <= i < |past| && past[i] == y;
        assert le((past + [last])[i], (past + [last])[|past|]);
      }
    }
    LargestLast(r, last, le);
  }

  function Sorted<T(!new)>(s: seq<T>, le: (T, T) -> bool): (r: seq<T>)
    requires TotalOrder(le)
    ensures Ordered(r, le) && multiset(r) == multiset(s)
  {
    if s == [] then []
    else
      assert s == s[..|s| - 1] + [s[|s| - 1]];
      Insert(Sorted(s[..|s| - 1], le), s[|s| - 1], le)
  }

  /** Sorting keeps length and membership. */
  lemma SortedHolds<T(!new)>(s: seq<T>, le: (T, T) -> bool)
    requires TotalOrder(le)
    ensures |Sorted(s, le)| == |s|
    ensures forall x :: x in Sorted(s, le) <==> x in s
  {
    hide Sorted;
    var r := Sorted(s, le);
    assert |multiset(r)| == |r| && |multiset(s)| == |s|;
    forall x
      ensures x in r <==> x in s
    {
      assert x in multiset(r) <==> x in multiset(s);
    }
  }

  lemma {:induction false} SortedFixesOrdered<T(!new)>(s: seq<T>, le: (T, T) -> bool)
    requires TotalOrder(le) && Ordered(s, le)
    ensures Sorted(s, le) == s
  {
    if s != [] {
      SortedFixesOrdered(s[..|s| - 1], le);
      assert s == s[..|s| - 1] + [s[|s| - 1]];
    }
  }

  /** How many elements are at most x, and how many are below it. */
  function CountAtMost<T(!new)>(s: seq<T>, x: T, le: (T, T) -> bool): nat {
    if s == [] then 0 else CountAtMost(s[..|s| - 1], x, le) + (if le(s[|s| - 1], x) then 1 else 0)
  }

  function CountBelow<T(!new)>(s: seq<T>, x: T, le: (T, T) -> bool): nat {
    if s == [] then 0 else CountBelow(s[..|s| - 1], x, le) + (if le(x, s[|s| - 1]) then 0 else 1)
  }

  lemma {:induction false} InsertCounts<T(!new)>(s: seq<T>, y: T, x: T, le: (T, T) -> bool)
    requires TotalOrder(le) && Ordered(s, le)
    ensures CountAtMost(Insert(s, y, le), x, le) == CountAtMost(s, x, le) + (if le(y, x) then 1 else 0)
    ensures CountBelow(Insert(s, y, le), x, le) == CountBelow(s, x, le) + (if le(x, y) then 0 else 1)
  {
    if s == [] || le(s[|s| - 1], y) {
      assert (s + [y])[..|s|] == s;
    } else {
      InsertCounts(s[..|s| - 1], y, x, le);
      var r := Insert(s[..|s| - 1], y, le);
      assert (r + [s[|s| - 1]])[..|r|] == r;
    }
  }

  lemma {:induction false} SortingCounts<T(!new)>(s: seq<T>, x: T, le: (T, T) -> bool)
    requires TotalOrder(le)
    ensures CountAtMost(Sorted(s, le), x, le) == CountAtMost(s, x, le)
    ensures CountBelow(Sorted(s, le), x, le) == CountBelow(s, x, le)
  {
    if s != [] {
      SortingCounts(s[..|s| - 1], x, le);
      InsertCounts(Sorted(s[..|s| - 1], le), s[|s| - 1], x, le);
    }
  }

  lemma {:induction false} CountInOrdered<T(!new)>(s: seq<T>, k: nat, le: (T, T) -> bool)
    requires TotalOrder(le) && Ordered(s, le) && k < |s|
    ensures CountBelow(s, s[k], le) <= k < CountAtMost(s, s[k], le)
  {
    var n := |s| - 1;
    if k < n {
      CountInOrdered(s[..n], k, le);
    } else {
      AllCounted(s, s[n], le);
      CountBound(s[..n], s[n], le);
    }
  }

  lemma {:induction false} AllCounted<T(!new)>(s: seq<T>, x: T, le: (T, T) -> bool)
    requires forall i :: 0 <= i < |s| ==> le(s[i], x)
    ensures CountAtMost(s, x, le) == |s|
  {
    if s != [] { AllCounted(s[..|s| - 1], x, le); }
  }

  lemma {:induction false} CountBound<T(!new)>(s: seq<T>, x: T, le: (T, T) -> bool)
    ensures CountBelow(s, x, le) <= |s|
  {
    if s != [] { CountBound(s[..|s| - 1], x, le); }
  }

  /** The element at a rank: fewer than k + 1 elements are below it, and more than k at most it. */
  ghost predicate IsOrderStatistic<T(!new)>(r: T, s: seq<T>, k: nat, le: (T, T) -> bool) {
    r in s && CountBelow(s, r, le) <= k < CountAtMost(s, r, le)
  }

  method OrderStatistic<T(!new)>(s: seq<T>, k: nat, le: (T, T) -> bool) returns (r: T)
    requires TotalOrder(le) && k < |s|
    ensures IsOrderStatistic(r, s, k, le)
  {
    hide Sorted, CountAtMost, CountBelow, TotalOrder, Ordered;
    SortedHolds(s, le);
    r := Sorted(s, le)[k];
    CountInOrdered(Sorted(s, le), k, le);
    SortingCounts(s, r, le);
  }
}
