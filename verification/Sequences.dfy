/** Sequences with some elements dropped, and sums. */
module Sequences {
  /** The elements whose mask bit is set, in order. */
  function Keep<T>(s: seq<T>, mask: seq<bool>): (kept: seq<T>)
    requires |s| == |mask|
    ensures |kept| <= |s|
    ensures forall x :: x in kept ==> x in s
  {
    if s == [] then []
    else
      var n := |s| - 1;
      assert s == s[..n] + [s[n]];
      Keep(s[..n], mask[..n]) + (if mask[n] then [s[n]] else [])
  }

  function Dropped(mask: seq<bool>): nat {
    if mask == [] then 0
    else Dropped(mask[..|mask| - 1]) + (if mask[|mask| - 1] then 0 else 1)
  }

  lemma KeepAfter<T>(s: seq<T>, mask: seq<bool>, x: T, bit: bool)
    requires |s| == |mask|
    ensures Keep(s + [x], mask + [bit]) == Keep(s, mask) + (if bit then [x] else [])
    ensures Dropped(mask + [bit]) == Dropped(mask) + (if bit then 0 else 1)
  {
    assert (s + [x])[..|s|] == s && (mask + [bit])[..|s|] == mask;
  }

  lemma {:induction false} KeptAndDropped<T>(s: seq<T>, mask: seq<bool>)
    requires |s| == |mask|
    ensures |Keep(s, mask)| + Dropped(mask) == |s|
  {
    if s != [] { KeptAndDropped(s[..|s| - 1], mask[..|s| - 1]); }
  }

  function Sum(s: seq<nat>): nat {
    if s == [] then 0 else Sum(s[..|s| - 1]) + s[|s| - 1]
  }

  lemma SumAfter(s: seq<nat>, x: nat)
    ensures Sum(s + [x]) == Sum(s) + x
  {
    assert (s + [x])[..|s|] == s;
  }

  /** The integers low..high. */
  function Interval(low: nat, high: nat): (all: set<nat>)
    ensures forall x :: x in all <==> low <= x <= high
    ensures |all| == if low <= high then high - low + 1 else 0
    decreases high
  {
    if low > high then {}
    else if low == high then {low}
    else Interval(low, high - 1) + {high}
  }

  lemma SubsetSize<T>(a: set<T>, b: set<T>)
    requires a <= b
    ensures |a| <= |b|
  {
    assert b == a + (b - a);
  }
}
