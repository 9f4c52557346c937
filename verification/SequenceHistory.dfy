/** What the online tracker's counters mean, said about the whole stream of observations and
    without any ring, epoch or bitmap. */
module SequenceHistory {
  import opened Words

  const BLOCK_SIZE: nat := 4096
  const BLOCK_COUNT: nat := 16

  type Stream = seq<U32>

  function Block(s: nat): nat { s / BLOCK_SIZE }
  function Slot(s: nat): nat { Block(s) % BLOCK_COUNT }

  function Init(h: Stream): Stream
    requires h != []
  {
    h[..|h| - 1]
  }

  function Last(h: Stream): U32
    requires h != []
  {
    h[|h| - 1]
  }

  function Distinct(h: Stream): set<U32> { set s | s in h }

  /** A later block that shares its slot has arrived, so the memory of s's block is gone. */
  ghost predicate Retired(h: Stream, s: U32) {
    exists v :: v in h && Slot(v) == Slot(s) && Block(v) > Block(s)
  }

  /** The observations judged duplicate: seen before, and still remembered. */
  ghost predicate Rejected(h: Stream, s: U32) { s in h && !Retired(h, s) }

  ghost function Unique(h: Stream): (n: nat)
    ensures n == 0 <==> h == []
  {
    if h == [] then 0 else Unique(Init(h)) + (if Rejected(Init(h), Last(h)) then 0 else 1)
  }

  ghost function Duplicates(h: Stream): nat {
    if h == [] then 0 else Duplicates(Init(h)) + (if Rejected(Init(h), Last(h)) then 1 else 0)
  }

  ghost function OutOfWindow(h: Stream): nat {
    if h == [] then 0 else OutOfWindow(Init(h)) + (if Retired(Init(h), Last(h)) then 1 else 0)
  }

  /** Accepted observations that arrived below the highest value so far. */
  ghost function Reordered(h: Stream): nat {
    if h == [] then 0
    else Reordered(Init(h)) +
         (if !Rejected(Init(h), Last(h)) && |h| > 1 && Last(h) < High(Init(h)) then 1 else 0)
  }

  /** Values accepted as new although they had been seen: the tracker's only mistakes. */
  ghost function Recounted(h: Stream): nat {
    if h == [] then 0
    else Recounted(Init(h)) + (if Retired(Init(h), Last(h)) && Last(h) in Init(h) then 1 else 0)
  }

  function High(h: Stream): (m: U32)
    requires h != []
    ensures m in h && forall s :: s in h ==> s <= m
  {
    if |h| == 1 then h[0] else
      var m := High(Init(h));
      assert h == Init(h) + [Last(h)];
      if Last(h) > m then Last(h) else m
  }

  function Low(h: Stream): (m: U32)
    requires h != []
    ensures m in h && forall s :: s in h ==> m <= s
  {
    if |h| == 1 then h[0] else
      var m := Low(Init(h));
      assert h == Init(h) + [Last(h)];
      if Last(h) < m then Last(h) else m
  }

  /** Integers between the smallest and the largest observation. */
  function Span(h: Stream): nat { if h == [] then 0 else High(h) - Low(h) + 1 }

  /** Integers inside the span that never arrived. */
  function Missing(h: Stream): set<nat> {
    if h == [] then {} else set s: nat | Low(h) <= s <= High(h) && s !in h
  }

  function Clamp(n: int): nat { if n < 0 then 0 else n }

  ghost function Gaps(h: Stream): nat { Clamp(Span(h) - Unique(h)) }

  lemma Unsnoc(h: Stream)
    requires h != []
    ensures h == Init(h) + [Last(h)]
  {
  }

  lemma Snoc(h: Stream, s: U32)
    ensures Init(h + [s]) == h && Last(h + [s]) == s
  {
    assert (h + [s])[..|h|] == h;
  }

  /** How one more observation moves every counter. */
  lemma CountersAfter(h: Stream, s: U32)
    ensures Unique(h + [s]) == Unique(h) + (if Rejected(h, s) then 0 else 1)
    ensures Duplicates(h + [s]) == Duplicates(h) + (if Rejected(h, s) then 1 else 0)
    ensures OutOfWindow(h + [s]) == OutOfWindow(h) + (if Retired(h, s) then 1 else 0)
    ensures Recounted(h + [s]) == Recounted(h) + (if Retired(h, s) && s in h then 1 else 0)
    ensures Reordered(h + [s]) ==
              Reordered(h) + (if !Rejected(h, s) && h != [] && s < High(h) then 1 else 0)
    ensures High(h + [s]) == if h == [] || s > High(h) then s else High(h)
    ensures Low(h + [s]) == if h == [] || s < Low(h) then s else Low(h)
  {
    Snoc(h, s);
  }
}
