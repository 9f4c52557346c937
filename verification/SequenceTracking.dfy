/** The online tracker: a direct-mapped ring of bitmap blocks with epochs. */
module SequenceTracking {
  import opened Words
  import opened SequenceHistory

  const WORDS: nat := 64

  /** The resident epoch of a slot: one more than the largest block mapped to it, 0 if none. */
  function Epoch(h: Stream, slot: nat): nat {
    if h == [] then 0
    else
      var before := Epoch(Init(h), slot);
      if Slot(Last(h)) == slot && Block(Last(h)) + 1 > before then Block(Last(h)) + 1 else before
  }

  /** An epoch is the largest block ever mapped to the slot, so comparing epochs decides retirement. */
  lemma {:induction false} EpochIsLargestBlock(h: Stream, slot: nat)
    ensures forall v :: v in h && Slot(v) == slot ==> Block(v) < Epoch(h, slot)
    ensures Epoch(h, slot) > 0 ==>
              exists v :: v in h && Slot(v) == slot && Block(v) + 1 == Epoch(h, slot)
  {
    if h != [] {
      EpochIsLargestBlock(Init(h), slot);
      assert h == Init(h) + [Last(h)];
    }
  }

  lemma EpochAfter(h: Stream, s: U32, slot: nat)
    ensures Epoch(h + [s], slot) ==
              if Slot(s) == slot && Block(s) + 1 > Epoch(h, slot) then Block(s) + 1 else Epoch(h, slot)
  {
    Snoc(h, s);
  }

  lemma RetiredByEpoch(h: Stream, s: U32)
    ensures Retired(h, s) <==> Epoch(h, Slot(s)) > Block(s) + 1
    ensures s in h ==> Epoch(h, Slot(s)) >= Block(s) + 1
  {
    EpochIsLargestBlock(h, Slot(s));
  }

  /** The sequence number kept at a bit of a slot's block. */
  function Address(epoch: nat, word: nat, bit: nat): int {
    (epoch - 1) * BLOCK_SIZE + word * 64 + bit
  }

  lemma AddressOf(s: U32)
    ensures Address(Block(s) + 1, (s % BLOCK_SIZE) / 64, s % 64) == s
  {
  }

  lemma AddressBlock(epoch: nat, word: nat, bit: nat)
    requires epoch > 0 && word < WORDS && bit < 64
    ensures Address(epoch, word, bit) >= 0 && Block(Address(epoch, word, bit)) == epoch - 1
  {
  }

  /** Appending s concerns the block of s and no other. */
  lemma OnlyItsBlock(h: Stream, s: U32, epoch: nat, word: nat, bit: nat)
    requires word < WORDS && bit < 64 && epoch > 0
    ensures Address(epoch, word, bit) in h + [s] <==>
              Address(epoch, word, bit) in h ||
              (epoch == Block(s) + 1 && word == (s % BLOCK_SIZE) / 64 && bit == s % 64)
  {
    AddressOf(s);
    AddressBlock(epoch, word, bit);
  }

  /** The masks of the source pick the slot, the word and the bit. */
  lemma Coordinates(s: U32)
    ensures And(s / 4096, BLOCK_COUNT - 1) == Slot(s)
    ensures And(s, BLOCK_SIZE - 1) == s % BLOCK_SIZE
    ensures And(s % BLOCK_SIZE, 63) == s % 64
  {
    assert Pow2(4) == 16 && Pow2(12) == 4096 && Pow2(6) == 64;
    MaskIsMod(s / 4096, 4);
    MaskIsMod(s, 12);
    MaskIsMod(s % BLOCK_SIZE, 6);
    assert s % 4096 == s - 64 * (64 * (s / 4096));
    DivModUnique(s % 4096, 64, s / 64 - 64 * (s / 4096), s % 64);
  }

  class SequenceTracker {
    const blocks: array2<U64>
    const epochs: array<nat>
    var unique: nat
    var duplicates: nat
    var reordered: nat
    var outOfWindow: nat
    var minimum: U32
    var highWatermark: U32
    ghost var history: Stream

    ghost predicate Shape()
    {
      blocks.Length0 == BLOCK_COUNT && blocks.Length1 == WORDS && epochs.Length == BLOCK_COUNT
    }

    /** Every slot holds the largest epoch ever mapped to it. */
    ghost predicate EpochsAgree(h: Stream)
      requires Shape()
      reads epochs
    {
      forall slot :: 0 <= slot < BLOCK_COUNT ==> epochs[slot] == Epoch(h, slot)
    }

    /** A slot's bits are exactly the values of its resident block that have arrived. */
    ghost predicate BitsAgree(h: Stream)
      requires Shape()
      reads blocks, epochs
    {
      forall slot, word, bit :: 0 <= slot < BLOCK_COUNT && 0 <= word < WORDS && 0 <= bit < 64 ==>
        (Bit(blocks[slot, word], bit) <==>
         epochs[slot] > 0 && Address(epochs[slot], word, bit) in h)
    }

    ghost predicate CountersAgree(h: Stream)
      reads `unique, `duplicates, `reordered, `outOfWindow, `minimum, `highWatermark
    {
      && unique == Unique(h)
      && duplicates == Duplicates(h)
      && reordered == Reordered(h)
      && outOfWindow == OutOfWindow(h)
      && (h == [] ==> minimum == TWO_TO_32 - 1 && highWatermark == 0)
      && (h != [] ==> minimum == Low(h) && highWatermark == High(h))
    }

    ghost predicate Valid()
      reads this, blocks, epochs
    {
      Shape() && EpochsAgree(history) && BitsAgree(history) && CountersAgree(history)
    }

    constructor ()
      ensures Valid() && fresh(blocks) && fresh(epochs) && history == []
    {
      blocks := new U64[BLOCK_COUNT, WORDS]((i, j) => 0);
      epochs := new nat[BLOCK_COUNT](i => 0);
      unique, duplicates, reordered, outOfWindow := 0, 0, 0, 0;
      minimum, highWatermark := TWO_TO_32 - 1, 0;
      history := [];
    }

    /** An arrival whose block is gone, or already marked, leaves the bitmap right as it is. */
    lemma NothingToMark(h: Stream, s: U32)
      requires Shape() && BitsAgree(h)
      requires s in h || (EpochsAgree(h) && epochs[Slot(s)] != Block(s) + 1)
      ensures BitsAgree(h + [s])
    {
      forall slot, word, bit | 0 <= slot < BLOCK_COUNT && 0 <= word < WORDS && 0 <= bit < 64 && epochs[slot] > 0
        ensures Address(epochs[slot], word, bit) in h + [s] <==> Address(epochs[slot], word, bit) in h
      {
        if s !in h {
          OnlyItsBlock(h, s, epochs[slot], word, bit);
          EpochIsLargestBlock(h, slot);
        }
      }
    }

    /** Hands a slot over to a newer block, forgetting the bits of the old one. */
    method Retire(slot: nat, epoch: nat, ghost h: Stream)
      requires Shape() && slot < BLOCK_COUNT && epoch > 0 && BitsAgree(h)
      requires forall v :: v in h ==> Block(v) + 1 != epoch
      modifies blocks, epochs
      ensures BitsAgree(h) && epochs[slot] == epoch
      ensures forall other :: 0 <= other < BLOCK_COUNT && other != slot ==> epochs[other] == old(epochs[other])
    {
      forall word | 0 <= word < WORDS { blocks[slot, word] := 0; }
      epochs[slot] := epoch;
      forall word, bit | 0 <= word < WORDS && 0 <= bit < 64
        ensures Address(epoch, word, bit) !in h
      {
        AddressBlock(epoch, word, bit);
      }
    }

    /** word |= mask, seen bit by bit. */
    method SetOne(slot: nat, word: nat, bit: nat)
      requires Shape() && slot < BLOCK_COUNT && word < WORDS && bit < 64
      modifies blocks
      ensures forall slot', word', bit' :: 0 <= slot' < BLOCK_COUNT && 0 <= word' < WORDS && 0 <= bit' < 64 ==>
                (Bit(blocks[slot', word'], bit') <==>
                 old(Bit(blocks[slot', word'], bit')) || (slot' == slot && word' == word && bit' == bit))
    {
      var before := blocks[slot, word];
      Pow2Grows(bit, 64);
      Pow2OfWord();
      OrFits(before, Pow2(bit), 64);
      SetBits(before, bit);
      blocks[slot, word] := Or(before, Pow2(bit));
    }

    /** Sets the bit of s in its resident block. */
    method Mark(s: U32, slot: nat, word: nat, bit: nat, ghost h: Stream)
      requires Shape() && BitsAgree(h) && EpochsAgree(h + [s])
      requires slot == Slot(s) && word == (s % BLOCK_SIZE) / 64 && bit == s % 64
      requires epochs[slot] == Block(s) + 1
      modifies blocks
      ensures BitsAgree(h + [s])
    {
      SetOne(slot, word, bit);
      forall slot', word', bit' | 0 <= slot' < BLOCK_COUNT && 0 <= word' < WORDS && 0 <= bit' < 64 && epochs[slot'] > 0
        ensures Address(epochs[slot'], word', bit') in h + [s] <==>
                Address(epochs[slot'], word', bit') in h || (slot' == slot && word' == word && bit' == bit)
      {
        OnlyItsBlock(h, s, epochs[slot'], word', bit');
        EpochIsLargestBlock(h + [s], slot');
      }
    }

    /** Finds the arrival's bit in the ring, evicting an older block if it has to, and sets it. */
    method Place(sequence: U32, ghost h: Stream) returns (late: bool, duplicate: bool)
      requires Shape() && EpochsAgree(h) && BitsAgree(h)
      modifies blocks, epochs
      ensures EpochsAgree(h + [sequence]) && BitsAgree(h + [sequence])
      ensures late <==> Retired(h, sequence)
      ensures duplicate <==> Rejected(h, sequence)
    {
      RetiredByEpoch(h, sequence);
      forall other { EpochAfter(h, sequence, other); }
      var epoch, slot := sequence / 4096 + 1, And(sequence / 4096, BLOCK_COUNT - 1);
      Coordinates(sequence);
      if epochs[slot] > epoch {
        NothingToMark(h, sequence);
        return true, false;
      }
      if epochs[slot] < epoch {
        EpochIsLargestBlock(h, slot);
        Retire(slot, epoch, h);
      }
      var within := And(sequence, BLOCK_SIZE - 1);
      var word, bit := within / 64, And(within, 63);
      AddressOf(sequence);
      if And(blocks[slot, word], Pow2(bit)) != 0 {
        assert Bit(blocks[slot, word], bit);
        NothingToMark(h, sequence);
        return false, true;
      }
      assert !Bit(blocks[slot, word], bit);
      Mark(sequence, slot, word, bit, h);
      return false, false;
    }

    /** Moves the counters for an arrival that Place has judged. */
    method Count(sequence: U32, late: bool, duplicate: bool, ghost h: Stream)
      requires CountersAgree(h)
      requires late <==> Retired(h, sequence)
      requires duplicate <==> Rejected(h, sequence)
      modifies `unique, `duplicates, `reordered, `outOfWindow, `minimum, `highWatermark
      ensures CountersAgree(h + [sequence])
    {
      CountersAfter(h, sequence);
      if late { outOfWindow := outOfWindow + 1; }
      if duplicate {
        duplicates := duplicates + 1;
        return;
      }
      if unique != 0 && sequence < highWatermark { reordered := reordered + 1; }
      if unique == 0 { minimum := sequence; }
      if sequence < minimum { minimum := sequence; }
      if sequence > highWatermark { highWatermark := sequence; }
      unique := unique + 1;
    }

    /** Records one arrival; false means it is certainly a duplicate. */
    method Observe(sequence: U32) returns (accepted: bool)
      requires Valid()
      modifies this, blocks, epochs
      ensures Valid()
      ensures history == old(history) + [sequence]
      ensures accepted <==> !Rejected(old(history), sequence)
    {
      var late, duplicate := Place(sequence, history);
      Count(sequence, late, duplicate, history);
      history := history + [sequence];
      return !duplicate;
    }

    /** Missing sequence numbers inside the observed span, clamped at zero. */
    method GapCount() returns (gaps: nat)
      requires Valid()
      ensures gaps == Gaps(history)
    {
      if unique == 0 { return 0; }
      var span := highWatermark - minimum + 1;
      if unique >= span { return 0; }
      return span - unique;
    }
  }
}
