/** Unsigned machine words as bounded naturals: bitwise AND and OR, power-of-two masks, single
    bits, and the wrap-around subtraction of 64-bit indices. */
module Words {
  const TWO_TO_32: nat := 0x1_0000_0000
  const TWO_TO_64: nat := 0x1_0000_0000_0000_0000

  type U32 = x: nat | x < TWO_TO_32
  type U64 = x: nat | x < TWO_TO_64

  /** Bitwise AND, from the least significant bit up. */
  function And(x: nat, y: nat): nat {
    if x == 0 || y == 0 then 0
    else 2 * And(x / 2, y / 2) + (if x % 2 == 1 && y % 2 == 1 then 1 else 0)
  }

  /** Bitwise OR, from the least significant bit up. */
  function Or(x: nat, y: nat): nat {
    if x == 0 then y else if y == 0 then x
    else 2 * Or(x / 2, y / 2) + (if x % 2 == 1 || y % 2 == 1 then 1 else 0)
  }

  function Pow2(n: nat): (p: nat)
    ensures p >= 1
  {
    if n == 0 then 1 else 2 * Pow2(n - 1)
  }

  /** Bit i of a word, tested the way the source does: word & (1 << i). */
  predicate Bit(word: nat, i: nat) { And(word, Pow2(i)) != 0 }

  lemma LowBit(word: nat)
    ensures Bit(word, 0) <==> word % 2 == 1
  {
    assert And(word / 2, 0) == 0;
  }

  lemma HigherBit(word: nat, i: nat)
    ensures Bit(word, i + 1) <==> Bit(word / 2, i)
  {
    assert Pow2(i + 1) / 2 == Pow2(i);
  }

  lemma OrOne(x: nat)
    ensures Or(x, 1) % 2 == 1 && Or(x, 1) / 2 == x / 2
  {
    assert Or(x / 2, 0) == x / 2;
  }

  lemma OrEven(x: nat, y: nat)
    ensures Or(x, 2 * y) % 2 == x % 2 && Or(x, 2 * y) / 2 == Or(x / 2, y)
  {
  }

  /** word |= 1 << i sets bit i and leaves every other bit alone. */
  lemma {:induction false} SetBit(word: nat, i: nat, j: nat)
    ensures Bit(Or(word, Pow2(i)), j) <==> i == j || Bit(word, j)
  {
    var after := Or(word, Pow2(i));
    if i == 0 { OrOne(word); } else { OrEven(word, Pow2(i - 1)); }
    if j == 0 {
      LowBit(after);
      LowBit(word);
    } else {
      HigherBit(after, j - 1);
      HigherBit(word, j - 1);
      if i > 0 { SetBit(word / 2, i - 1, j - 1); }
    }
  }

  lemma SetBits(word: nat, i: nat)
    ensures forall j: nat :: Bit(Or(word, Pow2(i)), j) <==> i == j || Bit(word, j)
  {
    forall j: nat { SetBit(word, i, j); }
  }

  lemma {:induction false} OrFits(x: nat, y: nat, n: nat)
    requires x < Pow2(n) && y < Pow2(n)
    ensures Or(x, y) < Pow2(n)
  {
    if x != 0 && y != 0 { OrFits(x / 2, y / 2, n - 1); }
  }

  lemma Pow2Doubles(m: nat, n: nat)
    ensures Pow2(m + n) == Pow2(m) * Pow2(n)
    decreases m
  {
    if m > 0 { Pow2Doubles(m - 1, n); }
  }

  lemma {:induction false} Pow2Grows(m: nat, n: nat)
    requires m < n
    ensures Pow2(m) < Pow2(n)
  {
    if m + 1 < n { Pow2Grows(m, n - 1); }
  }

  lemma Pow2OfWord()
    ensures Pow2(64) == TWO_TO_64
  {
    Pow2By64(0);
  }

  lemma Pow2By64(n: nat)
    ensures Pow2(n + 64) == TWO_TO_64 * Pow2(n)
  {
    Pow2By16(n);
    Pow2By16(n + 16);
    Pow2By16(n + 32);
    Pow2By16(n + 48);
  }

  lemma Pow2By16(n: nat)
    ensures Pow2(n + 16) == 0x1_0000 * Pow2(n)
  {
    Pow2By4(n);
    Pow2By4(n + 4);
    Pow2By4(n + 8);
    Pow2By4(n + 12);
  }

  lemma Pow2By4(n: nat)
    ensures Pow2(n + 4) == 16 * Pow2(n)
  {
    assert Pow2(n + 2) == 4 * Pow2(n);
  }

  /** Quotient and remainder are the only pair that fits. */
  lemma DivModUnique(x: int, d: int, q: int, r: int)
    requires d > 0 && 0 <= r < d && x == d * q + r
    ensures x / d == q && x % d == r
  {
    var q', r' := x / d, x % d;
    assert d * q' == x - r';
    assert d * (q - q') == d * q - d * q';
    if q > q' { Multiple(d, q - q'); }
    if q < q' { Multiple(d, q' - q); }
  }

  lemma Multiple(d: nat, k: nat)
    requires k >= 1
    ensures d * k >= d
  {
  }

  lemma SplitModulus(x: nat, half: nat)
    requires half > 0
    ensures x % (2 * half) == 2 * ((x / 2) % half) + x % 2
  {
    var q, r := (x / 2) / half, (x / 2) % half;
    assert x / 2 == half * q + r;
    assert x == 2 * (half * q) + (2 * r + x % 2);
    assert 2 * (half * q) == (2 * half) * q;
    DivModUnique(x, 2 * half, q, 2 * r + x % 2);
  }

  /** Masking with 2^n - 1 is reduction modulo 2^n. */
  lemma {:induction false} MaskIsMod(x: nat, n: nat)
    ensures And(x, Pow2(n) - 1) == x % Pow2(n)
  {
    if n > 0 {
      MaskIsMod(x / 2, n - 1);
      SplitModulus(x, Pow2(n - 1));
      assert (Pow2(n) - 1) / 2 == Pow2(n - 1) - 1;
    }
  }

  /** 64-bit unsigned subtraction. */
  function WrapSub(x: nat, y: nat): U64 { (x - y) % TWO_TO_64 }

  /** Wrapping at 2^64 does not disturb residues modulo a smaller power of two. */
  lemma MaskedDifference(x: U64, y: U64, n: nat)
    requires n <= 64
    ensures And(WrapSub(x, y), Pow2(n) - 1) == (x - y) % Pow2(n)
  {
    var wrapped := if x < y then x - y + TWO_TO_64 else x - y;
    DivModUnique(x - y, TWO_TO_64, if x < y then -1 else 0, wrapped);
    MaskIsMod(wrapped, n);
    if x < y {
      Pow2OfWord();
      Pow2Doubles(n, 64 - n);
      ModShift(x - y, Pow2(n), Pow2(64 - n));
    }
  }

  lemma ModShift(x: int, d: int, k: int)
    requires d > 0
    ensures (x + d * k) % d == x % d
    ensures (x + d * k) / d == x / d + k
  {
    assert x == d * (x / d) + x % d;
    assert d * (x / d + k) == d * (x / d) + d * k;
    DivModUnique(x + d * k, d, x / d + k, x % d);
  }
}
