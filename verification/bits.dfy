/** Unsigned machine words as the simulator uses them (Rust `u16` and `u8`),
    modelled as bounded integers. Bit 0 is the least significant bit. The
    bitwise operators are defined bit by bit from the one-bit gates, and the
    lemmas here give them their arithmetic meaning. */
module Bits {
  import opened Gates

  /** A Rust `u16`. */
  type Word = w: int | 0 <= w < 0x1_0000

  /** A Rust `u8`. */
  type Byte = b: int | 0 <= b < 0x100

  /** Number of bits in a data word. */
  const WordWidth: nat := 16

  function Pow2(n: nat): (p: nat)
    ensures p >= 1
  {
    if n == 0 then 1 else 2 * Pow2(n - 1)
  }

  lemma Pow2Byte()
    ensures Pow2(8) == 0x100
  {
  }

  lemma Pow2Sign()
    ensures Pow2(15) == 0x8000
  {
    assert Pow2(8) == 0x100;
  }

  /** 2^16 is the number of words. */
  lemma Pow2Word()
    ensures Pow2(WordWidth) == 0x1_0000
  {
    assert Pow2(8) == 0x100;
    assert Pow2(16) == 0x1_0000;
  }

  /** Bit `i` of `w`; for a word this is the Rust test `(w >> i) & 1 != 0`. */
  predicate Bit(w: nat, i: nat)
  {
    if i == 0 then w % 2 == 1 else Bit(w / 2, i - 1)
  }

  /** The number formed by the low `n` bits of `a`. */
  function Low(a: nat, n: nat): (r: nat)
    ensures r < Pow2(n)
  {
    if n == 0 then 0 else 2 * Low(a / 2, n - 1) + a % 2
  }

  /** The two's-complement (Rust `i16`) reading of a word. */
  function Signed(w: Word): (v: int)
    ensures -0x8000 <= v < 0x8000
    ensures v < 0 <==> w >= 0x8000
    ensures v % 0x1_0000 == w
  {
    if w < 0x8000 then w else w - 0x1_0000
  }

  /** Applies the one-bit operation `g` independently at each of the low `n`
      bit positions of `a` and `b`. */
  function Bitwise(a: nat, b: nat, n: nat, g: (bool, bool) -> bool): (r: nat)
    ensures r < Pow2(n)
    decreases n
  {
    if n == 0 then 0
    else 2 * Bitwise(a / 2, b / 2, n - 1, g) + (if g(a % 2 == 1, b % 2 == 1) then 1 else 0)
  }

  /** Rust `a & b` on `u16`. */
  function AndU16(a: Word, b: Word): Word
  {
    Pow2Word();
    Bitwise(a, b, WordWidth, And)
  }

  /** Rust `a | b` on `u16`. */
  function OrU16(a: Word, b: Word): Word
  {
    Pow2Word();
    Bitwise(a, b, WordWidth, Or)
  }

  // ---------------------------------------------------------------------
  // Bits and values

  /** Bit i of a bitwise result is `g` of the operands' bits i. */
  lemma {:induction false} BitwiseBit(a: nat, b: nat, n: nat, g: (bool, bool) -> bool, i: nat)
    requires i < n
    ensures Bit(Bitwise(a, b, n, g), i) == g(Bit(a, i), Bit(b, i))
    decreases n
  {
    if i > 0 {
      BitwiseBit(a / 2, b / 2, n - 1, g, i - 1);
    }
  }

  /** A number below 2^n is its own low n bits. */
  lemma {:induction false} LowOfSmall(a: nat, n: nat)
    requires a < Pow2(n)
    ensures Low(a, n) == a
    decreases n
  {
    if n > 0 {
      LowOfSmall(a / 2, n - 1);
    }
  }

  /** Taking one more low bit adds bit i at weight 2^i. */
  lemma {:induction false} LowStep(a: nat, i: nat)
    ensures Low(a, i + 1) == Low(a, i) + (if Bit(a, i) then Pow2(i) else 0)
    decreases i
  {
    if i > 0 {
      LowStep(a / 2, i - 1);
    }
  }

  /** The low n bits of a are a modulo 2^n. */
  lemma {:induction false} LowIsMod(a: nat, n: nat)
    ensures Low(a, n) == a % Pow2(n)
    decreases n
  {
    if n > 0 {
      LowIsMod(a / 2, n - 1);
      ModDouble(a, Pow2(n - 1));
    }
  }

  lemma HalfOfOdd(m: nat)
    requires m >= 1
    ensures (2 * m - 1) / 2 == m - 1 && (2 * m - 1) % 2 == 1
  {
  }

  lemma HalfOfEven(m: nat)
    ensures (2 * m) / 2 == m && (2 * m) % 2 == 0
  {
  }

  /** `LowIsMod` with the modulus given by value. */
  lemma LowIsModOf(a: nat, n: nat, p: nat)
    requires p == Pow2(n)
    ensures Low(a, n) == a % p
  {
    LowIsMod(a, n);
  }

  lemma ModDouble(a: nat, p: nat)
    requires p >= 1
    ensures a % (2 * p) == 2 * ((a / 2) % p) + a % 2
  {
    var q := a / 2;
    var k := q / p;
    var m := q % p;
    assert q == p * k + m;
    assert a == (2 * p) * k + (2 * m + a % 2);
    ModUnique(a, 2 * p, k, 2 * m + a % 2);
  }

  lemma ModUnique(a: int, d: int, k: int, m: int)
    requires d >= 1
    requires a == d * k + m
    requires 0 <= m < d
    ensures a % d == m
  {
    var k' := a / d;
    var m' := a % d;
    assert d * k + m == d * k' + m';
    var t := k - k';
    assert d * t == m' - m by {
      assert d * t == d * k - d * k';
    }
    if t >= 1 {
      MulAtLeast(d, t);
    } else if t <= -1 {
      MulAtLeast(d, -t);
    }
  }

  lemma MulAtLeast(d: int, t: int)
    requires d >= 1 && t >= 1
    ensures d * t >= d
  {
    assert d * t == d * (t - 1) + d;
    assert d * (t - 1) >= 0;
  }

  /** Bit 15 of a word is its sign bit: set exactly when the word is at least
      2^15. */
  lemma SignBit(w: Word)
    ensures Bit(w, 15) <==> w >= 0x8000
  {
    LowStep(w, 15);
    Pow2Word();
    LowOfSmall(w, 16);
    Pow2Sign();
  }

  lemma {:induction false} Pow2Monotone(k: nat, n: nat)
    requires k <= n
    ensures Pow2(k) <= Pow2(n)
    decreases n
  {
    if k < n {
      Pow2Monotone(k, n - 1);
    }
  }

  /** Bits at or above position `n` of a number below 2^n are clear. */
  lemma {:induction false} BitAbove(w: nat, n: nat, i: nat)
    requires w < Pow2(n)
    requires n <= i
    ensures !Bit(w, i)
    decreases i
  {
    if i == 0 {
    } else if n == 0 {
      BitAbove(w / 2, 0, i - 1);
    } else {
      BitAbove(w / 2, n - 1, i - 1);
    }
  }

  /** Adding 2^k to a number below 2^k sets bit k and changes no other bit. */
  lemma {:induction false} BitOfTopAdd(x: nat, k: nat, i: nat)
    requires x < Pow2(k)
    ensures Bit(x + Pow2(k), i) == if i < k then Bit(x, i) else i == k
    decreases k
  {
    if k == 0 {
      assert x == 0;
      if i > 0 {
        BitAbove(0, 0, i - 1);
      }
    } else if i > 0 {
      assert (x + Pow2(k)) / 2 == x / 2 + Pow2(k - 1);
      BitOfTopAdd(x / 2, k - 1, i - 1);
    }
  }

  /** Bit j of 2^i is set exactly when j == i. */
  lemma BitOfPow2(i: nat, j: nat)
    ensures Bit(Pow2(i), j) == (i == j)
  {
    BitOfTopAdd(0, i, j);
    if j < i {
      BitAbove(0, 0, j);
    }
  }

  /** Two numbers below 2^n with the same low n bits are equal. */
  lemma {:induction false} BitsDetermine(x: nat, y: nat, n: nat)
    requires x < Pow2(n) && y < Pow2(n)
    requires forall i :: 0 <= i < n ==> Bit(x, i) == Bit(y, i)
    ensures x == y
    decreases n
  {
    if n > 0 {
      forall i | 0 <= i < n - 1
        ensures Bit(x / 2, i) == Bit(y / 2, i)
      {
        assert Bit(x, i + 1) == Bit(y, i + 1);
      }
      BitsDetermine(x / 2, y / 2, n - 1);
      assert Bit(x, 0) == Bit(y, 0);
    }
  }

  /** None of the low n bits of x is set. */
  predicate NoBitsBelow(x: nat, n: nat)
  {
    forall i :: 0 <= i < n ==> !Bit(x, i)
  }

  /** A number below 2^n is zero exactly when none of its low n bits is set. */
  lemma ZeroIffNoBits(x: nat, n: nat)
    requires x < Pow2(n)
    ensures x == 0 <==> NoBitsBelow(x, n)
  {
    forall i | 0 <= i < n
      ensures !Bit(0, i)
    {
      BitAbove(0, 0, i);
    }
    if NoBitsBelow(x, n) {
      BitsDetermine(x, 0, n);
    }
  }

  // ---------------------------------------------------------------------
  // Arithmetic meaning of the bitwise operators

  /** Flipping every one of the low n bits of a is subtracting them from
      2^n - 1. */
  lemma {:induction false} ComplementValue(a: nat, b: nat, n: nat, g: (bool, bool) -> bool)
    requires forall p, q :: g(p, q) == !p
    ensures Bitwise(a, b, n, g) == Pow2(n) - 1 - Low(a, n)
    decreases n
  {
    if n > 0 {
      ComplementValue(a / 2, b / 2, n - 1, g);
    }
  }

  /** AND with a value whose bits are all clear gives zero. */
  lemma {:induction false} AndZero(a: nat, n: nat, g: (bool, bool) -> bool)
    requires forall p, q :: g(p, q) == (p && q)
    ensures Bitwise(a, 0, n, g) == 0
    decreases n
  {
    if n > 0 {
      AndZero(a / 2, n - 1, g);
    }
  }

  /** AND with the mask of the low k bits keeps the low k bits. */
  lemma {:induction false} AndLowMask(a: nat, k: nat, n: nat, g: (bool, bool) -> bool)
    requires forall p, q :: g(p, q) == (p && q)
    requires k <= n
    ensures Bitwise(a, Pow2(k) - 1, n, g) == Low(a, k)
    decreases n
  {
    if k == 0 {
      AndZero(a, n, g);
    } else {
      HalfOfOdd(Pow2(k - 1));
      AndLowMask(a / 2, k - 1, n - 1, g);
    }
  }

  /** AND with the mask of bits k..n-1 keeps the low n bits with the low k
      bits cleared. */
  lemma {:induction false} AndHighMask(a: nat, k: nat, n: nat, g: (bool, bool) -> bool)
    requires forall p, q :: g(p, q) == (p && q)
    requires k <= n
    ensures Pow2(k) <= Pow2(n)
    ensures Bitwise(a, Pow2(n) - Pow2(k), n, g) == Low(a, n) - Low(a, k)
    decreases n
  {
    Pow2Monotone(k, n);
    if k == 0 {
      AndLowMask(a, n, n, g);
    } else {
      Pow2Monotone(k - 1, n - 1);
      HalfOfEven(Pow2(n - 1) - Pow2(k - 1));
      AndHighMask(a / 2, k - 1, n - 1, g);
    }
  }

  /** OR with 2^i sets bit i; on a number below 2^i that is adding 2^i. */
  lemma OrDisjoint(x: nat, i: nat, n: nat, g: (bool, bool) -> bool)
    requires forall p, q :: g(p, q) == (p || q)
    requires x < Pow2(i) && i < n
    ensures Bitwise(x, Pow2(i), n, g) == x + Pow2(i)
  {
    var r := Bitwise(x, Pow2(i), n, g);
    Pow2Monotone(i + 1, n);
    forall j | 0 <= j < n
      ensures Bit(r, j) == Bit(x + Pow2(i), j)
    {
      BitwiseBit(x, Pow2(i), n, g, j);
      BitOfPow2(i, j);
      BitOfTopAdd(x, i, j);
      if j > i {
        BitAbove(x, i, j);
      }
    }
    BitsDetermine(r, x + Pow2(i), n);
  }

  /** OR with zero changes nothing. */
  lemma OrZero(x: nat, n: nat, g: (bool, bool) -> bool)
    requires forall p, q :: g(p, q) == (p || q)
    requires x < Pow2(n)
    ensures Bitwise(x, 0, n, g) == x
  {
    var r := Bitwise(x, 0, n, g);
    forall j | 0 <= j < n
      ensures Bit(r, j) == Bit(x, j)
    {
      BitwiseBit(x, 0, n, g, j);
      BitAbove(0, 0, j);
    }
    BitsDetermine(r, x, n);
  }

  /** Rust `w & (2^k - 1)` on `u16` is `w` modulo 2^k. */
  lemma AndU16LowMask(w: Word, k: nat, mask: Word)
    requires k <= WordWidth && mask == Pow2(k) - 1
    ensures AndU16(w, mask) == Low(w, k)
  {
    Pow2Word();
    Pow2Monotone(k, WordWidth);
    AndLowMask(w, k, WordWidth, And);
  }

  /** Rust `w & (2^16 - 2^k)` on `u16` clears the low k bits of `w`. */
  lemma AndU16HighMask(w: Word, k: nat, mask: Word)
    requires k <= WordWidth && mask == 0x1_0000 - Pow2(k)
    ensures AndU16(w, mask) == w - Low(w, k)
  {
    Pow2Word();
    AndHighMask(w, k, WordWidth, And);
    LowOfSmall(w, WordWidth);
  }

  /** Every bit position of a word has a weight that is itself a word. */
  lemma Pow2InWord(i: nat)
    requires i < WordWidth
    ensures Pow2(i) < 0x1_0000
  {
    Pow2Monotone(i + 1, WordWidth);
    Pow2Word();
  }

  /** Rust `x |= 1 << i` (or `x |= 0 << i`) on a `u16` whose bits at and
      above i are clear adds the shifted bit. */
  lemma OrU16SetBit(x: Word, i: nat, on: bool, m: Word)
    requires i < WordWidth && x < Pow2(i)
    requires m == if on then Pow2(i) else 0
    ensures OrU16(x, m) == x + m
  {
    Pow2Word();
    if on {
      OrDisjoint(x, i, WordWidth, Or);
    } else {
      Pow2Monotone(i, WordWidth);
      OrZero(x, WordWidth, Or);
    }
  }
}
