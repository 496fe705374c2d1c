/** The multi-bit gates that src/alu.rs imports from src/gates.rs but that
    src/gates.rs does not define: `mux16_gate`, `not16_gate`, `and16_gate`
    and `or8way_gate`. Each is given its evident meaning; nothing is claimed
    about how it would be built from NAND. */
module WordGates {
  import opened Gates
  import opened Bits

  /** Word multiplexer: `a` when `sel` is false, `b` when it is true. */
  function Mux16(a: Word, b: Word, sel: bool): Word
  {
    if sel then b else a
  }

  /** The per-bit function of a complement: `Not` of the first operand,
      ignoring the second. */
  function FlipFirst(p: bool, q: bool): bool
  {
    Not(p)
  }

  /** Word complement: every bit flipped, which is 0xFFFF minus the word. */
  function Not16(a: Word): (r: Word)
    ensures r == 0xFFFF - a
  {
    Pow2Word();
    ComplementValue(a, a, WordWidth, FlipFirst);
    LowOfSmall(a, WordWidth);
    Bitwise(a, a, WordWidth, FlipFirst)
  }

  /** Word AND. The gate is given the meaning of the Rust `&` on `u16`,
      which src/alu.rs also applies directly when it splits `out` into
      bytes; `Bits.AndU16` is that operator, defined once. */
  function And16(a: Word, b: Word): Word
  {
    AndU16(a, b)
  }

  /** Each bit of `Not16(a)` is the `Not` gate applied to that bit of `a`. */
  lemma Not16Bit(a: Word, i: nat)
    requires i < WordWidth
    ensures Bit(Not16(a), i) == Not(Bit(a, i))
  {
    Pow2Word();
    ComplementValue(a, a, WordWidth, FlipFirst);
    LowOfSmall(a, WordWidth);
    BitwiseBit(a, a, WordWidth, FlipFirst, i);
  }

  /** Each bit of `And16(a, b)` is the `And` gate applied to those bits. */
  lemma And16Bit(a: Word, b: Word, i: nat)
    requires i < WordWidth
    ensures Bit(And16(a, b), i) == And(Bit(a, i), Bit(b, i))
  {
    BitwiseBit(a, b, WordWidth, And, i);
  }

  /** Eight-input OR over the bits of a byte. */
  function Or8Way(b: Byte): (r: bool)
    ensures r <==> !NoBitsBelow(b, 8)
  {
    ByteBits(b);
    b != 0
  }

  /** A byte is zero exactly when none of its eight bits is set. */
  lemma ByteBits(b: Byte)
    ensures b != 0 <==> !NoBitsBelow(b, 8)
  {
    assert Pow2(8) == 0x100;
    ZeroIffNoBits(b, 8);
  }

  /** `Mux16` picks `b` when `sel` holds and `a` otherwise, and each of its
      bits is the one-bit multiplexer of the inputs' bits. */
  lemma Mux16Selects(a: Word, b: Word, sel: bool)
    ensures Mux16(a, b, sel) == a || Mux16(a, b, sel) == b
    ensures forall i :: 0 <= i < WordWidth ==>
      Bit(Mux16(a, b, sel), i) == Or(And(Bit(a, i), Not(sel)), And(Bit(b, i), sel))
  {
  }

  /** `Not16` undoes itself. */
  lemma Not16Involution(a: Word)
    ensures Not16(Not16(a)) == a
  {
  }

  /** `And16` is commutative. */
  lemma And16Commutes(a: Word, b: Word)
    ensures And16(a, b) == And16(b, a)
  {
    Pow2Word();
    forall i | 0 <= i < WordWidth
      ensures Bit(And16(a, b), i) == Bit(And16(b, a), i)
    {
      And16Bit(a, b, i);
      And16Bit(b, a, i);
    }
    BitsDetermine(And16(a, b), And16(b, a), WordWidth);
  }

  /** AND with the all-ones word keeps the other operand. */
  lemma And16AllOnes(a: Word)
    ensures And16(a, 0xFFFF) == a
    ensures And16(0xFFFF, a) == a
  {
    Pow2Word();
    AndLowMask(a, WordWidth, WordWidth, And);
    LowOfSmall(a, WordWidth);
    And16Commutes(a, 0xFFFF);
  }

  /** De Morgan on words: complementing the AND of the complements is the
      Rust `|` on `u16`. */
  lemma Or16DeMorgan(a: Word, b: Word)
    ensures Not16(And16(Not16(a), Not16(b))) == OrU16(a, b)
  {
    Pow2Word();
    var lhs := Not16(And16(Not16(a), Not16(b)));
    forall i | 0 <= i < WordWidth
      ensures Bit(lhs, i) == Bit(OrU16(a, b), i)
    {
      Not16Bit(And16(Not16(a), Not16(b)), i);
      And16Bit(Not16(a), Not16(b), i);
      Not16Bit(a, i);
      Not16Bit(b, i);
      BitwiseBit(a, b, WordWidth, Or, i);
    }
    BitsDetermine(lhs, OrU16(a, b), WordWidth);
  }
}
