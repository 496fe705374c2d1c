/** The eighteen functions that the comment on `alu` in src/alu.rs lists,
    each with the control word that selects it, and what the documented
    pipeline computes for it. Subtraction and negation are two's complement:
    modulo 2^16 with Dafny's non-negative remainder. */
module AluTable {
  import opened Bits
  import opened WordGates
  import opened Alu

  //                              zx     nx     zy     ny     f      no
  const CtlZero      := Control(true,  false, true,  false, true,  false)
  const CtlOne       := Control(true,  true,  true,  true,  true,  true)
  const CtlMinusOne  := Control(true,  true,  true,  false, true,  false)
  const CtlX         := Control(false, false, true,  true,  false, false)
  const CtlY         := Control(true,  true,  false, false, false, false)
  const CtlNotX      := Control(false, false, true,  true,  false, true)
  const CtlNotY      := Control(true,  true,  false, false, false, true)
  const CtlNegX      := Control(false, false, true,  true,  true,  true)
  const CtlNegY      := Control(true,  true,  false, false, true,  true)
  const CtlXPlusOne  := Control(false, true,  true,  true,  true,  true)
  const CtlYPlusOne  := Control(true,  true,  false, true,  true,  true)
  const CtlXMinusOne := Control(false, false, true,  true,  true,  false)
  const CtlYMinusOne := Control(true,  true,  false, false, true,  false)
  const CtlXPlusY    := Control(false, false, false, false, true,  false)
  const CtlXMinusY   := Control(false, true,  false, false, true,  true)
  const CtlYMinusX   := Control(false, false, false, true,  true,  true)
  const CtlXAndY     := Control(false, false, false, false, false, false)
  const CtlXOrY      := Control(false, true,  false, true,  false, true)

  /** The three constants: 0, 1 and -1 (0xFFFF, which reads as -1 in
      two's complement). */
  lemma AluConstants(x: Word, y: Word)
    ensures AluPipeline(x, y, CtlZero) == 0
    ensures AluPipeline(x, y, CtlOne) == 1
    ensures AluPipeline(x, y, CtlMinusOne) == 0xFFFF
    ensures Signed(AluPipeline(x, y, CtlMinusOne)) == -1
  {
  }

  /** x, y and their bitwise complements. */
  lemma AluPassAndNot(x: Word, y: Word)
    ensures AluPipeline(x, y, CtlX) == x
    ensures AluPipeline(x, y, CtlY) == y
    ensures AluPipeline(x, y, CtlNotX) == Not16(x)
    ensures AluPipeline(x, y, CtlNotY) == Not16(y)
  {
    And16AllOnes(x);
    And16AllOnes(y);
  }

  /** -x and -y. */
  lemma AluNegations(x: Word, y: Word)
    ensures AluPipeline(x, y, CtlNegX) == (-(x as int)) % 0x1_0000
    ensures AluPipeline(x, y, CtlNegY) == (-(y as int)) % 0x1_0000
  {
    NotOfPredecessor(x);
    NotOfPredecessor(y);
  }

  /** x + 1, y + 1, x - 1 and y - 1. */
  lemma AluIncrements(x: Word, y: Word)
    ensures AluPipeline(x, y, CtlXPlusOne) == (x + 1) % 0x1_0000
    ensures AluPipeline(x, y, CtlYPlusOne) == (y + 1) % 0x1_0000
    ensures AluPipeline(x, y, CtlXMinusOne) == (x - 1) % 0x1_0000
    ensures AluPipeline(x, y, CtlYMinusOne) == (y - 1) % 0x1_0000
  {
    NotOfDifference(0xFFFF, x);
    NotOfDifference(0xFFFF, y);
  }

  /** x + y, x - y and y - x. */
  lemma AluSums(x: Word, y: Word)
    ensures AluPipeline(x, y, CtlXPlusY) == (x + y) % 0x1_0000
    ensures AluPipeline(x, y, CtlXMinusY) == (x - y) % 0x1_0000
    ensures AluPipeline(x, y, CtlYMinusX) == (y - x) % 0x1_0000
  {
    NotOfDifference(x, y);
    NotOfDifference(y, x);
  }

  /** x & y. */
  lemma AluAnd(x: Word, y: Word)
    ensures AluPipeline(x, y, CtlXAndY) == AndU16(x, y)
  {
  }

  /** x | y, by De Morgan: the ALU complements both inputs, ANDs them and
      complements the result. */
  lemma AluOr(x: Word, y: Word)
    ensures AluPipeline(x, y, CtlXOrY) == OrU16(x, y)
  {
    var nx := Not16(x);
    var ny := Not16(y);
    assert Operand(x, false, true) == nx;
    assert Operand(y, false, true) == ny;
    Or16DeMorgan(x, y);
  }

  /** Complementing (v - 1) mod 2^16 gives -v mod 2^16. */
  lemma NotOfPredecessor(v: Word)
    ensures 0xFFFF - (v + 0xFFFF) % 0x1_0000 == (-(v as int)) % 0x1_0000
  {
  }

  /** Complementing the sum of the complement of `a` and `b` gives a - b,
      all modulo 2^16. */
  lemma NotOfDifference(a: Word, b: Word)
    ensures 0xFFFF - (0xFFFF - a + b) % 0x1_0000 == (a - b) % 0x1_0000
  {
  }
}
