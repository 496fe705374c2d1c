/** The boolean gate library of src/gates.rs: `And`, `Or`, `Not` and `Nand`
    on single bits. The ALU also imports a one-bit `Xor`, which src/gates.rs
    does not define; it is given here with its evident meaning. */
module Gates {

  function And(x: bool, y: bool): bool
  {
    x && y
  }

  function Or(x: bool, y: bool): bool
  {
    x || y
  }

  function Not(x: bool): bool
  {
    !x
  }

  function Nand(x: bool, y: bool): bool
  {
    Not(And(x, y))
  }

  /** One-bit exclusive or: true when the inputs differ. */
  function Xor(x: bool, y: bool): bool
  {
    x != y
  }

  /** The exhaustive truth table of `And`, as the unit test lists it. */
  lemma AndTruthTable()
    ensures !And(false, false) && !And(true, false) && !And(false, true) && And(true, true)
  {
  }

  /** `Or` is true when at least one input is. */
  lemma OrTruthTable()
    ensures !Or(false, false) && Or(true, false) && Or(false, true) && Or(true, true)
  {
  }

  /** `Not` negates, so applying it twice gives the input back. */
  lemma NotInvolution(x: bool)
    ensures Not(x) != x
    ensures Not(Not(x)) == x
  {
  }

  /** `Nand` is false exactly when both inputs are true. */
  lemma NandTruthTable()
    ensures Nand(false, false) && Nand(true, false) && Nand(false, true) && !Nand(true, true)
  {
  }

  /** NAND is universal: `Not`, `And` and `Or` agree with their NAND-only
      derivations on every input. */
  lemma NandUniversal(x: bool, y: bool)
    ensures Not(x) == Nand(x, x)
    ensures And(x, y) == Nand(Nand(x, y), Nand(x, y))
    ensures Or(x, y) == Nand(Nand(x, x), Nand(y, y))
  {
  }

  lemma AndOrCommute(x: bool, y: bool)
    ensures And(x, y) == And(y, x)
    ensures Or(x, y) == Or(y, x)
  {
  }

  /** `Xor` is true exactly when the inputs are not equal, and it too has
      a NAND-only derivation. */
  lemma XorIsInequality(x: bool, y: bool)
    ensures Xor(x, y) == Not(x == y)
    ensures Xor(x, y) == And(Or(x, y), Nand(x, y))
    ensures Xor(x, y) == Nand(Nand(x, Nand(x, y)), Nand(y, Nand(x, y)))
  {
  }
}
