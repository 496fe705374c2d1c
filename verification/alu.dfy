/** The arithmetic unit and ALU of src/alu.rs: half and full adders, the
    16-bit ripple-carry adder, increment, and the Hack-style ALU with its
    `zr` and `ng` flags. */
module Alu {
  import opened Gates
  import opened Bits
  import opened WordGates

  /** The integer value of one bit. */
  function BitValue(b: bool): nat
  {
    if b then 1 else 0
  }

  /** A sum bit and a carry bit. */
  type SumCarry = (bool, bool)

  /** Adds two bits: `a + b == sum + 2 * carry`. */
  function HalfAdder(a: bool, b: bool): (r: SumCarry)
    ensures BitValue(a) + BitValue(b) == BitValue(r.0) + 2 * BitValue(r.1)
  {
    var sum := Xor(a, b);
    var carry := And(a, b);
    (sum, carry)
  }

  /** Adds three bits with two half adders: `a + b + c == sum + 2 * carry`. */
  function FullAdder(a: bool, b: bool, c: bool): (r: SumCarry)
    ensures BitValue(a) + BitValue(b) + BitValue(c) == BitValue(r.0) + 2 * BitValue(r.1)
  {
    var (sum1, carry1) := HalfAdder(a, b);
    var (sum, carry2) := HalfAdder(sum1, c);
    var carry := Or(carry1, carry2);
    (sum, carry)
  }

  /** Ripple-carry addition of two words. Bit 0 goes through a half adder,
      bits 1..15 through full adders fed by the previous carry, and the
      carry out of bit 15 is dropped. */
  method Add16(a: Word, b: Word) returns (r: Word)
    ensures r == (a + b) % 0x1_0000
    ensures a + b < 0x1_0000 ==> r == a + b
    ensures a + b >= 0x1_0000 ==> r == a + b - 0x1_0000
  {
    var (outBit0, carry0) := HalfAdder(Bit(a, 0), Bit(b, 0));
    var c := carry0;
    var out: Word := 0;
    var m0: Word := if outBit0 then 1 else 0;
    OrU16SetBit(out, 0, outBit0, m0);
    out := OrU16(out, m0);
    var i := 1;
    while i < 16
      invariant 1 <= i <= 16
      invariant out < Pow2(i)
      invariant out + (if c then Pow2(i) else 0) == Low(a, i) + Low(b, i)
    {
      out, c := AddStage(a, b, i, out, c);
      i := i + 1;
    }
    Pow2Word();
    LowOfSmall(a, WordWidth);
    LowOfSmall(b, WordWidth);
    DropCarry(out, c, a + b);
    r := out;
  }

  /** One pass of the ripple loop: a full adder on bit `i` of `a` and `b`
      and the incoming carry, with the sum bit ORed into `out` at position
      `i`. It extends the partial sum from the low `i` bits to the low
      `i + 1` bits. */
  method AddStage(a: Word, b: Word, i: nat, out: Word, c: bool) returns (out': Word, c': bool)
    requires i < WordWidth
    requires out < Pow2(i)
    requires out + (if c then Pow2(i) else 0) == Low(a, i) + Low(b, i)
    ensures out' < Pow2(i + 1)
    ensures out' + (if c' then Pow2(i + 1) else 0) == Low(a, i + 1) + Low(b, i + 1)
  {
    var (outBit, carry) := FullAdder(Bit(a, i), Bit(b, i), c);
    RippleStep(a, b, i, out, c, outBit, carry);
    c' := carry;
    Pow2InWord(i);
    var m: Word := if outBit then Pow2(i) else 0;
    OrU16SetBit(out, i, outBit, m);
    out' := OrU16(out, m);
  }

  /** Dropping the carry out of bit 15 is reduction modulo 2^16. */
  lemma DropCarry(out: nat, c: bool, s: nat)
    requires out < 0x1_0000
    requires out + (if c then 0x1_0000 else 0) == s
    ensures out == s % 0x1_0000
  {
  }

  /** One stage of the ripple: if `out` and the carry `c` hold the sum of the
      low `i` bits of `a` and `b`, then adding bit `i` with a full adder and
      setting that sum bit in `out` gives the sum of the low `i + 1` bits. */
  lemma RippleStep(a: nat, b: nat, i: nat, out: nat, c: bool, outBit: bool, carry: bool)
    requires out < Pow2(i)
    requires out + (if c then Pow2(i) else 0) == Low(a, i) + Low(b, i)
    requires BitValue(Bit(a, i)) + BitValue(Bit(b, i)) + BitValue(c) == BitValue(outBit) + 2 * BitValue(carry)
    ensures out + (if outBit then Pow2(i) else 0) < Pow2(i + 1)
    ensures out + (if outBit then Pow2(i) else 0) + (if carry then Pow2(i + 1) else 0)
      == Low(a, i + 1) + Low(b, i + 1)
  {
    LowStep(a, i);
    LowStep(b, i);
  }

  /** Adds one, wrapping 0xFFFF round to 0. */
  method Inc16(a: Word) returns (r: Word)
    ensures r == (a + 1) % 0x1_0000
    ensures r == 0 <==> a == 0xFFFF
  {
    r := Add16(a, 1);
  }

  /** The six ALU control bits, in the order zx, nx, zy, ny, f, no. */
  datatype Control = Control(zx: bool, nx: bool, zy: bool, ny: bool, f: bool, no: bool)

  /** The ALU's documented behaviour: zero x if zx, then complement it if
      nx; the same for y with zy and ny; add if f, else AND; complement the
      result if no. Addition is modulo 2^16 and complement is 0xFFFF - v. */
  function AluPipeline(x: Word, y: Word, c: Control): Word
  {
    var o := Combine(Operand(x, c.zx, c.nx), Operand(y, c.zy, c.ny), c.f);
    if c.no then 0xFFFF - o else o
  }

  /** An ALU input after its zero and complement controls. */
  function Operand(v: Word, zero: bool, negate: bool): Word
  {
    var v1 := if zero then 0 else v;
    if negate then 0xFFFF - v1 else v1
  }

  /** The ALU's function step: the sum modulo 2^16 if `f`, else the AND. */
  function Combine(x: Word, y: Word, f: bool): Word
  {
    if f then (x + y) % 0x1_0000 else And16(x, y)
  }

  /** Rust `v as u8`: keeps the low eight bits. */
  function AsU8(v: Word): Byte
  {
    v % 0x100
  }

  /** `as u8` keeps exactly the low eight bits of the word. */
  lemma AsU8LowBits(v: Word)
    ensures AsU8(v) == Low(v, 8)
  {
    Pow2Byte();
    LowIsModOf(v, 8, 0x100);
  }

  /** One input's wiring: `zx`/`zy` through a Mux16 with 0, then `nx`/`ny`
      through a Mux16 with its Not16. */
  method InputStage(v: Word, zero: bool, negate: bool) returns (r: Word)
    ensures r == Operand(v, zero, negate)
  {
    var zOut := Mux16(v, 0, zero);
    var notZOut := Not16(zOut);
    r := Mux16(zOut, notZOut, negate);
  }

  /** The zero flag's wiring: an eight-way OR over each byte of `out`,
      an OR of the two, and a NOT. */
  method ZeroFlag(out: Word) returns (zr: bool)
    ensures zr <==> out == 0
  {
    var low := AsU8(AndU16(out, 0x00FF));
    var high := AsU8(AndU16(out, 0xFF00) / 0x100);
    var lowAny := Or8Way(low);
    var highAny := Or8Way(high);
    var any := Or(lowAny, highAny);
    zr := Not(any);
    LowByte(out);
    HighByte(out);
    ZeroBytes(out);
  }

  /** The ALU as wired from gates: the two input stages, the function
      step choosing between Add16 and And16, the output complement, and the
      two flags. `ng` reads bit 15 of `out`. */
  method Alu(x: Word, y: Word, zx: bool, nx: bool, zy: bool, ny: bool, f: bool, no: bool)
    returns (out: Word, zr: bool, ng: bool)
    ensures out == AluPipeline(x, y, Control(zx, nx, zy, ny, f, no))
    ensures zr <==> out == 0
    ensures ng <==> Signed(out) < 0
  {
    var xOut1 := InputStage(x, zx, nx);
    var yOut1 := InputStage(y, zy, ny);

    var xySum := Add16(xOut1, yOut1);
    var xyAnd := And16(xOut1, yOut1);
    var outF := Mux16(xyAnd, xySum, f);
    CombineStage(xOut1, yOut1, f, xySum, xyAnd);

    var notOutF := Not16(outF);
    out := Mux16(outF, notOutF, no);
    PipelineStages(x, y, Control(zx, nx, zy, ny, f, no), xOut1, yOut1, outF, out);
    ng := Bit(out, 15);
    SignBit(out);
    zr := ZeroFlag(out);
  }

  /** The first byte the zero flag inspects is the low byte of `out`. */
  lemma LowByte(w: Word)
    ensures AsU8(AndU16(w, 0x00FF)) == w % 0x100
  {
    Pow2Byte();
    AndU16LowMask(w, 8, 0xFF);
    LowIsModOf(w, 8, 0x100);
    ByteOfMod(AndU16(w, 0xFF), w);
  }

  /** Rust `as u8` keeps a value that is already a low byte. */
  lemma ByteOfMod(v: Word, w: Word)
    requires v == w % 0x100
    ensures AsU8(v) == v
  {
  }

  /** The second byte the zero flag inspects is the high byte of `out`. */
  lemma HighByte(w: Word)
    ensures AsU8(AndU16(w, 0xFF00) / 0x100) == w / 0x100
  {
    Pow2Byte();
    AndU16HighMask(w, 8, 0xFF00);
    LowIsModOf(w, 8, 0x100);
    ByteOfMasked(AndU16(w, 0xFF00), w);
  }

  /** Shifting the word with its low byte cleared right by eight gives its
      high byte, which `as u8` keeps. */
  lemma ByteOfMasked(v: Word, w: Word)
    requires v == w - w % 0x100
    ensures AsU8(v / 0x100) == w / 0x100
  {
  }

  /** A word is zero exactly when both of its bytes are. */
  lemma ZeroBytes(w: Word)
    ensures w == 0 <==> w % 0x100 == 0 && w / 0x100 == 0
  {
  }

  /** The function step's Mux16 picks the Add16 output when `f` holds and
      the And16 output otherwise. */
  lemma CombineStage(x: Word, y: Word, f: bool, sum: Word, conj: Word)
    requires sum == (x + y) % 0x1_0000
    requires conj == And16(x, y)
    ensures Mux16(conj, sum, f) == Combine(x, y, f)
  {
  }

  /** The wired stages compose to the documented pipeline. */
  lemma PipelineStages(x: Word, y: Word, c: Control, xo: Word, yo: Word, o: Word, out: Word)
    requires xo == Operand(x, c.zx, c.nx) && yo == Operand(y, c.zy, c.ny)
    requires o == Combine(xo, yo, c.f)
    requires out == Mux16(o, 0xFFFF - o, c.no)
    ensures out == AluPipeline(x, y, c)
  {
  }
}
