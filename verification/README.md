# rcpu in Dafny

A Dafny model of the core of `rcpu`, a small hardware simulator written in
Rust. It builds a computer from boolean gates upwards. The model covers four
layers:

- the one-bit gate library (`and`, `or`, `not`, `nand`);
- the half and full adders, the 16-bit ripple-carry adder `add_16`,
  `inc_16`, and the Hack-style `alu` with its six control bits (zx, nx, zy,
  ny, f, no) and its `zr`/`ng` flags;
- the D flip-flop (`DFF`), whose output changes only on a tick, and the
  `Clock`, which ticks every registered component and reads or writes one
  by index;
- the `u16` to `Vec<bool>` conversions and back, least significant bit
  first.

Files and modules:

- `gates.dfy` (`Gates`) holds the one-bit gates.
- `bits.dfy` (`Bits`) holds the 16-bit word type and the Rust `&` and `|`
  on `u16`. It also holds the bit lemmas that give them their arithmetic
  meaning.
- `wordgates.dfy` (`WordGates`) holds the word gates that the ALU imports.
- `alu.dfy` (`Alu`) holds the adders and the ALU.
- `alu_table.dfy` (`AluTable`) holds the eighteen documented ALU functions.
- `sequential.dfy` (`Sequential`) holds the flip-flop and the clock.
- `utils.dfy` (`Utils`) holds the conversions.

Representation choices:

- A `u16` is an integer in `[0, 2^16)`.
- Bit `i` is read by `Bits.Bit`.
- A bitwise operator is the generic per-bit lift `Bits.Bitwise`.
- `add_16`, `alu` and `vec_bool_to_u16` are methods that follow the Rust
  statements one by one, including the ripple loop and the packing loop.
  Each is proved against an independent reference:
  - `add_16` against `(a + b) mod 2^16`;
  - `alu` against the documented pipeline `Alu.AluPipeline`;
  - `vec_bool_to_u16` against the value of a bit vector, `Utils.BitsValue`.
- A `panic!` is a `Panic` result carrying the message
  `"Invalid index passed"`.
- The clock is an immutable record. Each operation returns the new clock.

Gates that `src/alu.rs` imports but `src/gates.rs` does not define are
given their evident meaning, and no gate-level structure is claimed for
them:

- `xor_gate` is boolean XOR.
- `mux16_gate(a, b, sel)` is `sel ? b : a`.
- `not16_gate` is bitwise complement.
- `and16_gate` is bitwise AND.
- `or8way_gate` is true when some bit of the byte is set.

Two points of the code that the model keeps exactly:

- `u16_to_vec_bool` puts bit `i` at index `i`, least significant first, and
  `vec_bool_to_u16` reads the vector the same way.
- `register` returns nothing. The new component sits at the old length of
  the registry.

## Model

| member | source | states |
|---|---|---|
| Gates.AndTruthTable | src/gates.rs:1-3 | `and` is true only for (true, true), matching the four rows of the unit test |
| Gates.OrTruthTable | src/gates.rs:5-7 | `or` is true when at least one input is true |
| Gates.NotInvolution | src/gates.rs:9-11 | `not` changes its input, and applying it twice gives the input back |
| Gates.NandTruthTable | src/gates.rs:13-15 | `nand` is false exactly for (true, true) |
| Gates.NandUniversal | src/gates.rs:1-15 | `not`, `and` and `or` equal their NAND-only constructions on every input |
| Gates.AndOrCommute | src/gates.rs:1-7 | `and` and `or` are commutative |
| Gates.XorIsInequality | src/alu.rs:7 | the xor used by the half adder is true exactly when its inputs differ, which is (x or y) and not (x and y), and it equals its four-NAND construction |
| Bits.Signed | src/alu.rs:76 | the `i16` reading of a word lies in [-2^15, 2^15), is negative exactly when the word is at least 2^15, and is congruent to the word modulo 2^16 |
| Bits.SignBit | src/alu.rs:125 | `(w >> 15) & 1 != 0` holds exactly when `w >= 0x8000` |
| Bits.AndU16LowMask | src/alu.rs:126 | `w & (2^k - 1)` keeps the low k bits of `w` |
| Bits.AndU16HighMask | src/alu.rs:127 | `w & (2^16 - 2^k)` is `w` with its low k bits cleared |
| Bits.OrU16SetBit | src/alu.rs:47-54 | OR-ing `1 << i` (or `0 << i`) into a word whose bits from i up are clear adds the shifted bit |
| WordGates.Not16 | src/alu.rs:112 | the bitwise complement of a word, every bit flipped, is 0xFFFF minus it |
| WordGates.Not16Bit | src/alu.rs:112 | each bit of `not16(a)` is `not` of that bit of `a` |
| WordGates.And16Bit | src/alu.rs:120 | each bit of `and16(a, b)` is `and` of those bits of `a` and `b` |
| WordGates.Mux16Selects | src/alu.rs:111 | `mux16` returns one of its inputs, and each bit is the one-bit multiplexer of the inputs' bits |
| WordGates.Or8Way | src/alu.rs:129-130 | `or8way(b)` holds exactly when some of the eight bits of `b` is set |
| WordGates.Not16Involution | src/alu.rs:123-124 | complementing a word twice gives it back |
| WordGates.And16Commutes | src/alu.rs:120 | `and16` is commutative |
| WordGates.And16AllOnes | src/alu.rs:120 | AND with 0xFFFF, on either side, keeps the other operand |
| WordGates.Or16DeMorgan | src/alu.rs:71 | the complement of the AND of the complements is the Rust bitwise OR of x and y |
| Alu.HalfAdder | src/alu.rs:5-11 | `a + b == sum + 2 * carry` as integers |
| Alu.FullAdder | src/alu.rs:13-20 | `a + b + c == sum + 2 * carry` as integers |
| Alu.Add16 | src/alu.rs:22-58 | the ripple-carry result is `(a + b) mod 2^16`: the sum itself below 2^16, and the sum minus 2^16 when the carry out of bit 15 is dropped. The contract is symmetric in a and b, so the adder is commutative, and `add_16(a, 0) == a` |
| Alu.AddStage | src/alu.rs:38-55 | one loop pass keeps the invariant: `out` plus the carry at weight 2^i is the sum of the low i bits of a and b, now for i + 1 |
| Alu.RippleStep | src/alu.rs:42-54 | a full adder on bit i extends the low-bits sum from i to i + 1 bits, and the new `out` stays below 2^(i+1) |
| Alu.DropCarry | src/alu.rs:57 | returning `out` without the final carry is reduction modulo 2^16 |
| Alu.Inc16 | src/alu.rs:60-62 | `inc_16(a) == (a + 1) mod 2^16`, and the result is 0 exactly for 0xFFFF |
| Alu.InputStage | src/alu.rs:111-117 | the zx/nx (zy/ny) wiring zeroes the input if asked, then complements it if asked |
| Alu.CombineStage | src/alu.rs:119-121 | the f multiplexer yields the sum when f holds and the AND otherwise |
| Alu.PipelineStages | src/alu.rs:78-86 | the wired stages compose to the documented pipeline |
| Alu.AsU8LowBits | src/alu.rs:126-127 | `as u8` on a word keeps exactly its low eight bits |
| Alu.LowByte | src/alu.rs:126 | `(out & 0x00FF) as u8` is the low byte of `out` |
| Alu.HighByte | src/alu.rs:127 | `((out & 0xFF00) >> 8) as u8` is the high byte of `out` |
| Alu.ZeroBytes | src/alu.rs:129-132 | a word is zero exactly when both its bytes are |
| Alu.ZeroFlag | src/alu.rs:126-132 | `zr` holds exactly when `out == 0` |
| Alu.Alu | src/alu.rs:101-135 | for all 64 control words, `out` is the documented pipeline, `zr` holds iff `out == 0`, and `ng` holds iff `out` is negative as an `i16` |
| AluTable.AluConstants | src/alu.rs:67 | controls 101010, 111111 and 111010 give 0, 1 and 0xFFFF, which reads as -1 |
| AluTable.AluPassAndNot | src/alu.rs:68 | controls 001100, 110000, 001101 and 110001 give x, y, !x and !y |
| AluTable.AluNegations | src/alu.rs:68 | controls 001111 and 110011 give -x and -y modulo 2^16 |
| AluTable.AluIncrements | src/alu.rs:69 | controls 011111, 110111, 001110 and 110010 give x+1, y+1, x-1 and y-1 modulo 2^16 |
| AluTable.AluSums | src/alu.rs:70 | controls 000010, 010011 and 000111 give x+y, x-y and y-x modulo 2^16 |
| AluTable.AluAnd | src/alu.rs:71 | control 000000 gives x & y |
| AluTable.AluOr | src/alu.rs:71 | control 010101 gives the bitwise OR of x and y |
| AluTable.NotOfPredecessor | src/alu.rs:68 | complementing (v - 1) mod 2^16 gives -v mod 2^16 |
| AluTable.NotOfDifference | src/alu.rs:70 | complementing (!a + b) mod 2^16 gives (a - b) mod 2^16 |
| Sequential.NewDff | src/sequential.rs:101-106 | a new flip-flop reads false, both now and after a tick |
| Sequential.DffSetState | src/sequential.rs:90-92 | `set_state` leaves the output unchanged, and the next tick makes the output the value set |
| Sequential.DffUpdateState | src/sequential.rs:108-110 | the output becomes the latched input, which stays latched |
| Sequential.DffTick | src/sequential.rs:82-84 | a tick makes the output the latched input and keeps that input latched |
| Sequential.DffGetStateReadsOutput | src/sequential.rs:86-88 | `get_state` reads the output slot only: changing the pending input does not change what it returns, and it returns whatever the output slot holds |
| Sequential.DffLastWriteWins | src/sequential.rs:90-92 | of two `set_state` calls before a tick only the second matters, and the tick outputs it |
| Sequential.DffTickIdempotent | src/sequential.rs:108-110 | with no new input, a second tick changes nothing |
| Sequential.DffSetSame | src/sequential.rs:90-92 | setting the value already latched changes nothing |
| Sequential.NewClock | src/sequential.rs:13-18 | a new clock will print "Tock" first and has no components, so every read panics with "Invalid index passed" |
| Sequential.Register | src/sequential.rs:50-52 | `register` appends: one more component, which is the one given and sits at the old length, and every earlier component is unchanged, output and pending input alike |
| Sequential.TickAll | src/sequential.rs:43-45 | the component loop ticks every component exactly once and keeps the registry length |
| Sequential.ClockTick | src/sequential.rs:35-48 | `tick` flips `is_tick`, keeps the registry length, and ticks each component element-wise, so each reads its latched input |
| Sequential.GetStateOfComponent | src/sequential.rs:54-64 | the read succeeds exactly for an index below the registry length and returns that component's output; otherwise it panics with "Invalid index passed" |
| Sequential.SetStateOfComponent | src/sequential.rs:66-72 | the write succeeds exactly for an index in range, and otherwise panics with "Invalid index passed". A successful write changes no other component, no read before the next tick, and not `is_tick`; after the next tick the indexed component reads the value written |
| Sequential.TicksParity | src/sequential.rs:47 | after n ticks `is_tick` has flipped n times and the registry length is unchanged |
| Sequential.TicksSettle | src/sequential.rs:43-45 | with no new input, every tick after the first leaves the components as the first left them |
| Sequential.TickAllIdempotent | src/sequential.rs:43-45 | ticking every component twice is ticking it once |
| Sequential.ClockLastWriteWins | src/sequential.rs:66-72 | of two writes to the same index before a tick, the second wins |
| Sequential.MainPrints | src/main.rs:8-26 | the demonstration does not panic, and reads false, true, true, false |
| Utils.ShiftOne | src/utils.rs:2 | `1 << i` on `u16` is the word whose only set bit is bit i |
| Utils.U16ToVecBool | src/utils.rs:1-3 | the vector has 16 elements, and element i is bit i of the value |
| Utils.SingleBitMask | src/utils.rs:2 | `value & (1 << i) != 0` holds exactly when bit i is set |
| Utils.BitsValue | src/utils.rs:5-19 | the value of a bit vector is below 2^length |
| Utils.VecBoolToU16 | src/utils.rs:5-19 | the packing loop computes the value of the vector. Bit i of the result is element i, and unpacking the result gives the vector back |
| Utils.PackStep | src/utils.rs:10-15 | one loop pass ORs `bit << i` into the value of the first i elements and gives the value of the first i + 1 |
| Utils.BitOfValue | src/utils.rs:9-16 | bit i of a vector's value is element i |
| Utils.UnpackOfValue | src/utils.rs:1-19 | the value of a 16-element vector is a word, and unpacking it gives the vector back, which is `u16_to_vec_bool(vec_bool_to_u16(s)) == s` |
| Utils.ValueOfUnpack | src/utils.rs:1-19 | the value of the unpacked vector of a word v is v. With the contract of `Utils.VecBoolToU16`, this gives `vec_bool_to_u16(u16_to_vec_bool(v)) == v` |

## Left out

- `Clock::start_clock` (src/sequential.rs:20-32) is left out. It is an endless loop that prints and sleeps, and it touches no component.
- The `println!` and `thread::sleep` calls in `Clock::tick` are left out. The label they print is determined by `is_tick`, which the model keeps.
- Dynamic dispatch through `Box<dyn Tick>` is not modelled. `DFF` is the only `Tick` implementation, so the registry is a sequence of flip-flops.
- The unused `Sequentail` trait is left out.
- The `mem` module declared in src/main.rs is not part of this model, so there are no multi-bit registers or RAM.
- tests/gates_tests.rs is not modelled. It does not compile, since it never brings `and_gate` into scope. The `and` truth table it aims at is `Gates.AndTruthTable`.
- src/main.rs is modelled only as the sequence of values it prints (`Sequential.MainTrace`), not the printing itself.
- Utils.VecBoolToU16: the `assert_eq!` on the vector length is a precondition, so the model has no panic for a wrong length.
- A Rust `usize` index is modelled as a natural number with no upper bound. Every index at or beyond the registry length panics, as in the source.
- A panic is a returned `Panic` value rather than an abort. The state after a panic is never used.
