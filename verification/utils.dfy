/** The conversions of src/utils.rs between a `u16` and a vector of sixteen
    booleans. Index i of the vector is bit i of the word: the least
    significant bit comes first. */
module Utils {
  import opened Gates
  import opened Bits

  /** Rust `1 << i` on `u16`, for a shift below the width: the word whose
      only set bit is bit i. */
  function ShiftOne(i: nat): (r: Word)
    requires i < WordWidth
    ensures forall j: nat :: Bit(r, j) <==> j == i
  {
    Pow2InWord(i);
    forall j: nat
      ensures Bit(Pow2(i), j) <==> j == i
    {
      BitOfPow2(i, j);
    }
    Pow2(i)
  }

  /** `u16_to_vec_bool`: element i tests `value & (1 << i) != 0`. */
  function U16ToVecBool(v: Word): (s: seq<bool>)
    ensures |s| == WordWidth
    ensures forall i :: 0 <= i < WordWidth ==> s[i] == Bit(v, i)
  {
    SingleBitMasks(v);
    seq(WordWidth, i requires 0 <= i < WordWidth => AndU16(v, ShiftOne(i)) != 0)
  }

  /** The number whose bit j is `s[j]`: the reference reading of a bit
      vector, least significant bit first. */
  function BitsValue(s: seq<bool>): (r: nat)
    ensures r < Pow2(|s|)
  {
    if |s| == 0 then 0
    else
      var k := |s| - 1;
      BitsValue(s[..k]) + (if s[k] then Pow2(k) else 0)
  }

  /** `vec_bool_to_u16`: ORs `bit << i` into the result for each element.
      The length assertion of the source is the precondition. */
  method VecBoolToU16(s: seq<bool>) returns (r: Word)
    requires |s| == WordWidth
    ensures r == BitsValue(s)
    ensures forall i :: 0 <= i < WordWidth ==> Bit(r, i) == s[i]
    ensures U16ToVecBool(r) == s
  {
    var res: Word := 0;
    var i := 0;
    while i < |s|
      invariant 0 <= i <= |s|
      invariant res == BitsValue(s[..i])
    {
      var m: Word := if s[i] then ShiftOne(i) else 0;
      PackStep(s, i, res, m);
      res := OrU16(res, m);
      i := i + 1;
    }
    assert s[..i] == s;
    r := res;
    UnpackOfValue(s);
  }

  /** One pass of the packing loop: ORing `s[i] << i` into the reading of
      the first i elements gives the reading of the first i + 1. */
  lemma PackStep(s: seq<bool>, i: nat, res: Word, m: Word)
    requires i < |s| && i < WordWidth
    requires res == BitsValue(s[..i])
    requires m == if s[i] then Pow2(i) else 0
    ensures OrU16(res, m) == BitsValue(s[..i + 1])
  {
    ValueOfPrefix(s, i);
    OrU16SetBit(res, i, s[i], m);
  }

  /** Extending a prefix by one element adds that element at weight 2^i. */
  lemma ValueOfPrefix(s: seq<bool>, i: nat)
    requires i < |s|
    ensures BitsValue(s[..i + 1]) == BitsValue(s[..i]) + (if s[i] then Pow2(i) else 0)
  {
    assert s[..i + 1][..i] == s[..i];
  }

  /** Bit i of `BitsValue(s)` is `s[i]`. */
  lemma {:induction false} BitOfValue(s: seq<bool>, i: nat)
    requires i < |s|
    ensures Bit(BitsValue(s), i) == s[i]
    decreases |s|
  {
    var k := |s| - 1;
    var x := BitsValue(s[..k]);
    if i < k {
      BitOfValue(s[..k], i);
    } else {
      BitAbove(x, k, k);
    }
    if s[k] {
      BitOfTopAdd(x, k, i);
    }
  }

  /** Unpacking the reading of a 16-element vector gives the vector back. */
  lemma UnpackOfValue(s: seq<bool>)
    requires |s| == WordWidth
    ensures BitsValue(s) < 0x1_0000
    ensures U16ToVecBool(BitsValue(s)) == s
  {
    Pow2Word();
    var u := U16ToVecBool(BitsValue(s));
    forall i | 0 <= i < WordWidth
      ensures u[i] == s[i]
    {
      BitOfValue(s, i);
    }
  }

  /** Reading the unpacked vector of a word gives the word back. */
  lemma ValueOfUnpack(v: Word)
    ensures BitsValue(U16ToVecBool(v)) == v
  {
    Pow2Word();
    var s := U16ToVecBool(v);
    forall i | 0 <= i < WordWidth
      ensures Bit(BitsValue(s), i) == Bit(v, i)
    {
      BitOfValue(s, i);
    }
    BitsDetermine(BitsValue(s), v, WordWidth);
  }

  /** `value & (1 << i)` is non-zero exactly when bit i of `value` is set. */
  lemma SingleBitMasks(v: Word)
    ensures forall i :: 0 <= i < WordWidth ==> (AndU16(v, ShiftOne(i)) != 0 <==> Bit(v, i))
  {
    forall i | 0 <= i < WordWidth
      ensures AndU16(v, ShiftOne(i)) != 0 <==> Bit(v, i)
    {
      SingleBitMask(v, i, ShiftOne(i));
    }
  }

  lemma SingleBitMask(v: Word, i: nat, m: Word)
    requires i < WordWidth && m == Pow2(i)
    ensures AndU16(v, m) != 0 <==> Bit(v, i)
  {
    Pow2Word();
    var r := AndU16(v, m);
    forall j | 0 <= j < WordWidth
      ensures Bit(r, j) == (j == i && Bit(v, i))
    {
      BitwiseBit(v, m, WordWidth, And, j);
      BitOfPow2(i, j);
    }
    ZeroIffNoBits(r, WordWidth);
    if Bit(v, i) {
      assert Bit(r, i);
    } else {
      assert NoBitsBelow(r, WordWidth);
    }
  }
}
