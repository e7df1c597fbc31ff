/**
 The arithmetic, logical and comparison functions of the integer ALU
 (section 2.4 of the RISC-V Unprivileged ISA), on two 32-bit operands.

 `+` and `-` wrap modulo 2^32 here, as in a release build of the Rust source
 and as RV32I specifies; a debug build would panic on overflow instead. The
 shift amount is taken as is (it is NOT masked to five bits in the source),
 so the shifts require it to be below 32, the range in which Rust's `<<` and
 `>>` do not overflow.
 */
module Alu {
  import opened Bits

  /** Wrapping addition. */
  function Add(a: bv32, b: bv32): bv32
  {
    a + b
  }

  /** Wrapping subtraction. */
  function Sub(a: bv32, b: bv32): bv32
  {
    a - b
  }

  function Xor(a: bv32, b: bv32): bv32
  {
    a ^ b
  }

  function Or(a: bv32, b: bv32): bv32
  {
    a | b
  }

  function And(a: bv32, b: bv32): bv32
  {
    a & b
  }

  /** Shift left logical. */
  function Sll(a: bv32, k: bv32): bv32
    requires k < 32
  {
    a << k
  }

  /** Shift right logical. */
  function Srl(a: bv32, k: bv32): bv32
    requires k < 32
  {
    a >> k
  }

  /**
   Shift right arithmetic. The source casts to `i32`, whose `>>` is
   arithmetic, and casts the result back; on the bit pattern that is a
   logical shift whose vacated high k bits are filled with the sign bit.
   */
  function Sra(a: bv32, k: bv32): (r: bv32)
    requires k < 32
    ensures !Negative(a) ==> r == Srl(a, k)
  {
    if Negative(a) then (a >> k) | !(0xFFFF_FFFF >> k) else a >> k
  }

  /**
   The order of `i32` on two's-complement bit patterns: every negative value
   lies below every non-negative one, and two values of the same sign are
   ordered as their unsigned patterns are.
   */
  predicate SignedLess(a: bv32, b: bv32) {
    if Negative(a) != Negative(b) then Negative(a) else a < b
  }

  /** Set less than: 1 when a < b as `i32`, else 0. Flipping both sign bits maps the signed order onto the unsigned one. */
  function Slt(a: bv32, b: bv32): (r: bv32)
    ensures r == 0 || r == 1
    ensures r == 1 <==> SignedLess(a, b)
  {
    if (a ^ SIGN_BIT) < (b ^ SIGN_BIT) then 1 else 0
  }

  /** Set less than unsigned: 1 when a < b as `u32`, else 0. */
  function Sltu(a: bv32, b: bv32): (r: bv32)
    ensures r == 0 || r == 1
    ensures r == 1 <==> a < b
  {
    if a < b then 1 else 0
  }

  /** Each bit of a xor is the exclusive or of the operand bits. */
  lemma XorBits(a: bv32, b: bv32)
    ensures forall j: bv32 :: j < 32 ==> (Bit(Xor(a, b), j) <==> Bit(a, j) != Bit(b, j))
  {
    forall j: bv32 | j < 32
      ensures Bit(Xor(a, b), j) <==> Bit(a, j) != Bit(b, j)
    {
      XorBit(a, b, j);
    }
  }

  /** Each bit of an or is the disjunction of the operand bits. */
  lemma OrBits(a: bv32, b: bv32)
    ensures forall j: bv32 :: j < 32 ==> (Bit(Or(a, b), j) <==> Bit(a, j) || Bit(b, j))
  {
    forall j: bv32 | j < 32
      ensures Bit(Or(a, b), j) <==> Bit(a, j) || Bit(b, j)
    {
      OrBit(a, b, j);
    }
  }

  /** Each bit of an and is the conjunction of the operand bits. */
  lemma AndBits(a: bv32, b: bv32)
    ensures forall j: bv32 :: j < 32 ==> (Bit(And(a, b), j) <==> Bit(a, j) && Bit(b, j))
  {
    forall j: bv32 | j < 32
      ensures Bit(And(a, b), j) <==> Bit(a, j) && Bit(b, j)
    {
      AndBit(a, b, j);
    }
  }

  /** Shift left logical moves bit j - k to bit j; bits pushed past bit 31 are lost and the low k bits are zero. */
  lemma SllBits(a: bv32, k: bv32)
    requires k < 32
    ensures forall j: bv32 :: j < 32 ==> (Bit(Sll(a, k), j) <==> k <= j && Bit(a, j - k))
  {
    forall j: bv32 | j < 32
      ensures Bit(Sll(a, k), j) <==> k <= j && Bit(a, j - k)
    {
      ShlBit(a, k, j);
    }
  }

  /** Shift right logical moves bit j + k to bit j and zero-fills the high k bits. */
  lemma SrlBits(a: bv32, k: bv32)
    requires k < 32
    ensures forall j: bv32 :: j < 32 ==> (Bit(Srl(a, k), j) <==> j < 32 - k && Bit(a, j + k))
  {
    forall j: bv32 | j < 32
      ensures Bit(Srl(a, k), j) <==> j < 32 - k && Bit(a, j + k)
    {
      if j < 32 - k {
        ShrLowBit(a, k, j);
      } else {
        ShrHighBit(a, k, j);
      }
    }
  }

  /** Wrapping subtraction undoes wrapping addition. The operators are exactly the bodies of `Add` and `Sub`. */
  lemma SubUndoesAdd(a: bv32, b: bv32)
    ensures (a + b) - b == a
  {
  }

  /** Wrapping addition undoes wrapping subtraction. The operators are exactly the bodies of `Add` and `Sub`. */
  lemma AddUndoesSub(a: bv32, b: bv32)
    ensures (a - b) + b == a
  {
  }

  /** Xor with the same operand twice restores the value. */
  lemma XorUndoesXor(a: bv32, b: bv32)
    ensures Xor(Xor(a, b), b) == a
  {
  }

  /** One wrapping doubling. */
  function Twice(a: bv32): bv32 {
    a + a
  }

  /** One halving, rounding down. */
  function Half(a: bv32): bv32 {
    a / 2
  }

  /** a doubled k times with wrapping addition: multiplication by 2^k modulo 2^32. */
  function Doubled(a: bv32, k: bv32): bv32
    requires k < 32
    decreases k
  {
    if k == 0 then a else Twice(Doubled(a, k - 1))
  }

  /** a halved k times: division by 2^k rounding down. */
  function Halved(a: bv32, k: bv32): bv32
    requires k < 32
    decreases k
  {
    if k == 0 then a else Half(Halved(a, k - 1))
  }

  lemma ShlOneMore(a: bv32, k: bv32)
    requires 0 < k < 32
    ensures a << k == (a << (k - 1)) << 1
  {
  }

  lemma ShrOneMore(a: bv32, k: bv32)
    requires 0 < k < 32
    ensures a >> k == (a >> (k - 1)) >> 1
  {
  }

  lemma ShlOneIsTwice(d: bv32)
    ensures d << 1 == Twice(d)
  {
  }

  lemma ShrOneIsHalf(h: bv32)
    ensures h >> 1 == Half(h)
  {
  }

  lemma SllStep(a: bv32, k: bv32)
    requires 0 < k < 32
    ensures Sll(a, k) == Twice(Sll(a, k - 1))
  {
    ShlOneMore(a, k);
    ShlOneIsTwice(a << (k - 1));
  }

  lemma SrlStep(a: bv32, k: bv32)
    requires 0 < k < 32
    ensures Srl(a, k) == Half(Srl(a, k - 1))
  {
    ShrOneMore(a, k);
    ShrOneIsHalf(a >> (k - 1));
  }

  /** Shifting left by k is doubling k times; the bits pushed past bit 31 are the wrap-around. */
  lemma {:induction false} SllIsRepeatedDoubling(a: bv32, k: bv32)
    requires k < 32
    ensures Sll(a, k) == Doubled(a, k)
    decreases k
  {
    if k > 0 {
      SllIsRepeatedDoubling(a, k - 1);
      SllStep(a, k);
    }
  }

  /** Shifting right logically by k is halving k times, rounding down. */
  lemma {:induction false} SrlIsRepeatedHalving(a: bv32, k: bv32)
    requires k < 32
    ensures Srl(a, k) == Halved(a, k)
    decreases k
  {
    if k > 0 {
      SrlIsRepeatedHalving(a, k - 1);
      SrlStep(a, k);
    }
  }

  lemma SraNegativeLowBit(a: bv32, k: bv32, j: bv32)
    requires k < 32 && j < 32 - k && Negative(a)
    ensures Bit(Sra(a, k), j) <==> Bit(a, j + k)
  {
    FilledShrLowBit(a, k, j);
  }

  lemma SraNegativeHighBit(a: bv32, k: bv32, j: bv32)
    requires k < 32 && 32 - k <= j < 32 && Negative(a)
    ensures Bit(Sra(a, k), j)
  {
    FilledShrHighBit(a, k, j);
  }

  lemma SraNonNegativeLowBit(a: bv32, k: bv32, j: bv32)
    requires k < 32 && j < 32 - k && !Negative(a)
    ensures Bit(Sra(a, k), j) <==> Bit(a, j + k)
  {
    ShrLowBit(a, k, j);
  }

  lemma SraNonNegativeHighBit(a: bv32, k: bv32, j: bv32)
    requires k < 32 && 32 - k <= j < 32 && !Negative(a)
    ensures !Bit(Sra(a, k), j)
  {
    ShrHighBit(a, k, j);
  }

  /** Bit j of an arithmetic right shift. */
  lemma SraBit(a: bv32, k: bv32, j: bv32)
    requires k < 32 && j < 32
    ensures Bit(Sra(a, k), j) <==> if j < 32 - k then Bit(a, j + k) else Negative(a)
  {
    if j < 32 - k {
      if Negative(a) {
        SraNegativeLowBit(a, k, j);
      } else {
        SraNonNegativeLowBit(a, k, j);
      }
    } else {
      if Negative(a) {
        SraNegativeHighBit(a, k, j);
      } else {
        SraNonNegativeHighBit(a, k, j);
      }
    }
  }

  /**
   Arithmetic right shift moves bit j + k to bit j and replicates the sign
   bit into the high k bits; in particular a negative operand yields a
   result whose high k bits are all ones.
   */
  lemma SraBits(a: bv32, k: bv32)
    requires k < 32
    ensures forall j: bv32 :: j < 32 ==> (Bit(Sra(a, k), j) <==> if j < 32 - k then Bit(a, j + k) else Negative(a))
  {
    forall j: bv32 | j < 32
      ensures Bit(Sra(a, k), j) <==> if j < 32 - k then Bit(a, j + k) else Negative(a)
    {
      SraBit(a, k, j);
    }
  }

  /** On operands of the same sign, signed and unsigned comparison agree. */
  lemma SltSltuAgreeOnSameSign(a: bv32, b: bv32)
    requires Negative(a) == Negative(b)
    ensures Slt(a, b) == Sltu(a, b)
  {
  }

  /** On operands of different signs, signed and unsigned comparison disagree. */
  lemma SltSltuDisagreeOnMixedSign(a: bv32, b: bv32)
    requires Negative(a) != Negative(b)
    ensures Slt(a, b) == 1 - Sltu(a, b)
  {
  }
}
