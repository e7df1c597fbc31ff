/**
 Bit-level view of a 32-bit word, used to state what the bitwise and shift
 operations of the ALU do to each bit. Bit 0 is the least significant.
 */
module Bits {

  /** The two's-complement sign bit. */
  const SIGN_BIT: bv32 := 0x8000_0000

  /** Bit j of a is set. */
  predicate Bit(a: bv32, j: bv32)
    requires j < 32
  {
    (a >> j) & 1 == 1
  }

  /** a is negative when read as a two's-complement `i32`. */
  predicate Negative(a: bv32) {
    Bit(a, 31)
  }

  lemma XorBit(a: bv32, b: bv32, j: bv32)
    requires j < 32
    ensures Bit(a ^ b, j) <==> Bit(a, j) != Bit(b, j)
  {
  }

  lemma OrBit(a: bv32, b: bv32, j: bv32)
    requires j < 32
    ensures Bit(a | b, j) <==> Bit(a, j) || Bit(b, j)
  {
  }

  lemma AndBit(a: bv32, b: bv32, j: bv32)
    requires j < 32
    ensures Bit(a & b, j) <==> Bit(a, j) && Bit(b, j)
  {
  }

  /** Left shift moves bit j - k to bit j and fills the low k bits with zero. */
  lemma ShlBit(a: bv32, k: bv32, j: bv32)
    requires k < 32 && j < 32
    ensures Bit(a << k, j) <==> k <= j && Bit(a, j - k)
  {
  }

  /** Right shift moves bit j + k to bit j ... */
  lemma ShrLowBit(a: bv32, k: bv32, j: bv32)
    requires k < 32 && j < 32 - k
    ensures Bit(a >> k, j) <==> Bit(a, j + k)
  {
  }

  /** ... and fills the high k bits with zero. */
  lemma ShrHighBit(a: bv32, k: bv32, j: bv32)
    requires k < 32 && 32 - k <= j < 32
    ensures !Bit(a >> k, j)
  {
  }

  /**
   A right shift whose vacated high k bits are then set keeps bit j + k at
   bit j ...
   */
  lemma FilledShrLowBit(a: bv32, k: bv32, j: bv32)
    requires k < 32 && j < 32 - k
    ensures Bit((a >> k) | !(0xFFFF_FFFF >> k), j) <==> Bit(a, j + k)
  {
  }

  /** ... and has its high k bits set. */
  lemma FilledShrHighBit(a: bv32, k: bv32, j: bv32)
    requires k < 32 && 32 - k <= j < 32
    ensures Bit((a >> k) | !(0xFFFF_FFFF >> k), j)
  {
  }
}
