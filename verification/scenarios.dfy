/**
 The unit tests of cpu.rs as lemmas: a fresh CPU with x18 and x19 loaded,
 one operation with rd = x20, rs1 = x18, rs2 = x19, and the value expected
 in x20. Further concrete cases show the places where cpu.rs departs from
 RV32I.
 */
module Scenarios {
  import opened Registers
  import opened Decode
  import Cpu

  /** A fresh CPU with x18 and x19 set, as every test of cpu.rs starts. */
  function Operands(x18: bv32, x19: bv32): (r: RegFile)
    ensures Get(r, 18) == x18 && Get(r, 19) == x19
    ensures forall j: bv32 :: j < COUNT && j != 18 && j != 19 ==> Get(r, j) == 0
  {
    Set(Set(New(), 18, x18), 19, x19)
  }

  lemma AddTest()
    ensures Get(Cpu.Add(Operands(384, 73952), 20, 18, 19), 20) == 74336
  {
  }

  lemma SubTest()
    ensures Get(Cpu.Sub(Operands(12, 5), 20, 18, 19), 20) == 7
  {
  }

  lemma XorTest()
    ensures Get(Cpu.Xor(Operands(0x0FA, 0xF03), 20, 18, 19), 20) == 0xFF9
  {
  }

  lemma OrTest()
    ensures Get(Cpu.Or(Operands(0x0FA, 0xF03), 20, 18, 19), 20) == 0xFFB
  {
  }

  lemma AndTest()
    ensures Get(Cpu.And(Operands(0x0FA, 0xF03), 20, 18, 19), 20) == 0x002
  {
  }

  lemma SllTests()
    ensures Get(Cpu.Sll(Operands(16, 1), 20, 18, 19), 20) == 32
    ensures Get(Cpu.Sll(Operands(0x8000, 24), 20, 18, 19), 20) == 0
  {
  }

  lemma SrlTests()
    ensures Get(Cpu.Srl(Operands(0x0008_0000, 4), 20, 18, 19), 20) == 0x0000_8000
    ensures Get(Cpu.Srl(Operands(0x8000_0000, 4), 20, 18, 19), 20) == 0x0800_0000
  {
  }

  /** On a non-negative operand sra gives srl's result; on a negative one it copies the sign bit down. */
  lemma SraTests()
    ensures Get(Cpu.Sra(Operands(0x0008_0000, 4), 20, 18, 19), 20) == 0x0000_8000
    ensures Get(Cpu.Sra(Operands(0x8000_0000, 4), 20, 18, 19), 20) == 0xF800_0000
  {
  }

  /** 0xFFFF_FFA9 is -87 as `i32` and 4294967209 as `u32`. */
  lemma SltTests()
    ensures Get(Cpu.Slt(Operands(9, 87), 20, 18, 19), 20) == 1
    ensures Get(Cpu.Slt(Operands(9, 0xFFFF_FFA9), 20, 18, 19), 20) == 0
  {
  }

  lemma SltuTests()
    ensures Get(Cpu.Sltu(Operands(9, 87), 20, 18, 19), 20) == 1
    ensures Get(Cpu.Sltu(Operands(9, 0xFFFF_FFA9), 20, 18, 19), 20) == 1
  {
  }

  /** ori adds: 1 ori 1 gives 2 here, where RV32I gives 1. */
  lemma OriAdds()
    ensures Get(Cpu.Ori(Operands(1, 0), 20, 18, 1), 20) == 2
  {
  }

  /** andi ors: 0xC andi 0xA gives 0xE here, where RV32I gives 0x8. */
  lemma AndiOrs()
    ensures Get(Cpu.Andi(Operands(0xC, 0), 20, 18, 0xA), 20) == 0xE
  {
  }

  /**
   A shift amount of 33, which RV32I reduces to 1, is not reduced here: it
   lies outside what the shifts accept.
   */
  lemma UnmaskedShiftAmount()
    ensures !(Cpu.ShiftAmount(Operands(16, 33), 19) < 32)
  {
  }

  /** rs2 = 51 is not a register, but its low five bits select x19. */
  lemma ShiftIndexAliasing()
    ensures Get(Cpu.Sll(Operands(16, 1), 20, 18, 51), 20) == 32
  {
  }

  /**
   The all-zero R-type word 0x33 is the one `add` the decoder can run: with
   x0 = 5 and x5 = 7 it reads x0's value as an index and stores x5 + x5 in x0.
   */
  lemma ZeroFieldAddDereferencesX0()
    ensures Cpu.RTypeDefined(Set(Set(New(), 0, 5), 5, 7), OPCODE_R_TYPE)
    ensures Get(Cpu.ParseInstruction(Set(Set(New(), 0, 5), 5, 7), OPCODE_R_TYPE), 0) == 14
  {
  }
}
