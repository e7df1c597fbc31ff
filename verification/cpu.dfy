/**
 The CPU of cpu.rs as a register file that each operation maps to a new
 register file: the decoder (`parse_instruction`, `parse_rtype`) and the
 register-register and register-immediate ALU operations.

 Each operation reads its source registers with `get_reg_val` and writes its
 result with `set_register`, both of which panic on an index of 32 or more;
 the conjunction of those conditions is each operation's precondition.
 */
module Cpu {
  import opened Registers
  import opened Decode
  import opened Bits
  import Alu

  /** `add`: register rd receives the wrapping sum of registers rs1 and rs2; no other register changes. */
  function Add(r: RegFile, rd: bv32, rs1: bv32, rs2: bv32): (r': RegFile)
    requires rd < COUNT && rs1 < COUNT && rs2 < COUNT
    ensures Writes(r, r', rd, Alu.Add(Get(r, rs1), Get(r, rs2)))
  {
    Set(r, rd, Alu.Add(Get(r, rs1), Get(r, rs2)))
  }

  /** `sub`: wrapping difference. */
  function Sub(r: RegFile, rd: bv32, rs1: bv32, rs2: bv32): (r': RegFile)
    requires rd < COUNT && rs1 < COUNT && rs2 < COUNT
    ensures Writes(r, r', rd, Alu.Sub(Get(r, rs1), Get(r, rs2)))
  {
    Set(r, rd, Alu.Sub(Get(r, rs1), Get(r, rs2)))
  }

  /** `xor`. */
  function Xor(r: RegFile, rd: bv32, rs1: bv32, rs2: bv32): (r': RegFile)
    requires rd < COUNT && rs1 < COUNT && rs2 < COUNT
    ensures Writes(r, r', rd, Alu.Xor(Get(r, rs1), Get(r, rs2)))
  {
    Set(r, rd, Alu.Xor(Get(r, rs1), Get(r, rs2)))
  }

  /** `or`. */
  function Or(r: RegFile, rd: bv32, rs1: bv32, rs2: bv32): (r': RegFile)
    requires rd < COUNT && rs1 < COUNT && rs2 < COUNT
    ensures Writes(r, r', rd, Alu.Or(Get(r, rs1), Get(r, rs2)))
  {
    Set(r, rd, Alu.Or(Get(r, rs1), Get(r, rs2)))
  }

  /** `and`. */
  function And(r: RegFile, rd: bv32, rs1: bv32, rs2: bv32): (r': RegFile)
    requires rd < COUNT && rs1 < COUNT && rs2 < COUNT
    ensures Writes(r, r', rd, Alu.And(Get(r, rs1), Get(r, rs2)))
  {
    Set(r, rd, Alu.And(Get(r, rs1), Get(r, rs2)))
  }

  /**
   The shift amount of `sll`, `srl` and `sra`: cpu.rs applies SHIFT_MASK to
   the register INDEX rs2, not to the value read, so the amount is the whole
   value of register rs2 & 0x1F. Register rs2 & 0x1F always exists.
   */
  function ShiftAmount(r: RegFile, rs2: bv32): (k: bv32)
    ensures rs2 < COUNT ==> k == Get(r, rs2)
  {
    Get(r, rs2 & SHIFT_MASK)
  }

  /** `sll`: an amount of 32 or more is an arithmetic overflow in Rust, excluded here. */
  function Sll(r: RegFile, rd: bv32, rs1: bv32, rs2: bv32): (r': RegFile)
    requires rd < COUNT && rs1 < COUNT && ShiftAmount(r, rs2) < 32
    ensures Writes(r, r', rd, Alu.Sll(Get(r, rs1), ShiftAmount(r, rs2)))
  {
    Set(r, rd, Alu.Sll(Get(r, rs1), ShiftAmount(r, rs2)))
  }

  /** `srl`. */
  function Srl(r: RegFile, rd: bv32, rs1: bv32, rs2: bv32): (r': RegFile)
    requires rd < COUNT && rs1 < COUNT && ShiftAmount(r, rs2) < 32
    ensures Writes(r, r', rd, Alu.Srl(Get(r, rs1), ShiftAmount(r, rs2)))
  {
    Set(r, rd, Alu.Srl(Get(r, rs1), ShiftAmount(r, rs2)))
  }

  /** `sra`. */
  function Sra(r: RegFile, rd: bv32, rs1: bv32, rs2: bv32): (r': RegFile)
    requires rd < COUNT && rs1 < COUNT && ShiftAmount(r, rs2) < 32
    ensures Writes(r, r', rd, Alu.Sra(Get(r, rs1), ShiftAmount(r, rs2)))
  {
    Set(r, rd, Alu.Sra(Get(r, rs1), ShiftAmount(r, rs2)))
  }

  /** `slt`: the destination receives 1 exactly when register rs1 is below register rs2 as `i32`, else 0. */
  function Slt(r: RegFile, rd: bv32, rs1: bv32, rs2: bv32): (r': RegFile)
    requires rd < COUNT && rs1 < COUNT && rs2 < COUNT
    ensures Writes(r, r', rd, Alu.Slt(Get(r, rs1), Get(r, rs2)))
    ensures Get(r', rd) == 0 || Get(r', rd) == 1
    ensures Get(r', rd) == 1 <==> Alu.SignedLess(Get(r, rs1), Get(r, rs2))
  {
    Set(r, rd, Alu.Slt(Get(r, rs1), Get(r, rs2)))
  }

  /** `sltu`: the destination receives 1 exactly when register rs1 is below register rs2 as `u32`, else 0. */
  function Sltu(r: RegFile, rd: bv32, rs1: bv32, rs2: bv32): (r': RegFile)
    requires rd < COUNT && rs1 < COUNT && rs2 < COUNT
    ensures Writes(r, r', rd, Alu.Sltu(Get(r, rs1), Get(r, rs2)))
    ensures Get(r', rd) == 0 || Get(r', rd) == 1
    ensures Get(r', rd) == 1 <==> Get(r, rs1) < Get(r, rs2)
  {
    Set(r, rd, Alu.Sltu(Get(r, rs1), Get(r, rs2)))
  }

  /** `addi`: register rs1 plus the immediate, wrapping. */
  function Addi(r: RegFile, rd: bv32, rs1: bv32, imm: bv32): (r': RegFile)
    requires rd < COUNT && rs1 < COUNT
    ensures Writes(r, r', rd, Alu.Add(Get(r, rs1), imm))
  {
    Set(r, rd, Alu.Add(Get(r, rs1), imm))
  }

  /** `xori`. */
  function Xori(r: RegFile, rd: bv32, rs1: bv32, imm: bv32): (r': RegFile)
    requires rd < COUNT && rs1 < COUNT
    ensures Writes(r, r', rd, Alu.Xor(Get(r, rs1), imm))
  {
    Set(r, rd, Alu.Xor(Get(r, rs1), imm))
  }

  /** `ori` as written: it ADDS the immediate (RV32I would or it). */
  function Ori(r: RegFile, rd: bv32, rs1: bv32, imm: bv32): (r': RegFile)
    requires rd < COUNT && rs1 < COUNT
    ensures Writes(r, r', rd, Alu.Add(Get(r, rs1), imm))
  {
    Set(r, rd, Alu.Add(Get(r, rs1), imm))
  }

  /** `andi` as written: it ORS the immediate in (RV32I would and it). */
  function Andi(r: RegFile, rd: bv32, rs1: bv32, imm: bv32): (r': RegFile)
    requires rd < COUNT && rs1 < COUNT
    ensures Writes(r, r', rd, Alu.Or(Get(r, rs1), imm))
  {
    Set(r, rd, Alu.Or(Get(r, rs1), imm))
  }

  /**
   The conditions under which `parse_rtype` does not panic. It masks the
   fields but does not shift them down, so a masked register field is below
   32 only when it is zero; and it passes the VALUES of the two source
   registers to `add`, which uses them as register indices again.
   */
  predicate RTypeDefined(r: RegFile, w: bv32) {
    && w & REGISTER_1 < COUNT
    && w & REGISTER_2 < COUNT
    && (w & FUNCT_3 == FUNCT_7_ADD && w & FUNCT_7 == FUNCT_7_ADD ==>
          && w & REGISTER_DESTINATION < COUNT
          && Get(r, w & REGISTER_1) < COUNT
          && Get(r, w & REGISTER_2) < COUNT)
  }

  /**
   `parse_rtype` as written. It acts only on funct3 = funct7 = 0 (the match
   compares funct3 with FUNCT_7_ADD, which equals FUNCT_3_ADD), and then
   calls `add` with the unshifted destination field and with the values
   of the source registers in place of their indices; every other
   R-type word leaves the registers unchanged.
   */
  function ParseRType(r: RegFile, w: bv32): (r': RegFile)
    requires RTypeDefined(r, w)
    ensures !(Funct3(w) == FUNCT_3_ADD && Funct7(w) == FUNCT_7_ADD) ==> r' == r
    ensures Funct3(w) == FUNCT_3_ADD && Funct7(w) == FUNCT_7_ADD ==>
              Get(r, 0) < COUNT && Writes(r, r', 0, Alu.Add(Get(r, Get(r, 0)), Get(r, Get(r, 0))))
  {
    var rd := w & REGISTER_DESTINATION;
    var funct3 := w & FUNCT_3;
    var register1 := w & REGISTER_1;
    var register2 := w & REGISTER_2;
    var funct7 := w & FUNCT_7;
    var rs1 := Get(r, register1);
    var rs2 := Get(r, register2);
    if funct3 == FUNCT_7_ADD && funct7 == FUNCT_7_ADD then Add(r, rd, rs1, rs2) else r
  }

  /** `parse_instruction`: only the R-type opcode is acted on; every other word is a no-op. */
  function ParseInstruction(r: RegFile, w: bv32): (r': RegFile)
    requires Opcode(w) == OPCODE_R_TYPE ==> RTypeDefined(r, w)
    ensures Opcode(w) != OPCODE_R_TYPE ==> r' == r
    ensures forall j: bv32 :: 0 < j < COUNT ==> Get(r', j) == Get(r, j)
  {
    match w & OPCODE
    case 0x33 => ParseRType(r, w)
    case _ => r
  }

  /**
   In terms of the shifted fields: `parse_rtype` is defined exactly when both
   source-register fields are x0 and, for funct3 = funct7 = 0, the
   destination field is x0 and x0 holds a valid register index.
   */
  lemma RTypeDefinedIff(r: RegFile, w: bv32)
    ensures RTypeDefined(r, w) <==>
              && Rs1(w) == 0 && Rs2(w) == 0
              && (Funct3(w) == FUNCT_3_ADD && Funct7(w) == FUNCT_7_ADD ==> Rd(w) == 0 && Get(r, 0) < COUNT)
  {
  }

  /** The word documented as `add x2, x4, x5` is R-type, yet decoding it panics whatever the registers hold. */
  lemma DocumentedAddPanics(r: RegFile)
    ensures Opcode(ADD_X2_X4_X5) == OPCODE_R_TYPE
    ensures !RTypeDefined(r, ADD_X2_X4_X5)
  {
  }

  /** Xoring the same register twice restores the value, unless the first xor overwrote it. */
  lemma XorUndoesXor(r: RegFile, rd: bv32, rs1: bv32, rs2: bv32)
    requires rd < COUNT && rs1 < COUNT && rs2 < COUNT && rd != rs2
    ensures Get(Xor(Xor(r, rd, rs1, rs2), rd, rd, rs2), rd) == Get(r, rs1)
  {
    Alu.XorUndoesXor(Get(r, rs1), Get(r, rs2));
  }

  /** add, xor, or and and do not depend on the order of their source registers. */
  lemma SourcesCommute(r: RegFile, rd: bv32, rs1: bv32, rs2: bv32)
    requires rd < COUNT && rs1 < COUNT && rs2 < COUNT
    ensures Add(r, rd, rs1, rs2) == Add(r, rd, rs2, rs1)
    ensures Xor(r, rd, rs1, rs2) == Xor(r, rd, rs2, rs1)
    ensures Or(r, rd, rs1, rs2) == Or(r, rd, rs2, rs1)
    ensures And(r, rd, rs1, rs2) == And(r, rd, rs2, rs1)
  {
  }

  /** A register minus itself, or xored with itself, is zero. */
  lemma SelfCancels(r: RegFile, rd: bv32, rs: bv32)
    requires rd < COUNT && rs < COUNT
    ensures Get(Sub(r, rd, rs, rs), rd) == 0
    ensures Get(Xor(r, rd, rs, rs), rd) == 0
  {
  }

  /**
   For a register index the mask is a no-op, so the shift amount is the
   whole register value; RV32I would use only its low five bits.
   */
  lemma ShiftAmountIsWholeRegister(r: RegFile, rs2: bv32)
    requires rs2 < COUNT
    ensures ShiftAmount(r, rs2) == Get(r, rs2)
  {
  }

  /** Out-of-range rs2 fields alias a register through their low five bits. */
  lemma ShiftAmountAliases(r: RegFile, rs2: bv32, rs2': bv32)
    requires rs2 & SHIFT_MASK == rs2' & SHIFT_MASK
    ensures ShiftAmount(r, rs2) == ShiftAmount(r, rs2')
  {
  }

  /** On a non-negative operand the arithmetic and logical right shifts agree. */
  lemma SraIsSrlWhenNonNegative(r: RegFile, rd: bv32, rs1: bv32, rs2: bv32)
    requires rd < COUNT && rs1 < COUNT && ShiftAmount(r, rs2) < 32
    requires !Negative(Get(r, rs1))
    ensures Sra(r, rd, rs1, rs2) == Srl(r, rd, rs1, rs2)
  {
  }

  /** On operands of the same sign slt and sltu agree; on mixed signs they disagree. */
  lemma SltSltuAgreement(r: RegFile, rd: bv32, rs1: bv32, rs2: bv32)
    requires rd < COUNT && rs1 < COUNT && rs2 < COUNT
    ensures Negative(Get(r, rs1)) == Negative(Get(r, rs2)) ==> Slt(r, rd, rs1, rs2) == Sltu(r, rd, rs1, rs2)
    ensures Negative(Get(r, rs1)) != Negative(Get(r, rs2)) ==> Get(Slt(r, rd, rs1, rs2), rd) != Get(Sltu(r, rd, rs1, rs2), rd)
  {
    if Negative(Get(r, rs1)) == Negative(Get(r, rs2)) {
      Alu.SltSltuAgreeOnSameSign(Get(r, rs1), Get(r, rs2));
    } else {
      Alu.SltSltuDisagreeOnMixedSign(Get(r, rs1), Get(r, rs2));
    }
  }

  /** addi behaves as add with a register holding the immediate. */
  lemma AddiMatchesAdd(r: RegFile, rd: bv32, rs1: bv32, rs2: bv32, imm: bv32)
    requires rd < COUNT && rs1 < COUNT && rs2 < COUNT && Get(r, rs2) == imm
    ensures Addi(r, rd, rs1, imm) == Add(r, rd, rs1, rs2)
  {
  }

  /** xori behaves as xor with a register holding the immediate. */
  lemma XoriMatchesXor(r: RegFile, rd: bv32, rs1: bv32, rs2: bv32, imm: bv32)
    requires rd < COUNT && rs1 < COUNT && rs2 < COUNT && Get(r, rs2) == imm
    ensures Xori(r, rd, rs1, imm) == Xor(r, rd, rs1, rs2)
  {
  }

  /** As written, ori is addi. */
  lemma OriIsAddi(r: RegFile, rd: bv32, rs1: bv32, imm: bv32)
    requires rd < COUNT && rs1 < COUNT
    ensures Ori(r, rd, rs1, imm) == Addi(r, rd, rs1, imm)
  {
  }

  /** As written, andi behaves as or with a register holding the immediate. */
  lemma AndiMatchesOr(r: RegFile, rd: bv32, rs1: bv32, rs2: bv32, imm: bv32)
    requires rd < COUNT && rs1 < COUNT && rs2 < COUNT && Get(r, rs2) == imm
    ensures Andi(r, rd, rs1, imm) == Or(r, rd, rs1, rs2)
  {
  }
}
