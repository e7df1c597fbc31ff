/**
 Instruction-word layout of the R-type format (section 2.2 of the RISC-V
 Unprivileged ISA): the mask constants of cpu.rs and pure field extractors.

 The extractors mask a field and shift it down to bit 0, which is what the
 mask layout and the documented `add x2, x4, x5` word imply. The decoder of
 cpu.rs (`parse_rtype`, modelled in module Cpu) masks but does NOT shift;
 the extractors are kept apart from it and are used to state facts about it.
 */
module Decode {

  /** Low five bits; cpu.rs applies it to a register index in the shift operations. */
  const SHIFT_MASK: bv32 := 0x1F

  /** Field masks of an R-type word (bit 0 is the least significant). */
  const OPCODE: bv32               := 0x0000_007F  // bits  6..0
  const REGISTER_DESTINATION: bv32 := 0x0000_0F80  // bits 11..7
  const FUNCT_3: bv32              := 0x0000_7000  // bits 14..12
  const REGISTER_1: bv32           := 0x000F_8000  // bits 19..15
  const REGISTER_2: bv32           := 0x01F0_0000  // bits 24..20
  const FUNCT_7: bv32              := 0xFE00_0000  // bits 31..25

  /** funct3 and funct7 of `add`. */
  const FUNCT_3_ADD: bv32 := 0
  const FUNCT_7_ADD: bv32 := 0

  /** The only opcode `parse_instruction` acts on: register-register ALU ops. */
  const OPCODE_R_TYPE: bv32 := 0x33  // 0b0110011

  /** The word documented in cpu.rs as `add x2, x4, x5`. */
  const ADD_X2_X4_X5: bv32 := 0x0052_0133  // 0b0000000_00101_00100_000_00010_0110011

  /** Bits 6..0. */
  function Opcode(w: bv32): (f: bv32)
    ensures f < 0x80 && (w - f) & OPCODE == 0
  {
    w & OPCODE
  }

  /** Bits 11..7, shifted down. */
  function Rd(w: bv32): (f: bv32)
    ensures f < 0x20 && f << 7 == w & REGISTER_DESTINATION
  {
    (w & REGISTER_DESTINATION) >> 7
  }

  /** Bits 14..12, shifted down. */
  function Funct3(w: bv32): (f: bv32)
    ensures f < 0x8 && f << 12 == w & FUNCT_3
  {
    (w & FUNCT_3) >> 12
  }

  /** Bits 19..15, shifted down. */
  function Rs1(w: bv32): (f: bv32)
    ensures f < 0x20 && f << 15 == w & REGISTER_1
  {
    (w & REGISTER_1) >> 15
  }

  /** Bits 24..20, shifted down. */
  function Rs2(w: bv32): (f: bv32)
    ensures f < 0x20 && f << 20 == w & REGISTER_2
  {
    (w & REGISTER_2) >> 20
  }

  /** Bits 31..25, shifted down. */
  function Funct7(w: bv32): (f: bv32)
    ensures f < 0x80 && f << 25 == w & FUNCT_7
  {
    (w & FUNCT_7) >> 25
  }

  /** The six fields of an R-type word, each shifted down to bit 0. */
  datatype RFields = RFields(opcode: bv32, rd: bv32, funct3: bv32, rs1: bv32, rs2: bv32, funct7: bv32)
  {
    /** Every field fits its width. */
    predicate Valid() {
      opcode < 0x80 && rd < 0x20 && funct3 < 0x8 && rs1 < 0x20 && rs2 < 0x20 && funct7 < 0x80
    }
  }

  /** Splits a word into its R-type fields. */
  function DecodeR(w: bv32): (f: RFields)
    ensures f.Valid()
  {
    RFields(Opcode(w), Rd(w), Funct3(w), Rs1(w), Rs2(w), Funct7(w))
  }

  /** Assembles a word from R-type fields. */
  function EncodeR(f: RFields): bv32
    requires f.Valid()
  {
    f.opcode | (f.rd << 7) | (f.funct3 << 12) | (f.rs1 << 15) | (f.rs2 << 20) | (f.funct7 << 25)
  }

  /** The six masks are pairwise disjoint and together cover all 32 bits. */
  lemma MasksPartitionWord()
    ensures OPCODE & REGISTER_DESTINATION == 0 && OPCODE & FUNCT_3 == 0 && OPCODE & REGISTER_1 == 0
    ensures OPCODE & REGISTER_2 == 0 && OPCODE & FUNCT_7 == 0
    ensures REGISTER_DESTINATION & FUNCT_3 == 0 && REGISTER_DESTINATION & REGISTER_1 == 0
    ensures REGISTER_DESTINATION & REGISTER_2 == 0 && REGISTER_DESTINATION & FUNCT_7 == 0
    ensures FUNCT_3 & REGISTER_1 == 0 && FUNCT_3 & REGISTER_2 == 0 && FUNCT_3 & FUNCT_7 == 0
    ensures REGISTER_1 & REGISTER_2 == 0 && REGISTER_1 & FUNCT_7 == 0
    ensures REGISTER_2 & FUNCT_7 == 0
    ensures OPCODE | REGISTER_DESTINATION | FUNCT_3 | REGISTER_1 | REGISTER_2 | FUNCT_7 == 0xFFFF_FFFF
  {
  }

  /** Decoding loses nothing: re-encoding the fields gives back the word. */
  lemma EncodeDecode(w: bv32)
    ensures EncodeR(DecodeR(w)) == w
  {
  }

  /** Encoding loses nothing: decoding an assembled word gives back its fields. */
  lemma DecodeEncode(f: RFields)
    requires f.Valid()
    ensures DecodeR(EncodeR(f)) == f
  {
  }

  /** The documented word decodes as `add x2, x4, x5`. */
  lemma DocumentedAddFields()
    ensures DecodeR(ADD_X2_X4_X5) == RFields(OPCODE_R_TYPE, 2, FUNCT_3_ADD, 4, 5, FUNCT_7_ADD)
  {
  }
}
