# musketeer CPU core in Dafny

This project models `src/cpu.rs` of musketeer, a small RV32I-style emulator.
The file has three parts:

- the register file: 32 unsigned 32-bit registers x0 .. x31, read with
  `get_reg_val` and written with `set_register`;
- the decoder: `parse_instruction` and `parse_rtype`, which mask a 32-bit
  instruction word into its R-type fields and dispatch;
- the ALU operations `add`, `sub`, `xor`, `or`, `and`, `sll`, `srl`, `sra`,
  `slt`, `sltu`, `addi`, `xori`, `ori` and `andi`.

Each of these operations reads and writes registers. The model treats the
CPU as an immutable register file (`Registers.RegFile`, a sequence of 32
`bv32` values), and each operation as a function from one register file to
the next. Values and indices are `bv32`, as the source's `u32`.

Modules:

- `Registers` (registers.dfy): the register file, `New`, `Get`, `Set`.
- `Decode` (decode.dfy): the mask constants and pure field extractors.
- `Bits` (bits.dfy): a bit-level view of a word, used to state the bitwise
  and shift operations bit by bit.
- `Alu` (alu.dfy): the value-level ALU functions and their properties.
- `Cpu` (cpu.dfy): the register-level operations and the decoder, as written.
- `Scenarios` (scenarios.dfy): the unit tests of cpu.rs, and concrete
  cases showing where the code departs from RV32I.

## Where the code departs from RV32I

The repository's design intent is RV32I. The code differs from it in several
places. The model follows the code in each case.

- x0 is ordinary storage. `set_register(0, v)` stores v, and a later read
  returns it (`Registers.ZeroRegisterIsWritable`).
- `parse_rtype` masks the fields but does not shift them down. It then
  reads the source registers, and passes their VALUES to `add`, which uses
  them as register indices again. A masked register field is a valid index
  only when it is zero. So `parse_rtype` runs without panicking only on
  words whose rs1 and rs2 fields are zero, and, when funct3 = funct7 = 0,
  whose rd field is zero and whose x0 holds an index below 32
  (`Cpu.RTypeDefinedIff`). Words whose opcode is not R-type never reach it. The documented `add x2, x4, x5` word makes
  it panic (`Cpu.DocumentedAddPanics`).
- Only funct3 = funct7 = 0 is dispatched, and it is dispatched to `add`.
  The match compares funct3 with FUNCT_7_ADD. This is harmless, because
  both constants are zero.
- The shifts apply SHIFT_MASK to the register INDEX rs2, not to the value
  read from it. So the shift amount is the whole value of register
  `rs2 & 0x1F` (`Cpu.ShiftAmount`). An amount of 32 or more is an overflow
  in Rust, and is excluded by a precondition.
- `ori` adds the immediate, and `andi` ors it in.
- Immediates are not decoded. The immediate operations take `imm` as an
  already-extracted `u32`, as the source's functions do.

A panic in the source (register index of 32 or more, shift amount of 32 or
more) is the precondition of the modelled function.

## Model

| member | source | states |
|---|---|---|
| Registers.New | src/cpu.rs:55-90 | every register of a new CPU reads 0 |
| Registers.Get | src/cpu.rs:161-197 | the value held in register i; an index of 32 or more, where the source panics, is excluded by precondition |
| Registers.Set | src/cpu.rs:123-197 | after writing v to index i < 32, reading i gives v, and every other index reads as before, x0 included |
| Registers.WritesIsSet | src/cpu.rs:123-158 | the write-then-read property holds of the result of `set_register` and of no other register file |
| Registers.WritesDeterminesResult | src/cpu.rs:123-158 | a register file that reads v at index i and agrees with the old one at every other index is exactly the result of writing v to i |
| Registers.Extensionality | src/cpu.rs:161-197 | two CPUs on which `get_reg_val` agrees for all 32 indices are equal |
| Registers.ZeroRegisterIsWritable | src/cpu.rs:124-125 | a value written to x0 is read back, so x0 is not hardwired to zero |
| Registers.SetSetSame | src/cpu.rs:123-158 | a second write to a register overrides the first |
| Registers.SetGetSame | src/cpu.rs:123-197 | writing back the value read from a register changes nothing |
| Registers.SetSetCommute | src/cpu.rs:123-158 | writes to distinct registers commute |
| Decode.Opcode | src/cpu.rs:5 | the opcode field is below 0x80, and the rest of the word has no opcode bits |
| Decode.Rd | src/cpu.rs:6 | the rd field is below 32, and shifted back up it is the masked word |
| Decode.Funct3 | src/cpu.rs:7 | the funct3 field is below 8, and shifted back up it is the masked word |
| Decode.Rs1 | src/cpu.rs:8 | the rs1 field is below 32, and shifted back up it is the masked word |
| Decode.Rs2 | src/cpu.rs:9 | the rs2 field is below 32, and shifted back up it is the masked word |
| Decode.Funct7 | src/cpu.rs:10 | the funct7 field is below 0x80, and shifted back up it is the masked word |
| Decode.DecodeR | src/cpu.rs:5-10 | splitting a word gives six fields, each within its width |
| Decode.MasksPartitionWord | src/cpu.rs:5-10 | the six masks are pairwise disjoint and together cover all 32 bits |
| Decode.EncodeDecode | src/cpu.rs:5-10 | re-assembling the fields of any word gives back the word |
| Decode.DecodeEncode | src/cpu.rs:5-10 | splitting an assembled word gives back its fields |
| Decode.DocumentedAddFields | src/cpu.rs:16-17 | the documented word has opcode 0b0110011, rd 2, rs1 4, rs2 5, and funct3 = funct7 = 0 |
| Alu.XorBits | src/cpu.rs:214-218 | each bit of the xor result is the exclusive or of the operand bits |
| Alu.OrBits | src/cpu.rs:221-225 | each bit of the or result is the disjunction of the operand bits |
| Alu.AndBits | src/cpu.rs:228-232 | each bit of the and result is the conjunction of the operand bits |
| Alu.SllBits | src/cpu.rs:235-239 | result bit j is operand bit j - k for j >= k, and 0 below k |
| Alu.SrlBits | src/cpu.rs:242-246 | result bit j is operand bit j + k below 32 - k, and 0 in the high k bits |
| Alu.SllIsRepeatedDoubling | src/cpu.rs:235-239 | shifting left by k is k wrapping doublings |
| Alu.SrlIsRepeatedHalving | src/cpu.rs:242-246 | shifting right logically by k is k halvings rounding down |
| Alu.Sra | src/cpu.rs:249-254 | on an operand with bit 31 clear, the arithmetic shift equals the logical one |
| Alu.SraBit | src/cpu.rs:249-254 | result bit j is operand bit j + k below 32 - k, and the sign bit in the high k bits |
| Alu.SraBits | src/cpu.rs:249-254 | the arithmetic shift replicates bit 31 into the high k bits, and moves the other bits as srl does |
| Alu.SubUndoesAdd | src/cpu.rs:200-211 | wrapping subtraction of b undoes wrapping addition of b |
| Alu.AddUndoesSub | src/cpu.rs:200-211 | wrapping addition of b undoes wrapping subtraction of b |
| Alu.XorUndoesXor | src/cpu.rs:214-218 | xoring with the same operand twice restores the value |
| Alu.Slt | src/cpu.rs:257-265 | the result is 0 or 1, and it is 1 exactly when a is below b as `i32` (negatives below non-negatives, the same sign ordered as unsigned) |
| Alu.Sltu | src/cpu.rs:268-276 | the result is 0 or 1, and it is 1 exactly when a is below b as `u32` |
| Alu.SltSltuAgreeOnSameSign | src/cpu.rs:257-276 | for operands of the same sign, slt and sltu give the same result |
| Alu.SltSltuDisagreeOnMixedSign | src/cpu.rs:257-276 | for operands of different signs, slt and sltu give opposite results |
| Cpu.Add | src/cpu.rs:200-204 | rd receives the wrapping sum of registers rs1 and rs2, and no other register changes |
| Cpu.Sub | src/cpu.rs:207-211 | rd receives the wrapping difference, and no other register changes |
| Cpu.Xor | src/cpu.rs:214-218 | rd receives the xor of registers rs1 and rs2, and no other register changes |
| Cpu.Or | src/cpu.rs:221-225 | rd receives the or, and no other register changes |
| Cpu.And | src/cpu.rs:228-232 | rd receives the and, and no other register changes |
| Cpu.ShiftAmount | src/cpu.rs:235-254 | the shift amount is the whole value of register rs2 & 0x1F, not a masked value; for a valid index rs2 it is the value of register rs2 |
| Cpu.Sll | src/cpu.rs:235-239 | rd receives register rs1 shifted left by the value of register rs2 & 0x1F, which must be below 32; no other register changes |
| Cpu.Srl | src/cpu.rs:242-246 | as Sll, with a logical right shift |
| Cpu.Sra | src/cpu.rs:249-254 | as Sll, with an arithmetic right shift |
| Cpu.Slt | src/cpu.rs:257-265 | rd receives 1 when register rs1 is below register rs2 as `i32`, and 0 otherwise; no other register changes |
| Cpu.Sltu | src/cpu.rs:268-276 | rd receives 1 when register rs1 is below register rs2 as `u32`, and 0 otherwise; no other register changes |
| Cpu.Addi | src/cpu.rs:279-283 | rd receives register rs1 plus imm, wrapping; no other register changes |
| Cpu.Xori | src/cpu.rs:286-290 | rd receives register rs1 xor imm; no other register changes |
| Cpu.Ori | src/cpu.rs:293-297 | rd receives register rs1 plus imm (the code adds); no other register changes |
| Cpu.Andi | src/cpu.rs:300-304 | rd receives register rs1 or imm (the code ors); no other register changes |
| Cpu.ParseRType | src/cpu.rs:103-121 | a word with funct3 or funct7 nonzero changes nothing; with both zero it stores into x0 the sum of two copies of the register that x0 names |
| Cpu.ParseInstruction | src/cpu.rs:93-101 | a word whose opcode is not 0b0110011 changes nothing, and no word changes any register other than x0 |
| Cpu.RTypeDefinedIff | src/cpu.rs:103-121 | `parse_rtype` avoids panicking exactly when the rs1 and rs2 fields are zero and, for funct3 = funct7 = 0, the rd field is zero and x0 holds a value below 32 |
| Cpu.DocumentedAddPanics | src/cpu.rs:103-113 | the documented `add x2, x4, x5` word is R-type, but `parse_rtype` panics on it whatever the registers hold |
| Cpu.XorUndoesXor | src/cpu.rs:214-218 | xoring rd with the same source register again restores the value of rs1, when rd is not that register |
| Cpu.SourcesCommute | src/cpu.rs:200-232 | add, xor, or and and give the same register file when rs1 and rs2 are swapped |
| Cpu.SelfCancels | src/cpu.rs:207-218 | sub and xor of a register with itself store 0 |
| Cpu.ShiftAmountIsWholeRegister | src/cpu.rs:235-254 | for a valid index rs2 the shift amount is the whole value of register rs2, not its low five bits |
| Cpu.ShiftAmountAliases | src/cpu.rs:235-254 | two rs2 arguments with the same low five bits give the same shift amount |
| Cpu.SraIsSrlWhenNonNegative | src/cpu.rs:242-254 | when register rs1 has bit 31 clear, sra and srl give the same register file |
| Cpu.SltSltuAgreement | src/cpu.rs:257-276 | slt and sltu agree when the two registers have the same sign, and store different values when the signs differ |
| Cpu.AddiMatchesAdd | src/cpu.rs:279-283 | addi with imm gives the same register file as add with a register holding imm |
| Cpu.XoriMatchesXor | src/cpu.rs:286-290 | xori with imm gives the same register file as xor with a register holding imm |
| Cpu.OriIsAddi | src/cpu.rs:293-297 | ori gives the same register file as addi |
| Cpu.AndiMatchesOr | src/cpu.rs:300-304 | andi with imm gives the same register file as or with a register holding imm |
| Scenarios.AddTest | src/cpu.rs:349-365 | 384 + 73952 stores 74336 in x20 |
| Scenarios.SubTest | src/cpu.rs:367-383 | 12 - 5 stores 7 |
| Scenarios.XorTest | src/cpu.rs:385-401 | 0b0000_1111_1010 xor 0b1111_0000_0011 stores 0b1111_1111_1001 |
| Scenarios.OrTest | src/cpu.rs:403-419 | the same operands ored store 0b1111_1111_1011 |
| Scenarios.AndTest | src/cpu.rs:421-437 | the same operands anded store 0b0000_0000_0010 |
| Scenarios.SllTests | src/cpu.rs:439-472 | 16 << 1 stores 32, and 0x8000 << 24 stores 0 |
| Scenarios.SrlTests | src/cpu.rs:474-507 | 0x0008_0000 >> 4 stores 0x0000_8000, and 0x8000_0000 >> 4 stores 0x0800_0000 |
| Scenarios.SraTests | src/cpu.rs:249-254 | sra of 0x0008_0000 by 4 stores 0x0000_8000, and sra of 0x8000_0000 by 4 stores 0xF800_0000 |
| Scenarios.SltTests | src/cpu.rs:527-560 | slt of 9 and 87 stores 1, and slt of 9 and 0xFFFF_FFA9 stores 0 |
| Scenarios.SltuTests | src/cpu.rs:562-594 | sltu of 9 and 87 stores 1, and sltu of 9 and 0xFFFF_FFA9 stores 1 |
| Scenarios.OriAdds | src/cpu.rs:293-297 | ori of 1 and 1 stores 2 |
| Scenarios.AndiOrs | src/cpu.rs:300-304 | andi of 0xC and 0xA stores 0xE |
| Scenarios.UnmaskedShiftAmount | src/cpu.rs:235-239 | a register value of 33 is not reduced to 1, and lies outside the accepted shift amounts |
| Scenarios.ShiftIndexAliasing | src/cpu.rs:235-239 | rs2 = 51 selects x19 as the shift amount |
| Scenarios.ZeroFieldAddDereferencesX0 | src/cpu.rs:93-121 | the all-zero R-type word, with x0 = 5 and x5 = 7, is accepted, and stores 14 in x0 |

## Left out

- The stubs `slli`, `srli`, `srai`, `slti` and `sltiu` (src/cpu.rs:307-329), and `lb` (src/cpu.rs:334-336). Their bodies are empty, and nothing calls them.
- I-type decoding and sign extension of immediates. The code has none; the only test of it (src/cpu.rs:596-606) is commented out.
- Rust's debug-build overflow panics on `+` and `-`. Add, Sub, Addi and Ori wrap modulo 2^32, as a release build and RV32I do.
- Cpu.Sll: a shift amount of 32 or more is excluded by precondition. A debug build panics there; a release build would use the amount's low five bits.
- Cpu.Srl: the same precondition on the shift amount, for the same reason.
- Cpu.Sra: the same precondition on the shift amount, for the same reason.
- The named-field layout of `CPU` (x0 .. x31 as struct fields) is modelled as a 32-element sequence. The register comments and the assembler URL at src/cpu.rs:339 carry no behaviour.
- The test `sra_test_1` (src/cpu.rs:509-525) calls `srl`, not `sra`. Scenarios.SrlTests covers it; Scenarios.SraTests uses the same input with `sra`.
- Alu.Slt: the signed order is stated on the bit patterns, as a sign-case order, not against integer arithmetic.
- Alu.SllIsRepeatedDoubling: the shift is related to wrapping doubling on `bv32`, not to multiplication by 2^k on integers.
- Alu.SrlIsRepeatedHalving: the shift is related to halving on `bv32`, not to integer division by 2^k.
- The register-level round trip "sub after add restores rs1" is stated only at the value level (Alu.SubUndoesAdd), not for register files.
