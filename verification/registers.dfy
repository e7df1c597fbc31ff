/**
 The register file of the CPU: 32 unsigned 32-bit slots x0 .. x31, addressed
 by a 32-bit index as in `get_reg_val` and `set_register`. An index of 32 or
 more makes both accessors panic; here that is their precondition.

 Unlike RV32I, x0 is ordinary storage: a write to index 0 is kept and read
 back like any other.
 */
module Registers {

  /** Number of general-purpose registers. */
  const COUNT: bv32 := 32

  /** The 32 registers, slot i holding xi. */
  type RegFile = s: seq<bv32> | |s| == 32 witness seq(32, _ => 0)

  /** The value of register i (`get_reg_val`). */
  function Get(r: RegFile, i: bv32): bv32
    requires i < COUNT
  {
    r[i as int]
  }

  /** r' is r with register i holding v and every other register unchanged. */
  ghost predicate Writes(r: RegFile, r': RegFile, i: bv32, v: bv32)
    requires i < COUNT
  {
    && Get(r', i) == v
    && forall j: bv32 :: j < COUNT && j != i ==> Get(r', j) == Get(r, j)
  }

  /** A freshly constructed CPU (`CPU::new`): every register is zero. */
  function New(): (r: RegFile)
    ensures forall j: bv32 :: j < COUNT ==> Get(r, j) == 0
  {
    seq(32, _ => 0)
  }

  /** Stores v in register i (`set_register`); index 0 is not special. */
  function Set(r: RegFile, i: bv32, v: bv32): (r': RegFile)
    requires i < COUNT
    ensures Writes(r, r', i, v)
  {
    r[i as int := v]
  }

  /** Writes pins down the whole register file: it holds of Set's result only. */
  lemma {:induction false} WritesIsSet(r: RegFile, r': RegFile, i: bv32, v: bv32)
    requires i < COUNT
    ensures Writes(r, r', i, v) <==> r' == Set(r, i, v)
  {
    if Writes(r, r', i, v) {
      WritesDeterminesResult(r, r', i, v);
    }
  }

  lemma {:induction false} WritesDeterminesResult(r: RegFile, r': RegFile, i: bv32, v: bv32)
    requires i < COUNT && Writes(r, r', i, v)
    ensures r' == Set(r, i, v)
  {
    var s := Set(r, i, v);
    forall j: bv32 | j < COUNT
      ensures Get(r', j) == Get(s, j)
    {
      if j != i {
        assert Get(r', j) == Get(r, j);
      }
    }
    Extensionality(r', s);
  }

  /** Two register files that agree on every index are equal. */
  lemma {:induction false} Extensionality(r: RegFile, r': RegFile)
    requires forall j: bv32 :: j < COUNT ==> Get(r, j) == Get(r', j)
    ensures r == r'
  {
    forall k | 0 <= k < 32
      ensures r[k] == r'[k]
    {
      IndexRoundTrip(k);
      assert Get(r, k as bv32) == Get(r', k as bv32);
    }
  }

  /** Every slot position is the index of a register. */
  lemma IndexRoundTrip(k: int)
    requires 0 <= k < 32
    ensures k as bv32 < COUNT && (k as bv32) as int == k
  {
  }

  /** There is no zero hardwiring: whatever is written to x0 is read back. */
  lemma ZeroRegisterIsWritable(r: RegFile, v: bv32)
    ensures Get(Set(r, 0, v), 0) == v
  {
  }

  /** A second write to the same register overrides the first. */
  lemma SetSetSame(r: RegFile, i: bv32, v: bv32, w: bv32)
    requires i < COUNT
    ensures Set(Set(r, i, v), i, w) == Set(r, i, w)
  {
  }

  /** Writing back the value a register already holds changes nothing. */
  lemma SetGetSame(r: RegFile, i: bv32)
    requires i < COUNT
    ensures Set(r, i, Get(r, i)) == r
  {
  }

  /** Writes to different registers commute. */
  lemma SetSetCommute(r: RegFile, i: bv32, j: bv32, v: bv32, w: bv32)
    requires i < COUNT && j < COUNT && i != j
    ensures Set(Set(r, i, v), j, w) == Set(Set(r, j, w), i, v)
  {
  }
}
