/**
  The TriCore encoding tables: data and address registers, the register
  pairs that hold 64-bit values (extended registers), the 16-bit instruction
  test and the comparison flags.
*/
module TricoreEncoding {
  import opened UInt

  // Registers: D0..D15 are 0..15, A0..A15 are 16..31.
  const D15: u32 := 15
  const A0: u32 := 0x10
  const SP: u32 := 26
  const RA: u32 := 27
  const NUMREGS: u32 := 0x20
  const NO_REG: u32 := 0x80

  /** A register of the enumeration (not NONE). */
  type Reg = r: u32 | r < NUMREGS

  /** `RegUtil::isDATA`: bit 4 of the register number is clear. */
  predicate IsData(reg: u32) {
    reg as bv32 & 0x10 == 0
  }

  /** `RegUtil::canBeExtReg`: the register number is even. */
  predicate CanBeExtReg(reg: u32) {
    reg as bv32 & 1 == 0
  }

  lemma {:induction false} RegisterClasses(reg: Reg)
    ensures IsData(reg) <==> reg < A0
    ensures CanBeExtReg(reg) <==> reg % 2 == 0
  {
    assert reg as bv32 & 0x10 == (if reg < 0x10 then 0 else 0x10) by {
      assert reg as bv32 < 0x20;
    }
    assert reg as bv32 & 1 == (reg % 2) as bv32 by {
      assert reg as bv32 < 0x20;
    }
  }

  /** Flipping bit 0 of a register number: the other register of its even/odd pair. */
  function Partner(reg: Reg): (r: Reg)
    ensures r != reg && r / 2 == reg / 2
  {
    (reg as bv8 ^ 1) as u32
  }

  /**
    `getOtherExtReg`: the other half of the register pair of a data
    register; it stays a data register and swaps even and odd.
  */
  function OtherExtReg(reg: Reg): (r: Reg)
    requires reg < A0
    ensures r < A0 && r != reg && r / 2 == reg / 2
  {
    Partner(reg)
  }

  /** `getOtherExtAddrReg`: the same on address registers. */
  function OtherExtAddrReg(reg: Reg): (r: Reg)
    requires reg >= A0
    ensures r >= A0 && r != reg && r / 2 == reg / 2
  {
    Partner(reg)
  }

  /** Taking the other half twice gives the register back. */
  lemma {:induction false} OtherExtInvolution(reg: Reg)
    ensures reg < A0 ==> OtherExtReg(OtherExtReg(reg)) == reg
    ensures reg >= A0 ==> OtherExtAddrReg(OtherExtAddrReg(reg)) == reg
  {
    var r := Partner(reg);
    assert Partner(r) / 2 == reg / 2 && Partner(r) != r;
  }

  /** Exactly one register of each pair can start an extended register. */
  lemma {:induction false} PairHalves(reg: Reg)
    ensures CanBeExtReg(reg) != CanBeExtReg(Partner(reg))
    ensures IsData(reg) == IsData(Partner(reg))
  {
    RegisterClasses(reg);
    RegisterClasses(Partner(reg));
  }

  /** `is16BitInstr`: bit 0 of the opcode template is clear. */
  predicate Is16BitInstr(opcode: u32) {
    opcode as bv32 & 1 == 0
  }

  const I__ADD_DA_DB: u32 := 0x0042
  const I__ADD_DC_DA_DB: u32 := 0x000B

  /** An opcode is 16 bits wide exactly when it is even; ADD Da,Db is, ADD Dc,Da,Db is not. */
  lemma {:induction false} InstrWidths(opcode: u32)
    ensures Is16BitInstr(opcode) <==> opcode % 2 == 0
    ensures Is16BitInstr(I__ADD_DA_DB) && !Is16BitInstr(I__ADD_DC_DA_DB)
  {
  }

  /** `CMPFFLAGS`: one bit per outcome of a floating-point comparison. */
  type CmpFlags = x: bv8 | x < 64

  const CMP_NONE: CmpFlags := 0
  const CMP_LT: CmpFlags := 1
  const CMP_EQ: CmpFlags := 2
  const CMP_GT: CmpFlags := 4
  const CMP_UNORD: CmpFlags := 8
  const CMP_A_SUBN: CmpFlags := 16
  const CMP_B_SUBN: CmpFlags := 32

  /** Flag i (bit i) is set in x. */
  predicate Flag(x: CmpFlags, i: nat)
    requires i < 6
  {
    x & (1 << i) != 0
  }

  /** `operator|` on `CMPFFLAGS`: a flag is set in the result iff it is set in either argument. */
  function FlagsOr(lhs: CmpFlags, rhs: CmpFlags): (r: CmpFlags)
    ensures forall i: nat | i < 6 :: Flag(r, i) <==> Flag(lhs, i) || Flag(rhs, i)
  {
    lhs | rhs
  }

  lemma {:induction false} FlagsOrLaws(a: CmpFlags, b: CmpFlags, c: CmpFlags)
    ensures FlagsOr(CMP_NONE, a) == a
    ensures FlagsOr(a, b) == FlagsOr(b, a)
    ensures FlagsOr(a, a) == a
    ensures FlagsOr(FlagsOr(a, b), c) == FlagsOr(a, FlagsOr(b, c))
  {
  }
}
