/**
  The TriCore assembler's arithmetic: jump conditions and their negation,
  stack-frame alignment and resizing, the instruction sequences that add an
  immediate to a register, lower the stack pointer or load an immediate,
  the table of trap positions, and the cost model that matches operands to
  instruction forms.

  Emitted code is a list of instructions. The meaning of each instruction
  form (`Step`) is the one its TriCore mnemonic names; the proofs show that
  every emitted sequence computes exactly the register update the caller
  asked for.
*/
module TricoreAssembler {
  import opened UInt
  import opened TricoreEncoding
  import opened CommonTables
  import opened VariableStorages
  import opened StackFrames
  import M = ModuleInfos
  import R = WasmReader

  // ---------------------------------------------------------------------
  // Jump conditions
  // ---------------------------------------------------------------------

  /** `JumpCondition::Kind`: a condition and its negation are the two kinds of one pair. */
  type JumpKind = k: nat | k < 14

  const BIT_TRUE: JumpKind := 0
  const BIT_FALSE: JumpKind := 1
  const I32_LT_REG: JumpKind := 2
  const I32_GE_REG: JumpKind := 3
  const U32_LT_REG: JumpKind := 4
  const U32_GE_REG: JumpKind := 5
  const I32_LT_CONST4SX: JumpKind := 6
  const I32_GE_CONST4SX: JumpKind := 7
  const I32_EQ_REG: JumpKind := 8
  const I32_NE_REG: JumpKind := 9
  const ADDR_EQ_REG: JumpKind := 10
  const ADDR_NE_REG: JumpKind := 11
  const I32_EQ_CONST4SX: JumpKind := 12
  const I32_NE_CONST4SX: JumpKind := 13

  /** `SafeInt<4U>`: a signed 4-bit immediate. */
  type Const4sx = x: int | -8 <= x < 8

  datatype JumpCondition = JumpCondition(kind: JumpKind, regA: u32, regB: u32, imm: Const4sx)

  function BitTrue(reg: u32, n: Const4sx): JumpCondition {
    JumpCondition(BIT_TRUE, reg, NO_REG, n)
  }

  function BitFalse(reg: u32, n: Const4sx): JumpCondition {
    JumpCondition(BIT_FALSE, reg, NO_REG, n)
  }

  function I32NeReg(regA: u32, regB: u32): JumpCondition {
    JumpCondition(I32_NE_REG, regA, regB, 0)
  }

  function I32LtReg(regA: u32, regB: u32): JumpCondition {
    JumpCondition(I32_LT_REG, regA, regB, 0)
  }

  function U32LtReg(regA: u32, regB: u32): JumpCondition {
    JumpCondition(U32_LT_REG, regA, regB, 0)
  }

  function I32LtConst4sx(reg: u32, imm: Const4sx): JumpCondition {
    JumpCondition(I32_LT_CONST4SX, reg, NO_REG, imm)
  }

  function AddrEqReg(regA: u32, regB: u32): JumpCondition {
    JumpCondition(ADDR_EQ_REG, regA, regB, 0)
  }

  function I32EqConst4sx(reg: u32, imm: Const4sx): JumpCondition {
    JumpCondition(I32_EQ_CONST4SX, reg, NO_REG, imm)
  }

  function I32NeConst4sx(reg: u32, imm: Const4sx): JumpCondition {
    JumpCondition(I32_NE_CONST4SX, reg, NO_REG, imm)
  }

  /** XOR with `NegateMask`: the other kind of the same pair. */
  function NegateKind(k: JumpKind): (r: JumpKind)
    ensures r != k && r / 2 == k / 2
  {
    var x := (k as bv8 ^ 1) as int;
    assert x == if k % 2 == 0 then k + 1 else k - 1 by {
      assert k as bv8 < 14;
    }
    x
  }

  /** `negateJump`: the negated condition on the same registers and immediate. */
  function NegateJump(c: JumpCondition): (r: JumpCondition)
    ensures r.kind != c.kind && r.kind / 2 == c.kind / 2
    ensures r.regA == c.regA && r.regB == c.regB && r.imm == c.imm
  {
    c.(kind := NegateKind(c.kind))
  }

  /** Negating twice gives the condition back. */
  lemma {:induction false} NegateJumpInvolution(c: JumpCondition)
    ensures NegateJump(NegateJump(c)) == c
  {
    var r := NegateJump(NegateJump(c));
    assert r.kind / 2 == c.kind / 2 && r.kind != NegateKind(c.kind);
  }

  /** Each factory's condition negates to its partner on the same operands. */
  lemma {:induction false} FactoryNegations(reg: u32, regB: u32, imm: Const4sx)
    ensures NegateJump(BitTrue(reg, imm)) == BitFalse(reg, imm)
    ensures NegateJump(BitFalse(reg, imm)) == BitTrue(reg, imm)
    ensures NegateJump(I32EqConst4sx(reg, imm)) == I32NeConst4sx(reg, imm)
    ensures NegateJump(I32NeConst4sx(reg, imm)) == I32EqConst4sx(reg, imm)
    ensures NegateJump(I32LtReg(reg, regB)) == JumpCondition(I32_GE_REG, reg, regB, 0)
    ensures NegateJump(U32LtReg(reg, regB)) == JumpCondition(U32_GE_REG, reg, regB, 0)
    ensures NegateJump(I32LtConst4sx(reg, imm)) == JumpCondition(I32_GE_CONST4SX, reg, NO_REG, imm)
    ensures NegateJump(I32NeReg(reg, regB)) == JumpCondition(I32_EQ_REG, reg, regB, 0)
    ensures NegateJump(AddrEqReg(reg, regB)) == JumpCondition(ADDR_NE_REG, reg, regB, 0)
  {
  }

  // ---------------------------------------------------------------------
  // Stack frame alignment
  // ---------------------------------------------------------------------

  /**
    `alignStackFrameSize`: the frame below the parameters is padded to
    8 bytes; without wrap-around this is the least such size at or above
    the request, and aligning again changes nothing.
  */
  function AlignStackFrameSize(frameSize: u32, paramWidth: u32): (r: u32)
    ensures Wrap32(r - paramWidth) % 8 == 0
    ensures paramWidth <= frameSize && frameSize + 8 <= TWO32 ==>
              frameSize <= r < frameSize + 8 && (r - paramWidth) % 8 == 0
    ensures AlignFrame(r, paramWidth, 3) == r
  {
    AlignedFacts(frameSize, paramWidth, 3, 8);
    AlignFrame(frameSize, paramWidth, 3)
  }

  // ---------------------------------------------------------------------
  // Instructions and their effect on the register file
  // ---------------------------------------------------------------------

  type Const16sx = x: int | -0x8000 <= x < 0x8000

  /** The instruction forms the immediate helpers emit. */
  datatype Instr =
    | MovDaDb(da: Reg, db: Reg)
    | MovAaAb(aa: Reg, ab: Reg)
    | AddDaConst4sx(da: Reg, c4: Const4sx)
    | AddDaD15Const4sx(da: Reg, c4: Const4sx)
    | AddD15DaConst4sx(da: Reg, c4: Const4sx)
    | AddiDcDaConst16sx(dc: Reg, da: Reg, c16sx: Const16sx)
    | AddihDcDaConst16(dc: Reg, da: Reg, c16: u16)
    | AddaAaConst4sx(aa: Reg, c4: Const4sx)
    | LeaAaAbOff16sx(aa: Reg, ab: Reg, c16sx: Const16sx)
    | AddihaAcAaConst16(ac: Reg, aa: Reg, c16: u16)
    | SubaA10Const8zx(c8: u8)
    | MovDaConst4sx(da: Reg, c4: Const4sx)
    | MovD15Const8zx(c8: u8)
    | MovuDcConst16zx(dc: Reg, c16: u16)
    | MovhDcConst16(dc: Reg, c16: u16)
    | MovDcConst16sx(dc: Reg, c16sx: Const16sx)
    | MovaAaConst4zx(aa: Reg, c4zx: u8)
    | MovhaAcConst16(ac: Reg, c16: u16)

  /** The register file: one 32-bit value per register D0..D15, A0..A15. */
  predicate IsRegFile(regs: seq<u32>) {
    |regs| == NUMREGS
  }

  /** What one instruction does to the register file. */
  function Step(i: Instr, regs: seq<u32>): (r: seq<u32>)
    requires IsRegFile(regs)
    ensures IsRegFile(r)
  {
    match i
    case MovDaDb(da, db) => regs[da := regs[db]]
    case MovAaAb(aa, ab) => regs[aa := regs[ab]]
    case AddDaConst4sx(da, c) => regs[da := Wrap32(regs[da] + c)]
    case AddDaD15Const4sx(da, c) => regs[da := Wrap32(regs[D15] + c)]
    case AddD15DaConst4sx(da, c) => regs[D15 := Wrap32(regs[da] + c)]
    case AddiDcDaConst16sx(dc, da, c) => regs[dc := Wrap32(regs[da] + c)]
    case AddihDcDaConst16(dc, da, c) => regs[dc := Wrap32(regs[da] + c * TWO16)]
    case AddaAaConst4sx(aa, c) => regs[aa := Wrap32(regs[aa] + c)]
    case LeaAaAbOff16sx(aa, ab, c) => regs[aa := Wrap32(regs[ab] + c)]
    case AddihaAcAaConst16(ac, aa, c) => regs[ac := Wrap32(regs[aa] + c * TWO16)]
    case SubaA10Const8zx(c) => regs[SP := Wrap32(regs[SP] - c)]
    case MovDaConst4sx(da, c) => regs[da := Wrap32(c)]
    case MovD15Const8zx(c) => regs[D15 := c]
    case MovuDcConst16zx(dc, c) => regs[dc := c]
    case MovhDcConst16(dc, c) => regs[dc := c * TWO16]
    case MovDcConst16sx(dc, c) => regs[dc := Wrap32(c)]
    case MovaAaConst4zx(aa, c) => regs[aa := c]
    case MovhaAcConst16(ac, c) => regs[ac := c * TWO16]
  }

  /** Running a sequence of instructions in order. */
  function Run(code: seq<Instr>, regs: seq<u32>): (r: seq<u32>)
    requires IsRegFile(regs)
    ensures IsRegFile(r)
    decreases |code|
  {
    if code == [] then regs else Run(code[1..], Step(code[0], regs))
  }

  // ---------------------------------------------------------------------
  // Splitting a 32-bit immediate into two 16-bit halves
  // ---------------------------------------------------------------------

  /** `Instruction::lower16sx`: the low half, sign-extended. */
  function Low16sx(imm: u32): Const16sx {
    var low := imm % TWO16;
    if low < 0x8000 then low else low - TWO16
  }

  /** `(imm + 0x8000) >> 16` in `uint32_t`: the high half, rounded for the sign of the low half. */
  function High16(imm: u32): u16 {
    Wrap32(imm + 0x8000) / TWO16
  }

  /** The two halves add up to the immediate, modulo 2^32. */
  lemma {:induction false} SplitImm(imm: u32)
    ensures Low16sx(imm) + High16(imm) * TWO16 == imm || Low16sx(imm) + High16(imm) * TWO16 == imm - TWO32
    ensures imm % TWO16 == 0 ==> Low16sx(imm) == 0 && High16(imm) * TWO16 == imm
  {
    var q := imm / TWO16;
    var low := imm % TWO16;
    assert imm == TWO16 * q + low;
    assert q < TWO16;
    if low < 0x8000 {
      DivModUnique(imm + 0x8000, TWO32, 0, imm + 0x8000);
      DivModUnique(imm + 0x8000, TWO16, q, low + 0x8000);
    } else if q + 1 < TWO16 {
      DivModUnique(imm + 0x8000, TWO32, 0, imm + 0x8000);
      DivModUnique(imm + 0x8000, TWO16, q + 1, low - 0x8000);
    } else {
      DivModUnique(imm + 0x8000, TWO32, 1, low - 0x8000);
      DivModUnique(low - 0x8000, TWO16, 0, low - 0x8000);
    }
  }

  /** Adding the two halves one after the other adds the immediate. */
  lemma {:induction false} AddHalves(x: int, imm: u32)
    ensures Wrap32(Wrap32(x + Low16sx(imm)) + High16(imm) * TWO16) == Wrap32(x + imm)
    ensures High16(imm) == 0 ==> Wrap32(x + Low16sx(imm)) == Wrap32(x + imm)
    ensures imm % TWO16 == 0 ==> Wrap32(x + High16(imm) * TWO16) == Wrap32(x + imm)
  {
    SplitImm(imm);
    WrapAdd(x + Low16sx(imm), High16(imm) * TWO16);
    if Low16sx(imm) + High16(imm) * TWO16 != imm {
      WrapShift(x + imm, -1);
    }
  }

  /** A value that fits a signed 4-bit immediate, read as `int32_t`. */
  predicate FitsConst4sx(imm: u32) {
    -8 <= AsI32(imm) < 8
  }

  /** Adding the signed reading of an immediate is adding the immediate. */
  lemma {:induction false} AddSigned(x: int, imm: u32)
    ensures Wrap32(x + AsI32(imm)) == Wrap32(x + imm)
  {
    if imm >= 0x8000_0000 {
      WrapShift(x + imm, -1);
    }
  }

  // ---------------------------------------------------------------------
  // addImmToReg, subSp, MOVimm
  // ---------------------------------------------------------------------

  /**
    The low half and then the high half of a nonzero immediate added to
    `reg` into `target`, each left out when it is zero: ADDI and ADDIH on
    data registers, LEA and ADDIH.A on address registers.
  */
  function HalvesCode(data: bool, reg: Reg, imm: u32, target: Reg): (code: seq<Instr>)
    ensures 1 <= |code| <= 2 || imm == 0
  {
    SplitImm(imm);
    var low := if imm % TWO16 == 0 then [] else [LowAdd(data, target, reg, Low16sx(imm))];
    var source := if imm % TWO16 != 0 then target else reg;
    var high := if High16(imm) == 0 then [] else [HighAdd(data, target, source, High16(imm))];
    low + high
  }

  /** Adding a sign-extended low half: ADDI on data registers, LEA on address registers. */
  function LowAdd(data: bool, target: Reg, reg: Reg, low: Const16sx): Instr {
    if data then AddiDcDaConst16sx(target, reg, low) else LeaAaAbOff16sx(target, reg, low)
  }

  /** Adding a high half: ADDIH on data registers, ADDIH.A on address registers. */
  function HighAdd(data: bool, target: Reg, source: Reg, high: u16): Instr {
    if data then AddihDcDaConst16(target, source, high) else AddihaAcAaConst16(target, source, high)
  }

  lemma {:induction false} StepLowAdd(data: bool, target: Reg, reg: Reg, low: Const16sx, regs: seq<u32>)
    requires IsRegFile(regs)
    ensures Step(LowAdd(data, target, reg, low), regs) == regs[target := Wrap32(regs[reg] + low)]
  {
  }

  lemma {:induction false} StepHighAdd(data: bool, target: Reg, source: Reg, high: u16, regs: seq<u32>)
    requires IsRegFile(regs)
    ensures Step(HighAdd(data, target, source, high), regs) == regs[target := Wrap32(regs[source] + high * TWO16)]
  {
  }

  /** The low half and then the high half added into one register. */
  lemma {:induction false} LowThenHigh(data: bool, regs: seq<u32>, reg: Reg, target: Reg, low: Const16sx, high: u16,
                                       sum: u32)
    requires IsRegFile(regs) && Wrap32(Wrap32(regs[reg] + low) + high * TWO16) == sum
    ensures Run([LowAdd(data, target, reg, low), HighAdd(data, target, target, high)], regs) == regs[target := sum]
  {
    var mid: u32 := Wrap32(regs[reg] + low);
    RunTwo(LowAdd(data, target, reg, low), HighAdd(data, target, target, high), regs);
    StepLowAdd(data, target, reg, low, regs);
    StepHighAdd(data, target, target, high, regs[target := mid]);
    Overwrite(regs, target, mid, sum);
  }

  /**
    The instructions `addImmToReg(reg, imm, target)` emits: nothing or one
    move for 0, one short add for a 4-bit immediate when the registers
    allow, otherwise the two halves of the immediate.
  */
  function AddImmCode(reg: Reg, imm: u32, target: Reg): (code: seq<Instr>)
    requires IsData(reg) == IsData(target)
    ensures |code| <= 2
    ensures imm == 0 ==> (code == [] <==> target == reg)
    ensures imm != 0 && IsData(reg) && FitsConst4sx(imm) && (target == reg || reg == D15 || target == D15) ==> |code| == 1
  {
    if imm == 0 then
      if target == reg then []
      else if IsData(reg) then [MovDaDb(target, reg)]
      else [MovAaAb(target, reg)]
    else if IsData(reg) then
      if FitsConst4sx(imm) && target == reg then [AddDaConst4sx(reg, AsI32(imm))]
      else if FitsConst4sx(imm) && reg == D15 then [AddDaD15Const4sx(target, AsI32(imm))]
      else if FitsConst4sx(imm) && target == D15 then [AddD15DaConst4sx(reg, AsI32(imm))]
      else HalvesCode(true, reg, imm, target)
    else
      if FitsConst4sx(imm) && reg == target then [AddaAaConst4sx(target, AsI32(imm))]
      else HalvesCode(false, reg, imm, target)
  }

  lemma {:induction false} RunOne(a: Instr, regs: seq<u32>)
    requires IsRegFile(regs)
    ensures Run([a], regs) == Step(a, regs)
  {
    assert [a][1..] == [];
  }

  lemma {:induction false} RunTwo(a: Instr, b: Instr, regs: seq<u32>)
    requires IsRegFile(regs)
    ensures Run([a, b], regs) == Step(b, Step(a, regs))
  {
    assert [a, b][1..] == [b];
    RunOne(b, Step(a, regs));
  }

  /** The two halves leave target = reg + imm (mod 2^32) and change nothing else. */
  lemma {:induction false} HalvesEffect(data: bool, reg: Reg, imm: u32, target: Reg, regs: seq<u32>)
    requires imm != 0 && IsRegFile(regs)
    ensures Run(HalvesCode(data, reg, imm, target), regs) == regs[target := Wrap32(regs[reg] + imm)]
  {
    var code := HalvesCode(data, reg, imm, target);
    AddHalves(regs[reg], imm);
    SplitImm(imm);
    if imm % TWO16 == 0 {
      var high := HighAdd(data, target, reg, High16(imm));
      assert code == [high];
      RunOne(high, regs);
      StepHighAdd(data, target, reg, High16(imm), regs);
    } else if High16(imm) == 0 {
      var low := LowAdd(data, target, reg, Low16sx(imm));
      assert code == [low];
      RunOne(low, regs);
      StepLowAdd(data, target, reg, Low16sx(imm), regs);
    } else {
      assert code == [LowAdd(data, target, reg, Low16sx(imm)), HighAdd(data, target, target, High16(imm))];
      LowThenHigh(data, regs, reg, target, Low16sx(imm), High16(imm), Wrap32(regs[reg] + imm));
    }
  }

  /** The emitted code leaves target = reg + imm (mod 2^32) and every other register as it was. */
  lemma {:induction false} AddImmEffect(reg: Reg, imm: u32, target: Reg, regs: seq<u32>)
    requires IsData(reg) == IsData(target) && IsRegFile(regs)
    ensures Run(AddImmCode(reg, imm, target), regs) == regs[target := Wrap32(regs[reg] + imm)]
  {
    var code := AddImmCode(reg, imm, target);
    var sum: u32 := Wrap32(regs[reg] + imm);
    if imm == 0 {
      WrapSmall(regs[reg]);
      MoveEffect(reg, target, regs);
    } else if !FitsConst4sx(imm) {
      HalvesEffect(IsData(reg), reg, imm, target, regs);
    } else {
      AddSigned(regs[reg], imm);
      var c: Const4sx := AsI32(imm);
      if IsData(reg) && target == reg {
        assert code == [AddDaConst4sx(reg, c)];
        RunOne(AddDaConst4sx(reg, c), regs);
      } else if IsData(reg) && reg == D15 {
        assert code == [AddDaD15Const4sx(target, c)];
        RunOne(AddDaD15Const4sx(target, c), regs);
      } else if IsData(reg) && target == D15 {
        assert code == [AddD15DaConst4sx(reg, c)];
        RunOne(AddD15DaConst4sx(reg, c), regs);
      } else if !IsData(reg) && reg == target {
        assert code == [AddaAaConst4sx(target, c)];
        RunOne(AddaAaConst4sx(target, c), regs);
      } else {
        HalvesEffect(IsData(reg), reg, imm, target, regs);
      }
    }
  }

  /** With a zero immediate the code copies reg into target, or does nothing when they are the same. */
  lemma {:induction false} MoveEffect(reg: Reg, target: Reg, regs: seq<u32>)
    requires IsData(reg) == IsData(target) && IsRegFile(regs)
    ensures Run(AddImmCode(reg, 0, target), regs) == regs[target := regs[reg]]
  {
    if target == reg {
      assert AddImmCode(reg, 0, target) == [];
      SameWrite(regs, reg);
    } else if IsData(reg) {
      assert AddImmCode(reg, 0, target) == [MovDaDb(target, reg)];
      RunOne(MovDaDb(target, reg), regs);
      StepMovDaDb(target, reg, regs);
    } else {
      assert AddImmCode(reg, 0, target) == [MovAaAb(target, reg)];
      RunOne(MovAaAb(target, reg), regs);
      StepMovAaAb(target, reg, regs);
    }
  }

  lemma {:induction false} StepMovDaDb(da: Reg, db: Reg, regs: seq<u32>)
    requires IsRegFile(regs)
    ensures Step(MovDaDb(da, db), regs) == regs[da := regs[db]]
  {
  }

  lemma {:induction false} StepMovAaAb(aa: Reg, ab: Reg, regs: seq<u32>)
    requires IsRegFile(regs)
    ensures Step(MovAaAb(aa, ab), regs) == regs[aa := regs[ab]]
  {
  }

  /** Writing a register's own value back changes nothing. */
  lemma {:induction false} SameWrite(regs: seq<u32>, reg: Reg)
    requires IsRegFile(regs)
    ensures regs[reg := regs[reg]] == regs
  {
  }

  /** `subSp(imm)`: nothing for 0, one SUB.A for 1..255, otherwise adding the negated immediate. */
  function SubSpCode(imm: u32): (code: seq<Instr>)
    ensures imm == 0 <==> code == []
    ensures 0 < imm < 256 ==> |code| == 1
  {
    if imm == 0 then []
    else if imm < 256 then [SubaA10Const8zx(imm)]
    else AddImmCode(SP, Wrap32(0 - imm), SP)
  }

  /** The stack pointer goes down by imm (mod 2^32); nothing else changes. */
  lemma {:induction false} SubSpEffect(imm: u32, regs: seq<u32>)
    requires IsRegFile(regs)
    ensures Run(SubSpCode(imm), regs) == regs[SP := Wrap32(regs[SP] - imm)]
  {
    if imm == 0 {
      assert regs[SP := Wrap32(regs[SP] - imm)] == regs;
    } else if imm < 256 {
      RunTwo(SubaA10Const8zx(imm), SubaA10Const8zx(imm), regs);
    } else {
      AddImmEffect(SP, Wrap32(0 - imm), SP, regs);
      WrapAdd(0 - imm, regs[SP]);
    }
  }

  /**
    The instructions `MOVimm(reg, imm)` emits. For a data register the first
    form that holds the value: a 4-bit signed move, the D15 8-bit move, a
    16-bit unsigned move, a move of the high half when the low half is zero,
    else a signed low half followed by an add of the high half. For an
    address register a 4-bit move, else the high half and then the low half.
  */
  function MovImmCode(reg: Reg, imm: u32): (code: seq<Instr>)
    ensures 1 <= |code| <= 2
    ensures IsData(reg) && (FitsConst4sx(imm) || imm < TWO16 || imm % TWO16 == 0) ==> |code| == 1
  {
    if IsData(reg) then
      if FitsConst4sx(imm) then [MovDaConst4sx(reg, AsI32(imm))]
      else if reg == D15 && imm < 256 then [MovD15Const8zx(imm)]
      else if imm < TWO16 then [MovuDcConst16zx(reg, imm)]
      else if imm % TWO16 == 0 then [MovhDcConst16(reg, imm / TWO16)]
      else
        [MovDcConst16sx(reg, Low16sx(imm))]
        + (if High16(imm) != 0 then [AddihDcDaConst16(reg, reg, High16(imm))] else [])
    else
      if imm < 16 then [MovaAaConst4zx(reg, imm)]
      else
        [MovhaAcConst16(reg, High16(imm))]
        + (if imm % TWO16 != 0 then [LeaAaAbOff16sx(reg, reg, Low16sx(imm))] else [])
  }

  /** The emitted code leaves exactly imm in the register and changes nothing else. */
  lemma {:induction false} MovImmEffect(reg: Reg, imm: u32, regs: seq<u32>)
    requires IsRegFile(regs)
    ensures Run(MovImmCode(reg, imm), regs) == regs[reg := imm]
  {
    if IsData(reg) {
      MovDataEffect(reg, imm, regs);
    } else {
      MovAddrEffect(reg, imm, regs);
    }
  }

  lemma {:induction false} MovDataEffect(reg: Reg, imm: u32, regs: seq<u32>)
    requires IsRegFile(regs) && IsData(reg)
    ensures Run(MovImmCode(reg, imm), regs) == regs[reg := imm]
  {
    var code := MovImmCode(reg, imm);
    if FitsConst4sx(imm) {
      assert code == [MovDaConst4sx(reg, AsI32(imm))];
      RunOne(code[0], regs);
      AddSigned(0, imm);
      WrapSmall(imm);
    } else if (reg == D15 && imm < 256) || imm < TWO16 {
      RunOne(code[0], regs);
    } else if imm % TWO16 == 0 {
      assert code == [MovhDcConst16(reg, imm / TWO16)];
      RunOne(code[0], regs);
    } else {
      MovDataHalves(reg, imm, regs);
    }
  }

  lemma {:induction false} MovDataHalves(reg: Reg, imm: u32, regs: seq<u32>)
    requires IsRegFile(regs) && IsData(reg)
    requires !FitsConst4sx(imm) && !(reg == D15 && imm < 256) && imm >= TWO16 && imm % TWO16 != 0
    ensures Run(MovImmCode(reg, imm), regs) == regs[reg := imm]
  {
    var code := MovImmCode(reg, imm);
    AddHalves(0, imm);
    WrapSmall(imm);
    var mov := MovDcConst16sx(reg, Low16sx(imm));
    if High16(imm) == 0 {
      assert code == [mov];
      RunOne(mov, regs);
      StepMovLow(reg, Low16sx(imm), regs);
    } else {
      assert code == [mov, AddihDcDaConst16(reg, reg, High16(imm))];
      MovLowAddHigh(regs, reg, Low16sx(imm), High16(imm), imm);
    }
  }

  lemma {:induction false} StepMovLow(dc: Reg, low: Const16sx, regs: seq<u32>)
    requires IsRegFile(regs)
    ensures Step(MovDcConst16sx(dc, low), regs) == regs[dc := Wrap32(low)]
  {
  }

  /** Moving the sign-extended low half into a data register and adding the high half. */
  lemma {:induction false} MovLowAddHigh(regs: seq<u32>, reg: Reg, low: Const16sx, high: u16, imm: u32)
    requires IsRegFile(regs) && Wrap32(Wrap32(low) + high * TWO16) == imm
    ensures Run([MovDcConst16sx(reg, low), AddihDcDaConst16(reg, reg, high)], regs) == regs[reg := imm]
  {
    var mid: u32 := Wrap32(low);
    RunTwo(MovDcConst16sx(reg, low), AddihDcDaConst16(reg, reg, high), regs);
    StepMovLow(reg, low, regs);
    StepHighAdd(true, reg, reg, high, regs[reg := mid]);
    Overwrite(regs, reg, mid, imm);
  }

  lemma {:induction false} MovAddrEffect(reg: Reg, imm: u32, regs: seq<u32>)
    requires IsRegFile(regs) && !IsData(reg)
    ensures Run(MovImmCode(reg, imm), regs) == regs[reg := imm]
  {
    var code := MovImmCode(reg, imm);
    if imm < 16 {
      var mova := MovaAaConst4zx(reg, imm);
      assert code == [mova];
      RunOne(mova, regs);
      StepMova(reg, imm, regs);
    } else {
      HighThenLow(imm);
      var h: u32 := High16(imm) * TWO16;
      var high := MovhaAcConst16(reg, High16(imm));
      StepMovha(reg, High16(imm), regs);
      if imm % TWO16 == 0 {
        assert code == [high];
        RunOne(high, regs);
        assert h == imm;
      } else {
        assert code == [high, LeaAaAbOff16sx(reg, reg, Low16sx(imm))];
        LoadHighThenLow(regs, reg, High16(imm), Low16sx(imm), imm);
      }
    }
  }

  /** Loading a high half into an address register and adding a low half to it. */
  lemma {:induction false} LoadHighThenLow(regs: seq<u32>, reg: Reg, hi: u16, l: Const16sx, imm: u32)
    requires IsRegFile(regs) && Wrap32(hi * TWO16 + l) == imm
    ensures Run([MovhaAcConst16(reg, hi), LeaAaAbOff16sx(reg, reg, l)], regs) == regs[reg := imm]
  {
    var h: u32 := hi * TWO16;
    RunTwo(MovhaAcConst16(reg, hi), LeaAaAbOff16sx(reg, reg, l), regs);
    StepMovha(reg, hi, regs);
    StepLea(reg, reg, l, regs[reg := h]);
    Overwrite(regs, reg, h, imm);
  }

  lemma {:induction false} StepMova(aa: Reg, c: u8, regs: seq<u32>)
    requires IsRegFile(regs)
    ensures Step(MovaAaConst4zx(aa, c), regs) == regs[aa := c]
  {
  }

  lemma {:induction false} StepMovha(ac: Reg, c: u16, regs: seq<u32>)
    requires IsRegFile(regs)
    ensures Step(MovhaAcConst16(ac, c), regs) == regs[ac := c * TWO16]
  {
  }

  lemma {:induction false} StepLea(aa: Reg, ab: Reg, c: Const16sx, regs: seq<u32>)
    requires IsRegFile(regs)
    ensures Step(LeaAaAbOff16sx(aa, ab, c), regs) == regs[aa := Wrap32(regs[ab] + c)]
  {
  }

  /** Writing a register twice leaves the second value. */
  lemma {:induction false} Overwrite(regs: seq<u32>, reg: Reg, first: u32, second: u32)
    requires IsRegFile(regs)
    ensures regs[reg := first][reg := second] == regs[reg := second]
  {
    var a := regs[reg := first][reg := second];
    var b := regs[reg := second];
    assert |a| == |b|;
    forall k | 0 <= k < |a|
      ensures a[k] == b[k]
    {
    }
  }

  /** Loading the high half and then adding the sign-extended low half gives the immediate. */
  lemma {:induction false} HighThenLow(imm: u32)
    ensures High16(imm) * TWO16 < TWO32
    ensures imm % TWO16 == 0 ==> High16(imm) * TWO16 == imm
    ensures Wrap32(High16(imm) * TWO16 + Low16sx(imm)) == imm
  {
    SplitImm(imm);
    WrapSmall(imm);
    if Low16sx(imm) + High16(imm) * TWO16 != imm {
      WrapShift(imm, -1);
    }
  }

  lemma {:induction false} WrapSmall(x: int)
    requires 0 <= x < TWO32
    ensures Wrap32(x) == x
  {
    DivModUnique(x, TWO32, 0, x);
  }

  /**
    The code `setStackFrameSize` emits to move from one frame size to
    another: a shrinking frame adds the difference to SP, a growing one
    subtracts the difference plus the entry adjustment.
  */
  function FrameAdjustCode(current: u32, frameSize: u32, functionEntryAdjust: u32): (code: seq<Instr>)
    ensures |code| <= 2
  {
    if current > frameSize then AddImmCode(SP, current - frameSize, SP)
    else SubSpCode(Wrap32(frameSize - current + functionEntryAdjust))
  }

  lemma {:induction false} FrameAdjustBranches(current: u32, frameSize: u32, functionEntryAdjust: u32)
    ensures current > frameSize ==>
              FrameAdjustCode(current, frameSize, functionEntryAdjust) == AddImmCode(SP, current - frameSize, SP)
    ensures current <= frameSize ==>
              FrameAdjustCode(current, frameSize, functionEntryAdjust) == SubSpCode(Wrap32(frameSize - current + functionEntryAdjust))
  {
  }

  /** SP moves by the difference of the two sizes (and down by the entry adjustment when growing). */
  lemma {:induction false} FrameAdjustEffect(current: u32, frameSize: u32, functionEntryAdjust: u32, regs: seq<u32>)
    requires IsRegFile(regs)
    ensures current > frameSize ==>
              Run(FrameAdjustCode(current, frameSize, functionEntryAdjust), regs)
              == regs[SP := Wrap32(regs[SP] + current - frameSize)]
    ensures current <= frameSize ==>
              Run(FrameAdjustCode(current, frameSize, functionEntryAdjust), regs)
              == regs[SP := Wrap32(regs[SP] + current - frameSize - functionEntryAdjust)]
  {
    if current > frameSize {
      AddImmEffect(SP, current - frameSize, SP, regs);
    } else {
      var d := Wrap32(frameSize - current + functionEntryAdjust);
      SubSpEffect(d, regs);
      var x: int := frameSize - current + functionEntryAdjust;
      var sp: int := regs[SP];
      WrapAdd(x, -sp);
      WrapNeg(x - sp);
      WrapNeg(Wrap32(x) - sp);
    }
  }

  lemma {:induction false} WrapNeg(a: int)
    ensures Wrap32(-a) == Wrap32(-(Wrap32(a) as int))
  {
    DivModUnique(-a, TWO32, (-a) / TWO32, (-a) % TWO32);
    DivModUnique(-(a % TWO32), TWO32, (-a) / TWO32 + a / TWO32, (-a) % TWO32);
  }

  // ---------------------------------------------------------------------
  // The assembler's state: the function's frame size and the emitted code
  // ---------------------------------------------------------------------

  class Assembler {
    const abi: M.WasmAbi
    const fnc: M.FunctionInfo
    /** `ImplementationLimits::maxStackFrameSize`. */
    const maxStackFrameSize: u32
    /** `moduleInfo_.fnc.stackFrameSize`. */
    var stackFrameSize: u32
    /** The instructions emitted so far. */
    var binary: seq<Instr>

    constructor (abi: M.WasmAbi, fnc: M.FunctionInfo, maxStackFrameSize: u32, stackFrameSize: u32)
      ensures this.abi == abi && this.fnc == fnc && this.maxStackFrameSize == maxStackFrameSize
      ensures this.stackFrameSize == stackFrameSize && binary == []
    {
      this.abi := abi;
      this.fnc := fnc;
      this.maxStackFrameSize := maxStackFrameSize;
      this.stackFrameSize := stackFrameSize;
      binary := [];
    }

    /** `addImmToReg`: a target of NONE means the register itself. */
    method AddImmToReg(reg: Reg, imm: u32, targetReg: u32)
      requires targetReg == NO_REG || (targetReg < NUMREGS && IsData(reg) == IsData(targetReg))
      modifies this
      ensures binary == old(binary) + AddImmCode(reg, imm, if targetReg == NO_REG then reg else targetReg)
      ensures stackFrameSize == old(stackFrameSize)
    {
      var target: Reg := if targetReg == NO_REG then reg else targetReg;
      binary := binary + AddImmCode(reg, imm, target);
    }

    method SubSp(imm: u32)
      modifies this
      ensures binary == old(binary) + SubSpCode(imm)
      ensures stackFrameSize == old(stackFrameSize)
    {
      binary := binary + SubSpCode(imm);
    }

    method MovImm(reg: Reg, imm: u32)
      modifies this
      ensures binary == old(binary) + MovImmCode(reg, imm)
      ensures stackFrameSize == old(stackFrameSize)
    {
      binary := binary + MovImmCode(reg, imm);
    }

    /** Moves SP from the current frame size to `frameSize`. */
    method AdjustFrame(frameSize: u32, functionEntryAdjust: u32)
      modifies this
      ensures binary == old(binary) + FrameAdjustCode(stackFrameSize, frameSize, functionEntryAdjust)
      ensures stackFrameSize == old(stackFrameSize)
    {
      FrameAdjustBranches(stackFrameSize, frameSize, functionEntryAdjust);
      if stackFrameSize > frameSize {
        AddImmToReg(SP, stackFrameSize - frameSize, NO_REG);
      } else {
        SubSp(Wrap32(frameSize - stackFrameSize + functionEntryAdjust));
      }
    }

    /**
      `setStackFrameSize`: a request for the current size emits nothing; one
      above the limit throws before emitting; otherwise SP is adjusted and
      the new size recorded unless the change is temporary.
    */
    method SetStackFrameSize(frameSize: u32, temporary: bool, mayRemoveLocals: bool, functionEntryAdjust: u32)
      returns (r: R.Result<()>)
      requires ValidFrameRequest(abi, fnc, frameSize, AlignStackFrameSize(frameSize, fnc.paramWidth), mayRemoveLocals)
      modifies this
      ensures old(stackFrameSize) == frameSize ==> r.Ok? && binary == old(binary) && stackFrameSize == frameSize
      ensures old(stackFrameSize) != frameSize && frameSize > maxStackFrameSize ==>
                r == R.Err(R.ReachedMaximumStackFrameSize) && binary == old(binary) && stackFrameSize == old(stackFrameSize)
      ensures old(stackFrameSize) != frameSize && frameSize <= maxStackFrameSize ==>
                && r.Ok?
                && binary == old(binary) + FrameAdjustCode(old(stackFrameSize), frameSize, functionEntryAdjust)
                && stackFrameSize == (if temporary then old(stackFrameSize) else frameSize)
    {
      if stackFrameSize != frameSize {
        if frameSize > maxStackFrameSize {
          return R.Err(R.ReachedMaximumStackFrameSize);
        }
        AdjustFrame(frameSize, functionEntryAdjust);
        if !temporary {
          stackFrameSize := frameSize;
        }
      }
      return R.Ok(());
    }
  }

  // ---------------------------------------------------------------------
  // Positions of the last trap sequence per trap code
  // ---------------------------------------------------------------------

  /** `in_range<bits>`: x fits a signed field of the given width. */
  predicate InSignedRange(x: int, bits: nat)
    requires bits >= 1
  {
    -(Pow2(bits - 1) as int) <= x < Pow2(bits - 1)
  }

  /**
    `LastTrapPositionMap`: per trap code, the binary position of the last
    trap sequence for it, 0 for none yet. The trap codes are indices; how
    many there are is given when the table is made.
  */
  class LastTrapPositionMap {
    const data: array<u32>

    constructor (numTrapCodes: nat)
      ensures data.Length == numTrapCodes && fresh(data)
      ensures forall i | 0 <= i < numTrapCodes :: data[i] == 0
    {
      data := new u32[numTrapCodes](_ => 0);
    }

    /**
      `get`: the stored position, and whether a branch from the current
      position can reach it: never for 0, otherwise when the distance fits
      a signed field of `bits` bits.
    */
    method Get(trapCode: nat, currentPosition: u32, bits: nat) returns (inRange: bool, position: u32)
      requires trapCode < data.Length && bits >= 1
      ensures position == data[trapCode]
      ensures inRange <==> position != 0 && InSignedRange(position - currentPosition, bits)
    {
      position := data[trapCode];
      if position != 0 {
        inRange := InSignedRange(position - currentPosition, bits);
      } else {
        inRange := false;
      }
    }

    /** `set`: only this trap code's slot changes. */
    method Set(trapCode: nat, pos: u32)
      requires trapCode < data.Length
      modifies data
      ensures data[..] == old(data[..])[trapCode := pos]
    {
      data[trapCode] := pos;
    }
  }

  // ---------------------------------------------------------------------
  // Operand types and the cost of moving an operand into place
  // ---------------------------------------------------------------------

  /** `ArgType`: the machine type in the top two bits, the form below. */
  type ArgType = u8

  const ARG_NONE: ArgType := 0x00
  const ARG_I32: ArgType := 0x40
  const ADDR_REG32: ArgType := 0x41
  const ARG_D15: ArgType := 0x42
  const DATA_REG32_A: ArgType := 0x43
  const DATA_REG32_B: ArgType := 0x44
  const DATA_REG32_C: ArgType := 0x45
  const CONST4SX_32: ArgType := 0x46
  const CONST8ZX_32: ArgType := 0x47
  const CONST9SX_32: ArgType := 0x48
  const CONST9ZX_32: ArgType := 0x49
  const CONST16SX_32: ArgType := 0x4A
  const ARG_I64: ArgType := 0x80
  const ADDR_REG64: ArgType := 0x81
  const DATA_REG64: ArgType := 0x82
  const TYPEMASK: ArgType := 0xC0

  /** `getMachineTypeFromArgType`: the bits under TYPEMASK name I32, I64 or nothing. */
  function GetMachineTypeFromArgType(argType: ArgType): (r: MachineType)
    ensures r == I32 || r == I64 || r == INVALID
    ensures r == I32 <==> 0x40 <= argType < 0x80
    ensures r == I64 <==> 0x80 <= argType < 0xC0
  {
    // `argType & TYPEMASK`: TYPEMASK is the top two bits of the byte
    var t := argType - argType % (0x100 - TYPEMASK) as int;
    if t == ARG_I32 then I32 else if t == ARG_I64 then I64 else INVALID
  }

  /** `isDataReg32`. */
  predicate IsDataReg32(argType: ArgType) {
    argType == DATA_REG32_A || argType == DATA_REG32_B || argType == DATA_REG32_C
  }

  /** The immediate operand forms. */
  predicate IsImmediate(argType: ArgType) {
    CONST4SX_32 <= argType <= CONST16SX_32
  }

  /** The value fits the immediate form: signed forms read it as `int32_t`. */
  predicate FitsImmediate(argType: ArgType, value: u32)
    requires IsImmediate(argType)
  {
    var v := AsI32(value);
    if argType == CONST4SX_32 then -8 <= v < 8
    else if argType == CONST8ZX_32 then value < 0x100
    else if argType == CONST9SX_32 then -0x100 <= v < 0x100
    else if argType == CONST9ZX_32 then value < 0x200
    else -0x8000 <= v < 0x8000
  }

  /** `invalidMovCost`. */
  const INVALID_MOV_COST: u32 := U32_MAX

  /**
    The cost row for a constant, over the forms d15, dataReg32_a..c,
    const4sx, const8zx, const9sx, const9zx and const16sx: bytes of the
    moves that load it into a register, 0 where it fits as an immediate.
  */
  function ConstantCosts(value: u32): (row: seq<u32>)
    ensures |row| == 9
  {
    var v := AsI32(value);
    var X := INVALID_MOV_COST;
    if -8 <= v < 8 then
      if v < 0 then [2, 2, 2, 2, 0, X, 0, X, 0] else [2, 2, 2, 2, 0, 0, 0, 0, 0]
    else if value < 0x100 then [2, 4, 4, 4, X, 0, 0, 0, 0]
    else if -0x100 <= v < 0x100 then [4, 4, 4, 4, X, X, 0, X, 0]
    else if value < 0x200 then [4, 4, 4, 4, X, X, X, 0, 0]
    else if -0x8000 <= v < 0x8000 then [4, 4, 4, 4, X, X, X, X, 0]
    else if value < 0x1_0000 then [4, 4, 4, 4, X, X, X, X, X]
    else [8, 8, 8, 8, X, X, X, X, X]
  }

  /** A 32-bit value: the operand costs are only defined for these. */
  predicate Is32Bit(t: MachineType) {
    t == I32 || t == F32
  }

  /** What `getOperandMovCost` needs of its arguments: a 32-bit storage, a cost row entry for a constant. */
  predicate CostDefined(argType: ArgType, storage: VariableStorage) {
    && (argType != ARG_NONE ==> Is32Bit(storage.machineType))
    && (argType != ARG_NONE && storage.location.Constant? ==> ARG_D15 <= argType <= CONST16SX_32)
    && (storage.location.Register? ==> storage.location.reg < NUMREGS)
  }

  /** `getOperandMovCost`: bytes of instructions to move the storage into an operand of the given form. */
  function OperandMovCost(argType: ArgType, storage: VariableStorage): (cost: u32)
    requires CostDefined(argType, storage)
  {
    if argType == ARG_NONE then 0
    else match storage.location
      case Invalid => INVALID_MOV_COST
      case Constant(bits) => ConstantCosts(ConstU32(bits))[argType - ARG_D15]
      case Register(reg) =>
        if reg == D15 && (argType == ARG_D15 || IsDataReg32(argType)) then 0
        else if IsData(reg) && IsDataReg32(argType) then 0
        else INVALID_MOV_COST
      case _ => INVALID_MOV_COST
  }

  /** `elementFitsArgType`: usable in place, at no cost. */
  predicate ElementFitsArgType(argType: ArgType, storage: VariableStorage)
    requires CostDefined(argType, storage)
  {
    OperandMovCost(argType, storage) == 0
  }

  /** `needMoveOperand`: usable after some moves. */
  predicate NeedMoveOperand(argType: ArgType, storage: VariableStorage)
    requires CostDefined(argType, storage)
  {
    var cost := OperandMovCost(argType, storage);
    cost != 0 && cost != INVALID_MOV_COST
  }

  /**
    An operand fits in place exactly when the form is NONE, a data register
    stands in a 32-bit data-register slot (D15 also in the d15 slot), or a
    constant stands in an immediate slot whose range holds it.
  */
  lemma {:induction false} FitsArgTypeExactly(argType: ArgType, storage: VariableStorage)
    requires CostDefined(argType, storage)
    ensures ElementFitsArgType(argType, storage) <==>
              || argType == ARG_NONE
              || (storage.location.Register? && IsData(storage.location.reg) &&
                  (IsDataReg32(argType) || (argType == ARG_D15 && storage.location.reg == D15)))
              || (storage.location.Constant? && IsImmediate(argType) && FitsImmediate(argType, ConstU32(storage.location.bits)))
  {
    if argType != ARG_NONE && storage.location.Constant? {
      ConstantRow(argType, ConstU32(storage.location.bits));
    }
  }

  lemma {:induction false} ConstantRow(argType: ArgType, value: u32)
    requires ARG_D15 <= argType <= CONST16SX_32
    ensures IsImmediate(argType) ==> (ConstantCosts(value)[argType - ARG_D15] == 0 <==> FitsImmediate(argType, value))
    ensures IsImmediate(argType) ==> ConstantCosts(value)[argType - ARG_D15] in {0, INVALID_MOV_COST}
    ensures !IsImmediate(argType) ==> ConstantCosts(value)[argType - ARG_D15] in {2, 4, 8}
  {
  }

  /**
    A move is needed exactly for a constant in a register slot; registers
    fit or do not, and immediates fit or are invalid.
  */
  lemma {:induction false} NeedMoveExactly(argType: ArgType, storage: VariableStorage)
    requires CostDefined(argType, storage)
    ensures NeedMoveOperand(argType, storage) <==>
              argType != ARG_NONE && storage.location.Constant? && (argType == ARG_D15 || IsDataReg32(argType))
  {
    if argType != ARG_NONE && storage.location.Constant? {
      ConstantRow(argType, ConstU32(storage.location.bits));
    }
  }

  /**
    Loading a constant into a register costs 2 bytes for a 4-bit signed
    value (and, into D15, an 8-bit unsigned one), 4 bytes for a 16-bit
    signed or unsigned value, and 8 bytes otherwise.
  */
  lemma {:induction false} ConstantLoadCost(argType: ArgType, value: u32)
    requires argType == ARG_D15 || IsDataReg32(argType)
    ensures var v := AsI32(value);
            ConstantCosts(value)[argType - ARG_D15]
            == if -8 <= v < 8 || (argType == ARG_D15 && value < 0x100) then 2
               else if -0x8000 <= v < 0x8000 || value < 0x1_0000 then 4
               else 8
  {
  }

  // ---------------------------------------------------------------------
  // Instruction cost: choosing the operand order
  // ---------------------------------------------------------------------

  /** `AbstrInstr`: the forms of the destination and sources and the instruction's constraints. */
  datatype AbstrInstr = AbstrInstr(opcode: u32, destType: ArgType, src0Type: ArgType, src1Type: ArgType,
                                   commutative: bool, src0DstSame: bool, useD15: bool)

  /** `OperandMovement`: total bytes, operands lifted, which operands move, and whether the sources were swapped. */
  datatype OperandMovement = OperandMovement(cost: u32, liftCount: u32, movArg0: bool, movArg1: bool, reversed: bool)

  const INVALID_MOVEMENT: OperandMovement := OperandMovement(INVALID_MOV_COST, 0, false, false, false)

  /** `inSameLocation`: the two storages name the same place. */
  predicate InSameLocation(a: VariableStorage, b: VariableStorage) {
    a.location == b.location
  }

  /** What `getInstructionCost` needs: every operand cost it asks for is defined. */
  predicate InstructionCostDefined(instr: AbstrInstr, arg0: VariableStorage, arg1: VariableStorage)
  {
    && CostDefined(instr.src0Type, arg0) && CostDefined(instr.src1Type, arg1)
    && (instr.commutative ==> CostDefined(instr.src1Type, arg0) && CostDefined(instr.src0Type, arg1))
  }

  /** Bytes of the instruction itself: 2 for a 16-bit encoding, 4 otherwise. */
  function InstrSize(opcode: u32): (size: u32)
    ensures size == 2 <==> Is16BitInstr(opcode)
    ensures size == 2 || size == 4
  {
    if Is16BitInstr(opcode) then 2 else 4
  }

  /**
    The second source needs no moves of its own: it is in the same place as
    the first and both source forms are of the same kind.
  */
  predicate SecondShared(instr: AbstrInstr, arg0: VariableStorage, arg1: VariableStorage) {
    InSameLocation(arg0, arg1) &&
    (instr.src0Type == instr.src1Type || (IsDataReg32(instr.src0Type) && IsDataReg32(instr.src1Type)))
  }

  /**
    The movement for one order of the sources: arg0 into the first form,
    arg1 into the second (free when both are the same place and of the same
    kind of form), plus the instruction itself.
  */
  function Movement(instr: AbstrInstr, src0Type: ArgType, src1Type: ArgType, arg0: VariableStorage, arg1: VariableStorage)
    : (m: OperandMovement)
    requires CostDefined(src0Type, arg0) && CostDefined(src1Type, arg1)
    ensures !m.reversed
    ensures m.movArg0 == NeedMoveOperand(src0Type, arg0) && m.movArg1 == NeedMoveOperand(src1Type, arg1)
    // invalid exactly when an operand that has to be placed cannot be
    ensures m.cost == INVALID_MOV_COST <==>
              || OperandMovCost(src0Type, arg0) == INVALID_MOV_COST
              || (!SecondShared(instr, arg0, arg1) && OperandMovCost(src1Type, arg1) == INVALID_MOV_COST)
    // otherwise the moves of both operands, the shared one counted once, and the instruction
    ensures m.cost != INVALID_MOV_COST ==>
              m.cost as int == OperandMovCost(src0Type, arg0) as int
                               + (if SecondShared(instr, arg0, arg1) then 0 else OperandMovCost(src1Type, arg1) as int)
                               + InstrSize(instr.opcode) as int
    ensures ElementFitsArgType(src0Type, arg0) && (SecondShared(instr, arg0, arg1) || ElementFitsArgType(src1Type, arg1))
            ==> m.cost == InstrSize(instr.opcode)
    ensures m.cost == INVALID_MOV_COST || InstrSize(instr.opcode) <= m.cost <= 20
    // one lift per operand that is moved into a register, the shared one not again
    ensures m.liftCount as int == (if m.movArg0 then 1 else 0) + (if m.movArg1 && !SecondShared(instr, arg0, arg1) then 1 else 0)
  {
    var size := InstrSize(instr.opcode);
    var cost0 := OperandMovCost(src0Type, arg0);
    var cost1 := if SecondShared(instr, arg0, arg1) then 0 else OperandMovCost(src1Type, arg1);
    CostBound(src0Type, arg0);
    CostBound(src1Type, arg1);
    var cost := if cost0 == INVALID_MOV_COST || cost1 == INVALID_MOV_COST then INVALID_MOV_COST else cost0 + cost1 + size;
    var lifts := (if NeedMoveOperand(src0Type, arg0) then 1 else 0) + (if cost1 != 0 && cost1 != INVALID_MOV_COST then 1 else 0);
    OperandMovement(cost, lifts, NeedMoveOperand(src0Type, arg0), NeedMoveOperand(src1Type, arg1), false)
  }

  /** A finite operand cost is at most 8 bytes. */
  lemma {:induction false} CostBound(argType: ArgType, storage: VariableStorage)
    requires CostDefined(argType, storage)
    ensures OperandMovCost(argType, storage) == INVALID_MOV_COST || OperandMovCost(argType, storage) <= 8
  {
    if argType != ARG_NONE && storage.location.Constant? {
      ConstantRow(argType, ConstU32(storage.location.bits));
    }
  }

  /**
    Whether the source that goes first can also be the destination: with a
    target hint, when it is the hint or is lifted into the hint, a writable
    scratch register; without one, when it started in a writable scratch
    register or is lifted into a fresh one.
  */
  predicate CanTakeDestination(targetHint: VariableStorage, arg: VariableStorage, lifted: bool,
                               startedAsWritableScratchReg: seq<bool>, index: nat)
    requires |startedAsWritableScratchReg| == 3 && index < 2
  {
    if targetHint.machineType != INVALID then targetHint == arg || (lifted && startedAsWritableScratchReg[2])
    else startedAsWritableScratchReg[index] || lifted
  }

  /**
    `getInstructionCost`: invalid when the instruction needs D15 and D15 is
    taken, or when a target hint other than D15 meets a d15 destination;
    otherwise the movement of the sources as given or, for a commutative
    instruction, of the swapped sources when that is cheaper, keeping to
    the constraint that the first source can be the destination.
  */
  function InstructionCost(instr: AbstrInstr, arg0: VariableStorage, arg1: VariableStorage,
                           startedAsWritableScratchReg: seq<bool>, targetHint: VariableStorage,
                           isD15Available: bool): (m: OperandMovement)
    requires |startedAsWritableScratchReg| == 3 && InstructionCostDefined(instr, arg0, arg1)
    requires targetHint.machineType != INVALID ==> targetHint.location.Register?
    ensures instr.useD15 && !isD15Available ==> m == INVALID_MOVEMENT
    ensures targetHint.machineType != INVALID && instr.destType == ARG_D15 && targetHint.location.reg != D15 ==> m == INVALID_MOVEMENT
    ensures m == INVALID_MOVEMENT || !m.reversed || instr.commutative
  {
    var hinted := targetHint.machineType != INVALID;
    if instr.useD15 && !isD15Available then INVALID_MOVEMENT
    else if hinted && instr.destType == ARG_D15 && targetHint.location.reg != D15 then INVALID_MOVEMENT
    else
      var result := Movement(instr, instr.src0Type, instr.src1Type, arg0, arg1);
      var canSrc0DstBeSame := CanTakeDestination(targetHint, arg0, result.movArg0, startedAsWritableScratchReg, 0);
      if instr.commutative then
        var swapped := Movement(instr, instr.src1Type, instr.src0Type, arg0, arg1).(reversed := true);
        var canSwappedSrc0DstBeSame := CanTakeDestination(targetHint, arg1, swapped.movArg1, startedAsWritableScratchReg, 1);
        if instr.src0DstSame && !canSrc0DstBeSame && !canSwappedSrc0DstBeSame then INVALID_MOVEMENT
        else if instr.src0DstSame && !canSrc0DstBeSame then swapped
        else if instr.src0DstSame && !canSwappedSrc0DstBeSame then result
        else if swapped.cost < result.cost then swapped
        else result
      else if instr.src0DstSame && !canSrc0DstBeSame then INVALID_MOVEMENT
      else result
  }

  /**
    Without the same-register constraint, a commutative instruction costs
    the cheaper of the two source orders, and a non-commutative one the
    order as given.
  */
  lemma {:induction false} InstructionCostCheapest(instr: AbstrInstr, arg0: VariableStorage, arg1: VariableStorage,
                                                   scratch: seq<bool>, targetHint: VariableStorage, isD15Available: bool)
    requires |scratch| == 3 && InstructionCostDefined(instr, arg0, arg1)
    requires targetHint.machineType == INVALID
    requires !instr.src0DstSame && (!instr.useD15 || isD15Available)
    ensures var m := InstructionCost(instr, arg0, arg1, scratch, targetHint, isD15Available);
            var straight := Movement(instr, instr.src0Type, instr.src1Type, arg0, arg1);
            && (!instr.commutative ==> m == straight)
            && (instr.commutative ==>
                  var swapped := Movement(instr, instr.src1Type, instr.src0Type, arg0, arg1);
                  m.cost <= straight.cost && m.cost <= swapped.cost && (m.cost == straight.cost || m.cost == swapped.cost))
  {
  }

  /**
    When the first source must also be the destination, a valid movement
    puts first a source that can take the destination: arg0 as given, arg1
    when swapped.
  */
  lemma {:induction false} InstructionCostKeepsDestination(instr: AbstrInstr, arg0: VariableStorage, arg1: VariableStorage,
                                                           scratch: seq<bool>, targetHint: VariableStorage, isD15Available: bool)
    requires |scratch| == 3 && InstructionCostDefined(instr, arg0, arg1)
    requires targetHint.machineType != INVALID ==> targetHint.location.Register?
    requires instr.src0DstSame
    ensures var m := InstructionCost(instr, arg0, arg1, scratch, targetHint, isD15Available);
            m != INVALID_MOVEMENT ==>
              if m.reversed then CanTakeDestination(targetHint, arg1, NeedMoveOperand(instr.src0Type, arg1), scratch, 1)
              else CanTakeDestination(targetHint, arg0, NeedMoveOperand(instr.src0Type, arg0), scratch, 0)
  {
  }
}
