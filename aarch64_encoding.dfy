/**
  The AArch64 encoding tables: register classes, condition codes and their
  negation, the condition code for each abstract branch condition, and the
  load/store templates chosen by register class and width.
*/
module Aarch64Encoding {
  import opened UInt
  import opened BranchCondition

  // Registers: R0..R28, FP, LR, ZR (= SP) are 0..31, F0..F31 are 32..63.
  const FP: u32 := 29
  const LR: u32 := 30
  const ZR: u32 := 31
  const SP: u32 := 31
  const F0: u32 := 0x20
  const NUMREGS: u32 := 0x40
  const NO_REG: u32 := 0x80

  /** Bit `mask` (a power of two) of x is set. */
  predicate HasBit(x: nat, mask: nat)
    requires mask > 0
  {
    (x / mask) % 2 == 1
  }

  /** `RegUtil::isGPR`: bit 5 of the register number is clear. */
  predicate IsGPR(reg: u32) {
    reg as bv32 & 0x20 == 0
  }

  /** The general purpose registers are exactly R0..R28, FP, LR and ZR/SP; F0..F31 are not. */
  lemma {:induction false} GprClass(reg: u32)
    requires reg < NUMREGS
    ensures IsGPR(reg) <==> reg <= ZR
  {
    assert reg as bv32 & 0x20 == (if reg < 0x20 then 0 else 0x20) by {
      assert reg as bv32 < 0x40;
    }
  }

  // Condition codes; CS = HS and CC = LO.
  type CondCode = c: u8 | c <= 15 || c == 0xFF

  const EQ: CondCode := 0
  const NE: CondCode := 1
  const HS: CondCode := 2
  const LO: CondCode := 3
  const MI: CondCode := 4
  const PL: CondCode := 5
  const VS: CondCode := 6
  const VC: CondCode := 7
  const HI: CondCode := 8
  const LS: CondCode := 9
  const GE: CondCode := 10
  const LT: CondCode := 11
  const GT: CondCode := 12
  const LE: CondCode := 13
  const AL: CondCode := 14
  const NV: CondCode := 15
  const NONE: CondCode := 0xFF

  /** `negateCC`: flips bit 0, so each code goes to the other member of its pair; NONE stays. */
  function NegateCC(cc: CondCode): (r: CondCode)
    ensures cc == NONE <==> r == NONE
    ensures cc != NONE ==> r != cc && r / 2 == cc / 2
  {
    if cc == NONE then cc else (cc as bv8 ^ 1) as u8
  }

  lemma {:induction false} NegateInvolution(cc: CondCode)
    ensures NegateCC(NegateCC(cc)) == cc
  {
  }

  lemma {:induction false} NegatePairs()
    ensures NegateCC(EQ) == NE && NegateCC(HS) == LO && NegateCC(MI) == PL && NegateCC(VS) == VC
    ensures NegateCC(HI) == LS && NegateCC(GE) == LT && NegateCC(GT) == LE && NegateCC(AL) == NV
  {
  }

  /** The condition flags. */
  datatype Nzcv = Nzcv(n: bool, z: bool, c: bool, v: bool)

  /**
    Whether a condition code holds, as the ConditionHolds pseudocode of the
    Arm architecture defines it: bits 3..1 choose the test, bit 0 inverts it,
    except for 1111 (NV), which holds like AL.
  */
  predicate Holds(cc: CondCode, f: Nzcv)
    requires cc != NONE
  {
    var base :=
      match cc / 2
      case 0 => f.z
      case 1 => f.c
      case 2 => f.n
      case 3 => f.v
      case 4 => f.c && !f.z
      case 5 => f.n == f.v
      case 6 => f.n == f.v && !f.z
      case _ => true;
    if cc % 2 == 1 && cc != NV then !base else base
  }

  /** Negating a condition code negates the condition, except for the always-true pair AL/NV. */
  lemma {:induction false} NegateHolds(cc: CondCode, f: Nzcv)
    requires cc != NONE && cc != AL && cc != NV
    ensures Holds(NegateCC(cc), f) == !Holds(cc, f)
  {
    var r := NegateCC(cc);
    assert r / 2 == cc / 2 && r % 2 != cc % 2;
  }

  const CC_FOR_BC: seq<CondCode> :=
    [NE, EQ, EQ, NE, LT, LO, GT, HI, LE, LS, GE, HS, EQ, NE, LO, GT, LS, GE, NONE]

  /** `CCforBC`: every branch condition has a code; only the unconditional branch has none. */
  function CCforBC(bc: BC): (r: CondCode)
    ensures r == NONE <==> bc == UNCONDITIONAL
    ensures r != AL && r != NV
  {
    CC_FOR_BC[bc]
  }

  // Load/store register (unsigned immediate) templates.
  const LDR_W: u32 := 0xB940_0000
  const LDR_X: u32 := 0xF940_0000
  const LDR_S: u32 := 0xBD40_0000
  const LDR_D: u32 := 0xFD40_0000
  const STR_W: u32 := 0xB900_0000
  const STR_X: u32 := 0xF900_0000
  const STR_S: u32 := 0xBD00_0000
  const STR_D: u32 := 0xFD00_0000

  /** Bit 26 (V) selects a SIMD&FP register, bit 30 the 64-bit size, bit 22 a load. */
  predicate TemplateFields(t: u32, isGPR: bool, is64: bool, isLoad: bool) {
    (HasBit(t, 0x400_0000) <==> !isGPR)
    && (HasBit(t, 0x4000_0000) <==> is64)
    && (HasBit(t, 0x40_0000) <==> isLoad)
  }

  /** `LDR_T_deref_N_scUImm12`: the load of the register class and width asked for. */
  function LdrTemplate(isGPR: bool, is64: bool): (t: u32)
    ensures TemplateFields(t, isGPR, is64, true)
  {
    if isGPR then (if is64 then LDR_X else LDR_W)
    else (if is64 then LDR_D else LDR_S)
  }

  /** `STR_T_deref_N_scUImm12`: the store of the register class and width asked for. */
  function StrTemplate(isGPR: bool, is64: bool): (t: u32)
    ensures TemplateFields(t, isGPR, is64, false)
  {
    if isGPR then (if is64 then STR_X else STR_W)
    else (if is64 then STR_D else STR_S)
  }

  /** The eight templates are distinct: the fields determine class, width and direction. */
  lemma {:induction false} TemplatesDistinct(g1: bool, w1: bool, g2: bool, w2: bool)
    ensures LdrTemplate(g1, w1) == LdrTemplate(g2, w2) ==> g1 == g2 && w1 == w2
    ensures StrTemplate(g1, w1) == StrTemplate(g2, w2) ==> g1 == g2 && w1 == w2
    ensures LdrTemplate(g1, w1) != StrTemplate(g2, w2)
  {
  }
}
