/**
  The x86-64 encoding tables: register classes, condition codes and their
  negation, the condition code for each abstract branch condition, the
  8-bit operand flags, the operand types and the register move selectors.
*/
module X86Encoding {
  import opened UInt
  import opened BranchCondition
  import A64 = Aarch64Encoding

  // Registers: A, C, D, B, SP, BP, SI, DI, R8..R15 are 0..15, XMM0..XMM15 are 16..31.
  const XMM0: u32 := 0x10
  const NUMREGS: u32 := 0x20
  const NO_REG: u32 := 0x80

  /** `RegUtil::isGPR`: bit 4 of the register number is clear. */
  predicate IsGPR(reg: u32) {
    reg as bv32 & 0x10 == 0
  }

  /** The general purpose registers are exactly 0..15; XMM0..XMM15 are not. */
  lemma {:induction false} GprClass(reg: u32)
    requires reg < NUMREGS
    ensures IsGPR(reg) <==> reg < XMM0
  {
    assert reg as bv32 & 0x10 == (if reg < 0x10 then 0 else 0x10) by {
      assert reg as bv32 < 0x20;
    }
  }

  // Condition codes, in their encoding order; C = B and NC = AE.
  type CondCode = c: u8 | c <= 15 || c == 0xFF

  const O: CondCode := 0
  const NO: CondCode := 1
  const B: CondCode := 2
  const AE: CondCode := 3
  const E: CondCode := 4
  const NE: CondCode := 5
  const BE: CondCode := 6
  const A: CondCode := 7
  const S: CondCode := 8
  const NS: CondCode := 9
  const P: CondCode := 10
  const NP: CondCode := 11
  const L: CondCode := 12
  const GE: CondCode := 13
  const LE: CondCode := 14
  const G: CondCode := 15
  const C: CondCode := B
  const NC: CondCode := AE
  const NONE: CondCode := 0xFF

  /**
    `negateCC`: flips bit 0 of the code, so each code goes to the other member
    of its pair. Unlike the AArch64 version it does not keep NONE: NONE (0xFF)
    becomes 0xFE, which is not a condition code.
  */
  function NegateCC(cc: CondCode): (r: u8)
    ensures r != cc && r / 2 == cc / 2
    ensures cc != NONE <==> r <= 15
  {
    (cc as bv8 ^ 1) as u8
  }

  lemma {:induction false} NegateInvolution(cc: CondCode)
    requires cc != NONE
    ensures NegateCC(NegateCC(cc)) == cc
  {
  }

  lemma {:induction false} NegatePairs()
    ensures NegateCC(O) == NO && NegateCC(B) == AE && NegateCC(E) == NE && NegateCC(BE) == A
    ensures NegateCC(S) == NS && NegateCC(P) == NP && NegateCC(L) == GE && NegateCC(LE) == G
    ensures NegateCC(C) == NC && NegateCC(NONE) == 0xFE
  {
  }

  /** The status flags the conditions test. */
  datatype Eflags = Eflags(of: bool, cf: bool, zf: bool, sf: bool, pf: bool)

  /**
    Whether a condition code holds, as the Intel architecture manual's table
    of Jcc conditions defines it: bits 3..1 choose the test, bit 0 inverts it.
  */
  predicate Holds(cc: CondCode, f: Eflags)
    requires cc != NONE
  {
    var base :=
      match cc / 2
      case 0 => f.of
      case 1 => f.cf
      case 2 => f.zf
      case 3 => f.cf || f.zf
      case 4 => f.sf
      case 5 => f.pf
      case 6 => f.sf != f.of
      case _ => f.zf || f.sf != f.of;
    if cc % 2 == 1 then !base else base
  }

  /** Negating a condition code negates the condition, for every code. */
  lemma {:induction false} NegateHolds(cc: CondCode, f: Eflags)
    requires cc != NONE
    ensures NegateCC(cc) <= 15 && Holds(NegateCC(cc), f) == !Holds(cc, f)
  {
    var r := NegateCC(cc);
    assert r / 2 == cc / 2 && r % 2 != cc % 2;
  }

  const CC_FOR_BC: seq<CondCode> :=
    [NE, E, E, NE, L, B, G, A, LE, BE, GE, AE, E, NE, B, A, BE, AE, NONE]

  /** `CCforBC`: every branch condition has a code; only the unconditional branch has none. */
  function CCforBC(bc: BC): (r: CondCode)
    ensures r == NONE <==> bc == UNCONDITIONAL
  {
    CC_FOR_BC[bc]
  }

  /** The AArch64 code that tests the same relation as an x86 code, after an integer compare. */
  predicate SameRelation(a: A64.CondCode, x: CondCode) {
    || (a == A64.EQ && x == E) || (a == A64.NE && x == NE)
    || (a == A64.LT && x == L) || (a == A64.GE && x == GE)
    || (a == A64.GT && x == G) || (a == A64.LE && x == LE)
    || (a == A64.LO && x == B) || (a == A64.HS && x == AE)
    || (a == A64.HI && x == A) || (a == A64.LS && x == BE)
    || (a == A64.NONE && x == NONE)
  }

  /**
    The two backends' tables agree on every branch condition except the
    16th and 18th, where AArch64 takes the signed GT/GE and x86 the unsigned
    A/AE (the flags a floating-point compare leaves differ between the two).
  */
  lemma {:induction false} TablesAgree(bc: BC)
    ensures bc != 15 && bc != 17 <==> SameRelation(A64.CCforBC(bc), CCforBC(bc))
  {
  }

  // ---------------------------------------------------------------------
  // 8-bit operand flags
  // ---------------------------------------------------------------------

  /** `B8F`: whether the R or the RM operand is an 8-bit one, as bit flags. */
  type B8F = x: bv8 | x <= 3

  const B8F_NONE: B8F := 0
  const B8F_R: B8F := 1
  const B8F_RM: B8F := 2

  /** `operator|` on `B8F`: an operand is 8-bit in the result iff it is in either argument. */
  function B8FOr(lhs: B8F, rhs: B8F): (r: B8F)
    ensures r & B8F_R != 0 <==> lhs & B8F_R != 0 || rhs & B8F_R != 0
    ensures r & B8F_RM != 0 <==> lhs & B8F_RM != 0 || rhs & B8F_RM != 0
  {
    lhs | rhs
  }

  lemma {:induction false} B8FOrLaws(a: B8F, b: B8F, c: B8F)
    ensures B8FOr(B8F_NONE, a) == a && B8FOr(a, B8F_NONE) == a
    ensures B8FOr(a, b) == B8FOr(b, a)
    ensures B8FOr(a, a) == a
    ensures B8FOr(B8FOr(a, b), c) == B8FOr(a, B8FOr(b, c))
  {
  }

  // ---------------------------------------------------------------------
  // Operand types
  // ---------------------------------------------------------------------

  /** `ArgType`: the top three bits give the machine type, the low bits the operand form. */
  const ARG_NONE: u8 := 0x00
  const ARG_I32: u8 := 0x20
  const R32: u8 := 0x21
  const RM32: u8 := 0x22
  const IMM32: u8 := 0x23
  const IMM8SX_32: u8 := 0x24
  const IMM8_32: u8 := 0x25
  const C1_32: u8 := 0x26
  const ARG_I64: u8 := 0x40
  const R64: u8 := 0x41
  const RM64: u8 := 0x42
  const IMM32SX_64: u8 := 0x43
  const IMM8SX_64: u8 := 0x44
  const IMM8_64: u8 := 0x45
  const C1_64: u8 := 0x46
  const ARG_F32: u8 := 0x60
  const R32F: u8 := 0x61
  const RM32F: u8 := 0x62
  const RM32F_128_RESTRICTM: u8 := 0x63
  const ARG_F64: u8 := 0x80
  const R64F: u8 := 0x81
  const RM64F: u8 := 0x82
  const RM64F_128_RESTRICTM: u8 := 0x83
  const TYPEMASK: u8 := 0xE0

  /**
    The machine-type bits of an operand type, `t & TYPEMASK`: TYPEMASK is
    the top three bits of the byte, so the masking clears the five below.
  */
  function TypeBits(t: u8): u8 {
    t - t % (0x100 - TYPEMASK) as int
  }

  // ---------------------------------------------------------------------
  // Register moves
  // ---------------------------------------------------------------------

  const REX_NONE: u8 := 0x00
  const REX_W: u8 := 0x48

  /** The parts of an `AbstrInstr` the move selectors choose between. */
  datatype MoveInstr = MoveInstr(prefix: u8, rex: u8, opcode: u32, dstType: u8, srcType: u8)

  const MOV_RM32_R32 := MoveInstr(0, REX_NONE, 0x89, RM32, R32)
  const MOV_RM64_R64 := MoveInstr(0, REX_W, 0x89, RM64, R64)
  const MOV_R32_RM32 := MoveInstr(0, REX_NONE, 0x8B, R32, RM32)
  const MOV_R64_RM64 := MoveInstr(0, REX_W, 0x8B, R64, RM64)
  const MOVSS_RF_RMF := MoveInstr(0xF3, REX_NONE, 0x0F10, R32F, RM32F)
  const MOVSD_RF_RMF := MoveInstr(0xF2, REX_NONE, 0x0F10, R64F, RM64F)
  const MOVSS_RMF_RF := MoveInstr(0xF3, REX_NONE, 0x0F11, R32F, RM32F)
  const MOVSD_RMF_RF := MoveInstr(0xF2, REX_NONE, 0x0F11, R64F, RM64F)

  /** The machine type of a register of the class and width asked for. */
  function MoveType(isGPR: bool, is64: bool): u8 {
    if isGPR then (if is64 then ARG_I64 else ARG_I32) else (if is64 then ARG_F64 else ARG_F32)
  }

  /**
    `MOV_r_rm`: a move into a register, whose operands have the machine type
    of the class and width asked for; a 64-bit integer move carries REX.W, a
    floating-point one the F2 (double) or F3 (single) prefix.
  */
  function MovRRm(isGPR: bool, is64: bool): (i: MoveInstr)
    ensures TypeBits(i.dstType) == TypeBits(i.srcType) == MoveType(isGPR, is64)
    ensures i.opcode == (if isGPR then 0x8B else 0x0F10)
    ensures isGPR ==> (i.rex == REX_W <==> is64)
    ensures !isGPR ==> i.prefix == (if is64 then 0xF2 else 0xF3)
  {
    if isGPR then (if is64 then MOV_R64_RM64 else MOV_R32_RM32)
    else (if is64 then MOVSD_RF_RMF else MOVSS_RF_RMF)
  }

  /** `MOV_rm_r`: a move out of a register, typed and prefixed as for `MOV_r_rm`. */
  function MovRmR(isGPR: bool, is64: bool): (i: MoveInstr)
    ensures TypeBits(i.dstType) == TypeBits(i.srcType) == MoveType(isGPR, is64)
    ensures i.opcode == (if isGPR then 0x89 else 0x0F11)
    ensures isGPR ==> (i.rex == REX_W <==> is64)
    ensures !isGPR ==> i.prefix == (if is64 then 0xF2 else 0xF3)
  {
    if isGPR then (if is64 then MOV_RM64_R64 else MOV_RM32_R32)
    else (if is64 then MOVSD_RMF_RF else MOVSS_RMF_RF)
  }

  /** The four moves of each direction are distinct, and no load is a store. */
  lemma {:induction false} MovesDistinct(g1: bool, w1: bool, g2: bool, w2: bool)
    ensures MovRRm(g1, w1) == MovRRm(g2, w2) ==> g1 == g2 && w1 == w2
    ensures MovRmR(g1, w1) == MovRmR(g2, w2) ==> g1 == g2 && w1 == w2
    ensures MovRRm(g1, w1) != MovRmR(g2, w2)
  {
  }
}
