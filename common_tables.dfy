/**
  The compiler's per-opcode tables (`Common.hpp`): the operand and result
  machine types of every arithmetic opcode, whether it is commutative and
  whether it can trap, the arity the stack handling uses, and the result
  type of each memory load.

  Opcodes are the byte values of the WebAssembly binary format (section
  5.4 of the WebAssembly Core Specification); the frontend reads an
  opcode byte and uses it as the opcode unchanged. The arithmetic
  opcodes run without gaps from `i32.eqz` (0x45) to `i64.extend32_s`
  (0xC4), and the tables are indexed by the distance from `i32.eqz`.
*/
module CommonTables {
  import opened UInt

  /** `MachineType`: the type of a value in a machine register. */
  datatype MachineType = INVALID | I32 | I64 | F32 | F64

  predicate IsInteger(t: MachineType) { t == I32 || t == I64 }
  predicate IsFloating(t: MachineType) { t == F32 || t == F64 }

  /** `ArithArg`: the operand types (the second is INVALID for a unary op), the result type, and commutativity. */
  datatype ArithArg = ArithArg(arg0Type: MachineType, arg1Type: MachineType, resultType: MachineType, commutative: bool)

  // Opcodes used by the tables.
  const SELECT: u32 := 0x1B
  const I32_LOAD: u32 := 0x28
  const I64_LOAD: u32 := 0x29
  const F32_LOAD: u32 := 0x2A
  const F64_LOAD: u32 := 0x2B
  const I32_LOAD8_S: u32 := 0x2C
  const I64_LOAD8_S: u32 := 0x30
  const I64_LOAD32_U: u32 := 0x35
  const I32_EQZ: u32 := 0x45
  const I64_EQZ: u32 := 0x50
  const F32_EQ: u32 := 0x5B
  const F64_GE: u32 := 0x66
  const I32_CLZ: u32 := 0x67
  const I32_ADD: u32 := 0x6A
  const I32_DIV_S: u32 := 0x6D
  const I32_REM_U: u32 := 0x70
  const I32_ROTR: u32 := 0x78
  const I64_CLZ: u32 := 0x79
  const I64_ADD: u32 := 0x7C
  const I64_DIV_S: u32 := 0x7F
  const I64_REM_U: u32 := 0x82
  const I64_ROTR: u32 := 0x8A
  const F32_ABS: u32 := 0x8B
  const F32_ADD: u32 := 0x92
  const F32_COPYSIGN: u32 := 0x98
  const F64_ABS: u32 := 0x99
  const F64_ADD: u32 := 0xA0
  const F64_COPYSIGN: u32 := 0xA6
  const I32_WRAP_I64: u32 := 0xA7
  const I32_TRUNC_F32_S: u32 := 0xA8
  const I32_TRUNC_F64_U: u32 := 0xAB
  const I64_TRUNC_F32_S: u32 := 0xAE
  const I64_TRUNC_F64_U: u32 := 0xB1
  const I64_EXTEND32_S: u32 := 0xC4

  /** An opcode the arithmetic tables describe. */
  predicate IsArith(op: u32) {
    I32_EQZ <= op <= I64_EXTEND32_S
  }

  /** A memory load opcode. */
  predicate IsLoad(op: u32) {
    I32_LOAD <= op <= I64_LOAD32_U
  }

  // ---------------------------------------------------------------------
  // `arithArgs`, group by group
  // ---------------------------------------------------------------------

  /** eqz, eq, ne, lt_s, lt_u, gt_s, gt_u, le_s, le_u, ge_s, ge_u on a 32- or 64-bit integer. */
  const I32_COMPARISONS: seq<ArithArg> := [
    ArithArg(I32, INVALID, I32, false), ArithArg(I32, I32, I32, true), ArithArg(I32, I32, I32, true),
    ArithArg(I32, I32, I32, false), ArithArg(I32, I32, I32, false), ArithArg(I32, I32, I32, false),
    ArithArg(I32, I32, I32, false), ArithArg(I32, I32, I32, false), ArithArg(I32, I32, I32, false),
    ArithArg(I32, I32, I32, false), ArithArg(I32, I32, I32, false)]
  const I64_COMPARISONS: seq<ArithArg> := [
    ArithArg(I64, INVALID, I32, false), ArithArg(I64, I64, I32, true), ArithArg(I64, I64, I32, true),
    ArithArg(I64, I64, I32, false), ArithArg(I64, I64, I32, false), ArithArg(I64, I64, I32, false),
    ArithArg(I64, I64, I32, false), ArithArg(I64, I64, I32, false), ArithArg(I64, I64, I32, false),
    ArithArg(I64, I64, I32, false), ArithArg(I64, I64, I32, false)]
  /** eq, ne, lt, gt, le, ge on a float. */
  const F32_COMPARISONS: seq<ArithArg> := [
    ArithArg(F32, F32, I32, true), ArithArg(F32, F32, I32, true), ArithArg(F32, F32, I32, false),
    ArithArg(F32, F32, I32, false), ArithArg(F32, F32, I32, false), ArithArg(F32, F32, I32, false)]
  const F64_COMPARISONS: seq<ArithArg> := [
    ArithArg(F64, F64, I32, true), ArithArg(F64, F64, I32, true), ArithArg(F64, F64, I32, false),
    ArithArg(F64, F64, I32, false), ArithArg(F64, F64, I32, false), ArithArg(F64, F64, I32, false)]
  /** clz, ctz, popcnt, add, sub, mul, div_s, div_u, rem_s, rem_u, and, or, xor, shl, shr_s, shr_u, rotl, rotr. */
  const I32_NUMERIC: seq<ArithArg> := [
    ArithArg(I32, INVALID, I32, false), ArithArg(I32, INVALID, I32, false), ArithArg(I32, INVALID, I32, false),
    ArithArg(I32, I32, I32, true), ArithArg(I32, I32, I32, false), ArithArg(I32, I32, I32, true),
    ArithArg(I32, I32, I32, false), ArithArg(I32, I32, I32, false), ArithArg(I32, I32, I32, false),
    ArithArg(I32, I32, I32, false), ArithArg(I32, I32, I32, true), ArithArg(I32, I32, I32, true),
    ArithArg(I32, I32, I32, true), ArithArg(I32, I32, I32, false), ArithArg(I32, I32, I32, false),
    ArithArg(I32, I32, I32, false), ArithArg(I32, I32, I32, false), ArithArg(I32, I32, I32, false)]
  const I64_NUMERIC: seq<ArithArg> := [
    ArithArg(I64, INVALID, I64, false), ArithArg(I64, INVALID, I64, false), ArithArg(I64, INVALID, I64, false),
    ArithArg(I64, I64, I64, true), ArithArg(I64, I64, I64, false), ArithArg(I64, I64, I64, true),
    ArithArg(I64, I64, I64, false), ArithArg(I64, I64, I64, false), ArithArg(I64, I64, I64, false),
    ArithArg(I64, I64, I64, false), ArithArg(I64, I64, I64, true), ArithArg(I64, I64, I64, true),
    ArithArg(I64, I64, I64, true), ArithArg(I64, I64, I64, false), ArithArg(I64, I64, I64, false),
    ArithArg(I64, I64, I64, false), ArithArg(I64, I64, I64, false), ArithArg(I64, I64, I64, false)]
  /** abs, neg, ceil, floor, trunc, nearest, sqrt, add, sub, mul, div, min, max, copysign. */
  const F32_NUMERIC: seq<ArithArg> := [
    ArithArg(F32, INVALID, F32, false), ArithArg(F32, INVALID, F32, false), ArithArg(F32, INVALID, F32, false),
    ArithArg(F32, INVALID, F32, false), ArithArg(F32, INVALID, F32, false), ArithArg(F32, INVALID, F32, false),
    ArithArg(F32, INVALID, F32, false), ArithArg(F32, F32, F32, true), ArithArg(F32, F32, F32, false),
    ArithArg(F32, F32, F32, true), ArithArg(F32, F32, F32, false), ArithArg(F32, F32, F32, true),
    ArithArg(F32, F32, F32, true), ArithArg(F32, F32, F32, false)]
  const F64_NUMERIC: seq<ArithArg> := [
    ArithArg(F64, INVALID, F64, false), ArithArg(F64, INVALID, F64, false), ArithArg(F64, INVALID, F64, false),
    ArithArg(F64, INVALID, F64, false), ArithArg(F64, INVALID, F64, false), ArithArg(F64, INVALID, F64, false),
    ArithArg(F64, INVALID, F64, false), ArithArg(F64, F64, F64, true), ArithArg(F64, F64, F64, false),
    ArithArg(F64, F64, F64, true), ArithArg(F64, F64, F64, false), ArithArg(F64, F64, F64, true),
    ArithArg(F64, F64, F64, true), ArithArg(F64, F64, F64, false)]
  /**
    i32.wrap_i64, i32.trunc_f32_s/u, i32.trunc_f64_s/u; i64.extend_i32_s/u,
    i64.trunc_f32_s/u, i64.trunc_f64_s/u; f32.convert_i32_s/u,
    f32.convert_i64_s/u, f32.demote_f64; f64.convert_i32_s/u,
    f64.convert_i64_s/u, f64.promote_f32; the four reinterpretations; the
    five sign extensions.
  */
  const CONVERSIONS: seq<ArithArg> := [
    ArithArg(I64, INVALID, I32, false), ArithArg(F32, INVALID, I32, false), ArithArg(F32, INVALID, I32, false),
    ArithArg(F64, INVALID, I32, false), ArithArg(F64, INVALID, I32, false),
    ArithArg(I32, INVALID, I64, false), ArithArg(I32, INVALID, I64, false), ArithArg(F32, INVALID, I64, false),
    ArithArg(F32, INVALID, I64, false), ArithArg(F64, INVALID, I64, false), ArithArg(F64, INVALID, I64, false),
    ArithArg(I32, INVALID, F32, false), ArithArg(I32, INVALID, F32, false), ArithArg(I64, INVALID, F32, false),
    ArithArg(I64, INVALID, F32, false), ArithArg(F64, INVALID, F32, false),
    ArithArg(I32, INVALID, F64, false), ArithArg(I32, INVALID, F64, false), ArithArg(I64, INVALID, F64, false),
    ArithArg(I64, INVALID, F64, false), ArithArg(F32, INVALID, F64, false),
    ArithArg(F32, INVALID, I32, false), ArithArg(F64, INVALID, I64, false), ArithArg(I32, INVALID, F32, false),
    ArithArg(I64, INVALID, F64, false),
    ArithArg(I32, INVALID, I32, false), ArithArg(I32, INVALID, I32, false), ArithArg(I64, INVALID, I64, false),
    ArithArg(I64, INVALID, I64, false), ArithArg(I64, INVALID, I64, false)]

  const COMPARISONS: seq<ArithArg> := I32_COMPARISONS + I64_COMPARISONS + F32_COMPARISONS + F64_COMPARISONS
  const NUMERIC: seq<ArithArg> := I32_NUMERIC + I64_NUMERIC + F32_NUMERIC + F64_NUMERIC

  /** `arithArgs`: one entry per arithmetic opcode, in opcode order. */
  const ARITH_ARGS: seq<ArithArg> := COMPARISONS + NUMERIC + CONVERSIONS

  /** Where entry i of `arithArgs` lies: the group and the position in it. */
  lemma {:induction false} ArithIndex(i: nat)
    requires i < |ARITH_ARGS|
    ensures i < 11 ==> ARITH_ARGS[i] == I32_COMPARISONS[i]
    ensures 11 <= i < 22 ==> ARITH_ARGS[i] == I64_COMPARISONS[i - 11]
    ensures 22 <= i < 28 ==> ARITH_ARGS[i] == F32_COMPARISONS[i - 22]
    ensures 28 <= i < 34 ==> ARITH_ARGS[i] == F64_COMPARISONS[i - 28]
    ensures 34 <= i < 52 ==> ARITH_ARGS[i] == I32_NUMERIC[i - 34]
    ensures 52 <= i < 70 ==> ARITH_ARGS[i] == I64_NUMERIC[i - 52]
    ensures 70 <= i < 84 ==> ARITH_ARGS[i] == F32_NUMERIC[i - 70]
    ensures 84 <= i < 98 ==> ARITH_ARGS[i] == F64_NUMERIC[i - 84]
    ensures 98 <= i ==> ARITH_ARGS[i] == CONVERSIONS[i - 98]
  {
    if i < 34 {
      assert ARITH_ARGS[i] == COMPARISONS[i];
    } else if i < 98 {
      assert ARITH_ARGS[i] == NUMERIC[i - 34];
    }
  }

  /**
    An entry that types an operation: a real operand type and result type;
    a second operand, if any, of the first operand's type; and only binary
    operations commutative.
  */
  predicate WellTyped(a: ArithArg) {
    && a.arg0Type != INVALID && a.resultType != INVALID
    && (a.arg1Type == INVALID || a.arg1Type == a.arg0Type)
    && (a.commutative ==> a.arg1Type != INVALID)
  }

  lemma {:induction false} GroupShapes()
    ensures forall j | 0 <= j < 11 :: WellTyped(I32_COMPARISONS[j]) && I32_COMPARISONS[j].resultType == I32
    ensures forall j | 0 <= j < 11 :: WellTyped(I64_COMPARISONS[j]) && I64_COMPARISONS[j].resultType == I32
    ensures forall j | 0 <= j < 6 :: WellTyped(F32_COMPARISONS[j]) && F32_COMPARISONS[j].resultType == I32
    ensures forall j | 0 <= j < 6 :: WellTyped(F64_COMPARISONS[j]) && F64_COMPARISONS[j].resultType == I32
    ensures forall j | 0 <= j < 18 :: WellTyped(I32_NUMERIC[j]) && I32_NUMERIC[j].resultType == I32_NUMERIC[j].arg0Type
    ensures forall j | 0 <= j < 18 :: WellTyped(I64_NUMERIC[j]) && I64_NUMERIC[j].resultType == I64_NUMERIC[j].arg0Type
    ensures forall j | 0 <= j < 14 :: WellTyped(F32_NUMERIC[j]) && F32_NUMERIC[j].resultType == F32_NUMERIC[j].arg0Type
    ensures forall j | 0 <= j < 14 :: WellTyped(F64_NUMERIC[j]) && F64_NUMERIC[j].resultType == F64_NUMERIC[j].arg0Type
    ensures forall j | 0 <= j < 30 :: WellTyped(CONVERSIONS[j]) && CONVERSIONS[j].arg1Type == INVALID
  {
  }

  /**
    `getArithArgs`: the entry of an arithmetic opcode. Every entry is well
    typed; comparisons give an I32, numeric operations keep their operand
    type, and conversions take one operand.
  */
  function GetArithArgs(op: u32): (a: ArithArg)
    requires IsArith(op)
    ensures WellTyped(a)
    ensures op <= F64_GE ==> a.resultType == I32
    ensures F64_GE < op <= F64_COPYSIGN ==> a.resultType == a.arg0Type
    ensures F64_COPYSIGN < op ==> a.arg1Type == INVALID
  {
    var i := op - I32_EQZ;
    GroupShapes();
    ArithIndex(i);
    ARITH_ARGS[i]
  }

  /** The table has one entry per arithmetic opcode, as the size check demands. */
  lemma {:induction false} ArithArgsSize()
    ensures |ARITH_ARGS| == I64_EXTEND32_S - I32_EQZ + 1
  {
  }

  /**
    The commutative operations of the WebAssembly standard: eq and ne of
    every type, integer add, mul, and, or, xor, and float add, mul, min, max.
  */
  const COMMUTATIVE_OPS: set<u32> := {
    0x46, 0x47, 0x51, 0x52, 0x5B, 0x5C, 0x61, 0x62,
    0x6A, 0x6C, 0x71, 0x72, 0x73, 0x7C, 0x7E, 0x83, 0x84, 0x85,
    0x92, 0x94, 0x96, 0x97, 0xA0, 0xA2, 0xA4, 0xA5}

  lemma {:induction false} GroupCommutative()
    ensures forall j | 0 <= j < 11 :: I32_COMPARISONS[j].commutative <==> j == 1 || j == 2
    ensures forall j | 0 <= j < 11 :: I64_COMPARISONS[j].commutative <==> j == 1 || j == 2
    ensures forall j | 0 <= j < 6 :: F32_COMPARISONS[j].commutative <==> j == 0 || j == 1
    ensures forall j | 0 <= j < 6 :: F64_COMPARISONS[j].commutative <==> j == 0 || j == 1
    ensures forall j | 0 <= j < 18 :: I32_NUMERIC[j].commutative <==> j in {3, 5, 10, 11, 12}
    ensures forall j | 0 <= j < 18 :: I64_NUMERIC[j].commutative <==> j in {3, 5, 10, 11, 12}
    ensures forall j | 0 <= j < 14 :: F32_NUMERIC[j].commutative <==> j in {7, 9, 11, 12}
    ensures forall j | 0 <= j < 14 :: F64_NUMERIC[j].commutative <==> j in {7, 9, 11, 12}
    ensures forall j | 0 <= j < 30 :: !CONVERSIONS[j].commutative
  {
  }

  /** The table marks exactly those operations commutative. */
  lemma {:induction false} CommutativeExactly(op: u32)
    requires IsArith(op)
    ensures GetArithArgs(op).commutative <==> op in COMMUTATIVE_OPS
  {
    var i := op - I32_EQZ;
    ArithIndex(i);
    GroupCommutative();
    if i < 34 {
      assert op in COMMUTATIVE_OPS <==> op in {0x46, 0x47, 0x51, 0x52, 0x5B, 0x5C, 0x61, 0x62};
    } else if i < 70 {
      assert op in COMMUTATIVE_OPS <==> op in {0x6A, 0x6C, 0x71, 0x72, 0x73, 0x7C, 0x7E, 0x83, 0x84, 0x85};
    } else if i < 98 {
      assert op in COMMUTATIVE_OPS <==> op in {0x92, 0x94, 0x96, 0x97, 0xA0, 0xA2, 0xA4, 0xA5};
    } else {
      assert op !in COMMUTATIVE_OPS;
    }
  }

  // ---------------------------------------------------------------------
  // `opcodeMightTrap`
  // ---------------------------------------------------------------------

  /** Integer div_s, div_u, rem_s, rem_u trap on a zero divisor (and div_s on overflow). */
  const INT_NUMERIC_TRAPS: seq<bool> := [
    false, false, false, false, false, false, true, true, true,
    true, false, false, false, false, false, false, false, false]
  /** Float-to-integer truncations trap on NaN and on values out of range. */
  const CONVERSION_TRAPS: seq<bool> := [
    false, true, true, true, true,
    false, false, true, true, true, true,
    false, false, false, false, false,
    false, false, false, false, false,
    false, false, false, false,
    false, false, false, false, false]

  /** Comparisons never trap. */
  const COMPARISON_TRAPS: seq<bool> := [
    false, false, false, false, false, false, false, false, false, false, false,
    false, false, false, false, false, false, false, false, false, false, false,
    false, false, false, false, false, false,
    false, false, false, false, false, false]
  /** Float arithmetic never traps. */
  const FLOAT_NUMERIC_TRAPS: seq<bool> := [
    false, false, false, false, false, false, false, false, false, false, false, false, false, false]

  /** `opcodeMightTrap`, in opcode order. */
  const MIGHT_TRAP: seq<bool> :=
    COMPARISON_TRAPS + INT_NUMERIC_TRAPS + INT_NUMERIC_TRAPS + FLOAT_NUMERIC_TRAPS + FLOAT_NUMERIC_TRAPS
    + CONVERSION_TRAPS

  /** The integer divisions and remainders and the float-to-integer truncations. */
  predicate IsTrappingOp(op: u32) {
    || I32_DIV_S <= op <= I32_REM_U || I64_DIV_S <= op <= I64_REM_U
    || I32_TRUNC_F32_S <= op <= I32_TRUNC_F64_U || I64_TRUNC_F32_S <= op <= I64_TRUNC_F64_U
  }

  lemma {:induction false} GroupTraps()
    ensures forall j | 0 <= j < 34 :: !COMPARISON_TRAPS[j]
    ensures forall j | 0 <= j < 14 :: !FLOAT_NUMERIC_TRAPS[j]
    ensures forall j | 0 <= j < 18 :: INT_NUMERIC_TRAPS[j] <==> 6 <= j < 10
    ensures forall j | 0 <= j < 30 :: CONVERSION_TRAPS[j] <==> 1 <= j < 5 || 7 <= j < 11
  {
  }

  /**
    `opcodeCanTrap`: an arithmetic opcode can trap exactly when it is an
    integer division or remainder or a float-to-integer truncation.
  */
  function OpcodeCanTrap(op: u32): (r: bool)
    requires IsArith(op)
    ensures r <==> IsTrappingOp(op)
  {
    var i := op - I32_EQZ;
    GroupTraps();
    assert |MIGHT_TRAP| == 128;
    assert 34 <= i < 52 ==> MIGHT_TRAP[i] == INT_NUMERIC_TRAPS[i - 34];
    assert 52 <= i < 70 ==> MIGHT_TRAP[i] == INT_NUMERIC_TRAPS[i - 52];
    assert 98 <= i ==> MIGHT_TRAP[i] == CONVERSION_TRAPS[i - 98];
    MIGHT_TRAP[i]
  }

  lemma {:induction false} GroupTrapTypes()
    ensures forall j | 6 <= j < 10 :: I32_NUMERIC[j] == ArithArg(I32, I32, I32, false)
    ensures forall j | 6 <= j < 10 :: I64_NUMERIC[j] == ArithArg(I64, I64, I64, false)
    ensures forall j | 1 <= j < 5 || 7 <= j < 11 ::
      IsInteger(CONVERSIONS[j].resultType) && IsFloating(CONVERSIONS[j].arg0Type) && CONVERSIONS[j].arg1Type == INVALID
  {
  }

  /**
    An operation that can trap produces an integer, either from two
    integers of its own type (a division) or from one float (a truncation).
  */
  lemma {:induction false} TrapsProduceIntegers(op: u32)
    requires IsArith(op) && OpcodeCanTrap(op)
    ensures IsInteger(GetArithArgs(op).resultType)
    ensures GetArithArgs(op).arg1Type != INVALID ==> GetArithArgs(op).resultType == GetArithArgs(op).arg0Type
    ensures GetArithArgs(op).arg1Type == INVALID ==> IsFloating(GetArithArgs(op).arg0Type)
  {
    var j := op - I32_EQZ;
    ArithIndex(j);
    GroupTrapTypes();
    if j < 52 {
      assert 40 <= j < 44;
    } else if j < 98 {
      assert 58 <= j < 62;
    } else {
      assert 99 <= j < 103 || 105 <= j < 109;
    }
  }

  // ---------------------------------------------------------------------
  // Arity and loads
  // ---------------------------------------------------------------------

  /** The binary operations of the WebAssembly standard among the opcodes the arity covers. */
  predicate IsBinaryOp(op: u32) {
    || 0x46 <= op <= 0x4F || 0x51 <= op <= 0x66
    || I32_ADD <= op <= I32_ROTR || I64_ADD <= op <= I64_ROTR
    || F32_ADD <= op <= F32_COPYSIGN || F64_ADD <= op <= F64_COPYSIGN
  }

  /**
    `getArithArity`: how many operands an opcode takes from the stack:
    three for select, one for a load, and for an arithmetic opcode two
    exactly when its entry has a second operand type.
  */
  function GetArithArity(op: u32): (r: nat)
    requires op == SELECT || IsLoad(op) || IsArith(op)
    ensures 1 <= r <= 3
    ensures r == 3 <==> op == SELECT
    ensures IsArith(op) ==> (r == 2 <==> GetArithArgs(op).arg1Type != INVALID)
  {
    if op == SELECT then 3
    else if IsLoad(op) then 1
    else if GetArithArgs(op).arg1Type == INVALID then 1 else 2
  }

  lemma {:induction false} GroupBinary()
    ensures forall j | 0 <= j < 11 :: I32_COMPARISONS[j].arg1Type != INVALID <==> j != 0
    ensures forall j | 0 <= j < 11 :: I64_COMPARISONS[j].arg1Type != INVALID <==> j != 0
    ensures forall j | 0 <= j < 6 :: F32_COMPARISONS[j].arg1Type != INVALID
    ensures forall j | 0 <= j < 6 :: F64_COMPARISONS[j].arg1Type != INVALID
    ensures forall j | 0 <= j < 18 :: I32_NUMERIC[j].arg1Type != INVALID <==> j >= 3
    ensures forall j | 0 <= j < 18 :: I64_NUMERIC[j].arg1Type != INVALID <==> j >= 3
    ensures forall j | 0 <= j < 14 :: F32_NUMERIC[j].arg1Type != INVALID <==> j >= 7
    ensures forall j | 0 <= j < 14 :: F64_NUMERIC[j].arg1Type != INVALID <==> j >= 7
  {
  }

  /** An arithmetic opcode takes two operands exactly when the standard makes it a binary operation. */
  lemma {:induction false} ArityMatchesStandard(op: u32)
    requires IsArith(op)
    ensures GetArithArity(op) == 2 <==> IsBinaryOp(op)
    ensures GetArithArity(op) == 1 <==> !IsBinaryOp(op)
  {
    ArithIndex(op - I32_EQZ);
    GroupBinary();
    GroupShapes();
  }

  /** `getLoadResultType`'s table: i32, i64, f32, f64 load, then the narrow i32 and i64 loads. */
  const LOAD_RESULT_TYPES: seq<MachineType> := [I32, I64, F32, F64, I32, I32, I32, I32, I64, I64, I64, I64, I64, I64]

  /**
    `getLoadResultType`: the type a load pushes: f32 and f64 for the float
    loads, i64 for the full and the narrow 64-bit loads, i32 otherwise.
  */
  function GetLoadResultType(op: u32): (r: MachineType)
    requires IsLoad(op)
    ensures r == F32 <==> op == F32_LOAD
    ensures r == F64 <==> op == F64_LOAD
    ensures r == I64 <==> op == I64_LOAD || I64_LOAD8_S <= op
    ensures r == I32 <==> op == I32_LOAD || I32_LOAD8_S <= op < I64_LOAD8_S
  {
    LOAD_RESULT_TYPES[op - I32_LOAD]
  }
}
