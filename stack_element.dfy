/**
  The compiler's stack elements (`StackElement.hpp`): the entries of the
  operand and control stack the code generator keeps at compile time, their
  factories, the test whether two entries stand for the same data, and the
  constant-zero test.

  A C++ `StackElement` is a type tag plus a union; here each tag is a
  constructor carrying the union member it makes active. Constants keep the
  raw bits of their 8-byte union: a 32-bit constant fills the low four bytes
  and leaves the rest zero, as the zero-initialised union does. Floats are
  bit patterns only.
*/
module StackElements {
  import opened UInt
  import opened CommonTables
  import D = DwarfBytes

  /** A machine type a value can have (`MachineType` without INVALID). */
  type NumType = t: MachineType | t != INVALID witness I32

  /** `MachineTypeUtil::getSize`: bytes of a value of the type. */
  function SizeOf(t: NumType): nat {
    if t == I32 || t == F32 then 4 else 8
  }

  /** Where a calculation result lives (`StorageType`). */
  datatype StorageType = REGISTER | LINKDATA | STACKMEMORY

  datatype BlockKind = BLOCK | LOOP | IFBLOCK

  /** `ControlFlowState`: frame bytes already checked against the stack limit. */
  datatype ControlFlowState = ControlFlowState(checkedStackFrameSize: u32)

  /** `BlockInfo`: `binaryPosition` is the loop start of a LOOP and the last branch of a BLOCK or IFBLOCK. */
  datatype BlockInfo = BlockInfo(binaryPosition: u32, blockResultsStackOffset: u32, prevBlockReference: int,
                                 sigIndex: u32, blockUnreachable: bool, entryStackFrameSize: u32,
                                 endState: ControlFlowState)

  /**
    A stack element. `TempResult.location` is the register, the link-data
    offset or the stack-frame position, as `storageType` says.
  */
  datatype StackElement =
    | Constant(ctype: NumType, raw: u64)
    | Local(localIdx: u32)
    | Global(globalIdx: u32)
    | ScratchRegister(reg: u32, typeFlag: NumType)
    | TempResult(typeFlag: NumType, storageType: StorageType, location: u32, referencePosition: u32, machineType: NumType)
    | DeferredAction(opcode: u32, sideEffect: u16, dataOffset: u32)
    | Structural(kind: BlockKind, info: BlockInfo)
    | Skip(skipCount: u32)
    | Invalid

  /**
    The base types numbered at or below GLOBAL in `StackType`: the entries
    that stand for data (constants and variables).
  */
  predicate IsData(e: StackElement) {
    e.Constant? || e.Local? || e.Global? || e.ScratchRegister? || e.TempResult?
  }

  /** `isStackMemory`: a temporary result stored in the stack frame. */
  predicate IsStackMemory(e: StackElement) {
    e.TempResult? && e.storageType == STACKMEMORY
  }

  /** The full `type` field (base type and type flag) of two elements is the same. */
  predicate SameType(a: StackElement, b: StackElement) {
    match a
    case Constant(t, _) => b.Constant? && b.ctype == t
    case ScratchRegister(_, t) => b.ScratchRegister? && b.typeFlag == t
    case TempResult(t, _, _, _, _) => b.TempResult? && b.typeFlag == t
    case Local(_) => b.Local?
    case Global(_) => b.Global?
    case DeferredAction(_, _, _) => b.DeferredAction?
    case Structural(k, _) => b.Structural? && b.kind == k
    case Skip(_) => b.Skip?
    case Invalid => b.Invalid?
  }

  /** The first n bytes of the raw constant bits, as `memcmp` reads them. */
  function LowBytes(raw: u64, n: nat): nat
    requires n == 4 || n == 8
  {
    if n == 4 then raw % TWO32 else raw
  }

  /**
    `equalsVariable`: whether two elements (either may be null) stand for
    the same data. Null, INVALID, a type mismatch and the structural kinds
    are never equal; constants compare the bytes of their width; temporary
    results compare storage type and location; other variables compare
    their index or register.
  */
  function EqualsVariable(lhs: D.Option<StackElement>, rhs: D.Option<StackElement>): (r: bool)
    ensures (lhs.None? || rhs.None?) ==> !r
    ensures r ==> IsData(lhs.value) && SameType(lhs.value, rhs.value)
    ensures lhs.Some? && rhs.Some? && lhs.value.TempResult? && rhs.value.TempResult? ==>
      (r <==> lhs.value.typeFlag == rhs.value.typeFlag && lhs.value.storageType == rhs.value.storageType
              && lhs.value.location == rhs.value.location)
  {
    if lhs.None? || rhs.None? then false
    else
      var a, b := lhs.value, rhs.value;
      if a.Invalid? then false
      else if !SameType(a, b) || !IsData(a) then false
      else
        match a
        case Constant(t, raw) => LowBytes(raw, SizeOf(t)) == LowBytes(b.raw, SizeOf(t))
        case TempResult(_, st, loc, _, _) => st == b.storageType && loc == b.location
        case Local(i) => i == b.localIdx
        case Global(i) => i == b.globalIdx
        case ScratchRegister(reg, _) => reg == b.reg
  }

  /** Equality of data is symmetric. */
  lemma {:induction false} EqualsSymmetric(a: D.Option<StackElement>, b: D.Option<StackElement>)
    ensures EqualsVariable(a, b) == EqualsVariable(b, a)
  {
  }

  /** Every data element equals itself; nothing else does. */
  lemma {:induction false} EqualsReflexive(e: StackElement)
    ensures EqualsVariable(D.Some(e), D.Some(e)) <==> IsData(e)
  {
  }

  /** Equality of data is transitive, so it is an equivalence on data elements. */
  lemma {:induction false} EqualsTransitive(a: StackElement, b: StackElement, c: StackElement)
    requires EqualsVariable(D.Some(a), D.Some(b)) && EqualsVariable(D.Some(b), D.Some(c))
    ensures EqualsVariable(D.Some(a), D.Some(c))
  {
  }

  // ---------------------------------------------------------------------
  // Factories
  // ---------------------------------------------------------------------

  /** The end state a new block starts with: the largest checked size. */
  const UNCHECKED_END: ControlFlowState := ControlFlowState(U32_MAX)

  /** `block`, `loop`, `ifblock`: a structural element holding its arguments and an end state of UINT32_MAX. */
  function MakeBlock(kind: BlockKind, binaryPosition: u32, blockResultsStackOffset: u32, prevBlockReference: int,
                     sigIndex: u32, entryStackFrameSize: u32, unreachable: bool): (e: StackElement)
    ensures e.Structural? && e.kind == kind && e.info.endState == UNCHECKED_END
    ensures e.info == BlockInfo(binaryPosition, blockResultsStackOffset, prevBlockReference, sigIndex, unreachable,
                                entryStackFrameSize, UNCHECKED_END)
  {
    Structural(kind, BlockInfo(binaryPosition, blockResultsStackOffset, prevBlockReference, sigIndex, unreachable,
                               entryStackFrameSize, ControlFlowState(U32_MAX)))
  }

  /** `i32Const`: the value fills the low four bytes. */
  function I32Const(value: u32): (e: StackElement)
    ensures e.Constant? && e.ctype == I32 && LowBytes(e.raw, 4) == value
  {
    Constant(I32, value)
  }

  /** `i64Const`. */
  function I64Const(value: u64): (e: StackElement)
    ensures e.Constant? && e.ctype == I64 && e.raw == value
  {
    Constant(I64, value)
  }

  /** `f32Const`, given the float's bit pattern. */
  function F32Const(bits: u32): (e: StackElement)
    ensures e.Constant? && e.ctype == F32 && LowBytes(e.raw, 4) == bits
  {
    Constant(F32, bits)
  }

  /** `f64Const`, given the double's bit pattern. */
  function F64Const(bits: u64): (e: StackElement)
    ensures e.Constant? && e.ctype == F64 && e.raw == bits
  {
    Constant(F64, bits)
  }

  /** Two constants made by the same factory are equal data exactly when their values are. */
  lemma {:induction false} ConstEquality(a: u32, b: u32, x: u64, y: u64)
    ensures EqualsVariable(D.Some(I32Const(a)), D.Some(I32Const(b))) <==> a == b
    ensures EqualsVariable(D.Some(F32Const(a)), D.Some(F32Const(b))) <==> a == b
    ensures EqualsVariable(D.Some(I64Const(x)), D.Some(I64Const(y))) <==> x == y
    ensures EqualsVariable(D.Some(F64Const(x)), D.Some(F64Const(y))) <==> x == y
    ensures !EqualsVariable(D.Some(I32Const(a)), D.Some(F32Const(a)))
  {
  }

  /**
    `isConstantZero`: a constant whose raw bits of its width are all zero
    (so the float -0.0, whose sign bit is set, is not zero).
  */
  predicate IsConstantZero(e: StackElement) {
    e.Constant? && LowBytes(e.raw, SizeOf(e.ctype)) == 0
  }

  /** The factories' constants are zero exactly for the value (or bit pattern) zero. */
  lemma {:induction false} ConstantZero(a: u32, x: u64)
    ensures IsConstantZero(I32Const(a)) <==> a == 0
    ensures IsConstantZero(F32Const(a)) <==> a == 0
    ensures IsConstantZero(I64Const(x)) <==> x == 0
    ensures IsConstantZero(F64Const(x)) <==> x == 0
    ensures !IsConstantZero(F32Const(0x8000_0000)) && !IsConstantZero(F64Const(0x8000_0000_0000_0000))
  {
  }

  /** `dummyConst`: the zero constant of a machine type; it is a constant zero of that type. */
  function DummyConst(t: NumType): (e: StackElement)
    ensures e.Constant? && e.ctype == t && IsConstantZero(e)
  {
    match t
    case F64 => F64Const(0)
    case F32 => F32Const(0)
    case I64 => I64Const(0)
    case I32 => I32Const(0)
  }

  /** `scratchReg`. */
  function ScratchReg(reg: u32, typeFlag: NumType): (e: StackElement)
    ensures e.ScratchRegister? && e.reg == reg && e.typeFlag == typeFlag
  {
    ScratchRegister(reg, typeFlag)
  }

  /** `tempResult`: the storage decides which location is kept. */
  function TempResultOf(machineType: NumType, storageType: StorageType, location: u32, storageMachineType: NumType,
                        referencePosition: u32): (e: StackElement)
    ensures e.TempResult? && e.typeFlag == machineType && e.storageType == storageType && e.location == location
    ensures IsStackMemory(e) <==> storageType == STACKMEMORY
  {
    TempResult(machineType, storageType, location, referencePosition, storageMachineType)
  }

  /** `action(op, sideEffect, dataOffset)`. */
  function Action(opcode: u32, sideEffect: u16, dataOffset: u32): (e: StackElement)
    ensures e.DeferredAction? && e.opcode == opcode && e.sideEffect == sideEffect && e.dataOffset == dataOffset
    ensures !IsData(e)
  {
    DeferredAction(opcode, sideEffect, dataOffset)
  }

  /** `action(op)`: the same as `action(op, 0, 0)`: no side effect and no data offset. */
  function ActionOf(opcode: u32): (e: StackElement)
    ensures e == Action(opcode, 0, 0)
  {
    Action(opcode, 0, 0)
  }
}
