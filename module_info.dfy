/**
  The compiler's record of the module (`ModuleInfo.hpp`): handles to arrays
  placed in compiler memory, the table of function definitions, the local
  variable definitions, the map from variables to their reference slots,
  and the frame-width and register-budget accessors.

  Addresses are unbounded integers; compiler memory is a byte sequence
  where its contents matter.
*/
module ModuleInfos {
  import opened UInt
  import opened CommonTables
  import opened StackElements
  import D = DwarfBytes

  // ---------------------------------------------------------------------
  // OffsetHandler
  // ---------------------------------------------------------------------

  /**
    `OffsetHandler<T>`: an array of T at an offset in a memory writer. Until
    `SetOffset` it refers to no memory and its pointer is null.
  */
  class OffsetHandler {
    var offset: u32
    /** The base address of the referenced memory writer; None is a null writer. */
    var memory: D.Option<nat>

    constructor ()
      ensures offset == 0 && memory.None?
    {
      offset := 0;
      memory := D.None;
    }

    /** `setOffset`: remembers the offset and the memory writer. */
    method SetOffset(newOffset: u32, base: nat)
      modifies this
      ensures offset == newOffset && memory == D.Some(base)
    {
      offset := newOffset;
      memory := D.Some(base);
    }

    /** `initialized`: whether a memory writer was set. */
    predicate Initialized()
      reads this
    {
      memory.Some?
    }

    /** `getPtr`: null until initialized, then the writer's base plus the offset. */
    function GetPtr(): (r: D.Option<int>)
      reads this
      ensures r.None? <==> !Initialized()
      ensures r.Some? ==> r.value == memory.value + offset
    {
      if memory.None? then D.None else D.Some(memory.value + offset)
    }

    /** `operator[]`: the address of element `index`, for elements of `elemSize` bytes. */
    function ElementAddress(index: u32, elemSize: nat): (r: int)
      reads this
      requires Initialized()
      ensures r - GetPtr().value == index * elemSize
    {
      GetPtr().value + index * elemSize
    }
  }

  /** Elements of an initialized handle lie one after another, each `elemSize` bytes. */
  lemma {:induction false} ElementsContiguous(h: OffsetHandler, i: u32, j: u32, elemSize: nat)
    requires h.Initialized() && i < j
    ensures h.ElementAddress(i, elemSize) + elemSize <= h.ElementAddress(j, elemSize)
    ensures h.ElementAddress(0, elemSize) == h.memory.value + h.offset
  {
    MulMonotone(i + 1, j, elemSize);
  }

  lemma {:induction false} MulMonotone(a: nat, b: nat, c: nat)
    requires a <= b
    ensures a * c <= b * c
  {
  }

  // ---------------------------------------------------------------------
  // Function definitions
  // ---------------------------------------------------------------------

  datatype BuiltinFunction = UNDEFINED | Builtin(id: nat)
  datatype ImportFnVersion = V1 | V2

  /** `ImpFuncDef`: an imported function. */
  datatype ImpFuncDef = ImpFuncDef(symbolIndex: u32, linkDataOffset: u32, sigIndex: u32,
                                   builtinFunction: BuiltinFunction, linked: bool,
                                   importFnVersion: ImportFnVersion)

  /**
    The functions of a module: the imported ones first, then those the
    module defines (a `FuncDef` holds only the signature index).
  */
  datatype FunctionTable = FunctionTable(imports: seq<ImpFuncDef>, defined: seq<u32>)
  {
    function NumImported(): nat { |imports| }
    function NumTotal(): nat { |imports| + |defined| }

    /** The signature index of function f, read from the table's values. */
    function SigOf(f: nat): u32
      requires f < NumTotal()
    {
      if f < |imports| then imports[f].sigIndex else defined[f - |imports|]
    }
  }

  /** `sizeof(FuncDef)`: one `uint32_t`. */
  const FUNC_DEF_SIZE: nat := 4
  /** Offset of `sigIndex` in an `ImpFuncDef`, after two `uint32_t` fields. */
  const IMP_SIG_OFFSET: nat := 8

  /** `functionIsImported`. */
  predicate FunctionIsImported(numImported: nat, f: nat) {
    f < numImported
  }

  /**
    Where the definition of function f starts in the definitions array:
    imported definitions of `impSize` bytes come first, then four-byte
    `FuncDef`s (`getImpFuncDef`, `getFuncDef`).
  */
  function DefOffset(numImported: nat, impSize: nat, f: nat): nat {
    if FunctionIsImported(numImported, f) then impSize * f
    else impSize * numImported + FUNC_DEF_SIZE * (f - numImported)
  }

  /** The size of the definition of function f. */
  function DefSize(numImported: nat, impSize: nat, f: nat): nat {
    if FunctionIsImported(numImported, f) then impSize else FUNC_DEF_SIZE
  }

  /** The bytes of the whole definitions array. */
  function TableSize(numImported: nat, numTotal: nat, impSize: nat): nat
    requires numImported <= numTotal
  {
    impSize * numImported + FUNC_DEF_SIZE * (numTotal - numImported)
  }

  /** Where the signature index of function f lies. */
  function SigOffset(numImported: nat, impSize: nat, f: nat): nat {
    DefOffset(numImported, impSize, f) + if FunctionIsImported(numImported, f) then IMP_SIG_OFFSET else 0
  }

  /**
    The definitions tile the array: each one ends at or before the next
    begins, and the last one ends at the end of the array.
  */
  lemma {:induction false} DefsDisjoint(numImported: nat, numTotal: nat, impSize: nat, f: nat, g: nat)
    requires numImported <= numTotal && f < g < numTotal
    ensures DefOffset(numImported, impSize, f) + DefSize(numImported, impSize, f) <= DefOffset(numImported, impSize, g)
    ensures DefOffset(numImported, impSize, g) + DefSize(numImported, impSize, g) <= TableSize(numImported, numTotal, impSize)
  {
    if g < numImported {
      MulStep(impSize, f, g);
      MulStep(impSize, g, numImported);
    } else if f < numImported {
      MulStep(impSize, f, numImported);
    }
  }

  /** One more record of c bytes fits below b records when a < b. */
  lemma {:induction false} MulStep(c: nat, a: nat, b: nat)
    requires a < b
    ensures c * a + c <= c * b
  {
    var d := b - a;
    assert c * b == c * a + c * d;
    MulMonotone(1, d, c);
    assert d * c == c * d;
  }

  /** The signature index of an imported function lies inside its record. */
  lemma {:induction false} SigInsideDef(numImported: nat, impSize: nat, f: nat)
    requires impSize >= IMP_SIG_OFFSET + 4
    ensures DefOffset(numImported, impSize, f) <= SigOffset(numImported, impSize, f)
    ensures SigOffset(numImported, impSize, f) + 4 <= DefOffset(numImported, impSize, f) + DefSize(numImported, impSize, f)
  {
  }

  /** Compiler memory holds every function's signature index, little-endian, where the layout puts it. */
  predicate SigsStored(mem: seq<u8>, t: FunctionTable, impSize: nat) {
    forall f | 0 <= f < t.NumTotal() ::
      SigOffset(t.NumImported(), impSize, f) + 4 <= |mem|
      && mem[SigOffset(t.NumImported(), impSize, f)..SigOffset(t.NumImported(), impSize, f) + 4]
         == D.LEBytes(t.SigOf(f), 4)
  }

  /**
    `getFncSigIndex`: reads the signature index from the imported record
    or from the defined function's record, as `functionIsImported` says.
  */
  function GetFncSigIndex(mem: seq<u8>, numImported: nat, numTotal: nat, impSize: nat, f: nat): nat
    requires f < numTotal && SigOffset(numImported, impSize, f) + 4 <= |mem|
  {
    var o := SigOffset(numImported, impSize, f);
    D.ReadLE(mem[o..o + 4])
  }

  /** Reading a stored table gives back every function's signature index. */
  lemma {:induction false} SigIndexRoundTrip(mem: seq<u8>, t: FunctionTable, impSize: nat, f: nat)
    requires SigsStored(mem, t, impSize) && f < t.NumTotal()
    ensures SigOffset(t.NumImported(), impSize, f) + 4 <= |mem|
    ensures GetFncSigIndex(mem, t.NumImported(), t.NumTotal(), impSize, f) == t.SigOf(f)
  {
    D.Pow256Values();
    D.ReadLESmall(t.SigOf(f), 4);
  }

  /** `functionIsBuiltin`: an imported function standing for a builtin; never a defined one. */
  function FunctionIsBuiltin(t: FunctionTable, f: nat): (r: bool)
    ensures r ==> FunctionIsImported(t.NumImported(), f)
    ensures FunctionIsImported(t.NumImported(), f) ==> (r <==> !t.imports[f].builtinFunction.UNDEFINED?)
  {
    if FunctionIsImported(t.NumImported(), f) then t.imports[f].builtinFunction != UNDEFINED else false
  }

  /** `functionIsV2Import`: an imported function using the V2 interface; never a defined one. */
  function FunctionIsV2Import(t: FunctionTable, f: nat): (r: bool)
    ensures r ==> FunctionIsImported(t.NumImported(), f)
    ensures FunctionIsImported(t.NumImported(), f) ==> (r <==> t.imports[f].importFnVersion == V2)
  {
    if FunctionIsImported(t.NumImported(), f) then t.imports[f].importFnVersion == V2 else false
  }

  // ---------------------------------------------------------------------
  // Local definitions
  // ---------------------------------------------------------------------

  /** `StorageType` of a variable. */
  datatype VarStorageType = INVALID | CONSTANT | REGISTER | STACKMEMORY | LINKDATA

  /** `LocalDef`: a local of the current function; `reg` None is `TReg::NONE`. */
  class LocalDef {
    var machineType: MachineType
    var currentStorageType: VarStorageType
    var reg: D.Option<nat>
    var stackFramePosition: u32

    /** An initialized local lives in its register if it has one, else in the stack frame. */
    predicate InitializedStorage()
      reads this
    {
      currentStorageType == if reg.Some? then VarStorageType.REGISTER else VarStorageType.STACKMEMORY
    }

    /** `markLocalInitialized`: an uninitialized (constant-zero) local moves to its real storage. */
    method MarkLocalInitialized()
      requires currentStorageType == CONSTANT
      modifies this
      ensures InitializedStorage()
      ensures currentStorageType == VarStorageType.REGISTER <==> reg.Some?
      ensures reg == old(reg) && machineType == old(machineType) && stackFramePosition == old(stackFramePosition)
    {
      currentStorageType := if reg.None? then VarStorageType.STACKMEMORY else VarStorageType.REGISTER;
    }
  }

  // ---------------------------------------------------------------------
  // Reference map
  // ---------------------------------------------------------------------

  /** A variable kind the reference map has slots for. */
  predicate IsReferenced(e: StackElement) {
    e.Local? || e.Global? || e.ScratchRegister? || e.TempResult?
  }

  /** `referenceMap`: the first reference slot of each kind of variable. */
  datatype ReferenceMap = ReferenceMap(scratchBase: u32, localBase: u32, globalBase: u32, stackMemoryBase: u32)

  /**
    `getReferencePosition`: a temporary result carries its slot; any other
    variable is at its kind's first slot plus its index or register, added
    in `uint32_t`.
  */
  function GetReferencePosition(m: ReferenceMap, e: StackElement): (r: u32)
    requires IsReferenced(e)
    ensures e.TempResult? ==> r == e.referencePosition
  {
    match e
    case TempResult(_, _, _, pos, _) => pos
    case Local(idx) => Wrap32(m.localBase + idx)
    case Global(idx) => Wrap32(m.globalBase + idx)
    case ScratchRegister(reg, _) => Wrap32(m.scratchBase + reg)
  }

  /** Scratch registers from slot 0, then the locals, then the globals, then the stack-memory slot. */
  predicate MapLaidOut(m: ReferenceMap, totalNumRegs: nat, numLocals: nat, numGlobals: nat) {
    && m.scratchBase == 0 && m.localBase == totalNumRegs && m.globalBase == totalNumRegs + numLocals
    && m.stackMemoryBase == totalNumRegs + numLocals + numGlobals
  }

  /**
    The slots holding, for each variable, the iterator of its highest
    occurrence on the stack (-1 for none), and the reference map.
  */
  class ReferenceTable {
    var references: seq<int>
    var referenceMap: ReferenceMap

    /**
      The layout `setupReferenceMap` makes: scratch registers from 0, then
      the locals, then the globals, then one slot for stack memory.
    */
    ghost predicate LaidOut(totalNumRegs: nat, numLocals: nat, numGlobals: nat)
      reads this
    {
      && MapLaidOut(referenceMap, totalNumRegs, numLocals, numGlobals)
      && |references| == totalNumRegs + numLocals + numGlobals + 1
    }

    /** `setupReferenceMap`: one empty slot per register, local and global, and one more. */
    method SetupReferenceMap(totalNumRegs: nat, numLocals: nat, numGlobals: nat)
      requires totalNumRegs + numLocals + numGlobals + 1 <= U32_MAX
      modifies this
      ensures LaidOut(totalNumRegs, numLocals, numGlobals)
      ensures forall i | 0 <= i < |references| :: references[i] == -1
    {
      var numEntries := totalNumRegs + numLocals + numGlobals + 1;
      references := [];
      var i := 0;
      while i < numEntries
        invariant 0 <= i <= numEntries && |references| == i
        invariant forall k | 0 <= k < i :: references[k] == -1
      {
        references := references + [-1];
        i := i + 1;
      }
      referenceMap := ReferenceMap(0, totalNumRegs, totalNumRegs + numLocals, totalNumRegs + numLocals + numGlobals);
    }

    /** `getReferencePosition` on this table's map. */
    function ReferencePosition(e: StackElement): (r: u32)
      reads this
      requires IsReferenced(e)
    {
      GetReferencePosition(referenceMap, e)
    }

    /** `getStackMemoryReferencePosition`. */
    function GetStackMemoryReferencePosition(): (r: u32)
      reads this
    {
      referenceMap.stackMemoryBase
    }
  }

  /** The index a variable adds to its kind's first slot. */
  function VariableIndex(e: StackElement): nat
    requires e.Local? || e.Global? || e.ScratchRegister?
  {
    match e
    case Local(idx) => idx
    case Global(idx) => idx
    case ScratchRegister(reg, _) => reg
  }

  /** A variable within the function's registers, locals and globals. */
  predicate InRange(e: StackElement, totalNumRegs: nat, numLocals: nat, numGlobals: nat) {
    match e
    case Local(idx) => idx < numLocals
    case Global(idx) => idx < numGlobals
    case ScratchRegister(reg, _) => reg < totalNumRegs
    case _ => false
  }

  /**
    After setup, every register, local and global in range has its own
    slot, below the stack-memory slot: two variables share a slot exactly
    when they are the same kind with the same index.
  */
  lemma {:induction false} ReferencePositionsDistinct(t: ReferenceTable, totalNumRegs: nat, numLocals: nat,
                                                      numGlobals: nat, a: StackElement, b: StackElement)
    requires t.LaidOut(totalNumRegs, numLocals, numGlobals) && totalNumRegs + numLocals + numGlobals < TWO32
    requires InRange(a, totalNumRegs, numLocals, numGlobals) && InRange(b, totalNumRegs, numLocals, numGlobals)
    ensures t.ReferencePosition(a) < t.GetStackMemoryReferencePosition() == |t.references| - 1
    ensures t.ReferencePosition(a) == t.ReferencePosition(b) <==>
      (a.Local? == b.Local? && a.Global? == b.Global? && VariableIndex(a) == VariableIndex(b))
  {
    SlotInKindRange(t.referenceMap, totalNumRegs, numLocals, numGlobals, a);
    SlotInKindRange(t.referenceMap, totalNumRegs, numLocals, numGlobals, b);
  }

  /** A variable in range sits at its kind's first slot plus its index, inside its kind's range. */
  lemma {:induction false} SlotInKindRange(m: ReferenceMap, totalNumRegs: nat, numLocals: nat, numGlobals: nat,
                                           e: StackElement)
    requires MapLaidOut(m, totalNumRegs, numLocals, numGlobals) && totalNumRegs + numLocals + numGlobals < TWO32
    requires InRange(e, totalNumRegs, numLocals, numGlobals)
    ensures e.ScratchRegister? ==> GetReferencePosition(m, e) == VariableIndex(e) < totalNumRegs
    ensures e.Local? ==> GetReferencePosition(m, e) == totalNumRegs + VariableIndex(e) < totalNumRegs + numLocals
    ensures e.Global? ==> totalNumRegs + numLocals <= GetReferencePosition(m, e)
                          == totalNumRegs + numLocals + VariableIndex(e) < totalNumRegs + numLocals + numGlobals
  {
    var base := if e.ScratchRegister? then 0 else if e.Local? then totalNumRegs else totalNumRegs + numLocals;
    DivModUnique(base + VariableIndex(e), TWO32, 0, base + VariableIndex(e));
  }

  // ---------------------------------------------------------------------
  // Frame width and register budgets
  // ---------------------------------------------------------------------

  /** The per-backend constants of `NBackend`. */
  datatype WasmAbi = WasmAbi(numGPR: u32, numFPR: u32, resScratchRegsGPR: u32, resScratchRegsFPR: u32,
                             returnAddrWidth: u32)

  /** The parts of `FunctionInfo` the accessors read. */
  datatype FunctionInfo = FunctionInfo(numLocalsInGPR: u32, numLocalsInFPR: u32, paramWidth: u32,
                                       directLocalsWidth: u32)

  /**
    `getFixedStackFrameWidth`: parameters, the return address rounded up to
    eight bytes and the locals on the stack, in `uint32_t`.
  */
  function GetFixedStackFrameWidth(abi: WasmAbi, fnc: FunctionInfo): (r: u32) {
    Wrap32(fnc.paramWidth + RoundUpToPow2(abi.returnAddrWidth, 3) + fnc.directLocalsWidth)
  }

  /** `getStackFrameSizeBeforeReturn`: parameters and return address. */
  function GetStackFrameSizeBeforeReturn(abi: WasmAbi, fnc: FunctionInfo): (r: u32) {
    Wrap32(fnc.paramWidth + abi.returnAddrWidth)
  }

  /**
    Without overflow, the fixed part of the frame is the parameters and
    locals plus the return address padded to eight bytes: at least the
    frame before a return plus the locals, and less than eight bytes more.
  */
  lemma {:induction false} FixedFrameWidth(abi: WasmAbi, fnc: FunctionInfo)
    requires fnc.paramWidth + abi.returnAddrWidth + 8 + fnc.directLocalsWidth < TWO32
    ensures var pad := GetFixedStackFrameWidth(abi, fnc) - fnc.paramWidth - fnc.directLocalsWidth;
            abi.returnAddrWidth <= pad < abi.returnAddrWidth + 8 && pad % 8 == 0
    ensures GetStackFrameSizeBeforeReturn(abi, fnc) + fnc.directLocalsWidth <= GetFixedStackFrameWidth(abi, fnc)
  {
    var ra := RoundUpToPow2(abi.returnAddrWidth, 3);
    assert Pow2(3) == 8 by { Pow2Values(); }
    assert abi.returnAddrWidth <= ra < abi.returnAddrWidth + 8;
    DivModUnique(fnc.paramWidth + ra + fnc.directLocalsWidth, TWO32, 0, fnc.paramWidth + ra + fnc.directLocalsWidth);
    DivModUnique(fnc.paramWidth + abi.returnAddrWidth, TWO32, 0, fnc.paramWidth + abi.returnAddrWidth);
  }

  /**
    `getNumStaticallyAllocatedGPRs`: under forced register pressure all
    non-scratch registers, otherwise the globals and locals kept in
    registers, in `uint32_t`.
  */
  function GetNumStaticallyAllocatedGPRs(abi: WasmAbi, forceHighPressure: bool, numGlobalsInGPR: u32,
                                         fnc: FunctionInfo): (r: u32)
  {
    if forceHighPressure then Wrap32(abi.numGPR - abi.resScratchRegsGPR)
    else Wrap32(numGlobalsInGPR + fnc.numLocalsInGPR)
  }

  /** `getNumStaticallyAllocatedFPRs`: no globals live in floating-point registers. */
  function GetNumStaticallyAllocatedFPRs(abi: WasmAbi, forceHighPressure: bool, fnc: FunctionInfo): (r: u32)
  {
    if forceHighPressure then Wrap32(abi.numFPR - abi.resScratchRegsFPR) else fnc.numLocalsInFPR
  }

  /** `getMaxNumsLocalsInGPRs`: the registers left after scratch registers and globals. */
  function GetMaxNumsLocalsInGPRs(abi: WasmAbi, numGlobalsInGPR: u32): (r: u32) {
    Wrap32(abi.numGPR - (abi.resScratchRegsGPR + numGlobalsInGPR))
  }

  /** `getMaxNumsLocalsInFPRs`. */
  function GetMaxNumsLocalsInFPRs(abi: WasmAbi): (r: u32) {
    Wrap32(abi.numFPR - abi.resScratchRegsFPR)
  }

  /** `getLocalStartIndexInGPRs`: locals take the registers after the globals. */
  function GetLocalStartIndexInGPRs(numGlobalsInGPR: u32): (r: u32) {
    numGlobalsInGPR
  }

  /**
    When the globals fit beside the scratch registers and the locals keep
    within their budget, the statically allocated registers and the
    scratch registers fit in the register file; the locals' registers run
    from their start index to the end of the statically allocated ones;
    forced pressure takes every register but the scratch ones.
  */
  lemma {:induction false} RegisterBudget(abi: WasmAbi, force: bool, numGlobalsInGPR: u32, fnc: FunctionInfo)
    requires abi.resScratchRegsGPR + numGlobalsInGPR <= abi.numGPR
    requires abi.resScratchRegsFPR <= abi.numFPR
    requires fnc.numLocalsInGPR <= GetMaxNumsLocalsInGPRs(abi, numGlobalsInGPR)
    requires fnc.numLocalsInFPR <= GetMaxNumsLocalsInFPRs(abi)
    ensures GetNumStaticallyAllocatedGPRs(abi, force, numGlobalsInGPR, fnc) + abi.resScratchRegsGPR <= abi.numGPR
    ensures GetNumStaticallyAllocatedFPRs(abi, force, fnc) + abi.resScratchRegsFPR <= abi.numFPR
    ensures force ==> GetNumStaticallyAllocatedGPRs(abi, force, numGlobalsInGPR, fnc) + abi.resScratchRegsGPR == abi.numGPR
    ensures !force ==> GetLocalStartIndexInGPRs(numGlobalsInGPR) + fnc.numLocalsInGPR
                       == GetNumStaticallyAllocatedGPRs(abi, force, numGlobalsInGPR, fnc)
  {
    var maxG := abi.numGPR - (abi.resScratchRegsGPR + numGlobalsInGPR);
    DivModUnique(maxG, TWO32, 0, maxG);
    DivModUnique(abi.numFPR - abi.resScratchRegsFPR, TWO32, 0, abi.numFPR - abi.resScratchRegsFPR);
    DivModUnique(abi.numGPR - abi.resScratchRegsGPR, TWO32, 0, abi.numGPR - abi.resScratchRegsGPR);
    DivModUnique(numGlobalsInGPR + fnc.numLocalsInGPR, TWO32, 0, numGlobalsInGPR + fnc.numLocalsInGPR);
  }
}
