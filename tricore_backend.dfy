/**
  The TriCore parts of the backend (`tricore_backend.cpp`,
  `tricore_backend.hpp`): passing arguments and return values in data
  registers, where a 64-bit value takes an even-aligned register pair and
  the odd register skipped for it is remembered for the next 32-bit value;
  the stack offsets of arguments; local allocation; the register mask;
  padding; and the split of a displacement too wide for an instruction.
*/
module TricoreBackend {
  import opened UInt
  import opened CommonTables
  import opened VariableStorages
  import TE = TricoreEncoding
  import BA = BackendAllocation
  import M = ModuleInfos
  import D = DwarfBytes

  type Reg = D.Option<nat>

  /** `MachineTypeUtil::is64`. */
  predicate Is64(t: MachineType) {
    t == I64 || t == F64
  }

  /** `widthInStack`: the size of the type, four or eight bytes. */
  function WidthInStack(t: MachineType): (w: nat)
    requires t != INVALID
    ensures (w == 8 <==> Is64(t)) && (w == 4 <==> !Is64(t))
  {
    if Is64(t) then 8 else 4
  }

  /**
    The TriCore calling conventions: the native parameter registers
    (`NativeABI::paramRegs`), the data registers of the Wasm convention
    (`WasmABI::dr`) and how many of them carry parameters, and the return
    registers with how many of them carry integer results.
  */
  datatype Conv = Conv(paramRegs: seq<nat>, dr: seq<nat>, regsForParams: nat,
                       returnValueRegs: seq<nat>, gpRegsForReturnValues: nat)

  // ---------------------------------------------------------------------
  // Arguments (`getREGForArg`)
  // ---------------------------------------------------------------------

  /** The counters of a `RegStackTracker`: registers taken and the remembered skipped register. */
  datatype ArgState = ArgState(allocatedDRs: nat, missedReg: Reg)

  /** The register chosen for one value and the counters after it. */
  datatype Step = Step(reg: Reg, next: ArgState)

  /** The first register of the pair for a 64-bit native argument: the next even index. */
  function FirstCandidate(allocatedDRs: nat): nat {
    if allocatedDRs % 2 == 0 then allocatedDRs else allocatedDRs + 1
  }

  /**
    An argument of a native (imported) call: a 32-bit value takes the
    remembered register if there is one, else the next parameter register;
    a 64-bit value takes the next even-aligned pair, remembering the
    register it skips, and counts two registers; a value that finds none
    goes on the stack and changes nothing.
  */
  function ImportArg(paramRegs: seq<nat>, t: MachineType, s: ArgState): Step {
    if !Is64(t) then
      if s.missedReg.Some? then Step(s.missedReg, ArgState(s.allocatedDRs + 1, D.None))
      else if s.allocatedDRs < |paramRegs| then Step(D.Some(paramRegs[s.allocatedDRs]), ArgState(s.allocatedDRs + 1, D.None))
      else Step(D.None, s)
    else if s.allocatedDRs < |paramRegs| && FirstCandidate(s.allocatedDRs) + 1 < |paramRegs| then
      var first := FirstCandidate(s.allocatedDRs);
      Step(D.Some(paramRegs[first]),
           ArgState(s.allocatedDRs + 2, if first > s.allocatedDRs then D.Some(paramRegs[s.allocatedDRs]) else D.None))
    else Step(D.None, s)
  }

  /**
    An argument of a Wasm call: only a 32-bit value gets a register, the
    next data register after the globals while `regsForParams` allows.
  */
  function WasmArg(cc: Conv, localStart: nat, t: MachineType, s: ArgState): Step
    requires localStart + cc.regsForParams <= |cc.dr|
  {
    if !Is64(t) && s.allocatedDRs < cc.regsForParams then
      Step(D.Some(cc.dr[localStart + s.allocatedDRs]), ArgState(s.allocatedDRs + 1, s.missedReg))
    else Step(D.None, s)
  }

  /**
    `RegStackTracker` of the TriCore backend: data registers taken, the
    remembered register and the bytes of stack arguments so far.
  */
  class Tracker {
    var allocatedDRs: nat
    var missedReg: Reg
    var allocatedStackBytes: u32

    constructor ()
      ensures allocatedDRs == 0 && missedReg == D.None && allocatedStackBytes == 0
    {
      allocatedDRs := 0;
      missedReg := D.None;
      allocatedStackBytes := 0;
    }

    function State(): ArgState
      reads this
    {
      ArgState(allocatedDRs, missedReg)
    }

    /** `getREGForArg`: the step of `ImportArg` or `WasmArg` applied to the tracker. */
    method GetREGForArg(cc: Conv, localStart: nat, t: MachineType, imported: bool) returns (reg: Reg)
      requires localStart + cc.regsForParams <= |cc.dr|
      requires !imported ==> missedReg.None?
      modifies this
      ensures var step := if imported then ImportArg(cc.paramRegs, t, old(State())) else WasmArg(cc, localStart, t, old(State()));
              reg == step.reg && State() == step.next
      ensures allocatedStackBytes == old(allocatedStackBytes)
    {
      reg := D.None;
      if imported {
        if !Is64(t) {
          if missedReg.Some? {
            reg := missedReg;
            missedReg := D.None;
            allocatedDRs := allocatedDRs + 1;
          } else if allocatedDRs < |cc.paramRegs| {
            reg := D.Some(cc.paramRegs[allocatedDRs]);
            allocatedDRs := allocatedDRs + 1;
          }
        } else if allocatedDRs < |cc.paramRegs| {
          var first := if allocatedDRs % 2 == 0 then allocatedDRs else allocatedDRs + 1;
          if first + 1 < |cc.paramRegs| {
            var newMissed := if first > allocatedDRs then D.Some(cc.paramRegs[allocatedDRs]) else D.None;
            missedReg := newMissed;
            allocatedDRs := allocatedDRs + 2;
            reg := D.Some(cc.paramRegs[first]);
          }
        }
      } else if !Is64(t) && allocatedDRs < cc.regsForParams {
        reg := D.Some(cc.dr[localStart + allocatedDRs]);
        allocatedDRs := allocatedDRs + 1;
      }
    }

    /**
      `offsetInStackArgs`: a native argument at the running byte count, a
      Wasm argument counted down from the end of the argument area; the
      count then grows by the argument's width.
    */
    method OffsetInStackArgs(imported: bool, paramWidth: u32, t: MachineType) returns (offset: u32)
      requires t != INVALID
      modifies this
      ensures offset == StackArgOffset(imported, paramWidth, old(allocatedStackBytes), t)
      ensures allocatedStackBytes == Wrap32(old(allocatedStackBytes) + WidthInStack(t))
      ensures State() == old(State())
    {
      if imported {
        offset := allocatedStackBytes;
      } else {
        offset := Wrap32(paramWidth - allocatedStackBytes - WidthInStack(t));
      }
      allocatedStackBytes := Wrap32(allocatedStackBytes + WidthInStack(t));
    }

    /** `offsetInStackReturnValues`: the running byte count, then the value's width more. */
    method OffsetInStackReturnValues(t: MachineType) returns (offset: u32)
      requires t != INVALID
      modifies this
      ensures offset == old(allocatedStackBytes)
      ensures allocatedStackBytes == Wrap32(old(allocatedStackBytes) + WidthInStack(t))
      ensures State() == old(State())
    {
      offset := allocatedStackBytes;
      allocatedStackBytes := Wrap32(allocatedStackBytes + WidthInStack(t));
    }

    /** `getREGForReturnValue`: the step of `ReturnValue` applied to the tracker. */
    method GetREGForReturnValue(cc: Conv, t: MachineType) returns (reg: Reg)
      requires 1 <= cc.gpRegsForReturnValues <= |cc.returnValueRegs|
      modifies this
      ensures Step(reg, State()) == ReturnValue(cc, t, old(State()))
      ensures allocatedStackBytes == old(allocatedStackBytes)
    {
      reg := D.None;
      if Is64(t) {
        if allocatedDRs < cc.gpRegsForReturnValues {
          reg := D.Some(cc.returnValueRegs[allocatedDRs]);
          allocatedDRs := allocatedDRs + 2;
        }
      } else if missedReg.Some? {
        reg := missedReg;
        missedReg := D.None;
      } else if allocatedDRs < cc.gpRegsForReturnValues - 1 {
        reg := D.Some(cc.returnValueRegs[allocatedDRs]);
        missedReg := D.Some(cc.returnValueRegs[allocatedDRs + 1]);
        allocatedDRs := allocatedDRs + 2;
      }
    }
  }

  /**
    The parameter registers in use in state `s`: the first `allocatedDRs`
    of them, except that with a remembered register the count runs one
    further and skips the remembered one.
  */
  predicate InUse(s: ArgState, j: nat) {
    if s.missedReg.Some? then j < s.allocatedDRs + 1 && j != s.allocatedDRs - 2 else j < s.allocatedDRs
  }

  /**
    The shape of the counters: never past the register list, and a
    remembered register is the one two below the count, which is odd.
  */
  predicate ArgInv(paramRegs: seq<nat>, s: ArgState) {
    s.allocatedDRs <= |paramRegs|
    && (s.missedReg.Some? ==> s.allocatedDRs % 2 == 1 && 2 <= s.allocatedDRs < |paramRegs|
                              && s.missedReg == D.Some(paramRegs[s.allocatedDRs - 2]))
  }

  /** The index in `paramRegs` of the register `ImportArg` gives. */
  function ImportIndex(t: MachineType, s: ArgState): int {
    if !Is64(t) then (if s.missedReg.Some? then s.allocatedDRs - 2 else s.allocatedDRs)
    else FirstCandidate(s.allocatedDRs)
  }

  /**
    With at most four native parameter registers, one native argument
    keeps the counters in shape, never drops a remembered register (both
    the old and the new one set cannot happen), and takes registers not
    in use before and in use after, an even-aligned pair for a 64-bit
    value; a value that finds no register changes nothing.
  */
  lemma {:induction false} ImportArgStep(paramRegs: seq<nat>, t: MachineType, s: ArgState)
    requires |paramRegs| <= 4 && ArgInv(paramRegs, s)
    ensures var st := ImportArg(paramRegs, t, s);
            var j := ImportIndex(t, s);
            && ArgInv(paramRegs, st.next)
            && (Is64(t) && st.reg.Some? ==> s.missedReg.None? || st.next.missedReg.None?)
            && (forall i: nat :: InUse(s, i) ==> InUse(st.next, i))
            && (st.reg.None? ==> st.next == s)
            && (st.reg.Some? ==> 0 <= j < |paramRegs| && st.reg == D.Some(paramRegs[j])
                                 && !InUse(s, j) && InUse(st.next, j)
                                 && (Is64(t) ==> j % 2 == 0 && j + 1 < |paramRegs| && !InUse(s, j + 1) && InUse(st.next, j + 1))
                                 && forall i: nat :: InUse(st.next, i) && !InUse(s, i) ==> i == j || (Is64(t) && i == j + 1))
  {
  }

  /** The registers of a native call's arguments, left to right, and the counters after them. */
  function ImportArgs(paramRegs: seq<nat>, types: seq<MachineType>): (r: (seq<Reg>, ArgState))
    ensures |r.0| == |types|
    decreases |types|
  {
    if types == [] then ([], ArgState(0, D.None))
    else
      var prev := ImportArgs(paramRegs, types[..|types| - 1]);
      var st := ImportArg(paramRegs, types[|types| - 1], prev.1);
      (prev.0 + [st.reg], st.next)
  }

  /** Argument `k` gets the register `ImportArg` gives in the state the first `k` leave. */
  lemma {:induction false} ImportArgsAt(paramRegs: seq<nat>, types: seq<MachineType>, k: nat)
    requires k < |types|
    ensures ImportArgs(paramRegs, types).0[k] == ImportArg(paramRegs, types[k], ImportArgs(paramRegs, types[..k]).1).reg
    decreases |types|
  {
    var n := |types| - 1;
    if k < n {
      ImportArgsAt(paramRegs, types[..n], k);
      assert types[..n][..k] == types[..k];
    } else {
      assert types[..k] == types[..n];
    }
  }

  /** The counters stay in shape along the arguments, and a register in use stays in use. */
  lemma {:induction false} ImportArgsGrow(paramRegs: seq<nat>, types: seq<MachineType>, a: nat, b: nat, i: nat)
    requires |paramRegs| <= 4 && a <= b <= |types|
    ensures ArgInv(paramRegs, ImportArgs(paramRegs, types[..b]).1)
    ensures InUse(ImportArgs(paramRegs, types[..a]).1, i) ==> InUse(ImportArgs(paramRegs, types[..b]).1, i)
    decreases b
  {
    if b > 0 {
      var prefix := types[..b - 1];
      assert types[..b][..b - 1] == prefix;
      assert types[..b][b - 1] == types[b - 1];
      if a < b {
        ImportArgsGrow(paramRegs, types, a, b - 1, i);
      } else {
        ImportArgsGrow(paramRegs, types, b - 1, b - 1, i);
      }
      ImportArgStep(paramRegs, types[b - 1], ImportArgs(paramRegs, prefix).1);
    } else {
      assert types[..0] == [];
    }
  }

  /**
    With at most four distinct native parameter registers, no two
    arguments of a native call share a register, and the odd half of a
    64-bit argument's pair goes to no other argument; every 64-bit
    argument in registers starts at an even index.
  */
  lemma {:induction false} ImportArgsDistinct(paramRegs: seq<nat>, types: seq<MachineType>, a: nat, b: nat)
    requires |paramRegs| <= 4 && a < b < |types|
    requires forall x, y :: 0 <= x < y < |paramRegs| ==> paramRegs[x] != paramRegs[y]
    ensures var regs := ImportArgs(paramRegs, types).0;
            var sa := ImportArgs(paramRegs, types[..a]).1;
            var sb := ImportArgs(paramRegs, types[..b]).1;
            regs[a].Some? && regs[b].Some? ==>
              && regs[a] != regs[b]
              && (Is64(types[a]) ==> var ja := ImportIndex(types[a], sa);
                                     ja % 2 == 0 && 0 <= ja && ja + 1 < |paramRegs| && regs[b] != D.Some(paramRegs[ja + 1]))
  {
    var regs := ImportArgs(paramRegs, types).0;
    var sa := ImportArgs(paramRegs, types[..a]).1;
    var sb := ImportArgs(paramRegs, types[..b]).1;
    ImportArgsAt(paramRegs, types, a);
    ImportArgsAt(paramRegs, types, b);
    if regs[a].Some? && regs[b].Some? {
      ImportArgsGrow(paramRegs, types, a, a, 0);
      ImportArgsGrow(paramRegs, types, b, b, 0);
      ImportArgStep(paramRegs, types[a], sa);
      ImportArgStep(paramRegs, types[b], sb);
      var ja := ImportIndex(types[a], sa);
      var jb := ImportIndex(types[b], sb);
      var sa1 := ImportArgs(paramRegs, types[..a + 1]).1;
      assert types[..a + 1][..a] == types[..a];
      assert types[..a + 1][a] == types[a];
      assert sa1 == ImportArg(paramRegs, types[a], sa).next;
      ImportArgsGrow(paramRegs, types, a + 1, b, ja);
      if Is64(types[a]) {
        ImportArgsGrow(paramRegs, types, a + 1, b, ja + 1);
      }
    }
  }

  /**
    With more native parameter registers the remembered register can be
    dropped: after a 32-bit and a 64-bit argument, a second 64-bit
    argument with six registers overwrites the remembered one.
  */
  lemma MissedRegDroppedBeyondFour()
    ensures var regs := [4, 5, 6, 7, 8, 9];
            var s := ImportArgs(regs, [I32, I64]).1;
            && s.missedReg == D.Some(5)
            && ImportArg(regs, I64, s).next.missedReg == D.Some(7)
  {
    var regs := [4, 5, 6, 7, 8, 9];
    assert [I32, I64][..1] == [I32];
    assert [I32][..0] == [];
  }

  /** A Wasm call never remembers a register, and a 64-bit argument always goes on the stack. */
  lemma {:induction false} WasmArgStep(cc: Conv, localStart: nat, t: MachineType, s: ArgState)
    requires localStart + cc.regsForParams <= |cc.dr| && s.allocatedDRs <= cc.regsForParams
    ensures var st := WasmArg(cc, localStart, t, s);
            && st.next.missedReg == s.missedReg && st.next.allocatedDRs <= cc.regsForParams
            && (Is64(t) ==> st.reg.None?)
            && (st.reg.Some? <==> !Is64(t) && s.allocatedDRs < cc.regsForParams)
            && (st.reg.Some? ==> st.reg == D.Some(cc.dr[localStart + s.allocatedDRs]) && st.next.allocatedDRs == s.allocatedDRs + 1)
  {
  }

  // ---------------------------------------------------------------------
  // Stack offsets (`offsetInStackArgs`)
  // ---------------------------------------------------------------------

  /** The offset `offsetInStackArgs` gives after `taken` bytes of stack arguments. */
  function StackArgOffset(imported: bool, paramWidth: u32, taken: u32, t: MachineType): u32
    requires t != INVALID
  {
    if imported then taken else Wrap32(paramWidth - taken - WidthInStack(t))
  }

  /**
    Inside an argument area of `paramWidth` bytes, a native argument fills
    the bytes right after those taken and a Wasm argument the bytes right
    below those taken from the top; the two regions mirror each other.
  */
  lemma {:induction false} StackArgRegion(paramWidth: u32, taken: u32, t: MachineType)
    requires t != INVALID && taken + WidthInStack(t) <= paramWidth
    ensures StackArgOffset(true, paramWidth, taken, t) == taken
    ensures StackArgOffset(false, paramWidth, taken, t) + WidthInStack(t) == paramWidth - taken
    ensures StackArgOffset(false, paramWidth, taken, t) + StackArgOffset(true, paramWidth, taken, t) + WidthInStack(t)
            == paramWidth
  {
  }

  // ---------------------------------------------------------------------
  // Return values (`getREGForReturnValue`)
  // ---------------------------------------------------------------------

  /**
    A return value: a 64-bit value takes the next pair while any is left;
    a 32-bit value takes the remembered register, or else the even half of
    the next pair and remembers the odd half.
  */
  function ReturnValue(cc: Conv, t: MachineType, s: ArgState): Step
    requires 1 <= cc.gpRegsForReturnValues <= |cc.returnValueRegs|
  {
    if Is64(t) then
      if s.allocatedDRs < cc.gpRegsForReturnValues then
        Step(D.Some(cc.returnValueRegs[s.allocatedDRs]), ArgState(s.allocatedDRs + 2, s.missedReg))
      else Step(D.None, s)
    else if s.missedReg.Some? then Step(s.missedReg, ArgState(s.allocatedDRs, D.None))
    else if s.allocatedDRs < cc.gpRegsForReturnValues - 1 then
      Step(D.Some(cc.returnValueRegs[s.allocatedDRs]),
           ArgState(s.allocatedDRs + 2, D.Some(cc.returnValueRegs[s.allocatedDRs + 1])))
    else Step(D.None, s)
  }

  /**
    Return registers are taken a pair at a time, so the count stays even:
    a 64-bit value starts at an even index, and a 32-bit value that opens
    a pair remembers that pair's other half; taking the remembered one
    takes nothing new.
  */
  lemma {:induction false} ReturnValueStep(cc: Conv, t: MachineType, s: ArgState)
    requires 1 <= cc.gpRegsForReturnValues <= |cc.returnValueRegs| && s.allocatedDRs % 2 == 0
    ensures var st := ReturnValue(cc, t, s);
            && st.next.allocatedDRs % 2 == 0
            && (st.reg.None? ==> st.next == s)
            && (Is64(t) && st.reg.Some? ==> st.reg == D.Some(cc.returnValueRegs[s.allocatedDRs])
                                            && st.next.missedReg == s.missedReg)
            && (!Is64(t) && s.missedReg.Some? ==> st.reg == s.missedReg && st.next == ArgState(s.allocatedDRs, D.None))
            && (!Is64(t) && s.missedReg.None? && st.reg.Some? ==>
                  s.allocatedDRs + 1 < cc.gpRegsForReturnValues
                  && st.reg == D.Some(cc.returnValueRegs[s.allocatedDRs])
                  && st.next.missedReg == D.Some(cc.returnValueRegs[s.allocatedDRs + 1]))
  {
  }

  // ---------------------------------------------------------------------
  // Locals (`allocateLocal`)
  // ---------------------------------------------------------------------

  /**
    How many of `multiplicity` new locals get a data register: only
    four-byte values do, as many as the budget still allows after `used`.
  */
  function RegLocals(t: MachineType, used: nat, budget: nat, multiplicity: nat): (k: nat)
    requires t != INVALID
    ensures k <= multiplicity && (k > 0 ==> used + k <= budget && WidthInStack(t) == 4)
  {
    if WidthInStack(t) == 4 then BA.Min(multiplicity, BA.Excess(budget, used)) else 0
  }

  /** One local of `AllocateLocal`: a register exactly when among the first `k`, and then `PlacedLocal`'s slot. */
  lemma {:induction false} PlacedStep(dr: seq<nat>, start: nat, used: nat, budget: nat, multiplicity: nat, k: nat,
                                      t: MachineType, isParam: bool, frameSize: nat, i: nat,
                                      count: nat, chosen: Reg, frame: nat, slot: BA.LocalSlot)
    requires t != INVALID && k == RegLocals(t, used, budget, multiplicity) && i < multiplicity
    requires start + budget <= |dr|
    requires var c := used + BA.Min(i, k);
             chosen == (if WidthInStack(t) == 4 && c < budget then D.Some(dr[start + c]) else D.None)
             && count == c + (if chosen.Some? then 1 else 0)
    requires frame == frameSize + WidthInStack(t) * (i - BA.Min(i, k)) + (if chosen.None? then WidthInStack(t) else 0)
    requires slot == if chosen.None? then BA.LocalSlot(D.None, t, frame, BA.InitialStorage(chosen, isParam))
                     else BA.LocalSlot(chosen, t, 0, BA.InitialStorage(chosen, isParam))
    ensures k > 0 ==> start + used + k <= |dr|
    ensures chosen.Some? <==> i < k
    ensures count == used + BA.Min(i + 1, k)
    ensures frame == frameSize + WidthInStack(t) * (i + 1 - BA.Min(i + 1, k))
    ensures slot == BA.PlacedLocal(dr, start, used, k, t, isParam, false, frameSize, WidthInStack(t), i)
  {
  }

  /**
    `allocateLocal`: `multiplicity` locals of type `t`. Four-byte values
    take the next data registers after the globals until the budget
    (`regsForParams` for parameters, otherwise the locals' maximum) is
    used; every other local grows the frame by its own width, takes the
    new top as its position and counts towards the parameter or local
    width.
  */
  method AllocateLocal(f: BA.FrameLayout, cc: Conv, maxLocalsInGPR: nat, t: MachineType, isParam: bool,
                       multiplicity: nat)
    requires f.Valid() && t != INVALID && (isParam ==> f.numParams == f.numLocals)
    requires f.numGlobalsInGPR + (if isParam then cc.regsForParams else maxLocalsInGPR) <= |cc.dr|
    modifies f
    ensures f.Valid()
    ensures f.numLocals == old(f.numLocals) + multiplicity
    ensures f.numParams == old(f.numParams) + (if isParam then multiplicity else 0)
    ensures f.numGlobalsInGPR == old(f.numGlobalsInGPR) && f.numLocalsInFPR == old(f.numLocalsInFPR)
    ensures var w := WidthInStack(t);
            var k := RegLocals(t, old(f.numLocalsInGPR), if isParam then cc.regsForParams else maxLocalsInGPR, multiplicity);
            && f.numLocalsInGPR == old(f.numLocalsInGPR) + k
            && f.stackFrameSize == old(f.stackFrameSize) + w * (multiplicity - k)
            && f.paramWidth == old(f.paramWidth) + (if isParam then w * (multiplicity - k) else 0)
            && f.directLocalsWidth == old(f.directLocalsWidth) + (if isParam then 0 else w * (multiplicity - k))
            && f.localDefs == old(f.localDefs) + BA.PlacedLocals(cc.dr, f.numGlobalsInGPR, old(f.numLocalsInGPR), k, t, isParam,
                                                                 false, old(f.stackFrameSize), w, multiplicity)
  {
    var w := WidthInStack(t);
    var budget := if isParam then cc.regsForParams else maxLocalsInGPR;
    var count, frame, params, direct, placed :=
      PlaceLocals(cc.dr, f.numGlobalsInGPR, f.numLocalsInGPR, budget, t, isParam, f.stackFrameSize, f.paramWidth,
                  f.directLocalsWidth, multiplicity);
    f.numLocalsInGPR := count;
    f.stackFrameSize := frame;
    f.paramWidth := params;
    f.directLocalsWidth := direct;
    f.localDefs := f.localDefs + placed;
    f.numLocals := f.numLocals + multiplicity;
    if isParam {
      f.numParams := f.numParams + multiplicity;
    }
  }

  /**
    The loop of `allocateLocal` over `multiplicity` new locals: while the
    budget allows, a four-byte local takes the next data register;
    otherwise it grows the frame by its width, takes the new top as its
    position, and counts towards the parameter or local width.
  */
  method PlaceLocals(dr: seq<nat>, start: nat, used: nat, budget: nat, t: MachineType, isParam: bool,
                     frameSize: nat, paramWidth: nat, directWidth: nat, multiplicity: nat)
    returns (count: nat, frame: nat, params: nat, direct: nat, placed: seq<BA.LocalSlot>)
    requires t != INVALID && start + budget <= |dr|
    ensures var w := WidthInStack(t);
            var k := RegLocals(t, used, budget, multiplicity);
            && count == used + k && frame == frameSize + w * (multiplicity - k)
            && params == paramWidth + (if isParam then w * (multiplicity - k) else 0)
            && direct == directWidth + (if isParam then 0 else w * (multiplicity - k))
            && placed == BA.PlacedLocals(dr, start, used, k, t, isParam, false, frameSize, w, multiplicity)
  {
    var w := WidthInStack(t);
    ghost var k := RegLocals(t, used, budget, multiplicity);
    count, frame, params, direct, placed := used, frameSize, paramWidth, directWidth, [];
    var i := 0;
    while i < multiplicity
      invariant 0 <= i <= multiplicity
      invariant count == used + BA.Min(i, k) && frame == frameSize + w * (i - BA.Min(i, k))
      invariant params == paramWidth + (if isParam then w * (i - BA.Min(i, k)) else 0)
      invariant direct == directWidth + (if isParam then 0 else w * (i - BA.Min(i, k)))
      invariant |placed| == i
      invariant forall j :: 0 <= j < i ==> placed[j] == BA.PlacedLocal(dr, start, used, k, t, isParam, false, frameSize, w, j)
    {
      var chosen: Reg := D.None;
      if w == 4 && count < budget {
        chosen := D.Some(dr[start + count]);
        count := count + 1;
      }
      var slot;
      if chosen.None? {
        frame := frame + w;
        if isParam {
          params := params + w;
        } else {
          direct := direct + w;
        }
        slot := BA.LocalSlot(D.None, t, frame, BA.InitialStorage(chosen, isParam));
      } else {
        slot := BA.LocalSlot(chosen, t, 0, BA.InitialStorage(chosen, isParam));
      }
      PlacedStep(dr, start, used, budget, multiplicity, k, t, isParam, frameSize, i, count, chosen, frame, slot);
      placed := placed + [slot];
      i := i + 1;
    }
  }

  /** `isStaticallyAllocatedReg`: the register's position among the data registers is below the static count. */
  predicate IsStaticallyAllocatedReg(regPos: nat, numStaticallyAllocatedDr: nat) {
    regPos < numStaticallyAllocatedDr
  }

  /**
    Outside forced register pressure, the register of every local that
    `allocateLocal` placed in a data register (positions from the globals'
    count on) is statically allocated, and the first position after the
    locals is not.
  */
  lemma {:induction false} LocalRegsStatic(abi: M.WasmAbi, numGlobalsInGPR: u32, fnc: M.FunctionInfo, n: nat)
    requires abi.resScratchRegsGPR + numGlobalsInGPR <= abi.numGPR
    requires abi.resScratchRegsFPR <= abi.numFPR
    requires fnc.numLocalsInGPR <= M.GetMaxNumsLocalsInGPRs(abi, numGlobalsInGPR)
    requires fnc.numLocalsInFPR <= M.GetMaxNumsLocalsInFPRs(abi)
    ensures var numStatic := M.GetNumStaticallyAllocatedGPRs(abi, false, numGlobalsInGPR, fnc);
            IsStaticallyAllocatedReg(M.GetLocalStartIndexInGPRs(numGlobalsInGPR) + n, numStatic)
            <==> n < fnc.numLocalsInGPR
  {
    M.RegisterBudget(abi, false, numGlobalsInGPR, fnc);
  }

  /**
    `isD15Available`: D15 is free for an instruction that needs it when
    the locals have not used up their register budget and D15 is a
    writable scratch register.
  */
  function IsD15Available(numLocalsInGPR: nat, maxLocalsInGPR: nat, d15Writable: bool): (r: bool)
    ensures r ==> d15Writable && numLocalsInGPR != maxLocalsInGPR
    ensures !r ==> !d15Writable || numLocalsInGPR == maxLocalsInGPR
  {
    !(numLocalsInGPR == maxLocalsInGPR) && d15Writable
  }

  // ---------------------------------------------------------------------
  // mask, execPadding
  // ---------------------------------------------------------------------

  /**
    `mask`: nothing for no register; the register itself, and for a
    64-bit value also the other half of its pair.
  */
  function Mask(reg: D.Option<TE.Reg>, is64: bool): (m: set<TE.Reg>)
    requires reg.Some? && is64 ==> reg.value < TE.A0 && reg.value % 2 == 0
    ensures reg.None? <==> m == {}
    ensures reg.Some? ==> reg.value in m && |m| == (if is64 then 2 else 1)
    ensures reg.Some? && is64 ==> forall r :: r in m ==> r / 2 == reg.value / 2
  {
    if reg.None? then {}
    else if is64 then {reg.value, TE.OtherExtReg(reg.value)}
    else {reg.value}
  }

  /** The size in bytes of TriCore's 16-bit `NOP`. */
  const NOP_SIZE: nat := 2

  /** `execPadding`: the number of `NOP`s for a padding of 0 or 2 bytes; they fill it exactly. */
  function ExecPadding(paddingSize: nat): (nops: nat)
    requires paddingSize == 0 || paddingSize == 2
    ensures nops * NOP_SIZE == paddingSize && nops <= 1
  {
    if paddingSize == 2 then 1 else 0
  }

  // ---------------------------------------------------------------------
  // getMemRegDisp, selectOffsetRegisterHelper
  // ---------------------------------------------------------------------

  /** The largest displacement a signed field of `bits` bits holds. */
  function UpperBound(bits: nat): int
    requires bits >= 1
  {
    Pow2(bits - 1) - 1
  }

  /** `SignedInRangeCheck<bits>::check`: the value fits a signed field of `bits` bits. */
  predicate SignedInRange(x: int, bits: nat)
    requires bits >= 1
  {
    -UpperBound(bits) - 1 <= x <= UpperBound(bits)
  }

  /** The displacement of a storage: link data from linMem past the base data, a frame slot from SP. */
  function StorageDisp(loc: Location, linkDataStart: u32, basedataLength: u32, stackFrameSize: u32): i32
    requires loc.LinkData? || loc.StackMemory?
  {
    if loc.LinkData? then AsI32(Wrap32(Wrap32(linkDataStart - basedataLength) + loc.offset))
    else AsI32(Wrap32(stackFrameSize - loc.position))
  }

  /**
    A register and displacement (`RegDisp`), with the amount first added
    to the base into the scratch register (0 when nothing is emitted).
  */
  datatype RegDisp = RegDisp(reg: nat, disp: int, toAdd: int)

  /**
    The split of `getMemRegDisp` for `maxDisplacementBits` bits: a
    displacement in range is kept; one above the range leaves the largest
    field value and adds the rest into the scratch register; one below
    leaves the smallest.
  */
  function SplitDisp(disp: int, base: nat, addrScrReg: nat, bits: nat): (r: RegDisp)
    requires bits >= 1
  {
    if SignedInRange(disp, bits) then RegDisp(base, disp, 0)
    else if disp > UpperBound(bits) then RegDisp(addrScrReg, UpperBound(bits), disp - UpperBound(bits))
    else RegDisp(addrScrReg, -UpperBound(bits) - 1, disp + UpperBound(bits) + 1)
  }

  /**
    The split keeps the address, leaves a displacement that fits, and
    adds a positive amount for a displacement above the range and a
    negative one below it; only a displacement out of range uses the
    scratch register.
  */
  lemma {:induction false} SplitDispSound(disp: int, base: nat, addrScrReg: nat, bits: nat)
    requires bits >= 1
    ensures var r := SplitDisp(disp, base, addrScrReg, bits);
            && r.toAdd + r.disp == disp
            && SignedInRange(r.disp, bits)
            && (disp > UpperBound(bits) ==> r.toAdd > 0)
            && (disp < -UpperBound(bits) - 1 ==> r.toAdd < 0)
            && (SignedInRange(disp, bits) ==> r.reg == base && r.disp == disp && r.toAdd == 0)
            && (!SignedInRange(disp, bits) ==> r.reg == addrScrReg && r.toAdd != 0)
  {
    Pow2Positive(bits - 1);
  }

  lemma {:induction false} Pow2Positive(n: nat)
    ensures Pow2(n) >= 1
  {
    if n > 0 {
      Pow2Positive(n - 1);
    }
  }

  /**
    `getMemRegDisp`: base linMem or SP with the storage's displacement,
    split for the instruction's field.
  */
  function GetMemRegDisp(loc: Location, linMem: nat, sp: nat, linkDataStart: u32, basedataLength: u32,
                         stackFrameSize: u32, addrScrReg: nat, bits: nat): (r: RegDisp)
    requires loc.LinkData? || loc.StackMemory?
    requires bits >= 1
    ensures r.toAdd + r.disp == StorageDisp(loc, linkDataStart, basedataLength, stackFrameSize)
    ensures SignedInRange(r.disp, bits)
  {
    var base := if loc.LinkData? then linMem else sp;
    var disp := StorageDisp(loc, linkDataStart, basedataLength, stackFrameSize);
    SplitDispSound(disp, base, addrScrReg, bits);
    SplitDisp(disp, base, addrScrReg, bits)
  }

  /**
    `selectOffsetRegisterHelper`: an offset that fits is used as it is;
    otherwise it is added to the first address parameter register, counted
    in `addedOffset`, and 0 remains. Either way the offset used plus the
    offset added is the same as before.
  */
  function SelectOffset(addedOffset: int, currentOffset: int, bits: nat): (r: (int, int))
    requires bits >= 1
    ensures r.0 + r.1 == currentOffset + addedOffset
    ensures SignedInRange(r.0, bits)
    ensures SignedInRange(currentOffset, bits) <==> r.1 == addedOffset
  {
    Pow2Positive(bits - 1);
    if SignedInRange(currentOffset, bits) then (currentOffset, addedOffset)
    else (0, addedOffset + currentOffset)
  }
}
