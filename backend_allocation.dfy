/**
  Register and stack-slot allocation shared by the x86-64 and AArch64
  backends (`x86_64_backend.cpp`, `aarch64_backend.cpp`): the register or
  stack slot each call argument and return value gets, the width of the
  stack arguments, the placement of locals, the choice of a scratch
  register, the reuse of a hint register and the split of a constant-size
  memcpy. The two backends differ only in their constants, which are the
  `CallConv` below.
*/
module BackendAllocation {
  import opened UInt
  import opened CommonTables
  import opened StackElements
  import opened VariableStorages
  import M = ModuleInfos
  import D = DwarfBytes

  /** A register number; `None` is `REG::NONE`. */
  type Reg = D.Option<nat>

  /**
    The calling-convention constants of a backend: the allocatable
    registers of the Wasm ABI (`gpr`, `fpr`), how many parameters of each
    class a Wasm call passes in registers, the native parameter registers,
    whether native calls count both classes with one counter (`MUTUAL`),
    whether native stack arguments are laid out right to left (`RTL`), the
    return registers of Wasm functions, and the first floating-point
    register number (`RegUtil::isGPR` holds exactly below it).
  */
  datatype CallConv = CallConv(gpr: seq<nat>, fpr: seq<nat>, regsForParams: nat,
                               gpParams: seq<nat>, flParams: seq<nat>, mutual: bool, rtl: bool,
                               gpRetRegs: seq<nat>, fpRetRegs: seq<nat>, firstFpr: nat)

  /** `RegUtil::isGPR`. */
  predicate IsGpr(cc: CallConv, reg: nat) {
    reg < cc.firstFpr
  }

  predicate AllGpr(cc: CallConv, regs: seq<nat>) {
    forall i :: 0 <= i < |regs| ==> IsGpr(cc, regs[i])
  }

  predicate AllFpr(cc: CallConv, regs: seq<nat>) {
    forall i :: 0 <= i < |regs| ==> !IsGpr(cc, regs[i])
  }

  /**
    Every register list holds registers of its own class, and a mutual
    convention has as many integer as floating-point parameter registers
    (a `static_assert` of the source).
  */
  predicate WellFormed(cc: CallConv) {
    && AllGpr(cc, cc.gpr) && AllGpr(cc, cc.gpParams) && AllGpr(cc, cc.gpRetRegs)
    && AllFpr(cc, cc.fpr) && AllFpr(cc, cc.flParams) && AllFpr(cc, cc.fpRetRegs)
    && (cc.mutual ==> |cc.gpParams| == |cc.flParams|)
  }

  // ---------------------------------------------------------------------
  // The x86-64 conventions (`x86_64_cc.hpp`)
  // ---------------------------------------------------------------------

  // x86-64 register numbers: A, C, D, B, SP, BP, SI, DI, R8..R15 are 0..15, XMM0..XMM15 are 16..31.

  /**
    The Wasm register arrays of the build without linear-memory bounds
    checks (which adds SI to `gpr`); the last four of each are scratch
    registers.
  */
  const X86_GPR: seq<nat> := [5, 7, 6, 9, 10, 11, 12, 13, 14, 15, 0, 2, 1, 8]
  const X86_FPR: seq<nat> := [20, 21, 22, 23, 24, 25, 26, 27, 28, 29, 30, 16, 17, 18, 19]

  /** System V: DI, SI, D, C, R8, R9 and XMM0..XMM7, separate counters. */
  const X86_POSIX: CallConv :=
    CallConv(X86_GPR, X86_FPR, 4, [7, 6, 2, 1, 8, 9], [16, 17, 18, 19, 20, 21, 22, 23], false, true,
             [0, 1], [16, 17], 16)

  /** Windows x64: C, D, R8, R9 and XMM0..XMM3, one counter for both. */
  const X86_WIN32: CallConv :=
    CallConv(X86_GPR, X86_FPR, 4, [1, 2, 8, 9], [16, 17, 18, 19], true, true, [0, 1], [16, 17], 16)

  /** Both x86-64 conventions keep their register classes apart. */
  lemma {:induction false} X86ConventionsWellFormed()
    ensures WellFormed(X86_POSIX) && WellFormed(X86_WIN32)
    ensures X86_POSIX.regsForParams <= |X86_POSIX.fpr| && X86_WIN32.mutual && !X86_POSIX.mutual
  {
    assert AllGpr(X86_POSIX, X86_GPR) by {
      forall i | 0 <= i < |X86_GPR| ensures X86_GPR[i] < 16 {
      }
    }
    assert AllFpr(X86_POSIX, X86_FPR) by {
      forall i | 0 <= i < |X86_FPR| ensures 16 <= X86_FPR[i] {
      }
    }
  }

  // ---------------------------------------------------------------------
  // Call arguments (`getREGForArg`)
  // ---------------------------------------------------------------------

  /** What allocation reads from the backend: its conventions, debug mode and the globals held in GPRs. */
  datatype Target = Target(cc: CallConv, debug: bool, numGlobalsInGPR: nat)

  /** The Wasm parameter registers exist: the locals' GPRs start after the globals. */
  predicate ParamRegsFit(tg: Target) {
    tg.numGlobalsInGPR + tg.cc.regsForParams <= |tg.cc.gpr| && tg.cc.regsForParams <= |tg.cc.fpr|
  }

  /**
    The register an argument of type `t` gets when `g` integer and `f`
    floating-point registers are already taken: a Wasm call uses the
    locals' parameter registers unless in debug mode, a native call the
    native parameter registers, counted jointly under `MUTUAL`.
  */
  function ArgReg(tg: Target, t: MachineType, imported: bool, g: nat, f: nat): Reg
    requires ParamRegsFit(tg)
  {
    var cc := tg.cc;
    if !imported && tg.debug then D.None
    else if IsInteger(t) then
      if !imported then
        if g < cc.regsForParams then D.Some(cc.gpr[tg.numGlobalsInGPR + g]) else D.None
      else
        var c := if cc.mutual then g + f else g;
        if c < |cc.gpParams| then D.Some(cc.gpParams[c]) else D.None
    else
      if !imported then
        if f < cc.regsForParams then D.Some(cc.fpr[f]) else D.None
      else
        var c := if cc.mutual then g + f else f;
        if c < |cc.flParams| then D.Some(cc.flParams[c]) else D.None
  }

  /** The counter a returned register advances: by its class. */
  function GprStep(cc: CallConv, r: Reg): nat {
    if r.Some? && IsGpr(cc, r.value) then 1 else 0
  }

  function FprStep(cc: CallConv, r: Reg): nat {
    if r.Some? && !IsGpr(cc, r.value) then 1 else 0
  }

  /** `RegStackTracker`: registers and stack bytes handed out so far for one call. */
  class RegStackTracker {
    var allocatedGPR: nat
    var allocatedFPR: nat
    var allocatedStackBytes: u32

    constructor ()
      ensures allocatedGPR == 0 && allocatedFPR == 0 && allocatedStackBytes == 0
    {
      allocatedGPR := 0;
      allocatedFPR := 0;
      allocatedStackBytes := 0;
    }
  }

  /**
    `getREGForArg`: the argument's register, or `None` for the stack. A
    counter advances only when a register is returned, and then the one of
    that register's class.
  */
  method GetREGForArg(tg: Target, t: MachineType, imported: bool, tracker: RegStackTracker) returns (reg: Reg)
    requires ParamRegsFit(tg)
    modifies tracker
    ensures reg == ArgReg(tg, t, imported, old(tracker.allocatedGPR), old(tracker.allocatedFPR))
    ensures tracker.allocatedGPR == old(tracker.allocatedGPR) + GprStep(tg.cc, reg)
    ensures tracker.allocatedFPR == old(tracker.allocatedFPR) + FprStep(tg.cc, reg)
    ensures tracker.allocatedGPR + tracker.allocatedFPR
            == old(tracker.allocatedGPR + tracker.allocatedFPR) + (if reg.Some? then 1 else 0)
    ensures tracker.allocatedStackBytes == old(tracker.allocatedStackBytes)
  {
    var cc := tg.cc;
    reg := D.None;
    var useRegisters := imported || !tg.debug;
    if useRegisters {
      if IsInteger(t) {
        if !imported {
          if tracker.allocatedGPR < cc.regsForParams {
            reg := D.Some(cc.gpr[tg.numGlobalsInGPR + tracker.allocatedGPR]);
          }
        } else {
          var counter := if cc.mutual then tracker.allocatedGPR + tracker.allocatedFPR else tracker.allocatedGPR;
          if counter < |cc.gpParams| {
            reg := D.Some(cc.gpParams[counter]);
          }
        }
      } else {
        if !imported {
          if tracker.allocatedFPR < cc.regsForParams {
            reg := D.Some(cc.fpr[tracker.allocatedFPR]);
          }
        } else {
          var counter := if cc.mutual then tracker.allocatedGPR + tracker.allocatedFPR else tracker.allocatedFPR;
          if counter < |cc.flParams| {
            reg := D.Some(cc.flParams[counter]);
          }
        }
      }
    }
    if reg.Some? {
      if IsGpr(cc, reg.value) {
        tracker.allocatedGPR := tracker.allocatedGPR + 1;
      } else {
        tracker.allocatedFPR := tracker.allocatedFPR + 1;
      }
    }
  }

  /** The two counters of a tracker: integer and floating-point registers handed out. */
  datatype Allocated = Allocated(gprs: nat, fprs: nat)

  /** The counters after the arguments `types` of one call, from a fresh tracker. */
  function Counters(tg: Target, types: seq<MachineType>, imported: bool): (c: Allocated)
    requires ParamRegsFit(tg)
    ensures c.gprs + c.fprs <= |types|
    decreases |types|
  {
    if types == [] then Allocated(0, 0)
    else
      var c := Counters(tg, types[..|types| - 1], imported);
      var r := ArgReg(tg, types[|types| - 1], imported, c.gprs, c.fprs);
      Allocated(c.gprs + GprStep(tg.cc, r), c.fprs + FprStep(tg.cc, r))
  }

  /** The registers of the arguments `types` of one call, in order, from a fresh tracker. */
  function ArgRegs(tg: Target, types: seq<MachineType>, imported: bool): (rs: seq<Reg>)
    requires ParamRegsFit(tg)
    ensures |rs| == |types|
    decreases |types|
  {
    if types == [] then []
    else
      var c := Counters(tg, types[..|types| - 1], imported);
      ArgRegs(tg, types[..|types| - 1], imported) + [ArgReg(tg, types[|types| - 1], imported, c.gprs, c.fprs)]
  }

  /** Argument `i` gets the register `ArgReg` gives after the arguments before it. */
  lemma {:induction false} ArgRegAt(tg: Target, types: seq<MachineType>, imported: bool, i: nat)
    requires ParamRegsFit(tg) && i < |types|
    ensures var c := Counters(tg, types[..i], imported);
            ArgRegs(tg, types, imported)[i] == ArgReg(tg, types[i], imported, c.gprs, c.fprs)
    decreases |types|
  {
    var n := |types|;
    if i < n - 1 {
      var p := types[..n - 1];
      ArgRegAt(tg, p, imported, i);
      assert p[..i] == types[..i];
    } else {
      assert types[..n - 1] == types[..i];
    }
  }

  function Min(a: nat, b: nat): nat {
    if a < b then a else b
  }

  /** The part of `x` beyond `cap`. */
  function Excess(x: nat, cap: nat): nat {
    x - Min(x, cap)
  }

  /** The number of integer types. */
  function CountInts(types: seq<MachineType>): (n: nat)
    ensures n <= |types|
    decreases |types|
  {
    if types == [] then 0
    else CountInts(types[..|types| - 1]) + (if IsInteger(types[|types| - 1]) then 1 else 0)
  }

  /** The number of registers (as opposed to stack slots). */
  function CountSome(rs: seq<Reg>): (n: nat)
    ensures n <= |rs|
    decreases |rs|
  {
    if rs == [] then 0
    else CountSome(rs[..|rs| - 1]) + (if rs[|rs| - 1].Some? then 1 else 0)
  }

  /**
    The next register of a value's class from two lists, while any is
    left: the `g`-th integer or `f`-th floating-point one.
  */
  function Pick(gl: seq<nat>, fl: seq<nat>, t: MachineType, g: nat, f: nat): Reg {
    if IsInteger(t) then (if g < |gl| then D.Some(gl[g]) else D.None)
    else (if f < |fl| then D.Some(fl[f]) else D.None)
  }

  /** The integer registers a call hands out in order: the locals' first `regsForParams`, or the native ones. */
  function IntParamRegs(tg: Target, imported: bool): seq<nat>
    requires ParamRegsFit(tg)
  {
    if imported then tg.cc.gpParams
    else tg.cc.gpr[tg.numGlobalsInGPR..tg.numGlobalsInGPR + tg.cc.regsForParams]
  }

  function FloatParamRegs(tg: Target, imported: bool): seq<nat>
    requires ParamRegsFit(tg)
  {
    if imported then tg.cc.flParams else tg.cc.fpr[..tg.cc.regsForParams]
  }

  /** Allocation with a counter per class: a Wasm call outside debug mode, or a native call under `SEPARATE`. */
  predicate Separate(tg: Target, imported: bool) {
    if imported then !tg.cc.mutual else !tg.debug
  }

  /** With a counter per class, one step is `Pick` over the class lists, and it advances the counter of the type's class. */
  lemma {:induction false} ArgRegPick(tg: Target, t: MachineType, imported: bool, g: nat, f: nat)
    requires ParamRegsFit(tg) && WellFormed(tg.cc) && Separate(tg, imported)
    ensures var r := ArgReg(tg, t, imported, g, f);
            && r == Pick(IntParamRegs(tg, imported), FloatParamRegs(tg, imported), t, g, f)
            && GprStep(tg.cc, r) == (if IsInteger(t) && r.Some? then 1 else 0)
            && FprStep(tg.cc, r) == (if !IsInteger(t) && r.Some? then 1 else 0)
  {
    var r := ArgReg(tg, t, imported, g, f);
    if r.Some? {
      if IsInteger(t) && !imported {
        assert IsGpr(tg.cc, tg.cc.gpr[tg.numGlobalsInGPR + g]);
      }
    }
  }

  /**
    With a counter per class, the counters after a call's arguments are the
    numbers of integer and floating-point arguments, each capped by its
    class's register list.
  */
  lemma {:induction false} CountersSeparate(tg: Target, types: seq<MachineType>, imported: bool)
    requires ParamRegsFit(tg) && WellFormed(tg.cc) && Separate(tg, imported)
    ensures Counters(tg, types, imported)
            == Allocated(Min(CountInts(types), |IntParamRegs(tg, imported)|),
                Min(|types| - CountInts(types), |FloatParamRegs(tg, imported)|))
    decreases |types|
  {
    if types != [] {
      var p := types[..|types| - 1];
      var t := types[|types| - 1];
      var c := Counters(tg, p, imported);
      var r := ArgReg(tg, t, imported, c.gprs, c.fprs);
      CountersSeparate(tg, p, imported);
      var gl, fl := |IntParamRegs(tg, imported)|, |FloatParamRegs(tg, imported)|;
      PickSteps(tg, t, imported, c.gprs, c.fprs);
      var s0, s1 := GprStep(tg.cc, r), FprStep(tg.cc, r);
      CountersLast(tg, types, imported);
      var n, n' := CountInts(p), CountInts(types);
      assert n' == n + (if IsInteger(t) then 1 else 0);
      assert |types| == |p| + 1;
      var m, m' := |p| - n, |types| - n';
      CounterStep(n, m, gl, fl, IsInteger(t), c.gprs, c.fprs, s0, s1, n', m');
      assert Counters(tg, types, imported) == Allocated(c.gprs + s0, c.fprs + s1);
      assert Allocated(c.gprs + s0, c.fprs + s1) == Allocated(Min(n', gl), Min(m', fl));
    }
  }

  /** The last argument's step of `Counters`. */
  lemma {:induction false} CountersLast(tg: Target, types: seq<MachineType>, imported: bool)
    requires ParamRegsFit(tg) && types != []
    ensures var c := Counters(tg, types[..|types| - 1], imported);
            var r := ArgReg(tg, types[|types| - 1], imported, c.gprs, c.fprs);
            Counters(tg, types, imported) == Allocated(c.gprs + GprStep(tg.cc, r), c.fprs + FprStep(tg.cc, r))
  {
  }

  /** With a counter per class, a step advances the counter of the type's class exactly while that class has a register left. */
  lemma {:induction false} PickSteps(tg: Target, t: MachineType, imported: bool, g: nat, f: nat)
    requires ParamRegsFit(tg) && WellFormed(tg.cc) && Separate(tg, imported)
    ensures var r := ArgReg(tg, t, imported, g, f);
            && GprStep(tg.cc, r) == (if IsInteger(t) && g < |IntParamRegs(tg, imported)| then 1 else 0)
            && FprStep(tg.cc, r) == (if !IsInteger(t) && f < |FloatParamRegs(tg, imported)| then 1 else 0)
  {
    ArgRegPick(tg, t, imported, g, f);
  }

  /** One argument more: only the counter of its class moves, and only while that class has registers left. */
  lemma {:induction false} CounterStep(n: nat, m: nat, gl: nat, fl: nat, isInt: bool, c0: nat, c1: nat, s0: nat, s1: nat,
                                       n': nat, m': nat)
    requires c0 == Min(n, gl) && c1 == Min(m, fl)
    requires s0 == (if isInt && c0 < gl then 1 else 0) && s1 == (if !isInt && c1 < fl then 1 else 0)
    requires n' == n + (if isInt then 1 else 0) && m' == m + (if isInt then 0 else 1)
    ensures c0 + s0 == Min(n', gl) && c1 + s1 == Min(m', fl)
  {
  }

  /**
    With a counter per class, the `k`-th integer argument gets the `k`-th
    integer parameter register while there is one, and likewise for
    floating-point arguments; the rest go on the stack.
  */
  lemma {:induction false} ArgRegsSeparate(tg: Target, types: seq<MachineType>, imported: bool, i: nat)
    requires ParamRegsFit(tg) && WellFormed(tg.cc) && Separate(tg, imported) && i < |types|
    ensures var k := CountInts(types[..i]);
            ArgRegs(tg, types, imported)[i]
            == Pick(IntParamRegs(tg, imported), FloatParamRegs(tg, imported), types[i], k, i - k)
  {
    ArgRegAt(tg, types, imported, i);
    CountersSeparate(tg, types[..i], imported);
    var c := Counters(tg, types[..i], imported);
    ArgRegPick(tg, types[i], imported, c.gprs, c.fprs);
  }

  /** In debug mode a Wasm call passes every argument on the stack. */
  lemma {:induction false} ArgRegsDebug(tg: Target, types: seq<MachineType>, i: nat)
    requires ParamRegsFit(tg) && tg.debug && i < |types|
    ensures ArgRegs(tg, types, false)[i] == D.None
  {
    ArgRegAt(tg, types, false, i);
  }

  /**
    Under `MUTUAL` allocation with `n` registers per class, the counters
    together count the arguments up to `n`.
  */
  lemma {:induction false} CountersMutual(tg: Target, types: seq<MachineType>)
    requires ParamRegsFit(tg) && WellFormed(tg.cc) && tg.cc.mutual
    ensures var c := Counters(tg, types, true); c.gprs + c.fprs == Min(|types|, |tg.cc.gpParams|)
    decreases |types|
  {
    if types != [] {
      var p := types[..|types| - 1];
      CountersMutual(tg, p);
      var c := Counters(tg, p, true);
      var r := ArgReg(tg, types[|types| - 1], true, c.gprs, c.fprs);
      assert r.Some? <==> c.gprs + c.fprs < |tg.cc.gpParams|;
    }
  }

  /**
    Under `MUTUAL` allocation, argument `i` gets a register exactly when
    `i` is below the number of parameter registers, and then the `i`-th of
    its class, whatever the classes of the arguments before it.
  */
  lemma {:induction false} ArgRegsMutual(tg: Target, types: seq<MachineType>, i: nat)
    requires ParamRegsFit(tg) && WellFormed(tg.cc) && tg.cc.mutual && i < |types|
    ensures ArgRegs(tg, types, true)[i]
            == if i < |tg.cc.gpParams|
               then D.Some(if IsInteger(types[i]) then tg.cc.gpParams[i] else tg.cc.flParams[i])
               else D.None
  {
    ArgRegAt(tg, types, true, i);
    CountersMutual(tg, types[..i]);
  }

  /** Each register handed out advances exactly one counter. */
  lemma {:induction false} CountSomeArgRegs(tg: Target, types: seq<MachineType>, imported: bool)
    requires ParamRegsFit(tg)
    ensures var c := Counters(tg, types, imported); CountSome(ArgRegs(tg, types, imported)) == c.gprs + c.fprs
    decreases |types|
  {
    if types != [] {
      var p := types[..|types| - 1];
      CountSomeArgRegs(tg, p, imported);
      var rs := ArgRegs(tg, types, imported);
      assert rs[..|rs| - 1] == ArgRegs(tg, p, imported);
    }
  }

  // ---------------------------------------------------------------------
  // Stack arguments (`getStackParamWidth`, `offsetInStackArgs`)
  // ---------------------------------------------------------------------

  /** The arguments a call passes: a native call adds the context pointer, an `I64`, at the end. */
  function WithContext(types: seq<MachineType>, imported: bool): seq<MachineType> {
    if imported then types + [I64] else types
  }

  /** Eight stack bytes per argument that gets no register. */
  function StackParamWidth(tg: Target, types: seq<MachineType>, imported: bool): nat
    requires ParamRegsFit(tg)
  {
    var all := WithContext(types, imported);
    8 * (|all| - CountSome(ArgRegs(tg, all, imported)))
  }

  /**
    `getStackParamWidth`: walks the parameters with a fresh tracker, adding
    eight bytes for each one without a register, then does the same for
    the context pointer of a native call.
  */
  method GetStackParamWidth(tg: Target, types: seq<MachineType>, imported: bool) returns (width: nat)
    requires ParamRegsFit(tg)
    ensures width == StackParamWidth(tg, types, imported)
  {
    var tracker := new RegStackTracker();
    width := 0;
    var i := 0;
    assert types[..0] == [];
    while i < |types|
      invariant 0 <= i <= |types|
      invariant WidthSoFar(tg, types[..i], imported, tracker.allocatedGPR, tracker.allocatedFPR, width)
    {
      width := ArgWidth(tg, types, i, imported, tracker, width);
      i := i + 1;
    }
    assert types[..i] == types;
    if imported {
      width := ContextWidth(tg, types, tracker, width);
    } else {
      WidthDone(tg, types, tracker.allocatedGPR, tracker.allocatedFPR, width);
    }
  }

  /** Argument i: a register advances the tracker's counters, otherwise eight more bytes. */
  method ArgWidth(tg: Target, types: seq<MachineType>, i: nat, imported: bool, tracker: RegStackTracker, width: nat)
    returns (width2: nat)
    requires ParamRegsFit(tg) && i < |types|
    requires WidthSoFar(tg, types[..i], imported, tracker.allocatedGPR, tracker.allocatedFPR, width)
    modifies tracker
    ensures WidthSoFar(tg, types[..i + 1], imported, tracker.allocatedGPR, tracker.allocatedFPR, width2)
  {
    ghost var g, f := tracker.allocatedGPR, tracker.allocatedFPR;
    var reg := GetREGForArg(tg, types[i], imported, tracker);
    width2 := width + (if reg.None? then 8 else 0);
    assert types[..i + 1][..i] == types[..i];
    WidthStep(tg, types[..i + 1], imported, g, f, width, reg, tracker.allocatedGPR, tracker.allocatedFPR, width2);
  }

  /** The context pointer of a native call, after its arguments: a register or eight more bytes. */
  method ContextWidth(tg: Target, types: seq<MachineType>, tracker: RegStackTracker, width: nat) returns (width2: nat)
    requires ParamRegsFit(tg) && WidthSoFar(tg, types, true, tracker.allocatedGPR, tracker.allocatedFPR, width)
    modifies tracker
    ensures width2 == StackParamWidth(tg, types, true)
  {
    ghost var g, f := tracker.allocatedGPR, tracker.allocatedFPR;
    var reg := GetREGForArg(tg, I64, true, tracker);
    width2 := width + (if reg.None? then 8 else 0);
    ContextDone(tg, types, g, f, width, reg, width2);
  }

  /** After all arguments of a Wasm call, the width is the stack width. */
  lemma {:induction false} WidthDone(tg: Target, types: seq<MachineType>, g: nat, f: nat, width: nat)
    requires ParamRegsFit(tg) && WidthSoFar(tg, types, false, g, f, width)
    ensures width == StackParamWidth(tg, types, false)
  {
  }

  /** After all arguments of a native call, the context pointer's slot completes the stack width. */
  lemma {:induction false} ContextDone(tg: Target, types: seq<MachineType>, g: nat, f: nat, width: nat,
                                       reg: Reg, width2: nat)
    requires ParamRegsFit(tg) && WidthSoFar(tg, types, true, g, f, width)
    requires reg == ArgReg(tg, I64, true, g, f)
    requires width2 == width + (if reg.None? then 8 else 0)
    ensures width2 == StackParamWidth(tg, types, true)
  {
    var all := types + [I64];
    assert all[..|types|] == types;
    WidthStep(tg, all, true, g, f, width, reg, g + GprStep(tg.cc, reg), f + FprStep(tg.cc, reg), width2);
  }

  /** After the arguments `prefix`: the counters, and eight bytes per argument without a register. */
  ghost predicate WidthSoFar(tg: Target, prefix: seq<MachineType>, imported: bool, g: nat, f: nat, width: nat)
    requires ParamRegsFit(tg)
  {
    Allocated(g, f) == Counters(tg, prefix, imported) && width == 8 * (|prefix| - CountSome(ArgRegs(tg, prefix, imported)))
  }

  /** One more argument: its register advances the counters or its slot the width. */
  lemma {:induction false} WidthStep(tg: Target, all: seq<MachineType>, imported: bool,
                                     g: nat, f: nat, width: nat, reg: Reg, g2: nat, f2: nat, width2: nat)
    requires ParamRegsFit(tg) && all != [] && WidthSoFar(tg, all[..|all| - 1], imported, g, f, width)
    requires reg == ArgReg(tg, all[|all| - 1], imported, g, f)
    requires g2 == g + GprStep(tg.cc, reg) && f2 == f + FprStep(tg.cc, reg)
    requires width2 == width + (if reg.None? then 8 else 0)
    ensures WidthSoFar(tg, all, imported, g2, f2, width2)
  {
    var rs := ArgRegs(tg, all, imported);
    assert rs[..|rs| - 1] == ArgRegs(tg, all[..|all| - 1], imported);
  }

  /**
    The stack width of a Wasm call outside debug mode is eight bytes for
    each integer and each floating-point argument beyond `regsForParams`.
  */
  lemma {:induction false} WasmStackParamWidth(tg: Target, types: seq<MachineType>)
    requires ParamRegsFit(tg) && WellFormed(tg.cc) && !tg.debug
    ensures var ints := CountInts(types);
            StackParamWidth(tg, types, false)
            == 8 * (Excess(ints, tg.cc.regsForParams) + Excess(|types| - ints, tg.cc.regsForParams))
  {
    CountSomeArgRegs(tg, types, false);
    CountersSeparate(tg, types, false);
  }

  /** In debug mode every argument of a Wasm call takes eight stack bytes. */
  lemma {:induction false} DebugStackParamWidth(tg: Target, types: seq<MachineType>)
    requires ParamRegsFit(tg) && tg.debug
    ensures StackParamWidth(tg, types, false) == 8 * |types|
  {
    CountSomeArgRegs(tg, types, false);
    CountersDebug(tg, types);
  }

  /** In debug mode a Wasm call takes no register at all. */
  lemma {:induction false} CountersDebug(tg: Target, types: seq<MachineType>)
    requires ParamRegsFit(tg) && tg.debug
    ensures Counters(tg, types, false) == Allocated(0, 0)
    decreases |types|
  {
    if types != [] {
      CountersDebug(tg, types[..|types| - 1]);
    }
  }

  /**
    A native call under `MUTUAL` allocation with `n` registers per class
    takes eight stack bytes for each of its arguments and context pointer
    beyond the first `n`.
  */
  lemma {:induction false} MutualStackParamWidth(tg: Target, types: seq<MachineType>)
    requires ParamRegsFit(tg) && WellFormed(tg.cc) && tg.cc.mutual
    ensures StackParamWidth(tg, types, true) == 8 * Excess(|types| + 1, |tg.cc.gpParams|)
  {
    CountSomeArgRegs(tg, types + [I64], true);
    CountersMutual(tg, types + [I64]);
  }

  /**
    A native call under `SEPARATE` allocation takes eight stack bytes for
    each integer argument, the context pointer included, beyond the integer
    parameter registers, and for each floating-point one beyond theirs.
  */
  lemma {:induction false} SeparateStackParamWidth(tg: Target, types: seq<MachineType>)
    requires ParamRegsFit(tg) && WellFormed(tg.cc) && !tg.cc.mutual
    ensures var ints := CountInts(types);
            StackParamWidth(tg, types, true)
            == 8 * (Excess(ints + 1, |tg.cc.gpParams|) + Excess(|types| - ints, |tg.cc.flParams|))
  {
    var all := types + [I64];
    SeparateSlots(tg, all);
    assert all[..|all| - 1] == types;
    assert CountInts(all) == CountInts(types) + 1;
  }

  /** Under `SEPARATE`, the native arguments `all` without a register: those of each class beyond its registers. */
  lemma {:induction false} SeparateSlots(tg: Target, all: seq<MachineType>)
    requires ParamRegsFit(tg) && WellFormed(tg.cc) && !tg.cc.mutual
    ensures var ints := CountInts(all);
            8 * (|all| - CountSome(ArgRegs(tg, all, true)))
            == 8 * (Excess(ints, |tg.cc.gpParams|) + Excess(|all| - ints, |tg.cc.flParams|))
  {
    CountSomeArgRegs(tg, all, true);
    CountersSeparate(tg, all, true);
  }

  /**
    The offset of a stack argument: a native right-to-left call counts up
    from 0, anything else down from `paramWidth - 8`, in `uint32_t`.
  */
  function StackArgOffset(cc: CallConv, imported: bool, paramWidth: u32, taken: u32): u32 {
    if imported && cc.rtl then taken else Wrap32(Wrap32(paramWidth - 8) - taken)
  }

  /** `offsetInStackArgs`: the offset of the next stack argument; every argument takes eight bytes. */
  method OffsetInStackArgs(cc: CallConv, imported: bool, paramWidth: u32, tracker: RegStackTracker)
    returns (offset: u32)
    modifies tracker
    ensures offset == StackArgOffset(cc, imported, paramWidth, old(tracker.allocatedStackBytes))
    ensures tracker.allocatedStackBytes == Wrap32(old(tracker.allocatedStackBytes) + 8)
    ensures tracker.allocatedGPR == old(tracker.allocatedGPR) && tracker.allocatedFPR == old(tracker.allocatedFPR)
  {
    if imported && cc.rtl {
      offset := tracker.allocatedStackBytes;
    } else {
      offset := Wrap32(Wrap32(paramWidth - 8) - tracker.allocatedStackBytes);
    }
    tracker.allocatedStackBytes := Wrap32(tracker.allocatedStackBytes + 8);
  }

  /**
    In a stack area of `n` eight-byte slots, the `j`-th stack argument of a
    Wasm call sits in slot `n - 1 - j`, so the first one is highest, and
    that of a right-to-left native call in slot `j`: the two orders mirror
    each other and each fills every slot once.
  */
  lemma {:induction false} StackArgSlots(cc: CallConv, n: nat, j: nat)
    requires j < n && 8 * n < TWO32
    ensures StackArgOffset(cc, false, 8 * n, 8 * j) == 8 * (n - 1 - j)
    ensures cc.rtl ==> StackArgOffset(cc, true, 8 * n, 8 * j) == 8 * j
    ensures cc.rtl ==> StackArgOffset(cc, false, 8 * n, 8 * j) + StackArgOffset(cc, true, 8 * n, 8 * j) == 8 * n - 8
  {
  }

  // ---------------------------------------------------------------------
  // Return values (`getREGForReturnValue`, `offsetInStackReturnValues`)
  // ---------------------------------------------------------------------

  /**
    `getREGForReturnValue`: the next return register of the value's class
    while any is left, advancing that class's counter; otherwise the stack.
  */
  method GetREGForReturnValue(cc: CallConv, t: MachineType, tracker: RegStackTracker) returns (reg: Reg)
    modifies tracker
    ensures reg == Pick(cc.gpRetRegs, cc.fpRetRegs, t, old(tracker.allocatedGPR), old(tracker.allocatedFPR))
    ensures tracker.allocatedGPR == old(tracker.allocatedGPR) + (if IsInteger(t) && reg.Some? then 1 else 0)
    ensures tracker.allocatedFPR == old(tracker.allocatedFPR) + (if !IsInteger(t) && reg.Some? then 1 else 0)
    ensures tracker.allocatedStackBytes == old(tracker.allocatedStackBytes)
  {
    reg := D.None;
    if IsInteger(t) {
      if tracker.allocatedGPR < |cc.gpRetRegs| {
        reg := D.Some(cc.gpRetRegs[tracker.allocatedGPR]);
        tracker.allocatedGPR := tracker.allocatedGPR + 1;
      }
    } else {
      if tracker.allocatedFPR < |cc.fpRetRegs| {
        reg := D.Some(cc.fpRetRegs[tracker.allocatedFPR]);
        tracker.allocatedFPR := tracker.allocatedFPR + 1;
      }
    }
  }

  /** `offsetInStackReturnValues`: the running byte count, then eight more. */
  method OffsetInStackReturnValues(tracker: RegStackTracker) returns (offset: u32)
    modifies tracker
    ensures offset == old(tracker.allocatedStackBytes)
    ensures tracker.allocatedStackBytes == Wrap32(old(tracker.allocatedStackBytes) + 8)
    ensures tracker.allocatedGPR == old(tracker.allocatedGPR) && tracker.allocatedFPR == old(tracker.allocatedFPR)
  {
    offset := tracker.allocatedStackBytes;
    tracker.allocatedStackBytes := Wrap32(tracker.allocatedStackBytes + 8);
  }

  // ---------------------------------------------------------------------
  // Locals and globals (`allocateLocal`, `allocateRegForGlobal`)
  // ---------------------------------------------------------------------

  /**
    A `LocalDef`: its register (`None` for the stack), type, frame position
    and current storage. The source leaves the position of a register local
    unwritten; it is 0 here.
  */
  datatype LocalSlot = LocalSlot(reg: Reg, machineType: MachineType, stackFramePosition: nat,
                                 storage: M.VarStorageType)

  /**
    `getInitializedStorageType`: a parameter starts out in its register or
    stack slot; any other local starts out as the constant zero, the state
    `markLocalInitialized` leaves.
  */
  function InitialStorage(reg: Reg, isParam: bool): M.VarStorageType {
    if !isParam then M.CONSTANT else if reg.Some? then M.REGISTER else M.STACKMEMORY
  }

  /** The register budget of a class: `regsForParams` for parameters, otherwise the locals' maximum. */
  function Budget(cc: CallConv, isParam: bool, maxLocals: nat): nat {
    if isParam then cc.regsForParams else maxLocals
  }

  /**
    How many of `multiplicity` new locals get a register: none in debug
    mode, otherwise as many as the budget still allows after `used`.
  */
  function RegLocals(debug: bool, used: nat, budget: nat, multiplicity: nat): (k: nat)
    ensures k <= multiplicity && (k > 0 ==> used + k <= budget)
  {
    if debug then 0 else Min(multiplicity, Excess(budget, used))
  }

  /**
    New local `j` of one `allocateLocal` call, when `k` of them get
    registers: the first `k` take the class's next registers after the
    `used` ones, the others the next `width`-byte slots above `frameSize`.
  */
  function PlacedLocal(regs: seq<nat>, start: nat, used: nat, k: nat, t: MachineType, isParam: bool,
                       debug: bool, frameSize: nat, width: nat, j: nat): LocalSlot
    requires k > 0 ==> start + used + k <= |regs|
  {
    if j < k then LocalSlot(D.Some(regs[start + used + j]), t, 0, InitialStorage(D.Some(regs[start + used + j]), isParam))
    else LocalSlot(D.None, t, frameSize + width * (j - k + 1),
                   if debug then M.STACKMEMORY else InitialStorage(D.None, isParam))
  }

  /** The `n` new locals of one `allocateLocal` call, in order. */
  function PlacedLocals(regs: seq<nat>, start: nat, used: nat, k: nat, t: MachineType, isParam: bool,
                        debug: bool, frameSize: nat, width: nat, n: nat): (r: seq<LocalSlot>)
    requires k > 0 ==> start + used + k <= |regs|
    ensures |r| == n
    ensures forall j | 0 <= j < n :: r[j] == PlacedLocal(regs, start, used, k, t, isParam, debug, frameSize, width, j)
  {
    seq(n, j requires 0 <= j => PlacedLocal(regs, start, used, k, t, isParam, debug, frameSize, width, j))
  }

  /**
    The frame of the function being compiled: the globals and locals held
    in registers, the counts of locals and parameters, the frame size and
    its parameter and local parts, and the `LocalDef`s.
  */
  class FrameLayout {
    var numGlobalsInGPR: nat
    var numLocalsInGPR: nat
    var numLocalsInFPR: nat
    var numLocals: nat
    var numParams: nat
    var stackFrameSize: nat
    var paramWidth: nat
    var directLocalsWidth: nat
    var localDefs: seq<LocalSlot>

    /** One `LocalDef` per local; the parameters are the first locals. */
    predicate Valid()
      reads this
    {
      |localDefs| == numLocals && numParams <= numLocals
    }

    constructor (stackFrameSize: nat)
      ensures Valid() && localDefs == [] && numParams == 0
      ensures numGlobalsInGPR == 0 && numLocalsInGPR == 0 && numLocalsInFPR == 0
      ensures this.stackFrameSize == stackFrameSize && paramWidth == 0 && directLocalsWidth == 0
    {
      numGlobalsInGPR := 0;
      numLocalsInGPR := 0;
      numLocalsInFPR := 0;
      numLocals := 0;
      numParams := 0;
      this.stackFrameSize := stackFrameSize;
      paramWidth := 0;
      directLocalsWidth := 0;
      localDefs := [];
    }

    /**
      `allocateRegForGlobal` (AArch64): an integer global takes the next
      GPR and counts it; a floating-point global gets none. Globals come
      before any local register.
    */
    method AllocateRegForGlobal(cc: CallConv, t: MachineType) returns (reg: Reg)
      requires numLocalsInGPR == 0 && numLocalsInFPR == 0 && t != INVALID
      requires IsInteger(t) ==> numGlobalsInGPR < |cc.gpr|
      modifies this
      ensures reg == (if IsInteger(t) then D.Some(cc.gpr[old(numGlobalsInGPR)]) else D.None)
      ensures numGlobalsInGPR == old(numGlobalsInGPR) + (if IsInteger(t) then 1 else 0)
      ensures numLocalsInGPR == 0 && numLocalsInFPR == 0 && numLocals == old(numLocals)
      ensures numParams == old(numParams) && localDefs == old(localDefs) && stackFrameSize == old(stackFrameSize)
      ensures paramWidth == old(paramWidth) && directLocalsWidth == old(directLocalsWidth)
    {
      reg := D.None;
      if IsInteger(t) {
        reg := D.Some(cc.gpr[numGlobalsInGPR]);
        numGlobalsInGPR := numGlobalsInGPR + 1;
      }
    }

    /**
      `allocateLocal`: `multiplicity` locals of type `t`. Outside debug
      mode the first of them take the class's next registers until the
      budget is used; the others each grow the frame by eight bytes, take
      the new top as their position, and count towards the parameter or
      local width. The counts of locals, and of parameters for parameters,
      grow by `multiplicity`.
    */
    method AllocateLocal(cc: CallConv, debug: bool, maxLocalsGPR: nat, maxLocalsFPR: nat, t: MachineType,
                         isParam: bool, multiplicity: nat)
      requires Valid() && t != INVALID && (isParam ==> numParams == numLocals)
      requires numGlobalsInGPR + Budget(cc, isParam, maxLocalsGPR) <= |cc.gpr|
      requires Budget(cc, isParam, maxLocalsFPR) <= |cc.fpr|
      modifies this
      ensures Valid()
      ensures numLocals == old(numLocals) + multiplicity
      ensures numParams == old(numParams) + (if isParam then multiplicity else 0)
      ensures numGlobalsInGPR == old(numGlobalsInGPR)
      ensures var k := if IsInteger(t) then RegLocals(debug, old(numLocalsInGPR), Budget(cc, isParam, maxLocalsGPR), multiplicity)
                       else RegLocals(debug, old(numLocalsInFPR), Budget(cc, isParam, maxLocalsFPR), multiplicity);
              && numLocalsInGPR == old(numLocalsInGPR) + (if IsInteger(t) then k else 0)
              && numLocalsInFPR == old(numLocalsInFPR) + (if IsInteger(t) then 0 else k)
              && stackFrameSize == old(stackFrameSize) + 8 * (multiplicity - k)
              && paramWidth == old(paramWidth) + (if isParam then 8 * (multiplicity - k) else 0)
              && directLocalsWidth == old(directLocalsWidth) + (if isParam then 0 else 8 * (multiplicity - k))
              && localDefs == old(localDefs) + if IsInteger(t)
                   then PlacedLocals(cc.gpr, numGlobalsInGPR, old(numLocalsInGPR), k, t, isParam, debug, old(stackFrameSize), 8, multiplicity)
                   else PlacedLocals(cc.fpr, 0, old(numLocalsInFPR), k, t, isParam, debug, old(stackFrameSize), 8, multiplicity)
    {
      var count, frame, params, direct, placed;
      if IsInteger(t) {
        count, frame, params, direct, placed :=
          PlaceLocals(cc.gpr, numGlobalsInGPR, numLocalsInGPR, Budget(cc, isParam, maxLocalsGPR), t, isParam, debug,
                      stackFrameSize, paramWidth, directLocalsWidth, multiplicity);
        numLocalsInGPR := count;
      } else {
        count, frame, params, direct, placed :=
          PlaceLocals(cc.fpr, 0, numLocalsInFPR, Budget(cc, isParam, maxLocalsFPR), t, isParam, debug,
                      stackFrameSize, paramWidth, directLocalsWidth, multiplicity);
        numLocalsInFPR := count;
      }
      stackFrameSize, paramWidth, directLocalsWidth := frame, params, direct;
      localDefs := localDefs + placed;
      numLocals := numLocals + multiplicity;
      numParams := numParams + (if isParam then multiplicity else 0);
    }
  }

  /**
    The loop of `allocateLocal` over `multiplicity` new locals of one
    class: while the budget allows, a local takes the class's next
    register; otherwise it grows the frame by eight bytes, takes the new
    top as its position, and counts towards the parameter or local width.
  */
  method PlaceLocals(regs: seq<nat>, start: nat, used: nat, budget: nat, t: MachineType, isParam: bool, debug: bool,
                     frameSize: nat, paramWidth: nat, directWidth: nat, multiplicity: nat)
    returns (count: nat, frame: nat, params: nat, direct: nat, placed: seq<LocalSlot>)
    requires start + budget <= |regs|
    ensures var k := RegLocals(debug, used, budget, multiplicity);
            && (k > 0 ==> start + used + k <= |regs|)
            && count == used + k && frame == frameSize + 8 * (multiplicity - k)
            && params == paramWidth + (if isParam then 8 * (multiplicity - k) else 0)
            && direct == directWidth + (if isParam then 0 else 8 * (multiplicity - k))
            && placed == PlacedLocals(regs, start, used, k, t, isParam, debug, frameSize, 8, multiplicity)
  {
    ghost var k := RegLocals(debug, used, budget, multiplicity);
    count, frame, params, direct, placed := used, frameSize, paramWidth, directWidth, [];
    var i := 0;
    while i < multiplicity
      invariant 0 <= i <= multiplicity
      invariant count == used + Min(i, k) && frame == frameSize + 8 * (i - Min(i, k))
      invariant params == paramWidth + (if isParam then 8 * (i - Min(i, k)) else 0)
      invariant direct == directWidth + (if isParam then 0 else 8 * (i - Min(i, k)))
      invariant |placed| == i
      invariant forall j :: 0 <= j < i ==> placed[j] == PlacedLocal(regs, start, used, k, t, isParam, debug, frameSize, 8, j)
    {
      var chosen: Reg := D.None;
      if !debug && count < budget {
        chosen := D.Some(regs[start + count]);
        count := count + 1;
      }
      var slot;
      if chosen.None? {
        frame := frame + 8;
        if isParam {
          params := params + 8;
        } else {
          direct := direct + 8;
        }
        slot := LocalSlot(D.None, t, frame, if debug then M.STACKMEMORY else InitialStorage(chosen, isParam));
      } else {
        slot := LocalSlot(chosen, t, 0, InitialStorage(chosen, isParam));
      }
      PlacedStep(regs, start, used, budget, multiplicity, k, t, isParam, debug, frameSize, i, count, chosen, frame, slot);
      placed := placed + [slot];
      i := i + 1;
    }
  }

  /**
    One local of `allocateLocal`: it takes a register exactly when it is
    among the first `k`, and then the slot `PlacedLocal` describes.
  */
  lemma {:induction false} PlacedStep(regs: seq<nat>, start: nat, used: nat, budget: nat, multiplicity: nat, k: nat,
                                      t: MachineType, isParam: bool, debug: bool, frameSize: nat, i: nat,
                                      count: nat, chosen: Reg, frame: nat, slot: LocalSlot)
    requires k == RegLocals(debug, used, budget, multiplicity) && i < multiplicity
    requires start + budget <= |regs|
    requires var c := used + Min(i, k);
             chosen == (if !debug && c < budget then D.Some(regs[start + c]) else D.None)
             && count == c + (if chosen.Some? then 1 else 0)
    requires frame == frameSize + 8 * (i - Min(i, k)) + (if chosen.None? then 8 else 0)
    requires slot == if chosen.None? then LocalSlot(D.None, t, frame, if debug then M.STACKMEMORY else InitialStorage(chosen, isParam))
                     else LocalSlot(chosen, t, 0, InitialStorage(chosen, isParam))
    ensures k > 0 ==> start + used + k <= |regs|
    ensures chosen.Some? <==> i < k
    ensures count == used + Min(i + 1, k) && frame == frameSize + 8 * (i + 1 - Min(i + 1, k))
    ensures slot == PlacedLocal(regs, start, used, k, t, isParam, debug, frameSize, 8, i)
  {
  }

  /**
    The stack locals of one `allocateLocal` call take consecutive
    slots of the slot width just above the old frame size, in order, and no two
    share a position; the register locals take distinct registers when the
    class's registers are distinct.
  */
  lemma {:induction false} PlacedLocalsDisjoint(regs: seq<nat>, start: nat, used: nat, k: nat, t: MachineType,
                                                isParam: bool, debug: bool, frameSize: nat, width: nat,
                                                multiplicity: nat, i: nat, j: nat)
    requires (k > 0 ==> start + used + k <= |regs|) && k <= multiplicity && i < j < multiplicity && width > 0
    requires forall a, b :: 0 <= a < b < |regs| ==> regs[a] != regs[b]
    ensures var si := PlacedLocal(regs, start, used, k, t, isParam, debug, frameSize, width, i);
            var sj := PlacedLocal(regs, start, used, k, t, isParam, debug, frameSize, width, j);
            && (si.reg.None? ==> frameSize < si.stackFramePosition < sj.stackFramePosition
                                 <= frameSize + width * (multiplicity - k)
                                 && si.stackFramePosition % width == frameSize % width)
            && (sj.reg.Some? ==> si.reg.Some? && si.reg != sj.reg)
  {
    if k <= i {
      StackSlotsOrdered(frameSize, width, i - k, j - k, multiplicity - k);
    }
  }

  /** Stack slots `a < b` of `m`, each `width` bytes above the last from `frameSize` on. */
  lemma {:induction false} StackSlotsOrdered(frameSize: nat, width: nat, a: nat, b: nat, m: nat)
    requires a < b < m && width > 0
    ensures frameSize < frameSize + width * (a + 1) < frameSize + width * (b + 1) <= frameSize + width * m
    ensures (frameSize + width * (a + 1)) % width == frameSize % width
  {
    DivModParts(frameSize, width);
    DivModUnique(frameSize + width * (a + 1), width, frameSize / width + (a + 1), frameSize % width);
    MulMono(width, a + 1, b + 1);
    MulMono(width, b + 1, m);
    assert width * (b + 1) != width * (a + 1);
  }

  /**
    With distinct allocatable GPRs, no Wasm parameter register is one of
    the GPRs already given to globals.
  */
  lemma {:induction false} GlobalsApartFromParams(tg: Target, t: MachineType, g: nat, f: nat, i: nat)
    requires ParamRegsFit(tg) && i < tg.numGlobalsInGPR
    requires forall a, b :: 0 <= a < b < |tg.cc.gpr| ==> tg.cc.gpr[a] != tg.cc.gpr[b]
    ensures ArgReg(tg, t, false, g, f) != D.Some(tg.cc.gpr[i]) || !IsInteger(t)
  {
  }

  // ---------------------------------------------------------------------
  // Scratch registers (`getRegAllocCandidate`, `getUnderlyingRegIfSuitable`)
  // ---------------------------------------------------------------------

  /** A stack element holding a scratch register of the integer class (`isInt`) or the floating-point one. */
  predicate ScratchOfClass(e: StackElement, isInt: bool) {
    e.ScratchRegister? && IsInteger(e.typeFlag) == isInt
  }

  /** A register neither protected nor referenced from the stack. */
  predicate FreeReg(r: nat, protRegs: set<nat>, onStack: set<nat>) {
    r !in protRegs && r !in onStack
  }

  /**
    `getRegAllocCandidate`: among the class's registers after the
    `numStatic` statically allocated ones, the first free one, not in use.
    Failing that, in use: the first scratch register of the class on the
    stack that is not protected, or else the last one of the class on the
    stack (`None` if there is none). `onStack` holds the registers that
    occur on the stack.
  */
  method GetRegAllocCandidate(cc: CallConv, t: MachineType, numStatic: nat, protRegs: set<nat>, onStack: set<nat>,
                              stack: seq<StackElement>) returns (reg: Reg, isUsed: bool)
    requires t != INVALID
    requires numStatic <= |if IsInteger(t) then cc.gpr else cc.fpr|
    ensures var regs := if IsInteger(t) then cc.gpr else cc.fpr;
            && (!isUsed <==> exists i :: numStatic <= i < |regs| && FreeReg(regs[i], protRegs, onStack))
            && (!isUsed ==> exists i :: numStatic <= i < |regs| && reg == D.Some(regs[i])
                              && FreeReg(regs[i], protRegs, onStack)
                              && forall j :: numStatic <= j < i ==> !FreeReg(regs[j], protRegs, onStack))
    ensures var isInt := IsInteger(t);
            isUsed && (exists i :: 0 <= i < |stack| && ScratchOfClass(stack[i], isInt) && stack[i].reg !in protRegs)
            ==> exists i :: 0 <= i < |stack| && ScratchOfClass(stack[i], isInt) && reg == D.Some(stack[i].reg as nat)
                  && stack[i].reg !in protRegs
                  && forall j :: 0 <= j < i && ScratchOfClass(stack[j], isInt) ==> stack[j].reg in protRegs
    ensures var isInt := IsInteger(t);
            isUsed && (forall i :: 0 <= i < |stack| && ScratchOfClass(stack[i], isInt) ==> stack[i].reg in protRegs)
            ==> (reg.None? <==> forall i :: 0 <= i < |stack| ==> !ScratchOfClass(stack[i], isInt))
                && (reg.Some? ==> exists i :: 0 <= i < |stack| && ScratchOfClass(stack[i], isInt)
                                    && reg == D.Some(stack[i].reg as nat)
                                    && forall j :: i < j < |stack| ==> !ScratchOfClass(stack[j], isInt))
  {
    var isInt := IsInteger(t);
    var regs := if isInt then cc.gpr else cc.fpr;
    reg := D.None;
    isUsed := false;
    var i := numStatic;
    while i < |regs|
      invariant numStatic <= i <= |regs|
      invariant forall j :: numStatic <= j < i ==> !FreeReg(regs[j], protRegs, onStack)
    {
      if regs[i] !in protRegs && regs[i] !in onStack {
        reg := D.Some(regs[i]);
        return;
      }
      i := i + 1;
    }
    isUsed := true;
    var n := 0;
    ghost var last := -1;
    while n < |stack|
      invariant 0 <= n <= |stack| && -1 <= last < n
      invariant forall j :: 0 <= j < n && ScratchOfClass(stack[j], isInt) ==> stack[j].reg in protRegs
      invariant last == -1 ==> reg.None? && forall j :: 0 <= j < n ==> !ScratchOfClass(stack[j], isInt)
      invariant last >= 0 ==> ScratchOfClass(stack[last], isInt) && reg == D.Some(stack[last].reg as nat)
                              && forall j :: last < j < n ==> !ScratchOfClass(stack[j], isInt)
    {
      var e := stack[n];
      if e.ScratchRegister? && IsInteger(e.typeFlag) == isInt {
        reg := D.Some(e.reg as nat);
        last := n;
        if e.reg !in protRegs {
          return;
        }
      }
      n := n + 1;
    }
  }

  /** A value of type `have` may stand in for one of type `want`: the same type, or both integers. */
  predicate TypesMatch(have: MachineType, want: MachineType) {
    have == want || (IsInteger(have) && IsInteger(want))
  }

  /**
    `getUnderlyingRegIfSuitable`: the register of a hint element's storage
    (`None` for no element), when the storage is a register whose type
    suits the destination and which the mask does not hold.
  */
  function GetUnderlyingRegIfSuitable(hint: D.Option<VariableStorage>, dstType: MachineType, mask: set<nat>): (r: Reg)
    ensures r.Some? <==> hint.Some? && hint.value.location.Register? && TypesMatch(hint.value.machineType, dstType)
                         && hint.value.location.reg !in mask
    ensures r.Some? ==> r.value == hint.value.location.reg
  {
    if hint.Some? then
      var storage := hint.value;
      var typeMatch := if storage.machineType == dstType then true
                       else if IsInteger(storage.machineType) && IsInteger(dstType) then true
                       else false;
      if typeMatch && storage.location.Register? && storage.location.reg !in mask then D.Some(storage.location.reg)
      else D.None
    else D.None
  }

  /** Masking more registers can only take a suitable register away, never change it. */
  lemma {:induction false} SuitableUnderLargerMask(hint: D.Option<VariableStorage>, dstType: MachineType,
                                                   small: set<nat>, large: set<nat>)
    requires small <= large
    ensures var r := GetUnderlyingRegIfSuitable(hint, dstType, large);
            r.Some? ==> GetUnderlyingRegIfSuitable(hint, dstType, small) == r
  {
  }

  // ---------------------------------------------------------------------
  // Constant-size memcpy
  // ---------------------------------------------------------------------

  /**
    How a constant-size copy is cut: `wide` copies of `wideSize` bytes, one
    optional eight-byte copy (AArch64 only), and single-byte copies; a loop
    is unrolled when its count is within the threshold.
  */
  datatype CopyPlan = CopyPlan(wideSize: nat, wide: nat, unrollWide: bool, eight: nat, bytes: nat, unrollBytes: bool)

  /** x86-64: eight-byte copies then byte copies, each unrolled when at most 3. */
  function X86MemcpyPlan(size: u32): (p: CopyPlan)
    ensures p.wideSize == 8 && p.eight == 0 && size == 8 * p.wide + p.bytes && p.bytes < 8
    ensures p.unrollWide <==> p.wide <= 3
    ensures p.unrollBytes <==> p.bytes <= 3
  {
    var copy8 := size / 8;
    var copy1 := size % 8;
    CopyPlan(8, copy8, copy8 <= 3, 0, copy1, copy1 <= 3)
  }

  /** AArch64: sixteen-byte copies, at most one eight-byte copy, then byte copies; unrolled when at most 2. */
  function Aarch64MemcpyPlan(size: u32): (p: CopyPlan)
    ensures p.wideSize == 16 && size == 16 * p.wide + 8 * p.eight + p.bytes && p.eight <= 1 && p.bytes < 8
    ensures p.unrollWide <==> p.wide <= 2
    ensures p.unrollBytes <==> p.bytes <= 2
  {
    var copy16 := size / 16;
    var copy8 := (size % 16) / 8;
    var copy1 := size % 8;
    ModOfModMultiple(size, 8, 2, 16);
    CopyPlan(16, copy16, copy16 <= 2, copy8, copy1, copy1 <= 2)
  }

  /** A plan meeting the contracts above is the only one: the counts are those of division with remainder. */
  lemma {:induction false} MemcpyPlanUnique(size: u32, wide: nat, eight: nat, bytes: nat)
    requires size == 16 * wide + 8 * eight + bytes && eight <= 1 && bytes < 8
    ensures var p := Aarch64MemcpyPlan(size); p.wide == wide && p.eight == eight && p.bytes == bytes
  {
    var p := Aarch64MemcpyPlan(size);
    DivModUnique(size, 16, wide, 8 * eight + bytes);
    DivModUnique(size % 16, 8, eight, bytes);
  }
}
