/**
  The x86-64 assembler's operand forms and stack-frame bookkeeping: which
  storages fit which operand forms without a move, the machine type of a
  form, resizing the frame with one LEA, and probing the pages of a large
  frame.

  Emitted code is a list of `Instr`; its meaning is given by `Exec`, a
  small machine over the sixteen general purpose registers, the carry and
  zero flags and the list of addresses probed, following the Intel
  architecture manual's description of each mnemonic.
*/
module X86Assembler {
  import opened UInt
  import opened X86Encoding
  import opened CommonTables
  import opened VariableStorages
  import opened StackFrames
  import M = ModuleInfos
  import R = WasmReader

  const SP: u32 := 4
  const NUM_GPRS: u32 := 16

  // ---------------------------------------------------------------------
  // Operand forms
  // ---------------------------------------------------------------------

  /** `machineTypeForArgType`: the bits under TYPEMASK name the machine type. */
  function MachineTypeForArgType(argType: u8): (r: MachineType)
    ensures r == I32 <==> 0x20 <= argType < 0x40
    ensures r == I64 <==> 0x40 <= argType < 0x60
    ensures r == F32 <==> 0x60 <= argType < 0x80
    ensures r == F64 <==> 0x80 <= argType < 0xA0
    ensures r == INVALID <==> argType < 0x20 || argType >= 0xA0
  {
    var t := TypeBits(argType);
    if t == ARG_I32 then I32
    else if t == ARG_I64 then I64
    else if t == ARG_F32 then F32
    else if t == ARG_F64 then F64
    else INVALID
  }

  /**
    `elementFitsArgType`: whether a storage can stand as an operand of the
    given form without a move. NONE takes anything and an invalid storage
    nothing else; constants fit the immediate forms whose range holds them;
    registers the register and register-or-memory forms of their class;
    stack and link-data memory only the register-or-memory form of their
    own type, never the 128-bit restricted ones.
  */
  predicate ElementFitsArgType(argType: u8, storage: VariableStorage) {
    if argType == ARG_NONE then true
    else match storage.location
      case Invalid => false
      case Constant(bits) =>
        if storage.machineType == I32 then
          || argType == IMM32 || argType == IMM8_32
          || (argType == C1_32 && ConstU32(bits) == 1)
          || (argType == IMM8SX_32 && -0x80 <= AsI32(ConstU32(bits)) <= 0x7F)
        else if storage.machineType == I64 then
          || argType == IMM8_64
          || (argType == C1_64 && bits == 1)
          || (argType == IMM8SX_64 && -0x80 <= AsI64(bits) <= 0x7F)
          || (argType == IMM32SX_64 && -0x8000_0000 <= AsI64(bits) <= 0x7FFF_FFFF)
        else false
      case Register(_) =>
        || (IsInteger(storage.machineType) && (argType == R32 || argType == RM32 || argType == R64 || argType == RM64))
        || (storage.machineType == F32 && (argType == R32F || argType == RM32F || argType == RM32F_128_RESTRICTM))
        || (storage.machineType == F64 && (argType == R64F || argType == RM64F || argType == RM64F_128_RESTRICTM))
      case _ =>
        || (storage.machineType == I32 && argType == RM32)
        || (storage.machineType == I64 && argType == RM64)
        || (storage.machineType == F32 && argType == RM32F)
        || (storage.machineType == F64 && argType == RM64F)
  }

  /**
    Sign extension read as an unsigned value: the low bits of x, a field
    of `field` values, widened to `whole` values by copying the field's top
    bit upwards.
  */
  function SignExtend(x: nat, field: nat, whole: nat): nat
    requires 2 <= field <= whole
  {
    var low := x % field;
    if low < field / 2 then low else low + whole - field
  }

  /**
    A constant fits a sign-extended immediate form exactly when sign
    extending its low 8 (or 32) bits gives the whole constant back; `c1`
    takes only the value 1, and the 32-bit and 8-bit forms of an i32 take
    any value.
  */
  lemma {:induction false} ConstantForms(bits: u64)
    ensures var v := ConstU32(bits);
            && (ElementFitsArgType(IMM8SX_32, VariableStorage(I32, Constant(bits))) <==> SignExtend(v, TWO8, TWO32) == v)
            && ElementFitsArgType(IMM32, VariableStorage(I32, Constant(bits)))
            && ElementFitsArgType(IMM8_32, VariableStorage(I32, Constant(bits)))
            && (ElementFitsArgType(C1_32, VariableStorage(I32, Constant(bits))) <==> v == 1)
    ensures ElementFitsArgType(IMM8SX_64, VariableStorage(I64, Constant(bits))) <==> SignExtend(bits, TWO8, TWO64) == bits
    ensures ElementFitsArgType(IMM32SX_64, VariableStorage(I64, Constant(bits))) <==> SignExtend(bits, TWO32, TWO64) == bits
    ensures ElementFitsArgType(C1_64, VariableStorage(I64, Constant(bits))) <==> bits == 1
  {
    var v := ConstU32(bits);
    SignExtendFits(v, TWO8, TWO32, 0x100_0000);
    SignExtendFits(bits, TWO8, TWO64, 0x100_0000_0000_0000);
    SignExtendFits(bits, TWO32, TWO64, TWO32);
  }

  /** Sign extension keeps x exactly when x is small, or within half a field of the top. */
  lemma {:induction false} SignExtendFits(x: nat, field: nat, whole: nat, k: nat)
    requires 2 <= field <= whole && field % 2 == 0 && whole == field * k && x < whole
    ensures SignExtend(x, field, whole) == x <==> x < field / 2 || x >= whole - field / 2
  {
    if x < field / 2 {
      DivModUnique(x, field, 0, x);
    } else if x >= whole - field / 2 {
      assert field * (k - 1) == whole - field;
      DivModUnique(x, field, k - 1, x - (whole - field));
    } else {
      assert 0 <= x % field < field;
    }
  }

  /**
    A fitting operand agrees with its form: a register with a register or
    register-or-memory form of its class, memory with the
    register-or-memory form of its own type (never a restricted one), and a
    constant with an immediate form of its own type.
  */
  lemma {:induction false} FitsArgTypeClass(argType: u8, storage: VariableStorage)
    requires argType != ARG_NONE && ElementFitsArgType(argType, storage)
    ensures !storage.location.Invalid?
    ensures storage.location.Register? ==>
              && (IsInteger(MachineTypeForArgType(argType)) <==> IsInteger(storage.machineType))
              && (IsFloating(storage.machineType) ==> MachineTypeForArgType(argType) == storage.machineType)
    ensures storage.location.Constant? ==>
              MachineTypeForArgType(argType) == storage.machineType && argType % 0x20 >= 3
    ensures (storage.location.StackMemory? || storage.location.LinkData?) ==>
              MachineTypeForArgType(argType) == storage.machineType && argType % 0x20 == 2
  {
  }

  /** The register-or-memory form of each machine type. */
  function RmForm(t: MachineType): u8
    requires t != INVALID
  {
    match t
      case I32 => RM32
      case I64 => RM64
      case F32 => RM32F
      case F64 => RM64F
  }

  /**
    Every register fits the register and register-or-memory forms of its
    class, the restricted 128-bit ones included for floats; memory fits the
    register-or-memory form of its own type and no register form.
  */
  lemma {:induction false} ClassFormsFit(storage: VariableStorage)
    ensures storage.location.Register? && IsInteger(storage.machineType) ==>
              && ElementFitsArgType(R32, storage) && ElementFitsArgType(RM32, storage)
              && ElementFitsArgType(R64, storage) && ElementFitsArgType(RM64, storage)
    ensures storage.location.Register? && storage.machineType == F32 ==>
              ElementFitsArgType(R32F, storage) && ElementFitsArgType(RM32F, storage) && ElementFitsArgType(RM32F_128_RESTRICTM, storage)
    ensures storage.location.Register? && storage.machineType == F64 ==>
              ElementFitsArgType(R64F, storage) && ElementFitsArgType(RM64F, storage) && ElementFitsArgType(RM64F_128_RESTRICTM, storage)
    ensures (storage.location.StackMemory? || storage.location.LinkData?) && storage.machineType != INVALID ==>
              && ElementFitsArgType(RmForm(storage.machineType), storage)
              && !ElementFitsArgType(R32, storage) && !ElementFitsArgType(R64, storage)
              && !ElementFitsArgType(R32F, storage) && !ElementFitsArgType(R64F, storage)
  {
  }

  // ---------------------------------------------------------------------
  // Instructions and the machine that runs them
  // ---------------------------------------------------------------------

  /**
    The instructions the modelled operations emit: LEA with a 32-bit
    signed displacement, a register move, MOV and SUB of a sign-extended
    32-bit immediate, a TEST that reads memory at a register, and JA to a
    position in the code.
  */
  datatype Instr =
    | Lea(dst: u32, base: u32, disp: i32)
    | MovRR(dst: u32, src: u32)
    | MovImm32sx(dst: u32, imm: u32)
    | SubImm32sx(dst: u32, imm: u32)
    | TestMem(base: u32)
    | JumpA(target: nat)

  /** The program counter, the registers, CF, ZF, and every address a TEST has read. */
  datatype Machine = Machine(pc: nat, regs: seq<u64>, cf: bool, zf: bool, probed: seq<u64>)

  predicate IsRegFile(regs: seq<u64>) {
    |regs| == NUM_GPRS as int
  }

  /** Whether every register an instruction names is a general purpose register. */
  predicate Names(i: Instr) {
    match i
      case Lea(dst, base, _) => dst < NUM_GPRS && base < NUM_GPRS
      case MovRR(dst, src) => dst < NUM_GPRS && src < NUM_GPRS
      case MovImm32sx(dst, _) => dst < NUM_GPRS
      case SubImm32sx(dst, _) => dst < NUM_GPRS
      case TestMem(base) => base < NUM_GPRS
      case JumpA(_) => true
  }

  predicate AllNamed(code: seq<Instr>) {
    forall k | 0 <= k < |code| :: Names(code[k])
  }

  /** An `imm32` operand of a 64-bit instruction, sign-extended. */
  function Imm32sx(imm: u32): u64 {
    SignExtendBound(imm, TWO32, TWO64);
    SignExtend(imm, TWO32, TWO64)
  }

  lemma {:induction false} SignExtendBound(x: nat, field: nat, whole: nat)
    requires 2 <= field <= whole
    ensures SignExtend(x, field, whole) < whole
  {
  }

  /**
    One instruction. LEA and MOV leave the flags alone; SUB sets CF to the
    unsigned borrow and ZF to a zero result; TEST records the address it
    reads; JA jumps when CF and ZF are both clear.
  */
  function Exec1(i: Instr, m: Machine): (r: Machine)
    requires IsRegFile(m.regs) && Names(i)
    ensures IsRegFile(r.regs)
  {
    match i
      case Lea(dst, base, disp) => m.(pc := m.pc + 1, regs := m.regs[dst := Wrap64(m.regs[base] + disp)])
      case MovRR(dst, src) => m.(pc := m.pc + 1, regs := m.regs[dst := m.regs[src]])
      case MovImm32sx(dst, imm) => m.(pc := m.pc + 1, regs := m.regs[dst := Imm32sx(imm)])
      case SubImm32sx(dst, imm) =>
        var a := m.regs[dst];
        var b := Imm32sx(imm);
        m.(pc := m.pc + 1, regs := m.regs[dst := Wrap64(a - b)], cf := a < b, zf := a == b)
      case TestMem(base) => m.(pc := m.pc + 1, probed := m.probed + [m.regs[base]])
      case JumpA(target) => m.(pc := if !m.cf && !m.zf then target else m.pc + 1)
  }

  /** Runs at most `fuel` instructions, stopping early when the position leaves the code. */
  function Exec(code: seq<Instr>, m: Machine, fuel: nat): (r: Machine)
    requires IsRegFile(m.regs) && AllNamed(code)
    ensures IsRegFile(r.regs)
    decreases fuel
  {
    if fuel == 0 || m.pc >= |code| then m else Exec(code, Exec1(code[m.pc], m), fuel - 1)
  }

  /** Running a steps and then b steps is running a + b steps. */
  lemma {:induction false} ExecAdd(code: seq<Instr>, m: Machine, a: nat, b: nat)
    requires IsRegFile(m.regs) && AllNamed(code)
    ensures Exec(code, m, a + b) == Exec(code, Exec(code, m, a), b)
    decreases a
  {
    if a > 0 && m.pc < |code| {
      ExecAdd(code, Exec1(code[m.pc], m), a - 1, b);
    }
  }

  // ---------------------------------------------------------------------
  // Stack frame
  // ---------------------------------------------------------------------

  const INT32_MAX: u32 := 0x7FFF_FFFF

  /** The page size `probeStack` steps by. */
  const OS_PAGE_SIZE: u32 := 0x1000

  /**
    `probeStack` outside Windows: nothing below one page; otherwise SP is
    saved in the first scratch register, the size loaded into the second,
    and a loop lowers SP by a page, reads there, and counts the size down
    by a page while it stays above zero; then SP is restored.
  */
  function ProbeStackCode(position: nat, delta: u32, scratchReg1: u32, scratchReg2: u32): (code: seq<Instr>)
    ensures delta < OS_PAGE_SIZE <==> code == []
  {
    if delta < OS_PAGE_SIZE then []
    else
      [MovRR(scratchReg1, SP), MovImm32sx(scratchReg2, delta),
       SubImm32sx(SP, OS_PAGE_SIZE), TestMem(SP), SubImm32sx(scratchReg2, OS_PAGE_SIZE), JumpA(position + 2),
       MovRR(SP, scratchReg1)]
  }

  /** The addresses of the first k pages below sp, nearest first. */
  function Pages(sp: u64, k: nat): (r: seq<u64>)
    ensures |r| == k
  {
    seq(k, i requires 0 <= i => Wrap64(sp - OS_PAGE_SIZE * (i + 1)))
  }

  /** The probe loop's four instructions sit at `loop` and branch back to it. */
  predicate ProbeLoopAt(code: seq<Instr>, loop: nat, counter: u32) {
    && loop + 4 <= |code|
    && code[loop] == SubImm32sx(SP, OS_PAGE_SIZE) && code[loop + 1] == TestMem(SP)
    && code[loop + 2] == SubImm32sx(counter, OS_PAGE_SIZE) && code[loop + 3] == JumpA(loop)
  }


  /**
    One pass of the probe loop on the machine state: SP and the counter
    drop by a page, the new SP is read, the flags are those of the counter
    subtraction, and the branch back is taken exactly when the counter was
    above a page.
  */
  function Pass(m: Machine, loop: nat, counter: u32): (r: Machine)
    requires IsRegFile(m.regs) && counter < NUM_GPRS
    ensures IsRegFile(r.regs)
  {
    var c := m.regs[counter];
    var sp := Wrap64(m.regs[SP] - OS_PAGE_SIZE);
    m.(pc := if c > OS_PAGE_SIZE as int then loop else loop + 4,
       regs := m.regs[SP := sp][counter := Wrap64(c - OS_PAGE_SIZE)],
       cf := c < OS_PAGE_SIZE as int, zf := c == OS_PAGE_SIZE as int,
       probed := m.probed + [sp])
  }

  /** k passes of the loop. */
  function Passes(m: Machine, loop: nat, counter: u32, k: nat): (r: Machine)
    requires IsRegFile(m.regs) && counter < NUM_GPRS
    ensures IsRegFile(r.regs)
    decreases k
  {
    if k == 0 then m else Passes(Pass(m, loop, counter), loop, counter, k - 1)
  }

  /** The four instructions of the loop perform one pass. */
  lemma {:induction false} LoopOnce(code: seq<Instr>, loop: nat, counter: u32, m: Machine)
    requires AllNamed(code) && IsRegFile(m.regs) && ProbeLoopAt(code, loop, counter)
    requires counter < NUM_GPRS && counter != SP && m.pc == loop
    ensures Exec(code, m, 4) == Pass(m, loop, counter)
  {
    assert Imm32sx(OS_PAGE_SIZE) == OS_PAGE_SIZE as int;
    var m2 := Exec1(code[loop + 1], Exec1(code[loop], m));
    assert Exec(code, m, 2) == m2 by {
      assert Exec(code, m, 2) == Exec(code, Exec1(code[loop], m), 1);
    }
    var m4 := Exec1(code[loop + 3], Exec1(code[loop + 2], m2));
    assert Exec(code, m2, 2) == m4 by {
      assert Exec(code, m2, 2) == Exec(code, Exec1(code[loop + 2], m2), 1);
    }
    ExecAdd(code, m, 2, 2);
  }

  /**
    While the counter stays above a page the loop branches back, so 4k
    instructions from the loop head are k passes.
  */
  lemma {:induction false} LoopRuns(code: seq<Instr>, loop: nat, counter: u32, m: Machine, k: nat)
    requires AllNamed(code) && IsRegFile(m.regs) && ProbeLoopAt(code, loop, counter)
    requires counter < NUM_GPRS && counter != SP && m.pc == loop
    requires k >= 1 && OS_PAGE_SIZE * (k - 1) < m.regs[counter]
    ensures Exec(code, m, 4 * k) == Passes(m, loop, counter, k)
    decreases k
  {
    if k == 1 {
      LoopOnce(code, loop, counter, m);
      assert Passes(m, loop, counter, 1) == Passes(Pass(m, loop, counter), loop, counter, 0);
    } else {
      var m1 := Pass(m, loop, counter);
      PageBounds(m.regs[counter], k);
      PassAbove(m, loop, counter);
      LoopRuns(code, loop, counter, m1, k - 1);
      var n := 4 * (k - 1);
      RunsStep(code, loop, counter, m, k, m1, n);
      assert 4 * k == 4 + n;
    }
  }

  /** A pass from a counter above one page branches back with one page less. */
  lemma {:induction false} PassAbove(m: Machine, loop: nat, counter: u32)
    requires IsRegFile(m.regs) && counter < NUM_GPRS && counter != SP && m.regs[counter] > OS_PAGE_SIZE as int
    ensures Pass(m, loop, counter).pc == loop
    ensures Pass(m, loop, counter).regs[counter] == m.regs[counter] - OS_PAGE_SIZE as int
  {
  }

  /** One pass executed, then k - 1 passes executed, is k passes executed. */
  lemma {:induction false} RunsStep(code: seq<Instr>, loop: nat, counter: u32, m: Machine, k: nat, m1: Machine, n: nat)
    requires AllNamed(code) && IsRegFile(m.regs) && ProbeLoopAt(code, loop, counter)
    requires counter < NUM_GPRS && counter != SP && m.pc == loop && k > 1
    requires m1 == Pass(m, loop, counter)
    requires Exec(code, m1, n) == Passes(m1, loop, counter, k - 1)
    ensures Exec(code, m, 4 + n) == Passes(m, loop, counter, k)
  {
    LoopOnce(code, loop, counter, m);
    ExecAdd(code, m, 4, n);
  }

  /** A count above k - 1 pages, with k > 1, is above one page, and one page less is above k - 2. */
  lemma {:induction false} PageBounds(c: int, k: nat)
    requires k > 1 && OS_PAGE_SIZE * (k - 1) < c
    ensures c > OS_PAGE_SIZE as int
    ensures OS_PAGE_SIZE * (k - 2) < c - OS_PAGE_SIZE as int
  {
    assert OS_PAGE_SIZE * (k - 1) == OS_PAGE_SIZE * (k - 2) + OS_PAGE_SIZE as int;
  }

  /** The pages below sp are the first page below sp, then the pages below that one. */
  lemma {:induction false} PagesCons(sp: u64, k: nat)
    ensures Pages(sp, k + 1) == [Wrap64(sp - OS_PAGE_SIZE)] + Pages(Wrap64(sp - OS_PAGE_SIZE), k)
  {
    var sp1 := Wrap64(sp - OS_PAGE_SIZE);
    forall i | 0 <= i < k
      ensures Pages(sp1, k)[i] == Pages(sp, k + 1)[i + 1]
    {
      Wrap64Add(sp - OS_PAGE_SIZE, -(OS_PAGE_SIZE * (i + 1)));
    }
  }

  /**
    What k passes from a counter c with (k - 1) pages < c <= k pages do:
    the last pass falls through, SP and the counter are k pages lower, and
    the k pages below the starting SP have been read, nearest first.
  */
  lemma {:induction false} PassesEffect(m: Machine, loop: nat, counter: u32, k: nat)
    requires IsRegFile(m.regs) && counter < NUM_GPRS && counter != SP
    requires k >= 1 && OS_PAGE_SIZE * (k - 1) < m.regs[counter] <= OS_PAGE_SIZE * k
    ensures var r := Passes(m, loop, counter, k);
            && r.pc == loop + 4
            && r.regs == m.regs[SP := Wrap64(m.regs[SP] - OS_PAGE_SIZE * k)][counter := Wrap64(m.regs[counter] - OS_PAGE_SIZE * k)]
            && r.probed == m.probed + Pages(m.regs[SP], k)
    decreases k
  {
    var m1 := Pass(m, loop, counter);
    if k > 1 {
      PageBounds(m.regs[counter], k);
      PageUpper(m.regs[counter], k);
      assert m1.regs[counter] == m.regs[counter] - OS_PAGE_SIZE as int;
      PassesEffect(m1, loop, counter, k - 1);
      PassesStep(m, loop, counter, k, m1, Passes(m1, loop, counter, k - 1));
    } else {
      LastPass(m, loop, counter);
    }
  }

  /** A first pass, then k - 1 passes with the effect stated above, have that effect for k. */
  lemma {:induction false} PassesStep(m: Machine, loop: nat, counter: u32, k: nat, m1: Machine, r: Machine)
    requires IsRegFile(m.regs) && counter < NUM_GPRS && counter != SP
    requires k > 1 && m.regs[counter] > OS_PAGE_SIZE as int
    requires m1 == Pass(m, loop, counter) && r == Passes(m1, loop, counter, k - 1)
    requires r.pc == loop + 4
    requires r.regs == m1.regs[SP := Wrap64(m1.regs[SP] - OS_PAGE_SIZE * (k - 1))][counter := Wrap64(m1.regs[counter] - OS_PAGE_SIZE * (k - 1))]
    requires r.probed == m1.probed + Pages(m1.regs[SP], k - 1)
    ensures var r' := Passes(m, loop, counter, k);
            && r'.pc == loop + 4
            && r'.regs == m.regs[SP := Wrap64(m.regs[SP] - OS_PAGE_SIZE * k)][counter := Wrap64(m.regs[counter] - OS_PAGE_SIZE * k)]
            && r'.probed == m.probed + Pages(m.regs[SP], k)
  {
    assert Passes(m, loop, counter, k) == r;
    var sp1 := Wrap64(m.regs[SP] - OS_PAGE_SIZE);
    assert m1.regs[SP] == sp1 && m1.probed == m.probed + [sp1];
    ComposeRegs(m.regs, m1.regs, r.regs, counter, k);
    ComposeProbed(m.probed, m.regs[SP], k);
  }

  /** A single pass from a counter of at most a page falls through. */
  lemma {:induction false} LastPass(m: Machine, loop: nat, counter: u32)
    requires IsRegFile(m.regs) && counter < NUM_GPRS && counter != SP
    requires m.regs[counter] <= OS_PAGE_SIZE as int
    ensures var r := Passes(m, loop, counter, 1);
            && r.pc == loop + 4
            && r.regs == m.regs[SP := Wrap64(m.regs[SP] - OS_PAGE_SIZE * 1)][counter := Wrap64(m.regs[counter] - OS_PAGE_SIZE * 1)]
            && r.probed == m.probed + Pages(m.regs[SP], 1)
  {
    assert Passes(m, loop, counter, 1) == Pass(m, loop, counter);
    PagesCons(m.regs[SP], 0);
  }

  /** A count of at most k pages is, one page less, at most k - 1 pages. */
  lemma {:induction false} PageUpper(c: int, k: nat)
    requires k > 1 && c <= OS_PAGE_SIZE * k
    ensures c - OS_PAGE_SIZE as int <= OS_PAGE_SIZE * (k - 1)
  {
    assert OS_PAGE_SIZE * k == OS_PAGE_SIZE * (k - 1) + OS_PAGE_SIZE as int;
  }

  /** k - 1 passes after one pass leave the registers as k passes from the start. */
  lemma {:induction false} ComposeRegs(regs: seq<u64>, regs1: seq<u64>, regs2: seq<u64>, counter: u32, k: nat)
    requires IsRegFile(regs) && counter < NUM_GPRS && counter != SP && k > 1
    requires regs[counter] > OS_PAGE_SIZE as int
    requires regs1 == regs[SP := Wrap64(regs[SP] - OS_PAGE_SIZE)][counter := Wrap64(regs[counter] - OS_PAGE_SIZE)]
    requires regs2 == regs1[SP := Wrap64(regs1[SP] - OS_PAGE_SIZE * (k - 1))][counter := Wrap64(regs1[counter] - OS_PAGE_SIZE * (k - 1))]
    ensures regs2 == regs[SP := Wrap64(regs[SP] - OS_PAGE_SIZE * k)][counter := Wrap64(regs[counter] - OS_PAGE_SIZE * k)]
  {
    var sp := regs[SP];
    var c := regs[counter];
    Wrap64Add(sp - OS_PAGE_SIZE, -(OS_PAGE_SIZE * (k - 1)));
    assert Wrap64(c - OS_PAGE_SIZE) == c - OS_PAGE_SIZE as int;
    UpdateTwice(regs, SP as int, counter as int, Wrap64(sp - OS_PAGE_SIZE), Wrap64(c - OS_PAGE_SIZE),
                Wrap64(sp - OS_PAGE_SIZE * k), Wrap64(c - OS_PAGE_SIZE * k));
  }

  /** The page read by one pass followed by those of k - 1 more are the pages of k passes. */
  lemma {:induction false} ComposeProbed(probed: seq<u64>, sp: u64, k: nat)
    requires k > 0
    ensures probed + [Wrap64(sp - OS_PAGE_SIZE)] + Pages(Wrap64(sp - OS_PAGE_SIZE), k - 1) == probed + Pages(sp, k)
  {
    PagesCons(sp, k - 1);
  }

  /** Writing two registers twice keeps only the second writes. */
  lemma UpdateTwice(s: seq<u64>, a: int, b: int, x: u64, y: u64, x2: u64, y2: u64)
    requires 0 <= a < |s| && 0 <= b < |s| && a != b
    ensures s[a := x][b := y][a := x2][b := y2] == s[a := x2][b := y2]
  {
  }

  /** The number of pages that cover delta bytes: the least k with delta <= k pages. */
  function PageCount(delta: nat): (k: nat)
    ensures OS_PAGE_SIZE * k >= delta
    ensures k > 0 ==> OS_PAGE_SIZE * (k - 1) < delta
  {
    (delta + OS_PAGE_SIZE as int - 1) / OS_PAGE_SIZE as int
  }

  /** `code` holds the probe sequence for delta at position p. */
  predicate ProbeAt(code: seq<Instr>, p: nat, delta: u32, scratchReg1: u32, scratchReg2: u32) {
    p + 7 <= |code| && code[p..p + 7] == ProbeStackCode(p, delta, scratchReg1, scratchReg2)
  }

  /**
    Running the probe sequence for a frame of at least a page: with k the
    number of pages that cover delta, after 4k + 3 instructions control
    leaves the sequence, every page from the one just below SP down to the
    k-th has been read in order (so no page of the new frame is skipped),
    SP is back where it was, the first scratch register holds SP and the
    second what is left of the count; no other register changes.
  */
  lemma {:induction false} ProbeStackRuns(code: seq<Instr>, p: nat, delta: u32, scratchReg1: u32, scratchReg2: u32, m: Machine)
    requires AllNamed(code) && IsRegFile(m.regs) && ProbeAt(code, p, delta, scratchReg1, scratchReg2)
    requires OS_PAGE_SIZE <= delta <= INT32_MAX
    requires scratchReg1 < NUM_GPRS && scratchReg2 < NUM_GPRS
    requires scratchReg1 != SP && scratchReg2 != SP && scratchReg1 != scratchReg2
    requires m.pc == p
    ensures var k := PageCount(delta);
            var r := Exec(code, m, 4 * k + 3);
            && r.pc == p + 7
            && r.regs == m.regs[scratchReg1 := m.regs[SP]][scratchReg2 := Wrap64(delta - OS_PAGE_SIZE * k)]
            && r.probed == m.probed + Pages(m.regs[SP], k)
  {
    ProbeRunsFor(code, p, delta, scratchReg1, scratchReg2, m, PageCount(delta));
  }

  /** `ProbeStackRuns` for any k with (k - 1) pages < delta <= k pages. */
  lemma {:induction false} ProbeRunsFor(code: seq<Instr>, p: nat, delta: u32, scratchReg1: u32, scratchReg2: u32, m: Machine, k: nat)
    requires AllNamed(code) && IsRegFile(m.regs) && ProbeAt(code, p, delta, scratchReg1, scratchReg2)
    requires OS_PAGE_SIZE <= delta <= INT32_MAX
    requires scratchReg1 < NUM_GPRS && scratchReg2 < NUM_GPRS
    requires scratchReg1 != SP && scratchReg2 != SP && scratchReg1 != scratchReg2
    requires m.pc == p
    requires k >= 1 && OS_PAGE_SIZE * (k - 1) < delta <= OS_PAGE_SIZE * k
    ensures var r := Exec(code, m, 4 * k + 3);
            && r.pc == p + 7
            && r.regs == m.regs[scratchReg1 := m.regs[SP]][scratchReg2 := Wrap64(delta - OS_PAGE_SIZE * k)]
            && r.probed == m.probed + Pages(m.regs[SP], k)
  {
    var m2 := ProbePrologue(code, p, delta, scratchReg1, scratchReg2, m);
    ProbeAtCode(code, p, delta, scratchReg1, scratchReg2);
    LoopRuns(code, p + 2, scratchReg2, m2, k);
    var m3 := Passes(m2, p + 2, scratchReg2, k);
    PassesEffect(m2, p + 2, scratchReg2, k);
    assert m3.pc == p + 6;
    var r := Exec1(code[p + 6], m3);
    assert r == m3.(pc := p + 7, regs := m3.regs[SP := m3.regs[scratchReg1]]);
    ExecOne(code, m3);
    ProbeEffect(m, m2, m3, r, delta, scratchReg1, scratchReg2, k);
    ExecThree(code, m, m2, m3, r, 4 * k);
  }

  /** The seven instructions of a probe sequence placed at p. */
  lemma {:induction false} ProbeAtCode(code: seq<Instr>, p: nat, delta: u32, scratchReg1: u32, scratchReg2: u32)
    requires ProbeAt(code, p, delta, scratchReg1, scratchReg2) && OS_PAGE_SIZE <= delta
    ensures code[p] == MovRR(scratchReg1, SP) && code[p + 1] == MovImm32sx(scratchReg2, delta)
    ensures ProbeLoopAt(code, p + 2, scratchReg2)
    ensures code[p + 6] == MovRR(SP, scratchReg1)
  {
    var probe := ProbeStackCode(p, delta, scratchReg1, scratchReg2);
    forall i | 0 <= i < 7
      ensures code[p + i] == probe[i]
    {
      assert code[p..p + 7][i] == code[p + i];
    }
  }

  /** One step executes the instruction at the program counter. */
  lemma {:induction false} ExecOne(code: seq<Instr>, m: Machine)
    requires IsRegFile(m.regs) && AllNamed(code) && m.pc < |code|
    ensures Exec(code, m, 1) == Exec1(code[m.pc], m)
  {
    assert Exec(code, Exec1(code[m.pc], m), 0) == Exec1(code[m.pc], m);
  }

  /** Two steps, then n, then one, are n + 3 steps. */
  lemma {:induction false} ExecThree(code: seq<Instr>, m: Machine, m2: Machine, m3: Machine, r: Machine, n: nat)
    requires IsRegFile(m.regs) && AllNamed(code)
    requires m2 == Exec(code, m, 2) && m3 == Exec(code, m2, n) && r == Exec(code, m3, 1)
    ensures Exec(code, m, n + 3) == r
  {
    ExecAdd(code, m, 2, n + 1);
    ExecAdd(code, m2, n, 1);
  }

  /** The two loads before the loop save SP and load the count. */
  lemma {:induction false} ProbePrologue(code: seq<Instr>, p: nat, delta: u32, scratchReg1: u32, scratchReg2: u32, m: Machine)
    returns (m2: Machine)
    requires AllNamed(code) && IsRegFile(m.regs) && ProbeAt(code, p, delta, scratchReg1, scratchReg2)
    requires OS_PAGE_SIZE <= delta <= INT32_MAX
    requires scratchReg1 < NUM_GPRS && scratchReg2 < NUM_GPRS
    requires m.pc == p
    ensures IsRegFile(m2.regs) && m2 == Exec(code, m, 2)
    ensures m2 == m.(pc := p + 2, regs := m.regs[scratchReg1 := m.regs[SP]][scratchReg2 := delta as u64])
  {
    ProbeAtCode(code, p, delta, scratchReg1, scratchReg2);
    assert Imm32sx(delta) == delta as int;
    m2 := Exec1(code[p + 1], Exec1(code[p], m));
    assert Exec(code, m, 2) == Exec(code, Exec1(code[p], m), 1);
  }

  /** The register and memory effect of the whole probe sequence, on states alone. */
  lemma {:induction false} ProbeEffect(m: Machine, m2: Machine, m3: Machine, r: Machine, delta: u32, scratchReg1: u32, scratchReg2: u32, k: nat)
    requires IsRegFile(m.regs) && scratchReg1 < NUM_GPRS && scratchReg2 < NUM_GPRS
    requires scratchReg1 != SP && scratchReg2 != SP && scratchReg1 != scratchReg2
    requires m2.regs == m.regs[scratchReg1 := m.regs[SP]][scratchReg2 := delta as u64] && m2.probed == m.probed
    requires m3.regs == m2.regs[SP := Wrap64(m2.regs[SP] - OS_PAGE_SIZE * k)][scratchReg2 := Wrap64(m2.regs[scratchReg2] - OS_PAGE_SIZE * k)]
    requires m3.probed == m2.probed + Pages(m2.regs[SP], k)
    requires r.regs == m3.regs[SP := m3.regs[scratchReg1]] && r.probed == m3.probed
    ensures r.regs == m.regs[scratchReg1 := m.regs[SP]][scratchReg2 := Wrap64(delta - OS_PAGE_SIZE * k)]
    ensures r.probed == m.probed + Pages(m.regs[SP], k)
  {
    assert m2.regs[SP] == m.regs[SP] && m2.regs[scratchReg2] == delta as int;
    assert m3.regs[scratchReg1] == m.regs[SP];
  }


  // ---------------------------------------------------------------------
  // The assembler's state
  // ---------------------------------------------------------------------

  /** The emitting side of the x86-64 `Assembler`: the frame size it tracks and the code it has emitted. */
  class Assembler {
    const abi: M.WasmAbi
    const fnc: M.FunctionInfo
    /** `moduleInfo_.fnc.stackFrameSize`. */
    var stackFrameSize: u32
    /** The instructions emitted so far. */
    var binary: seq<Instr>

    /** `ImplementationLimits::maxStackFrameSize`, below INT32_MAX as the source's static assertion demands. */
    const maxStackFrameSize: u32

    predicate Valid()
      reads this
    {
      maxStackFrameSize < INT32_MAX && stackFrameSize <= INT32_MAX
    }

    constructor (abi: M.WasmAbi, fnc: M.FunctionInfo, maxStackFrameSize: u32, stackFrameSize: u32)
      requires maxStackFrameSize < INT32_MAX && stackFrameSize <= INT32_MAX
      ensures Valid()
      ensures this.abi == abi && this.fnc == fnc && this.maxStackFrameSize == maxStackFrameSize
      ensures this.stackFrameSize == stackFrameSize && binary == []
    {
      this.abi := abi;
      this.fnc := fnc;
      this.maxStackFrameSize := maxStackFrameSize;
      this.stackFrameSize := stackFrameSize;
      binary := [];
    }

    /**
      `setStackFrameSize`: a request for the current size emits nothing; one
      above the limit throws before emitting; otherwise a single LEA moves SP
      by the difference, and the new size is recorded unless the change is
      temporary.
    */
    method SetStackFrameSize(frameSize: u32, temporary: bool, mayRemoveLocals: bool) returns (r: R.Result<()>)
      requires Valid()
      requires ValidFrameRequest(abi, fnc, frameSize, AlignStackFrameSize16(frameSize, fnc.paramWidth), mayRemoveLocals)
      modifies this
      ensures Valid()
      ensures old(stackFrameSize) == frameSize ==> r.Ok? && binary == old(binary) && stackFrameSize == frameSize
      ensures old(stackFrameSize) != frameSize && frameSize > maxStackFrameSize ==>
                r == R.Err(R.ReachedMaximumStackFrameSize) && binary == old(binary) && stackFrameSize == old(stackFrameSize)
      ensures old(stackFrameSize) != frameSize && frameSize <= maxStackFrameSize ==>
                && r.Ok?
                && binary == old(binary) + [Lea(SP, SP, old(stackFrameSize) - frameSize)]
                && stackFrameSize == (if temporary then old(stackFrameSize) else frameSize)
    {
      if stackFrameSize != frameSize {
        if frameSize > maxStackFrameSize {
          return R.Err(R.ReachedMaximumStackFrameSize);
        }
        var delta: i32 := AsI32(stackFrameSize) - AsI32(frameSize);
        binary := binary + [Lea(SP, SP, delta)];
        if !temporary {
          stackFrameSize := frameSize;
        }
      }
      return R.Ok(());
    }

    /** `probeStack`: the loop branches back to the position just after the two loads. */
    method ProbeStack(delta: u32, scratchReg1: u32, scratchReg2: u32)
      modifies this
      ensures binary == old(binary) + ProbeStackCode(|old(binary)|, delta, scratchReg1, scratchReg2)
      ensures stackFrameSize == old(stackFrameSize)
    {
      if delta < OS_PAGE_SIZE {
        return;
      }
      ghost var before := binary;
      binary := binary + [MovRR(scratchReg1, SP), MovImm32sx(scratchReg2, delta)];
      var branchTargetOffset := |binary|;
      binary := binary + [SubImm32sx(SP, OS_PAGE_SIZE), TestMem(SP), SubImm32sx(scratchReg2, OS_PAGE_SIZE),
                          JumpA(branchTargetOffset), MovRR(SP, scratchReg1)];
      assert binary == before + ProbeStackCode(|before|, delta, scratchReg1, scratchReg2);
    }
  }

  /**
    The LEA of a frame change moves SP down by the growth, or up by the
    shrinkage, modulo 2^64, and leaves CF and ZF alone, so a comparison
    made before the frame change can still be branched on after it.
  */
  lemma {:induction false} FrameChangeMovesSp(current: u32, frameSize: u32, m: Machine)
    requires current <= INT32_MAX && frameSize <= INT32_MAX
    requires IsRegFile(m.regs) && m.pc == 0
    ensures var r := Exec([Lea(SP, SP, current - frameSize)], m, 1);
            r == m.(pc := 1, regs := m.regs[SP := Wrap64(m.regs[SP] + current - frameSize)])
  {
    var code := [Lea(SP, SP, current - frameSize)];
    assert Exec(code, m, 1) == Exec(code, Exec1(code[0], m), 0);
  }

  /** The probe sequence a ProbeStack call appends sits where the model of its run expects it. */
  lemma {:induction false} EmittedProbeAt(before: seq<Instr>, delta: u32, scratchReg1: u32, scratchReg2: u32)
    requires delta >= OS_PAGE_SIZE
    ensures ProbeAt(before + ProbeStackCode(|before|, delta, scratchReg1, scratchReg2), |before|, delta, scratchReg1, scratchReg2)
  {
    var code := before + ProbeStackCode(|before|, delta, scratchReg1, scratchReg2);
    assert code[|before|..|before| + 7] == ProbeStackCode(|before|, delta, scratchReg1, scratchReg2);
  }
}
