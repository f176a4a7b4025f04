/**
  AArch64-only parts of the backend (`aarch64_backend.cpp`,
  `aarch64_backend.hpp`): spilling and restoring a list of registers with
  pair instructions where the encoding allows, the two temporary registers
  a `TempRegManager` hands out, the register mask, and the split of a
  memory displacement too wide for an instruction's offset field.
*/
module Aarch64Backend {
  import opened UInt
  import opened VariableStorages
  import A = Aarch64Encoding
  import D = DwarfBytes

  // ---------------------------------------------------------------------
  // spillRestoreRegsRaw
  // ---------------------------------------------------------------------

  /**
    A spill (store) or restore (load) instruction at `SP + offset`: a pair
    instruction (`STP`/`LDP`) for two registers of one class, or a single
    one (`STR`/`LDR`).
  */
  datatype SpillOp =
    | Pair(load: bool, isGpr: bool, first: u32, second: u32, offset: nat)
    | Single(load: bool, isGpr: bool, reg: u32, offset: nat)

  /** The register class bit as arithmetic: bit 5 of the register number is clear. */
  predicate InGprClass(reg: u32) {
    (reg / 32) % 2 == 0
  }

  /** The arithmetic class test is `RegUtil::isGPR` of the encoder. */
  lemma {:induction false} InGprClassIsGPR(reg: u32)
    ensures InGprClass(reg) <==> A.IsGPR(reg)
  {
  }

  /**
    The unsigned 6-bit range check on index `i` against the limit
    `size - 2`, computed in `uint32_t`: the limit itself must fit in six
    bits.
  */
  predicate PairInRange(i: nat, size: nat) {
    var limit := Wrap32(size - 2);
    i <= limit && limit <= 63
  }

  /** A pair may only start where a second register follows, and never in a list of more than 65. */
  lemma {:induction false} PairInRangeBounds(i: nat, size: nat)
    requires size < TWO32
    ensures PairInRange(i, size) <==> 2 <= size <= 65 && i <= size - 2
  {
    if size < 2 {
      assert Wrap32(size - 2) == size - 2 + TWO32;
    } else {
      assert Wrap32(size - 2) == size - 2;
    }
  }

  /** Whether the instruction for register `i` is a pair. */
  predicate PairsAt(regs: seq<u32>, i: nat)
    requires i <= |regs|
  {
    i + 1 < |regs| && PairInRange(i, |regs|) && InGprClass(regs[i]) == InGprClass(regs[i + 1])
  }

  /**
    The instructions for registers `i..` of a list: a pair for register
    `i` and the next one when the range check passes and both are of one
    class, a single instruction otherwise.
  */
  function SpillOps(regs: seq<u32>, restore: bool, i: nat): seq<SpillOp>
    requires i <= |regs|
    decreases |regs| - i
  {
    if i == |regs| then []
    else if PairsAt(regs, i) then
      [Pair(restore, InGprClass(regs[i]), regs[i], regs[i + 1], 8 * i)] + SpillOps(regs, restore, i + 2)
    else
      [Single(restore, InGprClass(regs[i]), regs[i], 8 * i)] + SpillOps(regs, restore, i + 1)
  }

  /** One step of `SpillOps`: the instruction for register `i` and where the walk goes on. */
  lemma {:induction false} SpillOpsStep(regs: seq<u32>, restore: bool, i: nat, op: SpillOp, next: nat)
    requires i < |regs|
    requires PairsAt(regs, i) ==> op == Pair(restore, InGprClass(regs[i]), regs[i], regs[i + 1], 8 * i) && next == i + 2
    requires !PairsAt(regs, i) ==> op == Single(restore, InGprClass(regs[i]), regs[i], 8 * i) && next == i + 1
    ensures next <= |regs| && SpillOps(regs, restore, i) == [op] + SpillOps(regs, restore, next)
  {
  }

  /** `spillRestoreRegsRaw`: walks the list, advancing by two after a pair and by one otherwise. */
  method SpillRestoreRegsRaw(regs: seq<u32>, restore: bool) returns (ops: seq<SpillOp>)
    ensures ops == SpillOps(regs, restore, 0)
  {
    ops := [];
    var i := 0;
    while i < |regs|
      invariant 0 <= i <= |regs|
      invariant ops + SpillOps(regs, restore, i) == SpillOps(regs, restore, 0)
      decreases |regs| - i
    {
      var reg := regs[i];
      var op;
      var next;
      if PairsAt(regs, i) {
        op := Pair(restore, InGprClass(reg), reg, regs[i + 1], 8 * i);
        next := i + 2;
      } else {
        op := Single(restore, InGprClass(reg), reg, 8 * i);
        next := i + 1;
      }
      SpillOpsStep(regs, restore, i, op, next);
      ConcatStep(ops, op, SpillOps(regs, restore, next), SpillOps(regs, restore, i), SpillOps(regs, restore, 0));
      ops, i := ops + [op], next;
    }
  }

  /** Moving the head of the remaining list onto the done part keeps their concatenation. */
  lemma {:induction false} ConcatStep<T>(done: seq<T>, x: T, rest: seq<T>, remaining: seq<T>, whole: seq<T>)
    requires remaining == [x] + rest && done + remaining == whole
    ensures (done + [x]) + rest == whole
  {
    assert done + ([x] + rest) == (done + [x]) + rest;
  }

  /** The registers the instructions move, each with its stack offset, in order. */
  function Slots(ops: seq<SpillOp>): seq<(u32, nat)>
    decreases |ops|
  {
    if ops == [] then [] else OpSlots(ops[0]) + Slots(ops[1..])
  }

  /** The registers one instruction moves, each with its stack offset. */
  function OpSlots(op: SpillOp): seq<(u32, nat)> {
    match op
    case Pair(_, _, a, b, off) => [(a, off), (b, off + 8)]
    case Single(_, _, r, off) => [(r, off)]
  }

  lemma {:induction false} SlotsPrepend(op: SpillOp, rest: seq<SpillOp>)
    ensures Slots([op] + rest) == OpSlots(op) + Slots(rest)
  {
    assert ([op] + rest)[1..] == rest;
  }

  /** The slots of the instruction for register `i`, then those from where the walk goes on. */
  lemma {:induction false} SlotsFromStep(regs: seq<u32>, i: nat, op: SpillOp, next: nat)
    requires i < |regs| && next <= |regs|
    requires op.Pair? ==> op.first == regs[i] && next == i + 2 && op.second == regs[i + 1] && op.offset == 8 * i
    requires op.Single? ==> op.reg == regs[i] && next == i + 1 && op.offset == 8 * i
    ensures OpSlots(op) + SlotsFrom(regs, next) == SlotsFrom(regs, i)
  {
    if op.Pair? {
      var later := SlotsFrom(regs, i + 2);
      assert SlotsFrom(regs, i + 1) == [(regs[i + 1], 8 * i + 8)] + later;
      assert SlotsFrom(regs, i) == [(regs[i], 8 * i)] + ([(regs[i + 1], 8 * i + 8)] + later);
      assert [(regs[i], 8 * i)] + ([(regs[i + 1], 8 * i + 8)] + later) == OpSlots(op) + later;
    }
  }

  /** Registers `i..` of a list, each at `SP + 8 * j` for its index `j`. */
  function SlotsFrom(regs: seq<u32>, i: nat): seq<(u32, nat)>
    requires i <= |regs|
    decreases |regs| - i
  {
    if i == |regs| then [] else [(regs[i], 8 * i)] + SlotsFrom(regs, i + 1)
  }

  /** `SlotsFrom` lists register `j` at offset `8 * j`. */
  lemma {:induction false} SlotsFromAt(regs: seq<u32>, i: nat)
    requires i <= |regs|
    ensures |SlotsFrom(regs, i)| == |regs| - i
    ensures forall j :: i <= j < |regs| ==> SlotsFrom(regs, i)[j - i] == (regs[j], 8 * j)
    decreases |regs| - i
  {
    if i < |regs| {
      SlotsFromAt(regs, i + 1);
      var all := SlotsFrom(regs, i);
      var rest := SlotsFrom(regs, i + 1);
      assert all == [(regs[i], 8 * i)] + rest;
      forall j | i < j < |regs|
        ensures all[j - i] == (regs[j], 8 * j)
      {
        assert all[j - i] == rest[j - (i + 1)];
      }
    }
  }

  /**
    Every register of the list is moved exactly once, in order, and
    register `j` to `SP + 8 * j`.
  */
  lemma {:induction false} SpillSlots(regs: seq<u32>, restore: bool, i: nat)
    requires i <= |regs|
    ensures Slots(SpillOps(regs, restore, i)) == SlotsFrom(regs, i)
    decreases |regs| - i
  {
    if i < |regs| {
      var reg := regs[i];
      var op;
      var next;
      if PairsAt(regs, i) {
        op := Pair(restore, InGprClass(reg), reg, regs[i + 1], 8 * i);
        next := i + 2;
      } else {
        op := Single(restore, InGprClass(reg), reg, 8 * i);
        next := i + 1;
      }
      SpillOpsStep(regs, restore, i, op, next);
      SpillSlots(regs, restore, next);
      SlotsPrepend(op, SpillOps(regs, restore, next));
      SlotsFromStep(regs, i, op, next);
    }
  }

  /**
    A pair instruction joins two registers of one class, and only where
    the list has at most 65 registers; its offset is the scaled 6-bit
    index. Every instruction loads when restoring and stores otherwise.
  */
  lemma {:induction false} SpillOpsWellFormed(regs: seq<u32>, restore: bool, i: nat, k: nat)
    requires i <= |regs| < TWO32 && k < |SpillOps(regs, restore, i)|
    ensures var op := SpillOps(regs, restore, i)[k];
            && op.load == restore
            && (op.Pair? ==> InGprClass(op.first) == InGprClass(op.second) == op.isGpr && op.offset <= 8 * 63
                             && |regs| <= 65)
            && (op.Single? ==> op.isGpr == InGprClass(op.reg))
    decreases |regs| - i
  {
    PairInRangeBounds(i, |regs|);
    if k > 0 {
      if PairsAt(regs, i) {
        SpillOpsWellFormed(regs, restore, i + 2, k - 1);
      } else {
        SpillOpsWellFormed(regs, restore, i + 1, k - 1);
      }
    }
  }

  // ---------------------------------------------------------------------
  // TempRegManager and mask
  // ---------------------------------------------------------------------

  /**
    `TempRegManager`: hands out the extra register (memSize, or the
    landing-pad helper without bounds checks) and then the linear-memory
    register, remembering which it has clobbered so they can be restored.
  */
  class TempRegManager {
    const extraReg: nat
    const linMemReg: nat
    var clobberedExtraReg: bool
    var clobberedLinMemReg: bool

    /** The linear-memory register is only taken after the extra one. */
    predicate Valid()
      reads this
    {
      clobberedLinMemReg ==> clobberedExtraReg
    }

    constructor (extraReg: nat, linMemReg: nat)
      ensures Valid() && !clobberedExtraReg && !clobberedLinMemReg
      ensures this.extraReg == extraReg && this.linMemReg == linMemReg
    {
      this.extraReg := extraReg;
      this.linMemReg := linMemReg;
      clobberedExtraReg := false;
      clobberedLinMemReg := false;
    }

    /** `getTempGPR`: the extra register first, the linear-memory register second; there is no third. */
    method GetTempGPR() returns (reg: nat)
      requires Valid() && !clobberedLinMemReg
      modifies this
      ensures Valid() && clobberedExtraReg
      ensures reg == if old(clobberedExtraReg) then linMemReg else extraReg
      ensures clobberedLinMemReg == old(clobberedExtraReg)
    {
      if !clobberedExtraReg {
        clobberedExtraReg := true;
        return extraReg;
      }
      clobberedLinMemReg := true;
      return linMemReg;
    }
  }

  /** `mask`: only the register itself, whatever the width. */
  function Mask(reg: nat, is64: bool): (m: set<nat>)
    ensures reg in m && forall r :: r in m ==> r == reg
  {
    {reg}
  }

  // ---------------------------------------------------------------------
  // getMemRegDisp
  // ---------------------------------------------------------------------

  /**
    How a displacement is made reachable: not at all, by adding bits 12-23
    to the base into a temporary register (`ADD` with a shifted 12-bit
    immediate), or by loading the whole displacement into the temporary
    register and adding the base.
  */
  datatype DispFix =
    | NoFix
    | AddShifted(temp: nat, base: nat, imm: nat)
    | LoadAndAdd(temp: nat, value: u64, base: nat)

  /** `RegDisp`: the register to address from, the displacement to add, and the instructions emitted first. */
  datatype RegDisp = RegDisp(reg: nat, disp: nat, fix: DispFix)

  /** `x & 0xFF000FFF` on a `uint64_t`: bits 0-11 and 24-31. */
  function KeepOuterBits(x: u64): nat {
    x % 0x1000 + ((x / 0x100_0000) % 0x100) * 0x100_0000
  }

  /** `uint32_t(x) & 0x00FFF000`: bits 12-23. */
  function MiddleBits(x: u64): nat {
    ((x / 0x1000) % 0x1000) * 0x1000
  }

  /** Below 2^32, the outer and middle bits add up to the value again. */
  lemma {:induction false} OuterMiddle(x: u64)
    requires x < TWO32
    ensures KeepOuterBits(x) + MiddleBits(x) == x
  {
    ModSplit(x, 0x1000, 0x1000);
    DivModParts(x, 0x100_0000);
    assert x / 0x100_0000 < 0x100;
  }

  /**
    The split of `getMemRegDisp` for a displacement `disp` from register
    `base` and an unsigned offset field of `rangeBit` bits: a displacement
    that fits is kept; otherwise, if it fits once bits 12-23 are added to
    the temporary register, those bits go there; otherwise the whole
    displacement is loaded into the temporary register and 0 remains.
  */
  function SplitDisp(disp: u64, base: nat, temp: nat, rangeBit: nat): (r: RegDisp)
    ensures r.disp < Pow2(rangeBit)
  {
    if disp < Pow2(rangeBit) then RegDisp(base, disp, NoFix)
    else if KeepOuterBits(disp) < Pow2(rangeBit) then RegDisp(temp, KeepOuterBits(disp), AddShifted(temp, base, MiddleBits(disp)))
    else RegDisp(temp, 0, LoadAndAdd(temp, disp, base))
  }

  /** The address a `RegDisp` reaches when the base register holds `baseValue`. */
  function Address(r: RegDisp, baseValue: int): int {
    match r.fix
    case NoFix => baseValue + r.disp
    case AddShifted(_, _, imm) => baseValue + imm + r.disp
    case LoadAndAdd(_, value, _) => value + baseValue + r.disp
  }

  /**
    Whichever way it is split, a displacement below 2^32 still reaches the
    original address, every emitted instruction reads the original base,
    and the base itself is only addressed from when nothing is emitted.
  */
  lemma {:induction false} SplitDispAddress(disp: u64, base: nat, temp: nat, rangeBit: nat, baseValue: int)
    requires disp < TWO32
    ensures var r := SplitDisp(disp, base, temp, rangeBit);
            && Address(r, baseValue) == baseValue + disp
            && (r.fix.NoFix? <==> disp < Pow2(rangeBit))
            && (r.fix.NoFix? ==> r.reg == base && r.disp == disp)
            && (!r.fix.NoFix? ==> r.reg == temp && r.fix.base == base)
  {
    OuterMiddle(disp);
  }

  /** The displacement of a storage: link data from the job memory, a frame slot from SP. */
  function StorageDisp(loc: Location, linkDataStart: u32, stackFrameSize: u32): u64
    requires loc.LinkData? || loc.StackMemory?
  {
    if loc.LinkData? then linkDataStart + loc.offset
    else Wrap64(AsI32(Wrap32(stackFrameSize - loc.position)))
  }

  /** A frame slot at or below the frame size is at its distance from SP. */
  lemma {:induction false} StackDispInFrame(position: u32, linkDataStart: u32, stackFrameSize: u32)
    requires position <= stackFrameSize <= 0x7FFF_FFFF
    ensures StorageDisp(StackMemory(position), linkDataStart, stackFrameSize) == stackFrameSize - position
  {
  }

  /**
    `getMemRegDisp`: the base register and displacement of a link-data or
    stack-memory storage, split as `SplitDisp` says. The temporary
    register is `tempGPR` when given and is otherwise taken from the
    manager.
  */
  method GetMemRegDisp(loc: Location, jobMem: nat, sp: nat, linkDataStart: u32, stackFrameSize: u32, rangeBit: nat,
                       tempGPR: D.Option<nat>, manager: TempRegManager?) returns (r: RegDisp)
    requires loc.LinkData? || loc.StackMemory?
    requires tempGPR.Some? || (manager != null && manager.Valid() && !manager.clobberedLinMemReg)
    modifies manager
    ensures var base := if loc.LinkData? then jobMem else sp;
            var disp := StorageDisp(loc, linkDataStart, stackFrameSize);
            if disp < Pow2(rangeBit) then r == RegDisp(base, disp, NoFix)
            else if tempGPR.Some? then r == SplitDisp(disp, base, tempGPR.value, rangeBit)
            else r == SplitDisp(disp, base, if old(manager.clobberedExtraReg) then manager.linMemReg else manager.extraReg, rangeBit)
    ensures manager != null && (tempGPR.Some? || StorageDisp(loc, linkDataStart, stackFrameSize) < Pow2(rangeBit))
            ==> unchanged(manager)
    ensures manager != null && old(manager.Valid()) ==> manager.Valid()
  {
    var base := if loc.LinkData? then jobMem else sp;
    var disp := StorageDisp(loc, linkDataStart, stackFrameSize);
    if disp >= Pow2(rangeBit) {
      var temp;
      if tempGPR.None? {
        temp := manager.GetTempGPR();
      } else {
        temp := tempGPR.value;
      }
      return SplitDisp(disp, base, temp, rangeBit);
    }
    return SplitDisp(disp, base, 0, rangeBit);
  }
}
