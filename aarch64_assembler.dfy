/**
  The arithmetic of the AArch64 assembler: adding a 24-bit constant with
  two 12-bit immediates, building a constant from MOVZ/MOVN/MOVK halfword
  moves, the FMOV 8-bit float immediate, which storages fit which operand
  forms, and the stack-frame bookkeeping.

  Emitted code is a list of `Instr`; the meaning of each instruction is
  given by `Step` on a file of 64-bit registers (for the wide moves, by
  `StepWide` on the halfwords of one register), following the Arm
  Architecture Reference Manual's description of each mnemonic.
*/
module Aarch64Assembler {
  import opened UInt
  import opened Aarch64Encoding
  import opened CommonTables
  import opened VariableStorages
  import opened StackFrames
  import M = ModuleInfos
  import D = DwarfBytes
  import R = WasmReader

  /** A W-form instruction works modulo 2^32, an X-form one modulo 2^64. */
  function WrapWidth(x: int, is64: bool): u64 {
    if is64 then Wrap64(x) else Wrap32(x)
  }

  lemma {:induction false} WrapWidthAdd(a: int, b: int, is64: bool)
    ensures WrapWidth(WrapWidth(a, is64) + b, is64) == WrapWidth(a + b, is64)
  {
    if is64 {
      DivModUnique(a % TWO64 + b, TWO64, (a + b) / TWO64 - a / TWO64, (a + b) % TWO64);
    } else {
      WrapAdd(a, b);
    }
  }

  // ---------------------------------------------------------------------
  // Halfword moves
  // ---------------------------------------------------------------------

  /**
    MOVZ writes one halfword and zeroes the rest; MOVN writes the
    complement of its operand everywhere, so the other halfwords become
    0xFFFF; MOVK replaces one halfword and keeps the rest. `index` is the
    halfword position, the shift divided by 16.
  */
  datatype WideMove = Movz(hw: u16, index: nat) | Movn(notHw: u16, index: nat) | Movk(hw: u16, index: nat)

  /** The register, as its halfwords from the least significant up, after one move. */
  function StepWide(m: WideMove, reg: seq<u16>): (r: seq<u16>)
    requires m.index < |reg|
    ensures |r| == |reg|
  {
    match m
      case Movz(hw, index) => seq(|reg|, j => if j == index then hw else 0)
      case Movn(notHw, index) => seq(|reg|, j => if j == index then 0xFFFF - notHw else 0xFFFF)
      case Movk(hw, index) => reg[index := hw]
  }

  predicate FitsRegister(moves: seq<WideMove>, n: nat) {
    forall k | 0 <= k < |moves| :: moves[k].index < n
  }

  function RunWide(moves: seq<WideMove>, reg: seq<u16>): (r: seq<u16>)
    requires FitsRegister(moves, |reg|)
    ensures |r| == |reg|
  {
    if moves == [] then reg else RunWide(moves[1..], StepWide(moves[0], reg))
  }

  /** Halfword i of a value: `(imm >> (i * 16)) & 0xFFFF`. */
  function Halfword(imm: nat, i: nat): u16 {
    (imm / Pow2(16 * i)) % TWO16
  }

  /** The low n halfwords of a value, least significant first. */
  function Halves(imm: nat, n: nat): (r: seq<u16>)
    ensures |r| == n
  {
    seq(n, i requires 0 <= i => Halfword(imm, i))
  }

  /** The value of a sequence of halfwords, least significant first. */
  function FromHalves(hs: seq<u16>): nat {
    if hs == [] then 0 else hs[0] + TWO16 * FromHalves(hs[1..])
  }

  /** The halfwords of a value give back the value modulo 2^(16n). */
  lemma {:induction false} HalvesRoundTrip(imm: nat, n: nat)
    ensures FromHalves(Halves(imm, n)) == imm % Pow2(16 * n)
    decreases n
  {
    if n == 0 {
      assert Pow2(0) == 1;
    } else {
      var rest := imm / TWO16;
      HalvesRoundTrip(rest, n - 1);
      Pow2Add(16, 16 * (n - 1));
      Pow2Values();
      assert Pow2(16 * n) == TWO16 * Pow2(16 * (n - 1));
      ModSplit(imm, TWO16, Pow2(16 * (n - 1)));
      forall i | 0 <= i < n - 1
        ensures Halves(imm, n)[1..][i] == Halves(rest, n - 1)[i]
      {
        Pow2Add(16, 16 * i);
        ModSplit(imm, TWO16, Pow2(16 * i));
        assert 16 * (i + 1) == 16 + 16 * i;
      }
      assert Halves(imm, n)[1..] == Halves(rest, n - 1);
      assert Halves(imm, n)[0] == imm % TWO16;
    }
  }

  /** How many elements of s equal v. */
  function Count(s: seq<u16>, v: u16): (c: nat)
    ensures c <= |s|
  {
    if s == [] then 0 else (if s[0] == v then 1 else 0) + Count(s[1..], v)
  }

  lemma {:induction false} CountSnoc(s: seq<u16>, x: u16, v: u16)
    ensures Count(s + [x], v) == Count(s, v) + (if x == v then 1 else 0)
    decreases |s|
  {
    if s == [] {
      assert (s + [x])[1..] == [];
    } else {
      assert (s + [x])[1..] == s[1..] + [x];
      CountSnoc(s[1..], x, v);
    }
  }

  /** Every element equals v exactly when all of them are counted. */
  lemma {:induction false} CountAll(s: seq<u16>, v: u16)
    ensures Count(s, v) == |s| <==> forall j | 0 <= j < |s| :: s[j] == v
    decreases |s|
  {
    if s != [] {
      CountAll(s[1..], v);
      assert forall j | 1 <= j < |s| :: s[j] == s[1..][j - 1];
    }
  }

  /** The halfword value that needs no move: 0 under MOVZ, 0xFFFF under MOVN. */
  function Background(movz: bool): u16 {
    if movz then 0 else 0xFFFF
  }

  /** The move that starts the value: MOVZ of the halfword, or MOVN of its complement. */
  function Opening(movz: bool, hw: u16, i: nat): WideMove {
    if movz then Movz(hw, i) else Movn(0xFFFF - hw, i)
  }

  /**
    The moves of `MOVimm`'s halfword path, from halfword i on, given
    whether a first move was made: each halfword other than the background
    gets one move (the first an opening move, the rest MOVK); when every
    halfword is background a single opening move is made.
  */
  function MovWideCode(hs: seq<u16>, movz: bool, i: nat, first: bool): (moves: seq<WideMove>)
    requires i <= |hs|
    ensures FitsRegister(moves, |hs|)
    decreases |hs| - i
  {
    if i == |hs| then []
    else if hs[i] != Background(movz) then
      [if first then Movk(hs[i], i) else Opening(movz, hs[i], i)] + MovWideCode(hs, movz, i + 1, true)
    else if Count(hs, Background(movz)) == |hs| then [Opening(movz, hs[i], i)]
    else MovWideCode(hs, movz, i + 1, first)
  }

  lemma {:induction false} RunWideCons(m: WideMove, rest: seq<WideMove>, reg: seq<u16>)
    requires m.index < |reg| && FitsRegister(rest, |reg|)
    ensures FitsRegister([m] + rest, |reg|)
    ensures RunWide([m] + rest, reg) == RunWide(rest, StepWide(m, reg))
  {
    assert ([m] + rest)[1..] == rest;
  }

  /**
    The moves from halfword i on complete the value, whatever the register
    held before: halfwords below i are in place once a first move was
    made, and the ones above are still background.
  */
  lemma {:induction false} MovWideEffect(hs: seq<u16>, movz: bool, i: nat, first: bool, reg: seq<u16>)
    requires i <= |hs| == |reg|
    requires first ==> Count(hs, Background(movz)) != |hs|
    requires first ==> (forall j | 0 <= j < i :: reg[j] == hs[j]) && (forall j | i <= j < |hs| :: reg[j] == Background(movz))
    requires !first ==> i < |hs| && forall j | 0 <= j < i :: hs[j] == Background(movz)
    ensures RunWide(MovWideCode(hs, movz, i, first), reg) == hs
    decreases |hs| - i
  {
    var bg := Background(movz);
    CountAll(hs, bg);
    if i == |hs| {
      assert reg == hs;
    } else if hs[i] != bg {
      var m := if first then Movk(hs[i], i) else Opening(movz, hs[i], i);
      var next := StepWide(m, reg);
      WideMoveInPlace(hs, movz, i, first, reg, m);
      MovWideEffect(hs, movz, i + 1, true, next);
      RunWideCons(m, MovWideCode(hs, movz, i + 1, true), reg);
      assert MovWideCode(hs, movz, i, first) == [m] + MovWideCode(hs, movz, i + 1, true);
    } else if Count(hs, bg) == |hs| {
      var m := Opening(movz, hs[i], i);
      OpeningAll(hs, movz, i, reg);
      RunWideCons(m, [], reg);
      assert MovWideCode(hs, movz, i, first) == [m] + [];
    } else {
      if !first {
        var j :| 0 <= j < |hs| && hs[j] != bg;
        assert j > i;
      }
      MovWideEffect(hs, movz, i + 1, first, reg);
      assert MovWideCode(hs, movz, i, first) == MovWideCode(hs, movz, i + 1, first);
    }
  }

  /** The move for a halfword other than the background puts it in place and keeps the rest as required. */
  lemma {:induction false} WideMoveInPlace(hs: seq<u16>, movz: bool, i: nat, first: bool, reg: seq<u16>, m: WideMove)
    requires i < |hs| == |reg| && hs[i] != Background(movz)
    requires m == if first then Movk(hs[i], i) else Opening(movz, hs[i], i)
    requires first ==> (forall j | 0 <= j < i :: reg[j] == hs[j]) && (forall j | i <= j < |hs| :: reg[j] == Background(movz))
    requires !first ==> forall j | 0 <= j < i :: hs[j] == Background(movz)
    ensures var next := StepWide(m, reg);
      && (forall j | 0 <= j <= i :: next[j] == hs[j])
      && (forall j | i + 1 <= j < |hs| :: next[j] == Background(movz))
  {
  }

  /** When every halfword is background, the opening move alone writes the whole value. */
  lemma {:induction false} OpeningAll(hs: seq<u16>, movz: bool, i: nat, reg: seq<u16>)
    requires i < |hs| == |reg| && forall j | 0 <= j < |hs| :: hs[j] == Background(movz)
    ensures StepWide(Opening(movz, hs[i], i), reg) == hs
  {
  }

  /**
    One move per halfword other than the background, or a single move when
    every halfword is background.
  */
  lemma {:induction false} MovWideLength(hs: seq<u16>, movz: bool, i: nat, first: bool)
    requires i <= |hs|
    requires first ==> Count(hs, Background(movz)) != |hs|
    ensures |MovWideCode(hs, movz, i, first)|
            == if !first && i < |hs| && Count(hs, Background(movz)) == |hs| then 1
               else |hs| - i - Count(hs[i..], Background(movz))
    decreases |hs| - i
  {
    var bg := Background(movz);
    CountAll(hs, bg);
    if i < |hs| {
      assert hs[i..][1..] == hs[i + 1..];
      if hs[i] != bg {
        MovWideLength(hs, movz, i + 1, true);
      } else if Count(hs, bg) != |hs| {
        MovWideLength(hs, movz, i + 1, first);
      }
    }
  }

  /** `MOVimm`'s choice: MOVZ when zero halfwords are at least as many as 0xFFFF ones. */
  function UseMovz(imm: u64, n: nat): bool {
    Count(Halves(imm, n), 0) >= Count(Halves(imm, n), 0xFFFF)
  }

  /** The halfword count of an X or W register. */
  function HalfwordsIn(is64: bool): nat {
    if is64 then 4 else 2
  }

  /**
    `MOVimm`'s wide moves load the value modulo the register width, in one
    move per halfword other than the background, or one move in all.
  */
  lemma {:induction false} MovWideLoads(imm: u64, is64: bool, reg: seq<u16>)
    requires |reg| == HalfwordsIn(is64)
    ensures var n := HalfwordsIn(is64);
            var moves := MovWideCode(Halves(imm, n), UseMovz(imm, n), 0, false);
            && FromHalves(RunWide(moves, reg)) == WrapWidth(imm, is64)
            && |moves| == (var bgs := Count(Halves(imm, n), Background(UseMovz(imm, n)));
                           if bgs == n then 1 else n - bgs)
  {
    var n := HalfwordsIn(is64);
    var hs := Halves(imm, n);
    var movz := UseMovz(imm, n);
    MovWideEffect(hs, movz, 0, false, reg);
    MovWideLength(hs, movz, 0, false);
    assert hs[0..] == hs;
    HalvesWidth(imm, is64);
  }

  /** The halfwords of a register's width put back together are the value modulo that width. */
  lemma {:induction false} HalvesWidth(imm: u64, is64: bool)
    ensures FromHalves(Halves(imm, HalfwordsIn(is64))) == WrapWidth(imm, is64)
  {
    HalvesRoundTrip(imm, HalfwordsIn(is64));
    Pow2Values();
    Pow2Add(16, 16);
    if is64 {
      Pow2Add(32, 32);
    }
  }

  /** `MOVimm`'s first loop: the zero and 0xFFFF halfwords of the value. */
  method CountHalfwords(imm: u64, n: nat) returns (zeros: nat, ones: nat)
    ensures zeros == Count(Halves(imm, n), 0) && ones == Count(Halves(imm, n), 0xFFFF)
  {
    zeros, ones := 0, 0;
    var i := 0;
    while i < n
      invariant 0 <= i <= n
      invariant zeros == Count(Halves(imm, n)[..i], 0) && ones == Count(Halves(imm, n)[..i], 0xFFFF)
    {
      var halfword := (imm / Pow2(16 * i)) % TWO16;
      assert Halves(imm, n)[..i + 1] == Halves(imm, n)[..i] + [halfword];
      CountSnoc(Halves(imm, n)[..i], halfword, 0);
      CountSnoc(Halves(imm, n)[..i], halfword, 0xFFFF);
      if halfword == 0 {
        zeros := zeros + 1;
      } else if halfword == 0xFFFF {
        ones := ones + 1;
      }
      i := i + 1;
    }
    assert Halves(imm, n)[..n] == Halves(imm, n);
  }

  /** `MOVimm`'s second loop: one move per halfword, stopping after an all-background value's single move. */
  method WideMoves(imm: u64, n: nat, movz: bool, numBackground: nat) returns (moves: seq<WideMove>)
    requires numBackground == Count(Halves(imm, n), Background(movz))
    ensures moves == MovWideCode(Halves(imm, n), movz, 0, false)
  {
    ghost var hs := Halves(imm, n);
    ghost var total := MovWideCode(hs, movz, 0, false);
    moves := [];
    var firstHalfwordIsSet := false;
    var i := 0;
    while i < n
      invariant 0 <= i <= n
      invariant moves + MovWideCode(hs, movz, i, firstHalfwordIsSet) == total
    {
      var halfword: u16 := (imm / Pow2(16 * i)) % TWO16;
      assert halfword == hs[i];
      if movz {
        if halfword != 0 {
          if !firstHalfwordIsSet {
            WideMoveStep(hs, movz, i, firstHalfwordIsSet, Movz(halfword, i), moves, total);
            moves := moves + [Movz(halfword, i)];
            firstHalfwordIsSet := true;
          } else {
            WideMoveStep(hs, movz, i, firstHalfwordIsSet, Movk(halfword, i), moves, total);
            moves := moves + [Movk(halfword, i)];
          }
        } else if numBackground == n {
          WideLast(hs, movz, i, firstHalfwordIsSet, moves, total);
          moves := moves + [Movz(halfword, i)];
          break;
        } else {
          WideSkip(hs, movz, i, firstHalfwordIsSet, moves, total);
        }
      } else {
        if halfword != 0xFFFF {
          if !firstHalfwordIsSet {
            WideMoveStep(hs, movz, i, firstHalfwordIsSet, Movn(0xFFFF - halfword, i), moves, total);
            moves := moves + [Movn(0xFFFF - halfword, i)];
            firstHalfwordIsSet := true;
          } else {
            WideMoveStep(hs, movz, i, firstHalfwordIsSet, Movk(halfword, i), moves, total);
            moves := moves + [Movk(halfword, i)];
          }
        } else if numBackground == n {
          WideLast(hs, movz, i, firstHalfwordIsSet, moves, total);
          moves := moves + [Movn(0xFFFF - halfword, i)];
          break;
        } else {
          WideSkip(hs, movz, i, firstHalfwordIsSet, moves, total);
        }
      }
      i := i + 1;
    }
  }

  /** A halfword other than the background: its move `m`, then the rest. */
  lemma {:induction false} WideMoveStep(hs: seq<u16>, movz: bool, i: nat, first: bool, m: WideMove,
                                        done: seq<WideMove>, total: seq<WideMove>)
    requires i < |hs| && done + MovWideCode(hs, movz, i, first) == total && hs[i] != Background(movz)
    requires m == if first then Movk(hs[i], i) else Opening(movz, hs[i], i)
    ensures (done + [m]) + MovWideCode(hs, movz, i + 1, true) == total
  {
    assert MovWideCode(hs, movz, i, first) == [m] + MovWideCode(hs, movz, i + 1, true);
    ShiftOne(done, m, MovWideCode(hs, movz, i + 1, true), total);
  }

  /** Moving the next element from the rest to the part already done. */
  lemma ShiftOne(done: seq<WideMove>, m: WideMove, rest: seq<WideMove>, total: seq<WideMove>)
    requires done + ([m] + rest) == total
    ensures (done + [m]) + rest == total
  {
    assert (done + [m]) + rest == done + ([m] + rest);
  }

  /** A background halfword of a value that is not all background: no move. */
  lemma {:induction false} WideSkip(hs: seq<u16>, movz: bool, i: nat, first: bool, done: seq<WideMove>,
                                    total: seq<WideMove>)
    requires i < |hs| && done + MovWideCode(hs, movz, i, first) == total
    requires hs[i] == Background(movz) && Count(hs, Background(movz)) != |hs|
    ensures done + MovWideCode(hs, movz, i + 1, first) == total
  {
  }

  /** When every halfword is background, the first one's opening move is the whole code. */
  lemma {:induction false} WideLast(hs: seq<u16>, movz: bool, i: nat, first: bool, done: seq<WideMove>,
                                    total: seq<WideMove>)
    requires i < |hs| && done + MovWideCode(hs, movz, i, first) == total
    requires hs[i] == Background(movz) && Count(hs, Background(movz)) == |hs|
    ensures done + [Opening(movz, hs[i], i)] == total
  {
  }


  // ---------------------------------------------------------------------
  // Instructions and their effect on the registers
  // ---------------------------------------------------------------------

  /**
    The instructions the modelled operations emit. `AddImm`/`SubImm` carry
    the value added, a 12-bit immediate optionally shifted left by 12.
  */
  datatype Instr =
    | AddImm(dst: u32, src: u32, imm: nat, is64: bool)
    | SubImm(dst: u32, src: u32, imm: nat, is64: bool)
    | Wide(reg: u32, move: WideMove, is64: bool)
    | MovBitmask(reg: u32, encoding: u32, is64: bool)
    | FmovFromZero(reg: u32, is64: bool)
    | FmovImm8(reg: u32, imm8: u8, is64: bool)
    | ProbeLoad(base: u32)
    | SubsImm(dst: u32, src: u32, imm: nat)
    | BranchGt(target: nat)

  /** A register file: one 64-bit value per register number. */
  predicate IsRegFile(regs: seq<u64>) {
    |regs| == NUMREGS as int
  }

  /** Whether every register an instruction names is in the file. */
  predicate Addresses(i: Instr) {
    match i
      case AddImm(dst, src, _, _) => dst < NUMREGS && src < NUMREGS
      case SubImm(dst, src, _, _) => dst < NUMREGS && src < NUMREGS
      case _ => false
  }

  /** ADD and SUB with an immediate, at the width the instruction names. */
  function Step(i: Instr, regs: seq<u64>): (r: seq<u64>)
    requires IsRegFile(regs) && Addresses(i)
    ensures IsRegFile(r)
  {
    match i
      case AddImm(dst, src, imm, is64) => regs[dst := WrapWidth(regs[src] + imm, is64)]
      case SubImm(dst, src, imm, is64) => regs[dst := WrapWidth(regs[src] - imm, is64)]
  }

  predicate AllAddress(code: seq<Instr>) {
    forall k | 0 <= k < |code| :: Addresses(code[k])
  }

  function Run(code: seq<Instr>, regs: seq<u64>): (r: seq<u64>)
    requires IsRegFile(regs) && AllAddress(code)
    ensures IsRegFile(r)
  {
    if code == [] then regs else Run(code[1..], Step(code[0], regs))
  }

  /**
    The `imm12zxols12` operand form: a 12-bit unsigned value, optionally
    shifted left by 12 (`v <= 0xFFF`, or low 12 bits clear and `v >> 12 <= 0xFFF`).
  */
  predicate FitsImm12Shifted(v: nat) {
    v <= 0xFFF || (v % 0x1000 == 0 && v / 0x1000 <= 0xFFF)
  }

  /** The field and the shift flag a fitting value is encoded with: the plain form first. */
  function Imm12Field(v: nat): (r: (nat, bool))
    requires FitsImm12Shifted(v)
    ensures r.0 <= 0xFFF && v == (if r.1 then r.0 * 0x1000 else r.0)
    ensures r.1 <==> v > 0xFFF
  {
    if v <= 0xFFF then (v, false) else (v / 0x1000, true)
  }

  /**
    `addImm24ToReg`: a non-zero delta becomes an ADD (or, when negative, a
    SUB) of its low 12 bits and one of bits 12-23, each only when non-zero;
    the second reads the destination when the first was emitted.
  */
  function AddImm24Code(dst: u32, src: u32, delta: int, is64: bool): (code: seq<Instr>)
    requires -0xFF_FFFF <= delta <= 0xFF_FFFF
    ensures |code| <= 2 && (code == [] <==> delta == 0)
    ensures forall k | 0 <= k < |code| :: (code[k].AddImm? || code[k].SubImm?) && FitsImm12Shifted(code[k].imm)
  {
    var absDelta := if delta < 0 then -delta else delta;
    var low := absDelta % 0x1000;
    var high := absDelta - low;
    var second := if low != 0 then dst else src;
    if delta == 0 then []
    else
      (if low != 0 then [SignedAdd(dst, src, low, delta < 0, is64)] else [])
      + (if high != 0 then [SignedAdd(dst, second, high, delta < 0, is64)] else [])
  }

  /** An ADD of the amount, or a SUB when the delta is negative. */
  function SignedAdd(dst: u32, src: u32, amount: nat, negative: bool, is64: bool): (i: Instr)
    ensures (i.AddImm? || i.SubImm?) && i.imm == amount
  {
    if negative then SubImm(dst, src, amount, is64) else AddImm(dst, src, amount, is64)
  }

  /** Two additions to the destination, the second reading the first's result, add their sum. */
  lemma {:induction false} AddTwice(regs: seq<u64>, dst: u32, src: u32, x: int, y: int, is64: bool)
    requires dst < NUMREGS && src < NUMREGS && IsRegFile(regs)
    ensures var mid := regs[dst := WrapWidth(regs[src] + x, is64)];
            mid[dst := WrapWidth(mid[dst] + y, is64)] == regs[dst := WrapWidth(regs[src] + (x + y), is64)]
  {
    var v1 := WrapWidth(regs[src] + x, is64);
    var mid := regs[dst := v1];
    assert mid[dst] == v1;
    WrapWidthAdd(regs[src] + x, y, is64);
    var v2 := WrapWidth(v1 + y, is64);
    assert v2 == WrapWidth(regs[src] + (x + y), is64);
    assert mid[dst := v2] == regs[dst := v2];
  }

  /** Running one ADD or SUB adds the signed amount to the source and writes the destination. */
  lemma {:induction false} StepSigned(dst: u32, src: u32, amount: nat, negative: bool, is64: bool, regs: seq<u64>)
    requires dst < NUMREGS && src < NUMREGS && IsRegFile(regs)
    ensures Addresses(SignedAdd(dst, src, amount, negative, is64))
    ensures Step(SignedAdd(dst, src, amount, negative, is64), regs)
              == regs[dst := WrapWidth(regs[src] + (if negative then -(amount as int) else amount as int), is64)]
  {
  }

  lemma {:induction false} RunPair(a: Instr, b: Instr, regs: seq<u64>)
    requires IsRegFile(regs) && Addresses(a) && Addresses(b)
    ensures Run([a, b], regs) == Step(b, Step(a, regs))
  {
    assert [a, b][1..] == [b];
    RunSingle(b, Step(a, regs));
  }

  lemma {:induction false} RunSingle(a: Instr, regs: seq<u64>)
    requires IsRegFile(regs) && Addresses(a)
    ensures Run([a], regs) == Step(a, regs)
  {
    assert [a][1..] == [];
  }

  /** An add of the low part into the destination, then of the high part onto it, adds both. */
  lemma {:induction false} AddPairEffect(dst: u32, src: u32, low: nat, high: nat, negative: bool, is64: bool,
                                         regs: seq<u64>, sl: int, sh: int)
    requires dst < NUMREGS && src < NUMREGS && IsRegFile(regs)
    requires sl == (if negative then -(low as int) else low as int)
    requires sh == (if negative then -(high as int) else high as int)
    ensures Addresses(SignedAdd(dst, src, low, negative, is64)) && Addresses(SignedAdd(dst, dst, high, negative, is64))
    ensures Run([SignedAdd(dst, src, low, negative, is64), SignedAdd(dst, dst, high, negative, is64)], regs)
            == regs[dst := WrapWidth(regs[src] + (sl + sh), is64)]
  {
    var a := SignedAdd(dst, src, low, negative, is64);
    var b := SignedAdd(dst, dst, high, negative, is64);
    StepSigned(dst, src, low, negative, is64, regs);
    var mid := regs[dst := WrapWidth(regs[src] + sl, is64)];
    StepSigned(dst, dst, high, negative, is64, mid);
    RunPair(a, b, regs);
    AddTwice(regs, dst, src, sl, sh, is64);
  }

  /** The code adds delta to the source register and writes the destination, at the chosen width. */
  lemma {:induction false} AddImm24Effect(dst: u32, src: u32, delta: int, is64: bool, regs: seq<u64>)
    requires -0xFF_FFFF <= delta <= 0xFF_FFFF && delta != 0
    requires dst < NUMREGS && src < NUMREGS && IsRegFile(regs)
    ensures AllAddress(AddImm24Code(dst, src, delta, is64))
    ensures Run(AddImm24Code(dst, src, delta, is64), regs) == regs[dst := WrapWidth(regs[src] + delta, is64)]
  {
    var code := AddImm24Code(dst, src, delta, is64);
    var negative := delta < 0;
    var absDelta := if negative then -delta else delta;
    var low := absDelta % 0x1000;
    var high := absDelta - low;
    var sl := if negative then -low else low;
    var sh := if negative then -high else high;
    assert delta == sl + sh;
    if low != 0 && high != 0 {
      assert code == [SignedAdd(dst, src, low, negative, is64), SignedAdd(dst, dst, high, negative, is64)];
      AddPairEffect(dst, src, low, high, negative, is64, regs, sl, sh);
    } else if low != 0 {
      var a := SignedAdd(dst, src, low, negative, is64);
      assert code == [a];
      StepSigned(dst, src, low, negative, is64, regs);
      RunSingle(a, regs);
    } else {
      var b := SignedAdd(dst, src, high, negative, is64);
      assert code == [b];
      StepSigned(dst, src, high, negative, is64, regs);
      RunSingle(b, regs);
    }
  }

  // ---------------------------------------------------------------------
  // Operand forms
  // ---------------------------------------------------------------------

  /** `ArgType`: the machine type in the top three bits, the form below. */
  type ArgType = u8

  const ARG_NONE: ArgType := 0x00
  const ARG_I32: ArgType := 0x20
  const R32: ArgType := 0x21
  const IMM12ZXOLS12_32: ArgType := 0x22
  const IMM12BITMASK_32: ArgType := 0x23
  const IMM6L_32: ArgType := 0x24
  const IMM6R_32: ArgType := 0x25
  const ARG_I64: ArgType := 0x40
  const R64: ArgType := 0x41
  const IMM12ZXOLS12_64: ArgType := 0x42
  const IMM13BITMASK_64: ArgType := 0x43
  const IMM6L_64: ArgType := 0x44
  const IMM6R_64: ArgType := 0x45
  const ARG_F32: ArgType := 0x80
  const R32F: ArgType := 0x81
  const ARG_F64: ArgType := 0x60
  const R64F: ArgType := 0x61
  const TYPEMASK: ArgType := 0xE0

  /** `getMachineTypeFromArgType`: the bits under TYPEMASK name the machine type. */
  function GetMachineTypeFromArgType(argType: ArgType): (r: MachineType)
    ensures r == I32 <==> 0x20 <= argType < 0x40
    ensures r == I64 <==> 0x40 <= argType < 0x60
    ensures r == F64 <==> 0x60 <= argType < 0x80
    ensures r == F32 <==> 0x80 <= argType < 0xA0
    ensures r == INVALID <==> argType < 0x20 || argType >= 0xA0
  {
    // `argType & TYPEMASK`: TYPEMASK is the top three bits of the byte
    var t := argType - argType % (0x100 - TYPEMASK) as int;
    if t == ARG_I32 then I32
    else if t == ARG_I64 then I64
    else if t == ARG_F32 then F32
    else if t == ARG_F64 then F64
    else INVALID
  }

  /**
    `elementFitsArgType`: whether a storage can stand as an operand of the
    given form without a move. `logicalImmediate` is whether the constant
    is a bitmask immediate, which the instruction encoder decides.
  */
  predicate ElementFitsArgType(argType: ArgType, storage: VariableStorage, logicalImmediate: bool) {
    if argType == ARG_NONE then true
    else match storage.location
      case Invalid => false
      case Constant(bits) =>
        if storage.machineType == I32 then
          || argType == IMM6L_32 || argType == IMM6R_32
          || (argType == IMM12ZXOLS12_32 && FitsImm12Shifted(ConstU32(bits)))
          || (argType == IMM12BITMASK_32 && logicalImmediate)
        else if storage.machineType == I64 then
          || argType == IMM6L_64 || argType == IMM6R_64
          || (argType == IMM12ZXOLS12_64 && FitsImm12Shifted(bits))
          || (argType == IMM13BITMASK_64 && logicalImmediate)
        else false
      case Register(_) =>
        || (IsInteger(storage.machineType) && (argType == R32 || argType == R64))
        || (storage.machineType == F32 && argType == R32F)
        || (storage.machineType == F64 && argType == R64F)
      case _ => false
  }

  /**
    A fitting operand agrees with its form: a register with a register
    form of its class, a constant with an immediate form of its own width,
    and anything at all with NONE; memory never fits.
  */
  lemma {:induction false} FitsArgTypeClass(argType: ArgType, storage: VariableStorage, logicalImmediate: bool)
    requires argType != ARG_NONE && ElementFitsArgType(argType, storage, logicalImmediate)
    ensures storage.location.Register? ==>
              (argType in {R32, R64} && IsInteger(storage.machineType)) || (argType == R32F && storage.machineType == F32)
              || (argType == R64F && storage.machineType == F64)
    ensures storage.location.Constant? ==> GetMachineTypeFromArgType(argType) == storage.machineType
    ensures storage.location.Register? || storage.location.Constant?
  {
  }

  // ---------------------------------------------------------------------
  // FMOV with an 8-bit float immediate
  // ---------------------------------------------------------------------

  /** 2^F, 2^E and 2^(F-4) for the fraction width F and exponent width E of an f32 or f64. */
  function FracOne(is64: bool): nat { if is64 then 0x10_0000_0000_0000 else 0x80_0000 }
  function ExpOne(is64: bool): nat { if is64 then 0x800 else 0x100 }
  function MantUnit(is64: bool): nat { if is64 then 0x1_0000_0000_0000 else 0x8_0000 }

  /** The outcome of `FMOVimm`: zero moves from the zero register, others need an 8-bit immediate. */
  datatype FmovForm = FromZero | Imm8(imm8: u8) | NotEncodable

  /**
    `FMOVimm`: zero is always encodable; otherwise the exponent's top bit
    must differ from the next E-3 bits, which must all be equal, and only
    the top four fraction bits may be set. The immediate is the sign, the
    low three exponent bits and the top four fraction bits.
  */
  function FmovImmediate(is64: bool, rawFloatImm: u64): (r: FmovForm)
    requires is64 || rawFloatImm < TWO32
  {
    if rawFloatImm == 0 then FromZero
    else EncodeFields(rawFloatImm, FracOne(is64), ExpOne(is64), MantUnit(is64))
  }

  /** `FMOVimm` for a non-zero value, with 2^F, 2^E and 2^(F-4) given. */
  function EncodeFields(raw: nat, f: nat, e: nat, u: nat): FmovForm
    requires f > 0 && e >= 16 && u > 0
  {
    var rawExponent := (raw / f) % e;
    var rawMantissa := raw % f;
    var rawEncodedExponent := rawExponent / 4;
    var top := e / 8;
    if rawEncodedExponent != top && rawEncodedExponent != top - 1 then NotEncodable
    else if rawMantissa % u != 0 then NotEncodable
    else
      var sign := (raw / (f * e)) % 2;
      var imm8 := sign * 128 + (rawExponent % 8) * 16 + (raw / u) % 16;
      Imm8(imm8)
  }

  /**
    VFPExpandImm of the Arm Architecture Reference Manual: sign from bit 7,
    exponent NOT(b6), b6 repeated E-3 times, b5 b4, fraction b3..b0
    followed by zeros.
  */
  function VfpExpandImm(is64: bool, imm8: u8): (r: u64)
  {
    FloatWidths(is64);
    ExpandFields(imm8, FracOne(is64), ExpOne(is64), MantUnit(is64))
  }

  function ExpandFields(imm8: u8, f: nat, e: nat, u: nat): int
    requires e >= 16
  {
    var sign := imm8 / 128;
    var b6 := (imm8 / 64) % 2;
    var b54 := (imm8 / 16) % 4;
    var exponent := if b6 == 0 then e / 2 + b54 else e / 2 - 4 + b54;
    sign * (f * e) + exponent * f + (imm8 % 16) * u
  }

  /** The widths an f32 and an f64 share: 2^F = 16 * 2^(F-4), and a sign bit above the exponent. */
  lemma {:induction false} FloatWidths(is64: bool)
    ensures FracOne(is64) == 16 * MantUnit(is64) && MantUnit(is64) > 0
    ensures ExpOne(is64) == 0x800 || ExpOne(is64) == 0x100
    ensures FracOne(is64) * ExpOne(is64) == (if is64 then 0x8000_0000_0000_0000 else 0x8000_0000)
    ensures ExpandFields(255, FracOne(is64), ExpOne(is64), MantUnit(is64)) < (if is64 then TWO64 else TWO32)
  {
  }

  /** A value built from a sign, an exponent and a fraction reads back as those parts. */
  lemma {:induction false} FloatFields(raw: nat, f: nat, e: nat, fe: nat, sign: nat, exponent: nat, fraction: nat)
    requires f > 0 && e > 0 && fe == f * e
    requires sign < 2 && exponent < e && fraction < f
    requires raw == sign * fe + exponent * f + fraction
    ensures raw % f == fraction && raw / f == sign * e + exponent
    ensures (raw / f) % e == exponent
    ensures (raw / fe) % 2 == sign
  {
    var q := sign * e + exponent;
    assert raw == f * q + fraction by {
      assert sign * fe == f * (sign * e);
      assert exponent * f == f * exponent;
      assert f * q == f * (sign * e) + f * exponent;
    }
    DivModUnique(raw, f, q, fraction);
    DivModUnique(q, e, sign, exponent);
    FloatSign(raw, f, e, fe, sign, exponent, fraction);
  }

  lemma {:induction false} FloatSign(raw: nat, f: nat, e: nat, fe: nat, sign: nat, exponent: nat, fraction: nat)
    requires f > 0 && e > 0 && fe == f * e
    requires sign < 2 && exponent < e && fraction < f
    requires raw == sign * fe + exponent * f + fraction
    ensures (raw / fe) % 2 == sign
  {
    var low := exponent * f + fraction;
    assert low < fe by {
      MulMono(f, exponent, e - 1);
      assert f * (e - 1) == fe - f;
      assert exponent * f == f * exponent;
    }
    assert raw == fe * sign + low;
    DivModUnique(raw, fe, sign, low);
    DivModUnique(sign, 2, 0, sign);
  }

  /** The four bits above the low F-4 bits of a value whose low F-4 bits are clear. */
  lemma {:induction false} TopFour(raw: nat, u: nat, q: nat, top4: nat)
    requires u > 0 && top4 < 16 && raw == u * (16 * q + top4)
    ensures (raw / u) % 16 == top4
  {
    DivModUnique(raw, u, 16 * q + top4, 0);
    DivModUnique(16 * q + top4, 16, q, top4);
  }

  lemma {:induction false} QuotientBelow(x: nat, d: nat, k: nat)
    requires d > 0 && x < d * k
    ensures x / d < k
  {
    if x / d >= k {
      MulMono(d, k, x / d);
    }
  }

  /** The fields of an 8-bit immediate built from a sign, three exponent bits and four fraction bits. */
  lemma {:induction false} ImmediateFields(imm8: nat, sign: nat, exp3: nat, top4: nat)
    requires sign < 2 && exp3 < 8 && top4 < 16 && imm8 == sign * 128 + exp3 * 16 + top4
    ensures imm8 / 128 == sign && imm8 % 16 == top4 && (imm8 / 16) % 4 == exp3 % 4 && (imm8 / 64) % 2 == exp3 / 4
  {
  }

  /** An encodable exponent is E/2 plus its low two bits, or E/2 - 4 plus them, as bit 2 says. */
  lemma {:induction false} ExponentCases(exponent: nat, e: nat, exp3: nat)
    requires e == 0x800 || e == 0x100
    requires exponent / 4 == e / 8 || exponent / 4 == e / 8 - 1
    requires exp3 == exponent % 8
    ensures exponent == (if exp3 / 4 == 0 then e / 2 + exp3 % 4 else e / 2 - 4 + exp3 % 4)
  {
  }

  lemma {:induction false} ScaleBy16(u: nat, q: nat)
    ensures (16 * u) * q == u * (16 * q)
  {
  }

  /** Any value below 2^(1+E+F) splits into a sign, an exponent and a fraction. */
  lemma {:induction false} SplitFloat(raw: nat, f: nat, e: nat) returns (sign: nat, exponent: nat, fraction: nat)
    requires f > 0 && e > 0 && raw < 2 * (f * e)
    ensures sign < 2 && exponent < e && fraction < f
    ensures raw == sign * (f * e) + exponent * f + fraction
  {
    var fe := f * e;
    MulMono(f, 1, e);
    DivModParts(raw, fe);
    DivModParts(raw % fe, f);
    sign := raw / fe;
    var rem := raw % fe;
    exponent := rem / f;
    fraction := rem % f;
    QuotientBelow(raw, fe, 2);
    QuotientBelow(rem, f, e);
  }

  /** A fraction with only its top four bits set: those bits, read from the whole value. */
  lemma {:induction false} FractionTop(raw: nat, f: nat, e: nat, u: nat, sign: nat, exponent: nat, fraction: nat)
    returns (top4: nat)
    requires u > 0 && f == 16 * u && fraction < f && fraction % u == 0
    requires raw == sign * (f * e) + exponent * f + fraction
    ensures top4 < 16 && fraction == top4 * u && (raw / u) % 16 == top4
  {
    top4 := fraction / u;
    DivModParts(fraction, u);
    QuotientBelow(fraction, u, 16);
    var q := sign * e + exponent;
    assert raw == u * (16 * q + top4) by {
      assert sign * (f * e) + exponent * f == f * q;
      ScaleBy16(u, q);
    }
    TopFour(raw, u, q, top4);
  }

  lemma {:induction false} ExpandsBackFields(raw: nat, f: nat, e: nat, u: nat)
    requires u > 0 && f == 16 * u && (e == 0x800 || e == 0x100) && raw < 2 * (f * e)
    requires EncodeFields(raw, f, e, u).Imm8?
    ensures ExpandFields(EncodeFields(raw, f, e, u).imm8, f, e, u) == raw
  {
    var sign, exponent, fraction := SplitFloat(raw, f, e);
    FloatFields(raw, f, e, f * e, sign, exponent, fraction);
    var top4 := FractionTop(raw, f, e, u, sign, exponent, fraction);
    var imm8 := EncodeFields(raw, f, e, u).imm8;
    assert imm8 == sign * 128 + (exponent % 8) * 16 + top4;
    ExpandOf(imm8, f, e, u, sign, exponent, top4);
  }

  /** What the immediate of a sign, an encodable exponent and four fraction bits expands to. */
  lemma {:induction false} ExpandOf(imm8: u8, f: nat, e: nat, u: nat, sign: nat, exponent: nat, top4: nat)
    requires e == 0x800 || e == 0x100
    requires exponent / 4 == e / 8 || exponent / 4 == e / 8 - 1
    requires sign < 2 && top4 < 16 && imm8 == sign * 128 + (exponent % 8) * 16 + top4
    ensures ExpandFields(imm8, f, e, u) == sign * (f * e) + exponent * f + top4 * u
  {
    var exp3 := exponent % 8;
    ImmediateFields(imm8, sign, exp3, top4);
    ExponentCases(exponent, e, exp3);
    ExpandStep(imm8, f, e, u, sign, exponent, top4);
  }

  /** ExpandFields once the immediate's sign, exponent and fraction bits are named. */
  lemma {:induction false} ExpandStep(imm8: u8, f: nat, e: nat, u: nat, sign: nat, exponent: nat, top4: nat)
    requires e >= 16 && imm8 / 128 == sign && imm8 % 16 == top4
    requires exponent == (if (imm8 / 64) % 2 == 0 then e / 2 + (imm8 / 16) % 4 else e / 2 - 4 + (imm8 / 16) % 4)
    ensures ExpandFields(imm8, f, e, u) == sign * (f * e) + exponent * f + top4 * u
  {
  }

  /** An encodable value is what its immediate expands to. */
  lemma {:induction false} FmovExpandsBack(is64: bool, rawFloatImm: u64)
    requires is64 || rawFloatImm < TWO32
    requires FmovImmediate(is64, rawFloatImm).Imm8?
    ensures VfpExpandImm(is64, FmovImmediate(is64, rawFloatImm).imm8) == rawFloatImm
  {
    FloatWidths(is64);
    ExpandsBackFields(rawFloatImm, FracOne(is64), ExpOne(is64), MantUnit(is64));
  }

  /** The exponent an immediate expands to: its low three bits are b6 b5 b4, the rest an encodable top. */
  lemma {:induction false} ExpandedExponent(exponent: nat, e: nat, b6: nat, b54: nat)
    requires e == 0x800 || e == 0x100
    requires b6 < 2 && b54 < 4 && exponent == (if b6 == 0 then e / 2 + b54 else e / 2 - 4 + b54)
    ensures exponent / 4 == e / 8 || exponent / 4 == e / 8 - 1
    ensures exponent % 8 == b6 * 4 + b54 && 0 < exponent < e
  {
  }

  lemma {:induction false} EncodesExpansionFields(imm8: u8, f: nat, e: nat, u: nat)
    requires u > 0 && f == 16 * u && (e == 0x800 || e == 0x100)
    ensures ExpandFields(imm8, f, e, u) > 0
    ensures EncodeFields(ExpandFields(imm8, f, e, u), f, e, u) == Imm8(imm8)
  {
    var sign := imm8 / 128;
    var b6 := (imm8 / 64) % 2;
    var b54 := (imm8 / 16) % 4;
    var exponent := if b6 == 0 then e / 2 + b54 else e / 2 - 4 + b54;
    var top4 := imm8 % 16;
    ExpandedExponent(exponent, e, b6, b54);
    ImmediateParts(imm8);
    EncodeExpanded(ExpandFields(imm8, f, e, u), f, e, u, sign, exponent, top4);
  }

  /** A value made of a sign, an encodable exponent and four fraction bits is positive and encodes back to them. */
  lemma {:induction false} EncodeExpanded(raw: int, f: nat, e: nat, u: nat, sign: nat, exponent: nat, top4: nat)
    requires u > 0 && f == 16 * u && e >= 16 && sign < 2 && top4 < 16 && 0 < exponent < e
    requires exponent / 4 == e / 8 || exponent / 4 == e / 8 - 1
    requires raw == sign * (f * e) + exponent * f + top4 * u
    ensures raw > 0
    ensures EncodeFields(raw, f, e, u) == Imm8(sign * 128 + (exponent % 8) * 16 + top4)
  {
    var fraction := top4 * u;
    MulMono(u, top4, 15);
    MulMono(f, 1, exponent);
    MulMono(f, 1, e);
    assert raw >= exponent * f >= f > 0;
    FloatFields(raw, f, e, f * e, sign, exponent, fraction);
    DivModUnique(fraction, u, top4, 0);
    var top := FractionTop(raw, f, e, u, sign, exponent, fraction);
    DivModUnique(fraction, u, top, 0);
    EncodeOf(raw, f, e, u, sign, exponent, fraction, top4);
  }

  /** A byte is its sign bit, bit 6, bits 5-4 and its low four bits. */
  lemma {:induction false} ImmediateParts(imm8: u8)
    ensures imm8 == (imm8 / 128) * 128 + ((imm8 / 64) % 2) * 64 + ((imm8 / 16) % 4) * 16 + imm8 % 16
  {
  }

  /** `FMOVimm` of a value whose fields are known: an encodable exponent and a fraction of top bits only. */
  lemma {:induction false} EncodeOf(raw: nat, f: nat, e: nat, u: nat, sign: nat, exponent: nat, fraction: nat, top4: nat)
    requires f > 0 && e >= 16 && u > 0 && sign < 2 && top4 < 16
    requires (raw / f) % e == exponent && raw % f == fraction && fraction % u == 0
    requires (raw / (f * e)) % 2 == sign && (raw / u) % 16 == top4
    requires exponent / 4 == e / 8 || exponent / 4 == e / 8 - 1
    ensures EncodeFields(raw, f, e, u) == Imm8(sign * 128 + (exponent % 8) * 16 + top4)
  {
  }

  /** Every immediate is encodable, and the value it expands to gives it back. */
  lemma {:induction false} FmovEncodesExpansion(is64: bool, imm8: u8)
    ensures FmovImmediate(is64, VfpExpandImm(is64, imm8)) == Imm8(imm8)
  {
    FloatWidths(is64);
    EncodesExpansionFields(imm8, FracOne(is64), ExpOne(is64), MantUnit(is64));
  }

  // ---------------------------------------------------------------------
  // The assembler's emitting operations
  // ---------------------------------------------------------------------

  /** The largest frame `addImm24ToReg` can adjust SP for: 2^24 - 1. */
  const MAX_ALLOWED_STACK_FRAME_SIZE: u32 := 0xFF_FFFF

  /** The smallest page size on AArch64. */
  const OS_PAGE_SIZE: nat := 0x1000

  /** The halfword moves of a run of wide-move instructions. */
  function MovesOf(code: seq<Instr>): (moves: seq<WideMove>)
    requires forall k | 0 <= k < |code| :: code[k].Wide?
    ensures |moves| == |code| && forall k | 0 <= k < |code| :: moves[k] == code[k].move
  {
    seq(|code|, k requires 0 <= k < |code| => code[k].move)
  }

  /**
    `MOVimm`'s choice of a bitmask move: fewer than n-1 background halfwords
    of either kind, and an encoding the bitmask encoder accepted.
  */
  predicate BitmaskChosen(is64: bool, imm: u64, logical: D.Option<u32>) {
    var n := HalfwordsIn(is64);
    Count(Halves(imm, n), 0) < n - 1 && Count(Halves(imm, n), 0xFFFF) < n - 1 && logical.Some?
  }

  /**
    The code is halfword moves into reg that, whatever the register held,
    leave the value modulo the register width in it, in one move per
    halfword other than the background, or one move in all.
  */
  ghost predicate LoadsByHalfwords(code: seq<Instr>, reg: u32, is64: bool, imm: u64) {
    var n := HalfwordsIn(is64);
    && (forall k | 0 <= k < |code| :: code[k].Wide? && code[k].reg == reg && code[k].is64 == is64)
    && FitsRegister(MovesOf(code), n)
    && (forall before: seq<u16> | |before| == n :: FromHalves(RunWide(MovesOf(code), before)) == WrapWidth(imm, is64))
    && |code| == (var bgs := Count(Halves(imm, n), Background(UseMovz(imm, n))); if bgs == n then 1 else n - bgs)
  }

  /**
    `MOVimm`: a bitmask move when the value has fewer than n-1 background
    halfwords of either kind and the encoder accepts it as a bitmask
    immediate (`logical` holds its encoding), otherwise the halfword moves.
    What the code loads is stated by `MovImmLoads`.
  */
  function MovImmCode(is64: bool, reg: u32, imm: u64, logical: D.Option<u32>): (code: seq<Instr>)
    ensures |code| >= 1
  {
    var n := HalfwordsIn(is64);
    var hs := Halves(imm, n);
    if Count(hs, 0) < n - 1 && Count(hs, 0xFFFF) < n - 1 && logical.Some? then
      [MovBitmask(reg, logical.value, is64)]
    else
      var moves := MovWideCode(hs, UseMovz(imm, n), 0, false);
      MovWideLoads(imm, is64, hs);
      seq(|moves|, k requires 0 <= k < |moves| => Wide(reg, moves[k], is64))
  }

  /**
    `MOVimm` emits one bitmask move when it chooses one, and otherwise
    halfword moves that load the value modulo the register width.
  */
  lemma {:induction false} MovImmLoads(is64: bool, reg: u32, imm: u64, logical: D.Option<u32>)
    ensures BitmaskChosen(is64, imm, logical) ==> MovImmCode(is64, reg, imm, logical) == [MovBitmask(reg, logical.value, is64)]
    ensures !BitmaskChosen(is64, imm, logical) ==> LoadsByHalfwords(MovImmCode(is64, reg, imm, logical), reg, is64, imm)
  {
    if !BitmaskChosen(is64, imm, logical) {
      var n := HalfwordsIn(is64);
      var moves := MovWideCode(Halves(imm, n), UseMovz(imm, n), 0, false);
      WideLoads(reg, is64, imm);
      assert MovImmCode(is64, reg, imm, logical) == WideCode(reg, moves, is64);
    }
  }

  /** Wide-move instructions for a register, one per halfword move. */
  function WideCode(reg: u32, moves: seq<WideMove>, is64: bool): (code: seq<Instr>)
    ensures |code| == |moves|
    ensures forall k | 0 <= k < |code| :: code[k].Wide? && code[k].reg == reg && code[k].is64 == is64
    ensures MovesOf(code) == moves
  {
    seq(|moves|, k requires 0 <= k < |moves| => Wide(reg, moves[k], is64))
  }

  /** The halfword moves `MOVimm` emits load the value. */
  lemma {:induction false} WideLoads(reg: u32, is64: bool, imm: u64)
    ensures var n := HalfwordsIn(is64);
            LoadsByHalfwords(WideCode(reg, MovWideCode(Halves(imm, n), UseMovz(imm, n), 0, false), is64), reg, is64, imm)
  {
    var n := HalfwordsIn(is64);
    var moves := MovWideCode(Halves(imm, n), UseMovz(imm, n), 0, false);
    var code := WideCode(reg, moves, is64);
    assert MovesOf(code) == moves;
    MovWideLoadsAll(imm, is64);
    MovWideLoads(imm, is64, Halves(imm, n));
    assert |code| == |moves|;
  }

  /** `MovWideLoads` for every register content at once. */
  lemma {:induction false} MovWideLoadsAll(imm: u64, is64: bool)
    ensures var n := HalfwordsIn(is64);
            forall before: seq<u16> | |before| == n ::
              FromHalves(RunWide(MovWideCode(Halves(imm, n), UseMovz(imm, n), 0, false), before)) == WrapWidth(imm, is64)
  {
    forall before: seq<u16> | |before| == HalfwordsIn(is64)
      ensures FromHalves(RunWide(MovWideCode(Halves(imm, HalfwordsIn(is64)), UseMovz(imm, HalfwordsIn(is64)), 0, false), before))
              == WrapWidth(imm, is64)
    {
      MovWideLoads(imm, is64, before);
    }
  }

  /**
    `probeStack` outside Windows: nothing below one page; otherwise SP is
    saved, the size loaded, and a loop steps SP down a page at a time,
    touching each page, until the size is used up; then SP is restored.
  */
  function ProbeStackCode(position: nat, delta: u32, scratchReg1: u32, scratchReg2: u32, logical: D.Option<u32>)
    : (code: seq<Instr>)
    ensures delta < OS_PAGE_SIZE <==> code == []
  {
    if delta < OS_PAGE_SIZE then []
    else ProbeWithLoad(position, MovImmCode(true, scratchReg2, delta, logical), scratchReg1, scratchReg2)
  }

  /** Saving SP, the given load of the size, and the loop after it. */
  function ProbeWithLoad(position: nat, load: seq<Instr>, scratchReg1: u32, scratchReg2: u32): (code: seq<Instr>)
    ensures |code| == |load| + 6 && code[0] == AddImm(scratchReg1, SP, 0, true)
  {
    [AddImm(scratchReg1, SP, 0, true)] + load + ProbeLoopCode(position + 1 + |load|, scratchReg1, scratchReg2)
  }

  /** The probe loop starting at loopStart, and the restore of SP after it. */
  function ProbeLoopCode(loopStart: nat, scratchReg1: u32, scratchReg2: u32): (code: seq<Instr>)
    ensures |code| == 5 && code[3] == BranchGt(loopStart)
  {
    [SubImm(SP, SP, OS_PAGE_SIZE, true), ProbeLoad(SP), SubsImm(scratchReg2, scratchReg2, OS_PAGE_SIZE),
     BranchGt(loopStart), AddImm(SP, scratchReg1, 0, true)]
  }

  /**
    The probe loop's branch goes back to the instruction that lowers SP by
    a page, and the code ends by restoring SP from the register its first
    instruction saved it in.
  */
  lemma {:induction false} ProbeStackShape(position: nat, delta: u32, scratchReg1: u32, scratchReg2: u32, logical: D.Option<u32>)
    requires delta >= OS_PAGE_SIZE
    ensures var code := ProbeStackCode(position, delta, scratchReg1, scratchReg2, logical);
            && code[0] == AddImm(scratchReg1, SP, 0, true)
            && code[|code| - 1] == AddImm(SP, scratchReg1, 0, true)
            && code[|code| - 2].BranchGt?
            && var target := code[|code| - 2].target;
               position <= target < position + |code| && code[target - position] == SubImm(SP, SP, OS_PAGE_SIZE, true)
  {
  }

  /** The emitted code of `probeStack` is the saving move, the load and the loop, in that order. */
  lemma {:induction false} ProbeStackParts(before: seq<Instr>, load: seq<Instr>, after: seq<Instr>,
                                           delta: u32, scratchReg1: u32, scratchReg2: u32, logical: D.Option<u32>)
    requires delta >= OS_PAGE_SIZE && load == MovImmCode(true, scratchReg2, delta, logical)
    requires after == before + [AddImm(scratchReg1, SP, 0, true)] + load + ProbeLoopCode(|before| + 1 + |load|, scratchReg1, scratchReg2)
    ensures after == before + ProbeStackCode(|before|, delta, scratchReg1, scratchReg2, logical)
  {
    var save := [AddImm(scratchReg1, SP, 0, true)];
    var loop := ProbeLoopCode(|before| + 1 + |load|, scratchReg1, scratchReg2);
    assert ProbeStackCode(|before|, delta, scratchReg1, scratchReg2, logical) == ProbeWithLoad(|before|, load, scratchReg1, scratchReg2);
    assert before + save + load + loop == before + (save + load + loop);
  }

  class Assembler {
    const abi: M.WasmAbi
    const fnc: M.FunctionInfo
    /** `moduleInfo_.fnc.stackFrameSize`. */
    var stackFrameSize: u32
    /** The instructions emitted so far. */
    var binary: seq<Instr>

    /** `ImplementationLimits::maxStackFrameSize`, at most 2^24 - 1 as the source's static assertion demands. */
    const maxStackFrameSize: u32

    predicate Valid()
      reads this
    {
      maxStackFrameSize <= MAX_ALLOWED_STACK_FRAME_SIZE && stackFrameSize <= MAX_ALLOWED_STACK_FRAME_SIZE
    }

    constructor (abi: M.WasmAbi, fnc: M.FunctionInfo, maxStackFrameSize: u32, stackFrameSize: u32)
      requires maxStackFrameSize <= MAX_ALLOWED_STACK_FRAME_SIZE && stackFrameSize <= MAX_ALLOWED_STACK_FRAME_SIZE
      ensures Valid()
      ensures this.abi == abi && this.fnc == fnc && this.maxStackFrameSize == maxStackFrameSize
      ensures this.stackFrameSize == stackFrameSize && binary == []
    {
      this.abi := abi;
      this.fnc := fnc;
      this.maxStackFrameSize := maxStackFrameSize;
      this.stackFrameSize := stackFrameSize;
      binary := [];
    }

    /** `addImm24ToReg`: a source of NONE means the destination itself. */
    method AddImm24ToReg(dstReg: u32, delta: int, is64: bool, srcReg: u32)
      requires -0xFF_FFFF <= delta <= 0xFF_FFFF
      modifies this
      ensures binary == old(binary) + AddImm24Code(dstReg, if srcReg == NO_REG then dstReg else srcReg, delta, is64)
      ensures stackFrameSize == old(stackFrameSize)
    {
      var src := if srcReg == NO_REG then dstReg else srcReg;
      binary := binary + AddImm24Code(dstReg, src, delta, is64);
    }

    /** `MOVimm`: count the background halfwords, try a bitmask move, else emit halfword moves. */
    method MovImm(is64: bool, reg: u32, imm: u64, logical: D.Option<u32>)
      modifies this
      ensures binary == old(binary) + MovImmCode(is64, reg, imm, logical)
      ensures stackFrameSize == old(stackFrameSize)
    {
      var n := HalfwordsIn(is64);
      var numZeroHalfwords, numFFFFHalfwords := CountHalfwords(imm, n);
      if numZeroHalfwords < n - 1 && numFFFFHalfwords < n - 1 && logical.Some? {
        binary := binary + [MovBitmask(reg, logical.value, is64)];
        return;
      }
      var movz := numZeroHalfwords >= numFFFFHalfwords;
      var moves := WideMoves(imm, n, movz, if movz then numZeroHalfwords else numFFFFHalfwords);
      binary := binary + seq(|moves|, k requires 0 <= k < |moves| => Wide(reg, moves[k], is64));
    }

    /** `FMOVimm`: emits only for a register other than NONE, and reports whether the value is encodable. */
    method FmovImm(is64: bool, reg: u32, rawFloatImm: u64) returns (ok: bool)
      requires is64 || rawFloatImm < TWO32
      modifies this
      ensures ok <==> !FmovImmediate(is64, rawFloatImm).NotEncodable?
      ensures binary == old(binary) + (if reg == NO_REG then [] else match FmovImmediate(is64, rawFloatImm)
                                        case FromZero => [FmovFromZero(reg, is64)]
                                        case Imm8(imm8) => [FmovImm8(reg, imm8, is64)]
                                        case NotEncodable => [])
      ensures stackFrameSize == old(stackFrameSize)
    {
      var form := FmovImmediate(is64, rawFloatImm);
      ok := !form.NotEncodable?;
      if reg != NO_REG {
        match form
        case FromZero => binary := binary + [FmovFromZero(reg, is64)];
        case Imm8(imm8) => binary := binary + [FmovImm8(reg, imm8, is64)];
        case NotEncodable =>
      }
    }

    /** `probeStack`. */
    method ProbeStack(delta: u32, scratchReg1: u32, scratchReg2: u32, logical: D.Option<u32>)
      modifies this
      ensures binary == old(binary) + ProbeStackCode(|old(binary)|, delta, scratchReg1, scratchReg2, logical)
      ensures stackFrameSize == old(stackFrameSize)
    {
      if delta < OS_PAGE_SIZE {
        return;
      }
      ghost var before := binary;
      binary := binary + [AddImm(scratchReg1, SP, 0, true)];
      MovImm(true, scratchReg2, delta, logical);
      ghost var load := MovImmCode(true, scratchReg2, delta, logical);
      var branchTargetOffset := |binary|;
      binary := binary + ProbeLoopCode(branchTargetOffset, scratchReg1, scratchReg2);
      ProbeStackParts(before, load, binary, delta, scratchReg1, scratchReg2, logical);
    }

    /**
      `setStackFrameSize`: a request for the current size emits nothing; one
      above the limit throws before emitting; otherwise SP moves by the
      difference and the new size is recorded unless the change is temporary.
    */
    method SetStackFrameSize(frameSize: u32, temporary: bool, mayRemoveLocals: bool) returns (r: R.Result<()>)
      requires Valid()
      requires ValidFrameRequest(abi, fnc, frameSize, AlignStackFrameSize16(frameSize, fnc.paramWidth), mayRemoveLocals)
      modifies this
      ensures Valid()
      ensures old(stackFrameSize) == frameSize ==> r.Ok? && binary == old(binary) && stackFrameSize == frameSize
      ensures old(stackFrameSize) != frameSize && frameSize > maxStackFrameSize ==>
                r == R.Err(R.ReachedMaximumStackFrameSize) && binary == old(binary) && stackFrameSize == old(stackFrameSize)
      ensures old(stackFrameSize) != frameSize && frameSize <= maxStackFrameSize ==>
                && r.Ok?
                && binary == old(binary) + AddImm24Code(SP, SP, old(stackFrameSize) - frameSize, true)
                && stackFrameSize == (if temporary then old(stackFrameSize) else frameSize)
    {
      if stackFrameSize != frameSize {
        if frameSize > maxStackFrameSize {
          return R.Err(R.ReachedMaximumStackFrameSize);
        }
        var delta := stackFrameSize as int - frameSize as int;
        AddImm24ToReg(SP, delta, true, NO_REG);
        if !temporary {
          stackFrameSize := frameSize;
        }
      }
      return R.Ok(());
    }
  }

  /** Changing the frame moves SP down by the growth, or up by the shrinkage, modulo 2^64. */
  lemma {:induction false} FrameChangeMovesSp(current: u32, frameSize: u32, regs: seq<u64>)
    requires current <= MAX_ALLOWED_STACK_FRAME_SIZE && frameSize <= MAX_ALLOWED_STACK_FRAME_SIZE && current != frameSize
    requires IsRegFile(regs)
    ensures AllAddress(AddImm24Code(SP, SP, current - frameSize, true))
    ensures Run(AddImm24Code(SP, SP, current - frameSize, true), regs) == regs[SP := Wrap64(regs[SP] + current - frameSize)]
  {
    AddImm24Effect(SP, SP, current - frameSize, true, regs);
  }
}
