/**
  The line-number part of the DWARF extension: the `DebugLineOpCode`
  sequence recorded while code is generated, its byte encoding as standard
  opcodes of a DWARF 5 line-number program (section 6.2.5 of the DWARF 5
  standard), the `.debug_line` unit around it (section 6.2.4), and the
  `Dwarf5Generator` that maps Wasm bytecode offsets (the "line" register)
  to machine-code offsets (the "address" register).
*/
module DwarfLine {
  import opened UInt
  import opened DwarfBytes

  /** `DebugLineOpCode`: the three standard opcodes the generator records. */
  datatype LineOp = AdvancePC(pcDelta: u32) | AdvanceLine(lineDelta: i32) | Copy

  const DW_LNS_extended: u8 := 0
  const DW_LNS_copy: u8 := 1
  const DW_LNS_advance_pc: u8 := 2
  const DW_LNS_advance_line: u8 := 3
  const DW_LNS_set_file: u8 := 4
  const DW_LNE_end_sequence: u8 := 1

  // ---------------------------------------------------------------------
  // Byte encoding of the opcodes
  // ---------------------------------------------------------------------

  /** `toDwarf5FormatImpl`: the opcode byte followed by its LEB128 operand. */
  function OpBytes(op: LineOp): seq<u8> {
    match op
    case AdvancePC(d) => [DW_LNS_advance_pc] + ULeb(d)
    case AdvanceLine(d) => [DW_LNS_advance_line] + SLeb(d)
    case Copy => [DW_LNS_copy]
  }

  function ProgramBytes(ops: seq<LineOp>): seq<u8> {
    if ops == [] then [] else OpBytes(ops[0]) + ProgramBytes(ops[1..])
  }

  lemma {:induction false} ProgramBytesAppend(ops: seq<LineOp>, op: LineOp)
    ensures ProgramBytes(ops + [op]) == ProgramBytes(ops) + OpBytes(op)
  {
    var all := ops + [op];
    if ops == [] {
      assert all[1..] == [];
    } else {
      assert all[0] == ops[0] && all[1..] == ops[1..] + [op];
      ProgramBytesAppend(ops[1..], op);
      assert ProgramBytes(all) == OpBytes(ops[0]) + (ProgramBytes(ops[1..]) + OpBytes(op));
    }
  }

  /**
    Decodes one standard opcode from the front of bs, as a DWARF consumer
    does: the opcode byte, then a ULEB128 (advance_pc) or SLEB128
    (advance_line) operand, which must fit the generator's 32-bit fields.
  */
  function DecodeOp(bs: seq<u8>): (r: Option<(LineOp, nat)>)
    ensures r.Some? ==> 1 <= r.value.1 <= |bs|
  {
    if bs == [] then None
    else if bs[0] == DW_LNS_copy then Some((Copy, 1))
    else if bs[0] == DW_LNS_advance_pc then
      match ReadULeb(bs[1..])
      case None => None
      case Some(p) => if p.0 < TWO32 then Some((AdvancePC(p.0), p.1 + 1)) else None
    else if bs[0] == DW_LNS_advance_line then
      match ReadSLeb(bs[1..])
      case None => None
      case Some(p) => if -0x8000_0000 <= p.0 < 0x8000_0000 then Some((AdvanceLine(p.0), p.1 + 1)) else None
    else None
  }

  /** Decodes a whole byte string of standard opcodes. */
  function DecodeProgram(bs: seq<u8>): Option<seq<LineOp>>
    decreases |bs|
  {
    if bs == [] then Some([])
    else match DecodeOp(bs)
      case None => None
      case Some(p) =>
        match DecodeProgram(bs[p.1..])
        case None => None
        case Some(ops) => Some([p.0] + ops)
  }

  lemma {:induction false} DecodeOpRoundTrip(op: LineOp, rest: seq<u8>)
    ensures DecodeOp(OpBytes(op) + rest) == Some((op, |OpBytes(op)|))
  {
    match op
    case AdvancePC(d) => AdvancePCRoundTrip(d, rest);
    case AdvanceLine(d) => AdvanceLineRoundTrip(d, rest);
    case Copy =>
  }

  lemma {:induction false} AdvancePCRoundTrip(d: u32, rest: seq<u8>)
    ensures DecodeOp(OpBytes(AdvancePC(d)) + rest) == Some((AdvancePC(d), |OpBytes(AdvancePC(d))|))
  {
    var bs := OpBytes(AdvancePC(d)) + rest;
    ULebRoundTrip(d, rest);
    assert bs[1..] == ULeb(d) + rest;
    DecodeAdvancePC(bs, d, |ULeb(d)|);
  }

  lemma {:induction false} AdvanceLineRoundTrip(d: i32, rest: seq<u8>)
    ensures DecodeOp(OpBytes(AdvanceLine(d)) + rest) == Some((AdvanceLine(d), |OpBytes(AdvanceLine(d))|))
  {
    var bs := OpBytes(AdvanceLine(d)) + rest;
    SLebRoundTrip(d, rest);
    assert bs[1..] == SLeb(d) + rest;
    DecodeAdvanceLine(bs, d, |SLeb(d)|);
  }

  /** An advance_pc opcode whose operand reads back as a 32-bit delta. */
  lemma {:induction false} DecodeAdvancePC(bs: seq<u8>, d: u32, n: nat)
    requires bs != [] && bs[0] == DW_LNS_advance_pc && ReadULeb(bs[1..]) == Some((d as nat, n))
    ensures DecodeOp(bs) == Some((AdvancePC(d), n + 1))
  {
  }

  /** An advance_line opcode whose operand reads back as a signed 32-bit delta. */
  lemma {:induction false} DecodeAdvanceLine(bs: seq<u8>, d: i32, n: nat)
    requires bs != [] && bs[0] == DW_LNS_advance_line && ReadSLeb(bs[1..]) == Some((d as int, n))
    ensures DecodeOp(bs) == Some((AdvanceLine(d), n + 1))
  {
  }

  /** The encoded opcode stream decodes back to the recorded opcodes. */
  lemma {:induction false} ProgramRoundTrip(ops: seq<LineOp>)
    ensures DecodeProgram(ProgramBytes(ops)) == Some(ops)
  {
    if ops != [] {
      var bs := ProgramBytes(ops);
      DecodeOpRoundTrip(ops[0], ProgramBytes(ops[1..]));
      assert bs[|OpBytes(ops[0])|..] == ProgramBytes(ops[1..]);
      ProgramRoundTrip(ops[1..]);
      assert [ops[0]] + ops[1..] == ops;
    }
  }

  /** `toDwarf5FormatImpl`: appends the encoding of one opcode. */
  method ToDwarf5Format(op: LineOp, result: seq<u8>) returns (r: seq<u8>)
    ensures r == result + OpBytes(op)
  {
    match op {
      case AdvancePC(d) =>
        r := result + [DW_LNS_advance_pc];
        r := EncodeULEB128(d, r);
      case AdvanceLine(d) =>
        r := result + [DW_LNS_advance_line];
        r := EncodeSLEB128(d, r);
      case Copy =>
        r := result + [DW_LNS_copy];
    }
  }

  // ---------------------------------------------------------------------
  // The line-number state machine
  // ---------------------------------------------------------------------

  /** The two registers the generator uses: machine-code address and Wasm offset. */
  datatype Registers = Registers(address: u32, line: u32)

  /**
    One opcode of the state machine of `dumpImpl`: both registers are
    `uint32_t` and wrap; an advance_line delta is added after a cast to
    `uint32_t`.
  */
  function Step(s: Registers, op: LineOp): Registers {
    match op
    case AdvancePC(d) => s.(address := Wrap32(s.address + d))
    case AdvanceLine(d) => s.(line := Wrap32(s.line + AsU32(d)))
    case Copy => s
  }

  /** The registers after running ops from address 0 and line 0. */
  function Final(ops: seq<LineOp>): Registers {
    if ops == [] then Registers(0, 0) else Step(Final(ops[..|ops| - 1]), ops[|ops| - 1])
  }

  /** The rows of the line table: the registers at every copy, in order. */
  function Rows(ops: seq<LineOp>): seq<Registers> {
    if ops == [] then []
    else
      var prefix := ops[..|ops| - 1];
      Rows(prefix) + (if ops[|ops| - 1].Copy? then [Final(prefix)] else [])
  }

  /** The address column of a list of rows. */
  function Addresses(rows: seq<Registers>): (r: seq<u32>)
    ensures |r| == |rows| && forall i :: 0 <= i < |rows| ==> r[i] == rows[i].address
  {
    if rows == [] then [] else Addresses(rows[..|rows| - 1]) + [rows[|rows| - 1].address]
  }

  /** Only a copy adds a row. */
  lemma {:induction false} RowsCountCopies(ops: seq<LineOp>)
    ensures |Rows(ops)| == |set i | 0 <= i < |ops| && ops[i].Copy?|
  {
    if ops != [] {
      var n := |ops| - 1;
      var prefix := ops[..n];
      RowsCountCopies(prefix);
      var s := set i | 0 <= i < n && prefix[i].Copy?;
      var t := set i | 0 <= i < |ops| && ops[i].Copy?;
      if ops[n].Copy? {
        assert t == s + {n};
      } else {
        assert t == s;
      }
    }
  }

  /** A delta computed in `uint32_t` and added back in `uint32_t` reaches the target. */
  lemma {:induction false} WrapDelta(cur: u32, target: u32)
    ensures Wrap32(cur + Wrap32(target - cur)) == target
  {
    if target >= cur {
      DivModUnique(target - cur, TWO32, 0, target - cur);
      DivModUnique(target, TWO32, 0, target);
    } else {
      DivModUnique(target - cur, TWO32, -1, target - cur + TWO32);
      DivModUnique(target + TWO32, TWO32, 1, target);
    }
  }

  /** The `int32_t` line delta, cast back to `uint32_t` and added, reaches the target. */
  lemma {:induction false} LineDelta(cur: u32, target: u32)
    ensures Wrap32(cur + AsU32(AsI32(Wrap32(target - cur)))) == target
  {
    AsI32AsU32(Wrap32(target - cur), 0);
    WrapDelta(cur, target);
  }

  /**
    The opcodes `addSourceDestinationMap` appends to move the registers from
    (address d, line s) to (dst, src) and emit a row there.
  */
  function MapOps(s: u32, d: u32, src: u32, dst: u32): seq<LineOp> {
    PcOps(d, dst) + LineOps(s, src) + [Copy]
  }

  /** The advance_pc, if the address moves from d to dst. */
  function PcOps(d: u32, dst: u32): seq<LineOp> {
    if dst != d then [AdvancePC(Wrap32(dst - d))] else []
  }

  /** The advance_line, if the line moves from s to src. */
  function LineOps(s: u32, src: u32): seq<LineOp> {
    if src != s then [AdvanceLine(AsI32(Wrap32(src - s)))] else []
  }

  /** Appending MapOps adds exactly the row (dst, src) and ends in it. */
  lemma {:induction false} MapOpsRow(ops: seq<LineOp>, s: u32, d: u32, src: u32, dst: u32)
    requires Final(ops) == Registers(d, s)
    ensures Final(ops + MapOps(s, d, src, dst)) == Registers(dst, src)
    ensures Rows(ops + MapOps(s, d, src, dst)) == Rows(ops) + [Registers(dst, src)]
  {
    var a := ops + PcOps(d, dst);
    PcOpsMove(ops, s, d, dst);
    var b := a + LineOps(s, src);
    LineOpsMove(a, dst, s, src);
    AppendOne(b, Copy);
    MapOpsSplit(ops, s, d, src, dst);
  }

  lemma {:induction false} MapOpsSplit(ops: seq<LineOp>, s: u32, d: u32, src: u32, dst: u32)
    ensures ops + MapOps(s, d, src, dst) == ops + PcOps(d, dst) + LineOps(s, src) + [Copy]
  {
    AppendAssoc(ops, PcOps(d, dst), LineOps(s, src));
    AppendAssoc(ops, PcOps(d, dst) + LineOps(s, src), [Copy]);
  }

  /** The advance_pc moves the address to dst and adds no row. */
  lemma {:induction false} PcOpsMove(ops: seq<LineOp>, s: u32, d: u32, dst: u32)
    requires Final(ops) == Registers(d, s)
    ensures Final(ops + PcOps(d, dst)) == Registers(dst, s) && Rows(ops + PcOps(d, dst)) == Rows(ops)
  {
    if dst != d {
      Move(ops, AdvancePC(Wrap32(dst - d)), ops + PcOps(d, dst));
      PcReaches(Registers(d, s), dst);
    } else {
      assert ops + PcOps(d, dst) == ops;
    }
  }

  /** The advance_line moves the line to src and adds no row. */
  lemma {:induction false} LineOpsMove(ops: seq<LineOp>, d: u32, s: u32, src: u32)
    requires Final(ops) == Registers(d, s)
    ensures Final(ops + LineOps(s, src)) == Registers(d, src) && Rows(ops + LineOps(s, src)) == Rows(ops)
  {
    if src != s {
      Move(ops, AdvanceLine(AsI32(Wrap32(src - s))), ops + LineOps(s, src));
      LineReaches(Registers(d, s), src);
    } else {
      assert ops + LineOps(s, src) == ops;
    }
  }

  /** An advance adds no row. */
  lemma {:induction false} Move(ops: seq<LineOp>, op: LineOp, all: seq<LineOp>)
    requires !op.Copy? && all == ops + [op]
    ensures Final(all) == Step(Final(ops), op) && Rows(all) == Rows(ops)
  {
    AppendOne(ops, op);
  }

  /** One more opcode of a replay from the start. */
  lemma {:induction false} ReplayStep(ops: seq<LineOp>, i: nat)
    requires i < |ops|
    ensures Final(ops[..i + 1]) == Step(Final(ops[..i]), ops[i])
    ensures Rows(ops[..i + 1]) == Rows(ops[..i]) + (if ops[i].Copy? then [Final(ops[..i])] else [])
  {
    assert ops[..i + 1] == ops[..i] + [ops[i]];
    AppendOne(ops[..i], ops[i]);
  }

  lemma {:induction false} AddressesAppend(rows: seq<Registers>, row: Registers)
    ensures Addresses(rows + [row]) == Addresses(rows) + [row.address]
  {
    assert (rows + [row])[..|rows|] == rows;
  }

  /** The advance_pc of `addSourceDestinationMap` moves the address to the destination. */
  lemma {:induction false} PcReaches(st: Registers, dst: u32)
    ensures Step(st, AdvancePC(Wrap32(dst - st.address))) == st.(address := dst)
  {
    WrapDelta(st.address, dst);
  }

  /** The advance_line of `addSourceDestinationMap` moves the line to the source. */
  lemma {:induction false} LineReaches(st: Registers, src: u32)
    ensures Step(st, AdvanceLine(AsI32(Wrap32(src - st.line)))) == st.(line := src)
  {
    LineDelta(st.line, src);
  }

  lemma {:induction false} AppendOne(ops: seq<LineOp>, op: LineOp)
    ensures Final(ops + [op]) == Step(Final(ops), op)
    ensures Rows(ops + [op]) == Rows(ops) + (if op.Copy? then [Final(ops)] else [])
  {
    assert (ops + [op])[..|ops|] == ops;
  }

  // ---------------------------------------------------------------------
  // The .debug_line unit
  // ---------------------------------------------------------------------

  /** `pushStr`: the characters followed by a NUL; an empty name becomes ".wasm". */
  function FileNameEntry(fileName: seq<u8>): seq<u8> {
    (if fileName == [] then [0x2E, 0x77, 0x61, 0x73, 0x6D] else fileName) + [0]
  }

  /**
    The header fields after header_length: minimum_instruction_length 1,
    maximum_operations_per_instruction 1, default_is_stmt 1, line_base -3,
    line_range 14, opcode_base 5, the four standard opcode lengths, one
    directory format (DW_LNCT_path, DW_FORM_string), the directory "tmp", one
    file format and the one file name.
  */
  function HeaderRest(fileName: seq<u8>): seq<u8> {
    [1, 1, 1, 0xFD, 14, 5, 0, 1, 1, 1]
    + [1, 1, 8, 1, 0x74, 0x6D, 0x70, 0]
    + [1, 1, 8, 1] + FileNameEntry(fileName)
  }

  /** The program: set_file 1, the recorded opcodes, then end_sequence. */
  function LineProgram(ops: seq<LineOp>): seq<u8> {
    [DW_LNS_set_file, 1] + ProgramBytes(ops) + [DW_LNS_extended, 1, DW_LNE_end_sequence]
  }

  /**
    The unit `createDebugLineSection` appends: unit_length, version 5,
    address_size 8, segment_selector_size 0, header_length, the rest of the
    header and the program. Both length fields are `uint32_t` casts.
  */
  function DebugLineUnit(fileName: seq<u8>, ops: seq<LineOp>): seq<u8> {
    UnitOf(HeaderRest(fileName), LineProgram(ops))
  }

  /** A unit with this header (after header_length) and this program. */
  function UnitOf(header: seq<u8>, program: seq<u8>): seq<u8> {
    LEBytes(Wrap32(8 + |header| + |program|), 4) + [5, 0, 8, 0]
    + LEBytes(Wrap32(|header|), 4) + (header + program)
  }

  /** Where the fields of a unit built from these pieces sit. */
  lemma {:induction false} UnitLayout(l1: seq<u8>, l2: seq<u8>, header: seq<u8>, program: seq<u8>)
    requires |l1| == 4 && |l2| == 4
    ensures var u := l1 + [5, 0, 8, 0] + l2 + (header + program);
      |u| == 12 + |header| + |program| && u[..4] == l1 && u[8..12] == l2
      && u[12..] == header + program
  {
  }

  /** Where the recorded opcodes and end_sequence sit in the program. */
  lemma {:induction false} ProgramLayout(ops: seq<LineOp>)
    ensures var p := LineProgram(ops);
      |p| == 5 + |ProgramBytes(ops)| && p[0] == DW_LNS_set_file
      && p[2..|p| - 3] == ProgramBytes(ops)
      && p[|p| - 3..] == [DW_LNS_extended, 1, DW_LNE_end_sequence]
  {
  }

  lemma {:induction false} SmallWrap(n: nat)
    requires n < TWO32
    ensures Wrap32(n) == n && ReadLE(LEBytes(n, 4)) == n
  {
    DivModUnique(n, TWO32, 0, n);
    LERoundTrip(n, 4);
    Pow256Values();
  }

  /** unit_length counts exactly the bytes after it (for units below 4 GiB). */
  lemma {:induction false} UnitLengthField(fileName: seq<u8>, ops: seq<LineOp>)
    ensures var u := DebugLineUnit(fileName, ops);
      |u| >= 4 && (|u| - 4 < TWO32 ==> ReadLE(u[..4]) == |u| - 4)
  {
    var header := HeaderRest(fileName);
    var program := LineProgram(ops);
    var n := 8 + |header| + |program|;
    UnitLayout(LEBytes(Wrap32(n), 4), LEBytes(Wrap32(|header|), 4), header, program);
    if n < TWO32 {
      SmallWrap(n);
    }
  }

  /**
    header_length counts exactly the header bytes after it, so the program
    starts at offset 12 + header_length with set_file; the recorded opcodes
    follow set_file's operand and decode back, and the unit ends with the
    end_sequence extended opcode.
  */
  lemma {:induction false} HeaderLengthField(fileName: seq<u8>, ops: seq<LineOp>)
    requires |fileName| < 0x1000_0000
    ensures var u := DebugLineUnit(fileName, ops);
      var h := ReadLE(u[8..12]);
      12 + h + 2 <= |u| - 3
      && u[12 + h] == DW_LNS_set_file
      && u[|u| - 3..] == [DW_LNS_extended, 1, DW_LNE_end_sequence]
      && DecodeProgram(u[12 + h + 2..|u| - 3]) == Some(ops)
  {
    HeaderRestLength(fileName);
    UnitProgram(HeaderRest(fileName), ops, DebugLineUnit(fileName, ops));
  }

  /** The same, for any header below 4 GiB. */
  lemma {:induction false} UnitProgram(header: seq<u8>, ops: seq<LineOp>, u: seq<u8>)
    requires |header| < TWO32
    requires u == UnitOf(header, LineProgram(ops))
    ensures var h := ReadLE(u[8..12]);
      12 + h + 2 <= |u| - 3
      && u[12 + h] == DW_LNS_set_file
      && u[|u| - 3..] == [DW_LNS_extended, 1, DW_LNE_end_sequence]
      && DecodeProgram(u[12 + h + 2..|u| - 3]) == Some(ops)
  {
    var program := LineProgram(ops);
    var l1 := LEBytes(Wrap32(8 + |header| + |program|), 4);
    var l2 := LEBytes(Wrap32(|header|), 4);
    var h := ReadLE(u[8..12]);
    assert h == |header| by {
      UnitLayout(l1, l2, header, program);
      SmallWrap(|header|);
    }
    ProgramLayout(ops);
    ProgramAt(l1 + [5, 0, 8, 0] + l2, header, program, u, h);
    ProgramRoundTrip(ops);
  }

  lemma {:induction false} HeaderRestLength(fileName: seq<u8>)
    ensures |HeaderRest(fileName)| <= 28 + |fileName|
  {
  }

  /** In a unit built from these pieces, the program sits right after the header. */
  lemma {:induction false} ProgramAt(pre: seq<u8>, header: seq<u8>, program: seq<u8>, u: seq<u8>, h: nat)
    requires |pre| == 12 && h == |header| && |program| >= 5
    requires u == pre + (header + program)
    ensures 12 + h + 2 <= |u| - 3
    ensures u[12 + h] == program[0]
    ensures u[|u| - 3..] == program[|program| - 3..]
    ensures u[12 + h + 2..|u| - 3] == program[2..|program| - 3]
  {
    var w := header + program;
    AppendIndex(pre, w, 12 + h);
    AppendIndex(header, program, h);
    AppendSuffix(pre, w, |u| - 3);
    AppendSuffix(header, program, |w| - 3);
    AppendSlice(pre, w, 12 + h + 2, |u| - 3);
    AppendSlice(header, program, h + 2, |w| - 3);
  }

  lemma {:induction false} AppendIndex<T>(a: seq<T>, b: seq<T>, i: nat)
    requires |a| <= i < |a| + |b|
    ensures (a + b)[i] == b[i - |a|]
  {
  }

  lemma {:induction false} AppendSuffix<T>(a: seq<T>, b: seq<T>, i: nat)
    requires |a| <= i <= |a| + |b|
    ensures (a + b)[i..] == b[i - |a|..]
  {
  }

  lemma {:induction false} AppendSlice<T>(a: seq<T>, b: seq<T>, i: nat, j: nat)
    requires |a| <= i <= j <= |a| + |b|
    ensures (a + b)[i..j] == b[i - |a|..j - |a|]
  {
  }

  /**
    `createDebugLineSection`: reserves the unit_length field, pushes the
    header while remembering where header_length goes and where the header
    ends, appends the program, then back-patches both length fields with
    `writeLE32`.
  */
  method CreateDebugLineSection(fileName: seq<u8>, ops: seq<LineOp>, result: seq<u8>) returns (r: seq<u8>)
    ensures r == result + DebugLineUnit(fileName, ops)
  {
    var unitLengthOffset := |result|;
    r := result + [0, 0, 0, 0, 5, 0, 8, 0];
    var headerLengthOffset := |r|;
    r := r + [0, 0, 0, 0] + HeaderRest(fileName);
    var headerEnd := |r|;
    r := r + [DW_LNS_set_file, 1];
    r := AppendProgram(ops, r);
    r := r + [DW_LNS_extended, 1, DW_LNE_end_sequence];
    ghost var r0 := r;
    ghost var header := HeaderRest(fileName);
    ghost var program := LineProgram(ops);
    Assemble(result, header, ops, r0);
    var headerLength := headerEnd - (headerLengthOffset + 4);
    r := WriteLE32(headerLength, r, headerLengthOffset);
    ghost var r1 := r;
    var unitLength := |r| - (unitLengthOffset + 4);
    r := WriteLE32(unitLength, r, unitLengthOffset);
    assert headerLength == |header| && unitLength == 8 + |header| + |program|;
    PatchedUnit(result, header, program, r0, r1, r, unitLengthOffset, headerLengthOffset, headerLength, unitLength);
  }

  /** The bytes pushed, then both length fields patched, form the unit. */
  lemma {:induction false} PatchedUnit(result: seq<u8>, header: seq<u8>, program: seq<u8>, r0: seq<u8>, r1: seq<u8>,
                                       r2: seq<u8>, o1: nat, o2: nat, headerLength: nat, unitLength: nat)
    requires o1 == |result| && o2 == o1 + 8
    requires r0 == result + [0, 0, 0, 0, 5, 0, 8, 0] + [0, 0, 0, 0] + (header + program)
    requires headerLength == |header| && unitLength == 8 + |header| + |program|
    requires |r1| == |r0| && r1[..o2] == r0[..o2] && r1[o2 + 4..] == r0[o2 + 4..]
    requires r1[o2..o2 + 4] == LEBytes(headerLength % TWO32, 4)
    requires |r2| == |r1| && r2[..o1] == r1[..o1] && r2[o1 + 4..] == r1[o1 + 4..]
    requires r2[o1..o1 + 4] == LEBytes(unitLength % TWO32, 4)
    ensures r2 == result + UnitOf(header, program)
  {
    LengthFields(headerLength, unitLength, header, program);
    PatchTwice(result, header + program, r0, r1, r2, LEBytes(unitLength % TWO32, 4), LEBytes(headerLength % TWO32, 4),
               o1, o2);
  }

  /** The two patched values are the header's length and the unit's length after unit_length. */
  lemma {:induction false} LengthFields(headerLength: nat, unitLength: nat, header: seq<u8>, program: seq<u8>)
    requires headerLength == |header| && unitLength == 8 + |header| + |program|
    ensures LEBytes(headerLength % TWO32, 4) == LEBytes(Wrap32(|header|), 4)
    ensures LEBytes(unitLength % TWO32, 4) == LEBytes(Wrap32(8 + |header| + |program|), 4)
  {
  }

  /** The loop of `createDebugLineSection` over the recorded opcodes. */
  method AppendProgram(ops: seq<LineOp>, result: seq<u8>) returns (r: seq<u8>)
    ensures r == result + ProgramBytes(ops)
  {
    r := result;
    var i := 0;
    while i < |ops|
      invariant 0 <= i <= |ops|
      invariant r == result + ProgramBytes(ops[..i])
    {
      AppendStep(ops, i, result, r);
      r := ToDwarf5Format(ops[i], r);
      i := i + 1;
    }
    assert ops[..i] == ops;
  }

  /** One turn of the loop of `AppendProgram`. */
  lemma {:induction false} AppendStep(ops: seq<LineOp>, i: nat, result: seq<u8>, r: seq<u8>)
    requires i < |ops| && r == result + ProgramBytes(ops[..i])
    ensures r + OpBytes(ops[i]) == result + ProgramBytes(ops[..i + 1])
  {
    var prefix := ops[..i];
    var op := ops[i];
    assert ops[..i + 1] == prefix + [op];
    ProgramBytesAppend(prefix, op);
    AppendAssoc(result, ProgramBytes(prefix), OpBytes(op));
  }

  lemma {:induction false} AppendAssoc<T>(a: seq<T>, b: seq<T>, c: seq<T>)
    ensures a + (b + c) == (a + b) + c
  {
  }

  lemma {:induction false} Assemble(result: seq<u8>, header: seq<u8>, ops: seq<LineOp>, r0: seq<u8>)
    requires r0 == result + [0, 0, 0, 0, 5, 0, 8, 0] + [0, 0, 0, 0] + header
      + [DW_LNS_set_file, 1] + ProgramBytes(ops) + [DW_LNS_extended, 1, DW_LNE_end_sequence]
    ensures r0 == result + [0, 0, 0, 0, 5, 0, 8, 0] + [0, 0, 0, 0] + (header + LineProgram(ops))
  {
    var a := result + [0, 0, 0, 0, 5, 0, 8, 0] + [0, 0, 0, 0];
    var setFile: seq<u8> := [DW_LNS_set_file, 1];
    var end: seq<u8> := [DW_LNS_extended, 1, DW_LNE_end_sequence];
    var bytes := ProgramBytes(ops);
    AppendAssoc(a + header, setFile, bytes);
    AppendAssoc(a + header, setFile + bytes, end);
    AppendAssoc(a, header, setFile + bytes + end);
  }

  /** Patching the two zeroed length fields yields the unit with both lengths filled in. */
  lemma {:induction false} PatchTwice(pre: seq<u8>, rest: seq<u8>, r0: seq<u8>, r1: seq<u8>, r2: seq<u8>, x: seq<u8>,
                                      y: seq<u8>, o1: nat, o2: nat)
    requires |x| == 4 && |y| == 4 && o1 == |pre| && o2 == o1 + 8
    requires r0 == pre + [0, 0, 0, 0, 5, 0, 8, 0] + [0, 0, 0, 0] + rest
    requires |r1| == |r0| && r1[..o2] == r0[..o2] && r1[o2 + 4..] == r0[o2 + 4..]
    requires r1[o2..o2 + 4] == y
    requires |r2| == |r1| && r2[..o1] == r1[..o1] && r2[o1 + 4..] == r1[o1 + 4..]
    requires r2[o1..o1 + 4] == x
    ensures r2 == pre + (x + [5, 0, 8, 0] + y + rest)
  {
    var want := pre + (x + [5, 0, 8, 0] + y + rest);
    forall i | 0 <= i < |r2|
      ensures r2[i] == want[i]
    {
      if i < o1 {
        assert r2[i] == r2[..o1][i] == r1[..o1][i] == r1[i] == r0[..o2][i] == r0[i];
      } else if i < o1 + 4 {
        assert r2[i] == r2[o1..o1 + 4][i - o1];
      } else {
        assert r2[i] == r2[o1 + 4..][i - o1 - 4] == r1[o1 + 4..][i - o1 - 4] == r1[i];
        if i < o2 {
          assert r1[i] == r1[..o2][i] == r0[..o2][i] == r0[i];
        } else if i < o2 + 4 {
          assert r1[i] == r1[o2..o2 + 4][i - o2];
        } else {
          assert r1[i] == r1[o2 + 4..][i - o2 - 4] == r0[o2 + 4..][i - o2 - 4] == r0[i];
        }
      }
    }
  }

  // ---------------------------------------------------------------------
  // The generator
  // ---------------------------------------------------------------------

  /** A `StackElement const *` used as the key of the pending defer actions. */
  type ElementRef = nat

  /** `DebugInfo::Function`: the machine-code range of one function. */
  datatype FunctionRange = FunctionRange(lowPC: u32, highPC: u32)

  /**
    `Dwarf5Generator`: the opcodes recorded so far, the offsets the last copy
    row mapped, the stack of Wasm offsets of the operations being compiled,
    the source offsets of deferred actions, and the function ranges.
  */
  class Dwarf5Generator {
    var currentSourceOffset: u32
    var currentDestinationOffset: u32
    var sequences: seq<LineOp>
    var sourceOffsetStack: seq<u32>
    var pendingDeferActions: map<ElementRef, u32>
    var functions: seq<FunctionRange>

    /** The recorded opcodes end in the registers the generator remembers. */
    ghost predicate Valid()
      reads this
    {
      Final(sequences) == Registers(currentDestinationOffset, currentSourceOffset)
    }

    constructor ()
      ensures Valid()
      ensures sequences == [] && sourceOffsetStack == [] && pendingDeferActions == map[] && functions == []
      ensures currentSourceOffset == 0 && currentDestinationOffset == 0
    {
      currentSourceOffset := 0;
      currentDestinationOffset := 0;
      sequences := [];
      sourceOffsetStack := [];
      pendingDeferActions := map[];
      functions := [];
    }

    /**
      `addSourceDestinationMap`: an advance_pc only when the destination moved,
      an advance_line only when the source moved, always one copy; the new row
      of the line table is exactly (destination, source).
    */
    method AddSourceDestinationMap(sourceOffset: u32, destinationOffset: u32)
      requires Valid()
      modifies this
      ensures Valid()
      ensures sequences == old(sequences)
        + MapOps(old(currentSourceOffset), old(currentDestinationOffset), sourceOffset, destinationOffset)
      ensures Rows(sequences) == old(Rows(sequences)) + [Registers(destinationOffset, sourceOffset)]
      ensures currentSourceOffset == sourceOffset && currentDestinationOffset == destinationOffset
      ensures sourceOffsetStack == old(sourceOffsetStack) && pendingDeferActions == old(pendingDeferActions)
      ensures functions == old(functions)
    {
      var ops := sequences;
      var s, d := currentSourceOffset, currentDestinationOffset;
      MapOpsRow(ops, s, d, sourceOffset, destinationOffset);
      MapOpsSplit(ops, s, d, sourceOffset, destinationOffset);
      if destinationOffset != d {
        ops := ops + [AdvancePC(Wrap32(destinationOffset - d))];
      }
      assert ops == sequences + PcOps(d, destinationOffset);
      if sourceOffset != s {
        ops := ops + [AdvanceLine(AsI32(Wrap32(sourceOffset - s)))];
      }
      assert ops == sequences + PcOps(d, destinationOffset) + LineOps(s, sourceOffset);
      ops := ops + [Copy];
      sequences := ops;
      currentSourceOffset := sourceOffset;
      currentDestinationOffset := destinationOffset;
    }

    /** `record`: maps the innermost open source offset, if any, to the destination. */
    method Record(destinationOffset: u32)
      requires Valid()
      modifies this
      ensures Valid()
      ensures old(sourceOffsetStack) == [] ==>
        sequences == old(sequences)
        && currentSourceOffset == old(currentSourceOffset)
        && currentDestinationOffset == old(currentDestinationOffset)
      ensures old(sourceOffsetStack) != [] ==>
        Rows(sequences) == old(Rows(sequences))
          + [Registers(destinationOffset, old(sourceOffsetStack[|sourceOffsetStack| - 1]))]
        && currentSourceOffset == old(sourceOffsetStack[|sourceOffsetStack| - 1])
        && currentDestinationOffset == destinationOffset
      ensures sourceOffsetStack == old(sourceOffsetStack) && pendingDeferActions == old(pendingDeferActions)
      ensures functions == old(functions)
    {
      if sourceOffsetStack == [] {
        return;
      }
      AddSourceDestinationMap(sourceOffsetStack[|sourceOffsetStack| - 1], destinationOffset);
    }

    /** `startOp(uint32_t)`: opens a source offset. */
    method StartOp(sourceOffset: u32)
      modifies this
      ensures sourceOffsetStack == old(sourceOffsetStack) + [sourceOffset]
      ensures sequences == old(sequences) && pendingDeferActions == old(pendingDeferActions)
      ensures currentSourceOffset == old(currentSourceOffset)
      ensures currentDestinationOffset == old(currentDestinationOffset)
      ensures functions == old(functions)
    {
      sourceOffsetStack := sourceOffsetStack + [sourceOffset];
    }

    /** `startOp(StackElement const *)`: opens the offset registered for a deferred action and forgets it. */
    method StartOpElement(element: ElementRef)
      requires element in pendingDeferActions
      modifies this
      ensures sourceOffsetStack == old(sourceOffsetStack) + [old(pendingDeferActions[element])]
      ensures pendingDeferActions == old(pendingDeferActions) - {element}
      ensures sequences == old(sequences)
      ensures currentSourceOffset == old(currentSourceOffset)
      ensures currentDestinationOffset == old(currentDestinationOffset)
      ensures functions == old(functions)
    {
      StartOp(pendingDeferActions[element]);
      pendingDeferActions := pendingDeferActions - {element};
    }

    /** `finishOp`: closes the innermost source offset. */
    method FinishOp()
      requires sourceOffsetStack != []
      modifies this
      ensures sourceOffsetStack == old(sourceOffsetStack[..|sourceOffsetStack| - 1])
      ensures sequences == old(sequences) && pendingDeferActions == old(pendingDeferActions)
      ensures currentSourceOffset == old(currentSourceOffset)
      ensures currentDestinationOffset == old(currentDestinationOffset)
      ensures functions == old(functions)
    {
      sourceOffsetStack := sourceOffsetStack[..|sourceOffsetStack| - 1];
    }

    /** `registerPendingDeferAction`: remembers (or replaces) the source offset of an element. */
    method RegisterPendingDeferAction(element: ElementRef, sourceOffset: u32)
      modifies this
      ensures pendingDeferActions == old(pendingDeferActions)[element := sourceOffset]
      ensures sequences == old(sequences) && sourceOffsetStack == old(sourceOffsetStack)
      ensures currentSourceOffset == old(currentSourceOffset)
      ensures currentDestinationOffset == old(currentDestinationOffset)
      ensures functions == old(functions)
    {
      pendingDeferActions := pendingDeferActions[element := sourceOffset];
    }

    /** `startFunction`: opens a function range with highPC 0. */
    method StartFunction(destinationOffset: u32)
      modifies this
      ensures functions == old(functions) + [FunctionRange(destinationOffset, 0)]
      ensures sequences == old(sequences) && sourceOffsetStack == old(sourceOffsetStack)
      ensures pendingDeferActions == old(pendingDeferActions)
      ensures currentSourceOffset == old(currentSourceOffset)
      ensures currentDestinationOffset == old(currentDestinationOffset)
    {
      functions := functions + [FunctionRange(destinationOffset, 0)];
    }

    /** `finishFunction`: sets the highPC of the last function range. */
    method FinishFunction(destinationOffset: u32)
      requires functions != []
      modifies this
      ensures |functions| == |old(functions)|
      ensures functions[..|functions| - 1] == old(functions[..|functions| - 1])
      ensures functions[|functions| - 1] == old(functions[|functions| - 1]).(highPC := destinationOffset)
      ensures sequences == old(sequences) && sourceOffsetStack == old(sourceOffsetStack)
      ensures pendingDeferActions == old(pendingDeferActions)
      ensures currentSourceOffset == old(currentSourceOffset)
      ensures currentDestinationOffset == old(currentDestinationOffset)
    {
      var n := |functions| - 1;
      functions := functions[n := functions[n].(highPC := destinationOffset)];
    }

    /**
      `getInstructions`: replays the opcodes from address 0 and collects the
      address at every copy, i.e. the address column of the line table.
    */
    method GetInstructions() returns (output: seq<u32>)
      ensures output == Addresses(Rows(sequences))
    {
      var ops := sequences;
      var address: u32 := 0;
      output := [];
      var i := 0;
      while i < |ops|
        invariant 0 <= i <= |ops|
        invariant address == Final(ops[..i]).address
        invariant output == Addresses(Rows(ops[..i]))
      {
        ReplayStep(ops, i);
        match ops[i] {
          case AdvancePC(d) =>
            address := Wrap32(address + d);
          case AdvanceLine(_) =>
          case Copy =>
            AddressesAppend(Rows(ops[..i]), Final(ops[..i]));
            output := output + [address];
        }
        i := i + 1;
      }
      assert ops[..i] == ops;
    }

    /** `dumpImpl`: replays the opcodes and reports the (address, line) of every copy. */
    method Dump() returns (rows: seq<Registers>)
      ensures rows == Rows(sequences)
    {
      var ops := sequences;
      var state := Registers(0, 0);
      rows := [];
      var i := 0;
      while i < |ops|
        invariant 0 <= i <= |ops|
        invariant state == Final(ops[..i])
        invariant rows == Rows(ops[..i])
      {
        ReplayStep(ops, i);
        match ops[i] {
          case AdvancePC(d) =>
            state := state.(address := Wrap32(state.address + d));
          case AdvanceLine(d) =>
            state := state.(line := Wrap32(state.line + AsU32(d)));
          case Copy =>
            rows := rows + [state];
        }
        i := i + 1;
      }
      assert ops[..i] == ops;
    }
  }
}
