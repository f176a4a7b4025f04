/**
  The section parsers of the Wasm frontend that validate integers: the module
  header, instruction opcodes, the memory section, the data-count and data
  sections and the type section with its deduplication of function types.

  Each parser is a method over the reader cursor and the module information,
  as in the frontend. Beside it stands a decoder function over the bytes at
  the cursor, which the method is proved to follow, and an encoder for the
  well-formed inputs; the lemmas relate the two (round trips) and state the
  validation rules the decoder enforces.
*/
module WasmSections {
  import opened UInt
  import opened DwarfBytes
  import opened WasmReader

  // ---------------------------------------------------------------------
  // Decoding the bytes at the cursor
  // ---------------------------------------------------------------------

  /** Slicing twice is slicing once. */
  lemma {:induction false} SuffixSuffix(bs: seq<u8>, a: nat, b: nat)
    requires a + b <= |bs|
    ensures bs[a..][b..] == bs[a + b..]
  {
  }

  // ---------------------------------------------------------------------
  // Module header (`validateMagicNumber`, `validateVersion`)
  // ---------------------------------------------------------------------

  const MAGIC: seq<u8> := [0x00, 0x61, 0x73, 0x6D]
  const SUPPORTED_VERSION: u32 := 1

  /**
    Compares the bytes up to absolute offset 4 with the binary magic
    `00 61 73 6D`; the first mismatching byte throws.
  */
  method ValidateMagicNumber(br: BytecodeReader) returns (r: Result<()>)
    requires br.Valid()
    modifies br
    ensures br.Valid()
    ensures r.Ok? <==> old(br.offset) >= 4 || (|br.bytes| >= 4 && br.bytes[old(br.offset)..4] == MAGIC[old(br.offset)..])
    ensures r.Ok? ==> br.offset == if old(br.offset) >= 4 then old(br.offset) else 4
    ensures r == Err(WrongMagicNumber) <==>
      exists k :: old(br.offset) <= k < 4 && k < |br.bytes| && br.bytes[k] != MAGIC[k]
    ensures r.Err? ==> r.code in {WrongMagicNumber, ReadPastEnd}
  {
    var start := br.offset;
    while br.offset < 4
      invariant br.Valid() && start <= br.offset
      invariant start < 4 ==> br.offset <= 4
      invariant start >= 4 ==> br.offset == start
      invariant forall k :: start <= k < br.offset ==> br.bytes[k] == MAGIC[k]
      decreases 4 - br.offset
    {
      var offset := br.offset;
      var b :- br.ReadByte();
      if MAGIC[offset] != b {
        return Err(WrongMagicNumber);
      }
    }
    return Ok(());
  }

  /** Reads the little-endian version field; only version 1 is supported. */
  method ValidateVersion(br: BytecodeReader) returns (r: Result<()>)
    requires br.Valid()
    modifies br
    ensures br.Valid()
    ensures r.Ok? <==>
      old(br.offset) + 4 <= |br.bytes| && ReadLE(br.bytes[old(br.offset)..old(br.offset) + 4]) == SUPPORTED_VERSION
    ensures r.Ok? ==> br.offset == old(br.offset) + 4
    ensures r.Err? ==> r.code == if old(br.offset) + 4 <= |br.bytes| then VersionNotSupported else ReadPastEnd
  {
    var moduleWasmVersion :- br.ReadLEU32();
    if moduleWasmVersion != SUPPORTED_VERSION {
      return Err(VersionNotSupported);
    }
    return Ok(());
  }

  /** The version field accepts exactly the little-endian encoding of 1 among all `uint32_t` values. */
  lemma {:induction false} VersionField(v: u32)
    ensures (ReadLE(LEBytes(v, 4)) == SUPPORTED_VERSION) <==> v == 1
  {
    LERoundTrip(v, 4);
    Pow256Values();
  }

  // ---------------------------------------------------------------------
  // Opcodes (`parseOpCode`)
  // ---------------------------------------------------------------------

  const SCALAR_EXTEND_OP_CODE: u8 := 0xFC
  const VECTOR_EXTEND_OP_CODE: u8 := 0xFD
  const END: u8 := 0x0B
  const GLOBAL_GET: u8 := 0x23
  const I32_CONST: u8 := 0x41
  const F64_CONST: u8 := 0x44

  /**
    An opcode: a single byte, or the prefix 0xFC followed by a sub-opcode,
    which the source combines as `SCALAR_EXTEND_OP_CODE_PREFIX | sub`.
  */
  datatype OpCode = Single(byte: u8) | ScalarExtended(sub: u8)

  predicate IsPrefix(b: u8) {
    b == SCALAR_EXTEND_OP_CODE || b == VECTOR_EXTEND_OP_CODE
  }

  /** The bytes of an opcode in a Wasm binary (section 5.4 of the WebAssembly Core Specification). */
  function OpCodeBytes(op: OpCode): (bs: seq<u8>)
    requires op.Single? ==> !IsPrefix(op.byte)
  {
    match op
    case Single(b) => [b]
    case ScalarExtended(s) => [SCALAR_EXTEND_OP_CODE] + ULeb(s)
  }

  function DecodeOpCode(bs: seq<u8>): (r: Result<(OpCode, nat)>)
    ensures r.Ok? ==> 1 <= r.value.1 <= |bs|
  {
    if bs == [] then Err(ReadPastEnd)
    else if IsPrefix(bs[0]) then
      var sub :- Leb(bs[1..]);
      if sub.0 > 255 then Err(UnknownInstruction)
      else if bs[0] == VECTOR_EXTEND_OP_CODE then Err(SimdNotImplemented)
      else Ok((ScalarExtended(sub.0), 1 + sub.1))
    else Ok((Single(bs[0]), 1))
  }

  /** Every opcode reads back from its bytes, whatever follows them. */
  lemma {:induction false} OpCodeRoundTrip(op: OpCode, rest: seq<u8>)
    requires op.Single? ==> !IsPrefix(op.byte)
    ensures DecodeOpCode(OpCodeBytes(op) + rest) == Ok((op, |OpCodeBytes(op)|))
  {
    if op.ScalarExtended? {
      assert (OpCodeBytes(op) + rest)[1..] == ULeb(op.sub) + rest;
      LebRoundTrip(op.sub, rest);
    }
  }

  /**
    The vector prefix is never accepted, and a sub-opcode above 255 is an
    unknown instruction; a byte other than a prefix is its own opcode.
  */
  lemma {:induction false} OpCodeRejections(bs: seq<u8>, sub: u32, rest: seq<u8>)
    ensures bs != [] && bs[0] == VECTOR_EXTEND_OP_CODE ==> DecodeOpCode(bs).Err?
    ensures sub > 255 ==> DecodeOpCode([SCALAR_EXTEND_OP_CODE] + ULeb(sub) + rest) == Err(UnknownInstruction)
    ensures sub > 255 ==> DecodeOpCode([VECTOR_EXTEND_OP_CODE] + ULeb(sub) + rest) == Err(UnknownInstruction)
    ensures bs != [] && !IsPrefix(bs[0]) ==> DecodeOpCode(bs) == Ok((Single(bs[0]), 1))
  {
    assert ([SCALAR_EXTEND_OP_CODE] + ULeb(sub) + rest)[1..] == ULeb(sub) + rest;
    assert ([VECTOR_EXTEND_OP_CODE] + ULeb(sub) + rest)[1..] == ULeb(sub) + rest;
    LebRoundTrip(sub, rest);
  }

  method ParseOpCode(br: BytecodeReader) returns (r: Result<OpCode>)
    requires br.Valid()
    modifies br
    ensures br.Valid()
    ensures Parsed(r, DecodeOpCode(br.bytes[old(br.offset)..]), old(br.offset), br.offset)
  {
    ghost var bs := br.bytes[br.offset..];
    var firstByte :- br.ReadByte();
    if firstByte == SCALAR_EXTEND_OP_CODE || firstByte == VECTOR_EXTEND_OP_CODE {
      assert bs[1..] == br.bytes[br.offset..];
      var extendOpCode :- br.ReadLEB128U32();
      if extendOpCode > 255 {
        return Err(UnknownInstruction);
      }
      if firstByte == VECTOR_EXTEND_OP_CODE {
        return Err(SimdNotImplemented);
      }
      return Ok(ScalarExtended(extendOpCode));
    }
    return Ok(Single(firstByte));
  }

  // ---------------------------------------------------------------------
  // Module information the parsers record (`moduleInfo_`)
  // ---------------------------------------------------------------------

  datatype ValueType = I32 | I64 | F32 | F64

  /** A function type: its parameter and result types. */
  datatype Signature = Signature(params: seq<ValueType>, results: seq<ValueType>)

  /**
    An entry of the type table: a signature written out, or FORWARD to the
    index of an earlier, identical signature.
  */
  datatype TypeEntry = Written(sig: Signature) | Forward(target: u32)

  /** The compile-time limits on types, parameters and results (`ImplementationLimits`). */
  datatype ImplementationLimits = ImplementationLimits(numTypes: u32, numParams: u32, numResults: u32)

  class ModuleInfo {
    var numTypes: u32
    var types: seq<TypeEntry>
    var hasMemory: bool
    var memoryHasSizeLimit: bool
    var memoryInitialSize: u32
    var memoryMaximumSize: u32
    var numDataSegments: u32
    var numTotalFunctions: u32
    var numImportedFunctions: u32
    var numFunctionBodiesProduced: u32

    /** The defaults of a fresh `ModuleInfo`: no data-count section seen yet is `UINT32_MAX`. */
    constructor ()
      ensures numTypes == 0 && types == [] && !hasMemory && !memoryHasSizeLimit
      ensures memoryInitialSize == 0 && memoryMaximumSize == 0 && numDataSegments == U32_MAX
      ensures numTotalFunctions == 0 && numImportedFunctions == 0 && numFunctionBodiesProduced == 0
    {
      numTypes := 0;
      types := [];
      hasMemory := false;
      memoryHasSizeLimit := false;
      memoryInitialSize := 0;
      memoryMaximumSize := 0;
      numDataSegments := U32_MAX;
      numTotalFunctions := 0;
      numImportedFunctions := 0;
      numFunctionBodiesProduced := 0;
    }
  }

  twostate predicate SameTypes(info: ModuleInfo)
    reads info
  {
    info.numTypes == old(info.numTypes) && info.types == old(info.types)
  }

  twostate predicate SameMemory(info: ModuleInfo)
    reads info
  {
    info.hasMemory == old(info.hasMemory) && info.memoryHasSizeLimit == old(info.memoryHasSizeLimit)
    && info.memoryInitialSize == old(info.memoryInitialSize)
    && info.memoryMaximumSize == old(info.memoryMaximumSize)
  }

  twostate predicate SameFunctions(info: ModuleInfo)
    reads info
  {
    info.numTotalFunctions == old(info.numTotalFunctions)
    && info.numImportedFunctions == old(info.numImportedFunctions)
    && info.numFunctionBodiesProduced == old(info.numFunctionBodiesProduced)
  }

  // ---------------------------------------------------------------------
  // Memory section (`parseMemorySection`)
  // ---------------------------------------------------------------------

  /** A memory's limits in pages of 64 KiB; `maximum` is meaningful only with a size limit. */
  datatype MemoryLimits = MemoryLimits(hasSizeLimit: bool, initial: u32, maximum: u32)

  const MAX_PAGES: nat := 65536

  /** The first check a memory's limits fail, in the frontend's order. */
  function LimitsError(m: MemoryLimits): Option<ErrorCode> {
    if m.hasSizeLimit && m.maximum < m.initial then Some(MaximumBelowInitial)
    else if m.initial > MAX_PAGES || (m.hasSizeLimit && m.maximum > MAX_PAGES) then Some(MemoryAbove65536Pages)
    else None
  }

  /** The limits bytes of section 5.3.7 of the WebAssembly Core Specification. */
  function LimitsBytes(m: MemoryLimits): seq<u8> {
    if m.hasSizeLimit then [1] + ULeb(m.initial) + ULeb(m.maximum) else [0] + ULeb(m.initial)
  }

  /** A memory section declaring no memory or one memory. */
  function MemorySectionBytes(m: Option<MemoryLimits>): seq<u8> {
    match m
    case None => ULeb(0)
    case Some(l) => ULeb(1) + LimitsBytes(l)
  }

  function DecodeLimits(bs: seq<u8>): (r: Result<(MemoryLimits, nat)>)
    ensures r.Ok? ==> 1 <= r.value.1 <= |bs|
  {
    var flag :- Byte(bs);
    if flag.0 != 0 && flag.0 != 1 then Err(UnknownSizeLimitFlag)
    else
      var sizes :- DecodeSizes(bs[1..], flag.0 == 1);
      Ok((sizes.0, 1 + sizes.1))
  }

  /** The sizes after the limit flag: the initial size, then the maximum when there is a size limit. */
  function DecodeSizes(bs: seq<u8>, hasSizeLimit: bool): (r: Result<(MemoryLimits, nat)>)
    ensures r.Ok? ==> r.value.1 <= |bs| && r.value.0.hasSizeLimit == hasSizeLimit
  {
    SizesFrom(bs, hasSizeLimit, Leb(bs))
  }

  /** The sizes once the initial size has been read, or has failed. */
  function SizesFrom(bs: seq<u8>, hasSizeLimit: bool, first: Result<(u32, nat)>): (r: Result<(MemoryLimits, nat)>)
    requires first.Ok? ==> first.value.1 <= |bs|
    ensures r.Ok? ==> r.value.1 <= |bs| && r.value.0.hasSizeLimit == hasSizeLimit
  {
    var initial :- first;
    if hasSizeLimit then
      var maximum :- Leb(bs[initial.1..]);
      var m := MemoryLimits(true, initial.0, maximum.0);
      if LimitsError(m).Some? then Err(LimitsError(m).value) else Ok((m, initial.1 + maximum.1))
    else
      var m := MemoryLimits(false, initial.0, 0);
      if LimitsError(m).Some? then Err(LimitsError(m).value) else Ok((m, initial.1))
  }

  function DecodeMemorySection(bs: seq<u8>): (r: Result<(Option<MemoryLimits>, nat)>)
    ensures r.Ok? ==> 1 <= r.value.1 <= |bs|
  {
    var count :- Leb(bs);
    if count.0 > 1 then Err(OnlyOneMemoryAllowed)
    else if count.0 == 0 then Ok((None, count.1))
    else
      var m :- DecodeLimits(bs[count.1..]);
      Ok((Some(m.0), count.1 + m.1))
  }

  /**
    At most one memory, a limit flag of 0 or 1, a maximum no smaller than the
    initial size, and both at most 65536 pages (4 GiB).
  */
  lemma {:induction false} DecodedMemoryValid(bs: seq<u8>)
    requires DecodeMemorySection(bs).Ok? && DecodeMemorySection(bs).value.0.Some?
    ensures var m := DecodeMemorySection(bs).value.0.value;
      m.initial <= MAX_PAGES && (m.hasSizeLimit ==> m.initial <= m.maximum <= MAX_PAGES)
  {
  }

  /**
    A memory section read back from its bytes: the declared limits when they
    are valid, else the error of the first check they fail.
  */
  lemma {:induction false} MemorySectionRoundTrip(m: Option<MemoryLimits>, rest: seq<u8>)
    requires m.Some? && !m.value.hasSizeLimit ==> m.value.maximum == 0
    ensures DecodeMemorySection(MemorySectionBytes(m) + rest) ==
      if m.Some? && LimitsError(m.value).Some? then Err(LimitsError(m.value).value)
      else Ok((m, |MemorySectionBytes(m)|))
  {
    match m
    case None =>
      LebRoundTrip(0, rest);
    case Some(l) =>
      var bs := MemorySectionBytes(m) + rest;
      assert bs == ULeb(1) + (LimitsBytes(l) + rest);
      LebRoundTrip(1, LimitsBytes(l) + rest);
      assert bs[|ULeb(1)|..] == LimitsBytes(l) + rest;
      OneMemory(bs, |ULeb(1)|);
      LimitsRoundTrip(l, rest);
  }

  lemma {:induction false} OneMemory(bs: seq<u8>, n: nat)
    requires Leb(bs) == Ok((1, n))
    ensures DecodeMemorySection(bs) ==
      match DecodeLimits(bs[n..])
      case Err(c) => Err(c)
      case Ok(p) => Ok((Some(p.0), n + p.1))
  {
  }

  /** A count of more than one memory is refused before anything else is read; a count of zero declares none. */
  lemma {:induction false} MemoryCountChecked(bs: seq<u8>)
    requires Leb(bs).Ok?
    ensures Leb(bs).value.0 > 1 ==> DecodeMemorySection(bs) == Err(OnlyOneMemoryAllowed)
    ensures Leb(bs).value.0 == 0 ==> DecodeMemorySection(bs) == Ok((None, Leb(bs).value.1))
  {
  }

  lemma {:induction false} LimitsRoundTrip(m: MemoryLimits, rest: seq<u8>)
    requires !m.hasSizeLimit ==> m.maximum == 0
    ensures DecodeLimits(LimitsBytes(m) + rest) ==
      if LimitsError(m).Some? then Err(LimitsError(m).value) else Ok((m, |LimitsBytes(m)|))
  {
    var bs := LimitsBytes(m) + rest;
    if m.hasSizeLimit {
      assert bs[1..] == ULeb(m.initial) + (ULeb(m.maximum) + rest);
      LebRoundTrip(m.initial, ULeb(m.maximum) + rest);
      assert bs[1 + |ULeb(m.initial)|..] == ULeb(m.maximum) + rest;
      LebRoundTrip(m.maximum, rest);
    } else {
      assert bs[1..] == ULeb(m.initial) + rest;
      LebRoundTrip(m.initial, rest);
    }
  }

  /**
    The module has a memory with these limits; without a size limit the
    recorded maximum keeps its previous value.
  */
  ghost predicate MemoryRecorded(info: ModuleInfo, m: MemoryLimits, previousMaximum: u32)
    reads info
  {
    info.hasMemory && info.memoryHasSizeLimit == m.hasSizeLimit && info.memoryInitialSize == m.initial
    && info.memoryMaximumSize == if m.hasSizeLimit then m.maximum else previousMaximum
  }

  /** One iteration of the loop over the memories: records the memory and checks its limits. */
  method ParseLimits(br: BytecodeReader, info: ModuleInfo) returns (r: Result<()>)
    requires br.Valid()
    modifies br, info
    ensures br.Valid() && SameTypes(info) && SameFunctions(info)
    ensures info.numDataSegments == old(info.numDataSegments)
    ensures var spec := DecodeLimits(br.bytes[old(br.offset)..]);
      && (spec.Err? ==> r == Err(spec.code))
      && (spec.Ok? ==>
            r == Ok(()) && br.offset == old(br.offset) + spec.value.1
              && MemoryRecorded(info, spec.value.0, old(info.memoryMaximumSize)))
  {
    ghost var bs := br.bytes[br.offset..];
    info.hasMemory := true;
    var hasSizeLimit :- br.ReadByte();
    if hasSizeLimit != 0 && hasSizeLimit != 1 {
      return Err(UnknownSizeLimitFlag);
    }
    assert bs[1..] == br.bytes[br.offset..];
    r := ParseSizes(br, info, hasSizeLimit != 0);
  }

  /** The sizes of the memory, read into the module information and then checked. */
  method ParseSizes(br: BytecodeReader, info: ModuleInfo, hasSizeLimit: bool) returns (r: Result<()>)
    requires br.Valid() && info.hasMemory
    modifies br, info
    ensures br.Valid() && SameTypes(info) && SameFunctions(info)
    ensures info.numDataSegments == old(info.numDataSegments)
    ensures var spec := DecodeSizes(br.bytes[old(br.offset)..], hasSizeLimit);
      && (spec.Err? ==> r == Err(spec.code))
      && (spec.Ok? ==>
            r == Ok(()) && br.offset == old(br.offset) + spec.value.1
              && MemoryRecorded(info, spec.value.0, old(info.memoryMaximumSize)))
  {
    ghost var bs := br.bytes[br.offset..];
    ghost var k := br.offset;
    info.memoryHasSizeLimit := hasSizeLimit;
    var initial := br.ReadLEB128U32();
    if initial.Err? {
      ParsedErr(initial, Leb(bs), k, br.offset);
      SizesFirstErr(bs, hasSizeLimit);
      return Err(initial.code);
    }
    ghost var n1 := br.offset - k;
    ParsedOk(initial, Leb(bs), k, br.offset, initial.value, n1);
    info.memoryInitialSize := initial.value;
    ghost var n2 := 0;
    if info.memoryHasSizeLimit {
      ghost var k1 := br.offset;
      assert bs[n1..] == br.bytes[k1..];
      var maximum := br.ReadLEB128U32();
      if maximum.Err? {
        ParsedErr(maximum, Leb(bs[n1..]), k1, br.offset);
        SizesSecondErr(bs, initial.value, n1);
        return Err(maximum.code);
      }
      n2 := br.offset - k1;
      ParsedOk(maximum, Leb(bs[n1..]), k1, br.offset, maximum.value, n2);
      info.memoryMaximumSize := maximum.value;
    }
    var limits := MemoryLimits(hasSizeLimit, initial.value, if hasSizeLimit then info.memoryMaximumSize else 0);
    SizesRead(bs, hasSizeLimit, initial.value, n1, limits.maximum, n2);
    match LimitsError(limits)
    case Some(e) => return Err(e);
    case None => return Ok(());
  }

  lemma SizesFirstErr(bs: seq<u8>, hasSizeLimit: bool)
    requires Leb(bs).Err?
    ensures DecodeSizes(bs, hasSizeLimit) == Err(Leb(bs).code)
  {
  }

  lemma SizesSecondErr(bs: seq<u8>, initial: u32, n: nat)
    requires Leb(bs) == Ok((initial, n)) && Leb(bs[n..]).Err?
    ensures DecodeSizes(bs, true) == Err(Leb(bs[n..]).code)
  {
  }

  /** The sizes decoder once both reads have succeeded: the limits check decides. */
  lemma SizesRead(bs: seq<u8>, hasSizeLimit: bool, initial: u32, n: nat, maximum: u32, m: nat)
    requires Leb(bs) == Ok((initial, n))
    requires hasSizeLimit ==> Leb(bs[n..]) == Ok((maximum, m))
    requires !hasSizeLimit ==> maximum == 0 && m == 0
    ensures var limits := MemoryLimits(hasSizeLimit, initial, maximum);
      DecodeSizes(bs, hasSizeLimit)
        == if LimitsError(limits).Some? then Err(LimitsError(limits).value) else Ok((limits, n + m))
  {
  }

  /**
    `parseMemorySection`: records the limits of the one memory, if any. The
    maximum is recorded only for a memory with a size limit.
  */
  method ParseMemorySection(br: BytecodeReader, info: ModuleInfo) returns (r: Result<()>)
    requires br.Valid()
    modifies br, info
    ensures br.Valid() && SameTypes(info) && SameFunctions(info)
    ensures info.numDataSegments == old(info.numDataSegments)
    ensures var spec := DecodeMemorySection(br.bytes[old(br.offset)..]);
      && (spec.Err? ==> r == Err(spec.code))
      && (spec.Ok? ==> r == Ok(()) && br.offset == old(br.offset) + spec.value.1)
      && (spec.Ok? && spec.value.0.None? ==> SameMemory(info))
      && (spec.Ok? && spec.value.0.Some? ==> MemoryRecorded(info, spec.value.0.value, old(info.memoryMaximumSize)))
  {
    ghost var k0 := br.offset;
    var numMemories :- br.ReadLEB128U32();
    if numMemories > 1 {
      return Err(OnlyOneMemoryAllowed);
    }
    // The loop over the memories runs at most once.
    if numMemories == 1 {
      assert br.bytes[k0..][br.offset - k0..] == br.bytes[br.offset..];
      OneMemory(br.bytes[k0..], br.offset - k0);
      r := ParseLimits(br, info);
      return;
    }
    return Ok(());
  }
}
