# learn-kvm core, modelled in Dafny

This project models the integer-only core of the learn-kvm WebAssembly
ahead-of-time compiler and runtime, and proves properties of it:

- **Frontend validation** of the Wasm binary format: UTF-8 name validation,
  the magic number and version, opcode decoding with the `0xFC`/`0xFD`
  prefixes, the mandatory section order and the post-section actions, the
  memory section, the type section with its deduplication of function
  signatures, and the data section with its bounds checks
  (`WasmReader`, `Utf8`, `WasmSections`, `WasmTypes`, `WasmData`, `WasmOrder`).
- **DWARF 5 line tables**: LEB128 and little-endian byte encoders, the
  `DW_LNS` opcode stream, the `Dwarf5Generator` source-to-machine-code map
  and the `.debug_line` unit with its back-patched length fields
  (`DwarfBytes`, `DwarfLine`).
- **Encoding tables** of the three backends: register classes, condition
  codes and their negation, the condition code of each branch condition,
  operand flags and instruction templates (`Aarch64Encoding`,
  `X86Encoding`, `TricoreEncoding`, `BranchCondition`).
- **Assembler arithmetic** of the TriCore, AArch64 and x86-64 backends:
  immediates split into encodable pieces and the register effect of the
  emitted code, the MOVZ/MOVN/MOVK halfword moves, the FMOV 8-bit float
  immediate against `VFPExpandImm`, stack-frame alignment and resizing,
  the cache of trap positions, the operand forms a storage fits, the page-probing loop
  run on a small x86-64 machine, and the cost of moving operands into
  instruction forms (`StackFrames`, `VariableStorages`, `TricoreAssembler`,
  `Aarch64Assembler`, `X86Assembler`).
- **Occurrence lists** of the compile-time stack: every copy of a variable
  is linked into the list kept in its reference slot, temporary results in
  stack memory are grouped by frame position, and `addReference`,
  `removeReference` and `isWritableScratchReg` keep and read these lists
  (`CommonReferences`, `ReferenceLists`).
- **Backend allocation**: the registers and stack offsets of call
  arguments and return values under the x86-64, AArch64 and TriCore
  conventions (TriCore's even-aligned register pairs with the remembered
  odd register), the placement of locals and globals in registers and
  frame slots, the choice of a register to allocate, the memcpy plans,
  the AArch64 spill code and temporary registers, and the split of a
  displacement too wide for an instruction (`BackendAllocation`,
  `Aarch64Backend`, `TricoreBackend`).
- **Runtime**: readiness and the once-only start function, linking
  external memory, the trace buffer, trap demultiplexing, the stack-trace
  records, the lookup of exported functions and the signature checks
  (`Runtimes`).
- **Disassembler**: the split of the known instruction addresses, the
  instruction loop with its raw-byte chunks, the byte and tab formatting,
  backward and forward reads of the binary, and the debug-map reader
  (`Disassembler`).
- **Spec-test driver**: the tally of test counts, the NaN checks of
  floating-point results, the trap texts of the WebAssembly test suite and
  the trap codes accepted as the same trap (`SingleCaseTests`).

Unsigned machine integers are `nat` subset types (`UInt`); 32-bit
wrap-around is written out as arithmetic modulo 2^32. Exceptions thrown by
the source become the `Err` case of a `Result` carrying the error code.
State that the source mutates in place (the bytecode reader's cursor, the
module information, the section sequencer, the DWARF generator) is held in
classes whose methods are specified against pure functions of the old state.

## Model

| member | source | states |
|---|---|---|
| UInt.RoundUpToPow2 | src/core/common/util.hpp:429-432 | the result is a multiple of 2^p, equals the input when it already is one, and (without overflow) lies in [v, v + 2^p) |
| UInt.RoundUpLeast | src/core/common/util.hpp:429-432 | without overflow, the rounded value is the least multiple of 2^p not below the input: it is at most every such multiple |
| UInt.RoundUpIdempotent | src/core/common/util.hpp:429-432 | rounding up twice is rounding up once |
| DwarfBytes.PushLE32 | wasm-compiler/extensions/DwarfImpl.cpp:83-89 | appends exactly four bytes, the value modulo 2^32 least significant first, and keeps the earlier bytes |
| DwarfBytes.PushLE64 | wasm-compiler/extensions/DwarfImpl.cpp:90-100 | appends exactly eight bytes, the value modulo 2^64 least significant first, and keeps the earlier bytes |
| DwarfBytes.WriteLE32 | wasm-compiler/extensions/DwarfImpl.cpp:101-108 | needs offset + 4 within the buffer; overwrites exactly bytes offset..offset+3 with the little-endian value and keeps the length and every other byte |
| DwarfBytes.LERoundTrip | wasm-compiler/extensions/DwarfImpl.cpp:83-100 | reading n little-endian bytes back gives the value modulo 256^n |
| DwarfBytes.EncodeULEB128 | wasm-compiler/extensions/DwarfImpl.cpp:110-119 | the loop appends exactly the ULEB128 encoding of the value |
| DwarfBytes.ULebRoundTrip | wasm-compiler/extensions/DwarfImpl.cpp:110-119 | decoding the 7-bit groups low first gives the value back and consumes exactly the encoding, whatever follows |
| DwarfBytes.ULebContinuation | wasm-compiler/extensions/DwarfImpl.cpp:110-119 | every byte but the last has bit 0x80 set and the last has it clear |
| DwarfBytes.ULebLength32 | wasm-compiler/extensions/DwarfImpl.cpp:110-119 | a 32-bit value takes one to five bytes |
| DwarfBytes.EncodeSLEB128 | wasm-compiler/extensions/DwarfImpl.cpp:121-132 | the loop with its two-sided stop condition appends exactly the SLEB128 encoding of the value |
| DwarfBytes.SLebRoundTrip | wasm-compiler/extensions/DwarfImpl.cpp:121-132 | decoding, sign-extended from bit 6 of the last byte, gives the signed value back and consumes exactly the encoding |
| DwarfBytes.SLebContinuation | wasm-compiler/extensions/DwarfImpl.cpp:121-132 | every byte but the last has bit 0x80 set and the last has it clear |
| DwarfBytes.SLebLength32 | wasm-compiler/extensions/DwarfImpl.cpp:121-132 | a 32-bit signed value takes one to five bytes |
| DwarfLine.ToDwarf5Format | wasm-compiler/extensions/DwarfImpl.cpp:134-157 | appends the opcode byte 0x02/0x03/0x01 followed by the ULEB128 or SLEB128 operand |
| DwarfLine.DecodeOpRoundTrip | wasm-compiler/extensions/DwarfImpl.cpp:134-157 | each encoded opcode decodes back to itself and consumes exactly its bytes |
| DwarfLine.ProgramRoundTrip | wasm-compiler/extensions/DwarfImpl.cpp:134-157 | an encoded opcode stream decodes back to the same stream |
| DwarfLine.RowsCountCopies | wasm-compiler/extensions/DwarfImpl.cpp:158-183 | replaying the stream yields one row per copy opcode |
| DwarfLine.MapOpsRow | wasm-compiler/extensions/DwarfImpl.cpp:563-573 | the opcodes one map call appends move the replayed registers to exactly (destination, source) and add exactly one row with those values, with exact uint32 wrap-around |
| DwarfLine.CreateDebugLineSection | wasm-compiler/extensions/DwarfImpl.cpp:184-303 | appends exactly the unit: length fields, version 5, address size 8, header and the line program |
| DwarfLine.UnitLengthField | wasm-compiler/extensions/DwarfImpl.cpp:184-303 | unit_length equals the number of bytes after the field |
| DwarfLine.HeaderLengthField | wasm-compiler/extensions/DwarfImpl.cpp:184-303 | header_length equals the number of header bytes after the field, and the program ends with the end_sequence bytes 00 01 01 |
| DwarfLine.Dwarf5Generator.AddSourceDestinationMap | wasm-compiler/extensions/DwarfImpl.cpp:563-573 | appends advance_pc only when the destination changes, advance_line only when the source changes, then one copy, adds the row (destination, source) and records both offsets |
| DwarfLine.Dwarf5Generator.Record | wasm-compiler/extensions/DwarfImpl.cpp:556-561 | does nothing when no source offset is open, else maps the innermost open offset to the destination |
| DwarfLine.Dwarf5Generator.StartOp | wasm-compiler/extensions/DwarfImpl.cpp:549-551 | pushes the source offset and changes nothing else |
| DwarfLine.Dwarf5Generator.StartOpElement | wasm-compiler/extensions/DwarfImpl.cpp:543-548 | needs a pending action for the element; pushes its offset and removes it from the pending map |
| DwarfLine.Dwarf5Generator.FinishOp | wasm-compiler/extensions/DwarfImpl.cpp:552-555 | needs an open offset; pops the innermost one |
| DwarfLine.Dwarf5Generator.RegisterPendingDeferAction | wasm-compiler/extensions/DwarfImpl.cpp:539-541 | maps the element to the source offset |
| DwarfLine.Dwarf5Generator.StartFunction | wasm-compiler/extensions/DwarfImpl.cpp:575-577 | appends a function range starting at the destination with high PC 0 |
| DwarfLine.Dwarf5Generator.FinishFunction | wasm-compiler/extensions/DwarfImpl.cpp:579-582 | needs an open function; sets the high PC of the last range only |
| DwarfLine.Dwarf5Generator.GetInstructions | wasm-compiler/extensions/DwarfImpl.cpp:518-537 | folding from address 0 gives, in order, the address of every row, that is one destination per map call |
| DwarfLine.Dwarf5Generator.Dump | wasm-compiler/extensions/DwarfImpl.cpp:158-183 | the replay gives exactly the rows of the stream |
| Utf8.ValidateUTF8 | wasm-compiler/src/core/compiler/frontend/Frontend.cpp:79-129 | accepts exactly the well-formed UTF-8 strings: no stray continuation byte, no lead byte with more than four leading ones, no overlong form, nothing above 0x10FFFF, no surrogate, no truncated sequence |
| Utf8.CheckMatchesGrammar | wasm-compiler/src/core/compiler/frontend/Frontend.cpp:79-129 | the code-point range test on the accumulated value agrees with the byte-range grammar of section 4 of RFC 3629 |
| Utf8.BadLead | wasm-compiler/src/core/compiler/frontend/Frontend.cpp:79-129 | a continuation byte or a byte with more than four leading ones at the start of a character makes the string ill-formed |
| Utf8.BrokenChar | wasm-compiler/src/core/compiler/frontend/Frontend.cpp:79-129 | a character cut short by the end of the string or by a non-continuation byte makes the string ill-formed |
| WasmReader.LebRoundTrip | wasm-compiler/src/core/compiler/frontend/Frontend.cpp:704-733 | the unsigned 32-bit LEB128 reader (`readLEB128<uint32_t>`, cited at one of its call sites, `parseMemorySection`; others are Frontend.cpp:341, 365, 379 and 2487) decodes every encoding back to its value |
| WasmReader.SignedLebRoundTrip | wasm-compiler/src/core/compiler/frontend/Frontend.cpp:2216-2220 | the signed 32-bit LEB128 read of an `i32.const` immediate (also of a global's initial value at Frontend.cpp:799) decodes every encoding back to its value |
| WasmSections.ValidateMagicNumber | wasm-compiler/src/core/compiler/frontend/Frontend.cpp:315-325 | succeeds exactly when the bytes still to check equal 00 61 73 6D, ending at offset 4; a mismatch gives the wrong-magic error and a short input the read-past-end error |
| WasmSections.ValidateVersion | wasm-compiler/src/core/compiler/frontend/Frontend.cpp:327-338 | succeeds exactly when the next four bytes hold 1 little-endian, else fails with version-not-supported, or read-past-end when fewer than four bytes are left |
| WasmSections.VersionField | wasm-compiler/src/core/compiler/frontend/Frontend.cpp:327-338 | the little-endian version field is accepted iff it encodes 1 |
| WasmSections.ParseOpCode | wasm-compiler/src/core/compiler/frontend/Frontend.cpp:741-759 | consumes and returns exactly what the opcode decoder gives |
| WasmSections.OpCodeRoundTrip | wasm-compiler/src/core/compiler/frontend/Frontend.cpp:741-759 | every plain opcode and every 0xFC sub-opcode up to 255 decodes back to itself |
| WasmSections.OpCodeRejections | wasm-compiler/src/core/compiler/frontend/Frontend.cpp:741-759 | a 0xFD prefix always fails, a sub-opcode above 255 fails as unknown, and a plain byte is returned as is |
| WasmSections.ParseMemorySection | wasm-compiler/src/core/compiler/frontend/Frontend.cpp:704-733 | consumes and records exactly what the memory-section decoder gives, and changes no type or function information |
| WasmSections.DecodedMemoryValid | wasm-compiler/src/core/compiler/frontend/Frontend.cpp:704-733 | an accepted memory has flag 0 or 1, maximum not below initial, and both at most 65536 pages |
| WasmSections.MemorySectionRoundTrip | wasm-compiler/src/core/compiler/frontend/Frontend.cpp:704-733 | an encoded memory section decodes back to the same limits, or to the error the limits call for |
| WasmSections.OneMemory | wasm-compiler/src/core/compiler/frontend/Frontend.cpp:704-710 | a count of one memory leads to the limits decoder, whose result or error becomes the section's |
| WasmSections.MemoryCountChecked | wasm-compiler/src/core/compiler/frontend/Frontend.cpp:704-709 | a count of more than one memory is refused with the one-memory error before anything else is read; a count of zero declares no memory |
| WasmTypes.DecodeValueType | wasm-compiler/src/core/compiler/frontend/Frontend.cpp:362-369 | a value type is accepted iff its byte is one of 0x7C..0x7F, and it maps back to that byte |
| WasmTypes.TypeVectorRoundTrip | wasm-compiler/src/core/compiler/frontend/Frontend.cpp:358-381 | a parameter or result vector decodes back to itself, or fails with the too-many error when it is above the limit |
| WasmTypes.FuncTypeRoundTrip | wasm-compiler/src/core/compiler/frontend/Frontend.cpp:352-381 | a function type (form 0x60, parameters, results) decodes back to itself or to the first limit error |
| WasmTypes.TypeSectionRoundTrip | wasm-compiler/src/core/compiler/frontend/Frontend.cpp:340-385 | an encoded type section decodes back to its signatures, or fails with the count limit or the first signature's limit error |
| WasmTypes.TypeSectionWithinLimits | wasm-compiler/src/core/compiler/frontend/Frontend.cpp:340-381 | every accepted signature is within the parameter and result limits |
| WasmTypes.ParseTypeSection | wasm-compiler/src/core/compiler/frontend/Frontend.cpp:340-445 | consumes what the type-section decoder gives and stores its type table, each entry forwarded to the first equal earlier signature |
| WasmTypes.ForwardOrWrite | wasm-compiler/src/core/compiler/frontend/Frontend.cpp:387-406 | the scan stores a forward to the first earlier equal signature, or the signature itself when there is none |
| WasmTypes.EntryMeaning | wasm-compiler/src/core/compiler/frontend/Frontend.cpp:387-406 | entry i is a forward to j exactly when j is the first index holding the same signature and j < i |
| WasmTypes.ReduceTypeIndex | wasm-compiler/src/core/compiler/frontend/Frontend.cpp:230-239 | an index at or above the type count fails; otherwise the forward target or the index itself is returned |
| WasmTypes.ReduceToFirst | wasm-compiler/src/core/compiler/frontend/Frontend.cpp:230-239 | reducing gives the first index of an equal signature |
| WasmTypes.ReduceSameSignature | wasm-compiler/src/core/compiler/frontend/Frontend.cpp:230-239 | two indices reduce to the same index iff their signatures are equal |
| WasmTypes.ReduceIdempotent | wasm-compiler/src/core/compiler/frontend/Frontend.cpp:230-239 | reducing a reduced index changes nothing |
| WasmTypes.BlockSignatureAt | wasm-compiler/src/core/compiler/frontend/Frontend.cpp:212-228 | the block signature index of a result type lies in the five signatures stored after the declared types |
| WasmData.DecodeConstOffsetAsWritten | wasm-compiler/src/core/compiler/frontend/Frontend.cpp:2513-2521 | the offset expression as the source reads it: i32.const, an unsigned LEB128 value, end |
| WasmData.NegativeOffsetMisread | wasm-compiler/src/core/compiler/frontend/Frontend.cpp:2513-2521 | the offset i32.const -1 (41 7F 0B) is read as 127 and passes a bounds check that the offset 0xFFFFFFFF fails |
| WasmData.ConstOffsetRoundTrip | wasm-compiler/src/core/compiler/frontend/Frontend.cpp:2513-2521 | with a signed read, every offset expression decodes back to its 32-bit offset |
| WasmData.DecodeDataSegment | wasm-compiler/src/core/compiler/frontend/Frontend.cpp:2500-2545 | an accepted segment needs a memory and lies within the initial pages times 65536, without 32-bit overflow; the offset is read signed, as the Findings row intends, where Frontend.cpp:2517 reads it unsigned |
| WasmData.DataSectionRoundTrip | wasm-compiler/src/core/compiler/frontend/Frontend.cpp:2491-2545 | an encoded data section of in-bounds segments decodes back to those segments when the count agrees with the data-count section (offsets read signed, as the Findings row intends) |
| WasmData.DataCountChecked | wasm-compiler/src/core/compiler/frontend/Frontend.cpp:2491-2499 | a segment count that differs from a preceding data-count section is refused |
| WasmData.ParseDataSection | wasm-compiler/src/core/compiler/frontend/Frontend.cpp:2491-2555 | consumes and returns what the data-section decoder gives and records the segment count; offsets are read signed, as the Findings row intends, where Frontend.cpp:2517 reads them unsigned |
| WasmOrder.PostAction | wasm-compiler/src/core/compiler/frontend/Frontend.cpp:2989-3027 | after the code section fails when function bodies are missing, after the data section sets an absent data count to 0; other sections change nothing |
| WasmOrder.MoveOutcome | wasm-compiler/src/core/compiler/frontend/Frontend.cpp:3060-3083 | moving to a section succeeds iff it lies at or after the expected position and no skipped code section misses bodies; then the post actions of exactly the skipped sections have run, in order |
| WasmOrder.RunOutcome | wasm-compiler/src/core/compiler/frontend/Frontend.cpp:3060-3173 | a module's sections are accepted iff the non-custom ones appear at strictly increasing positions of the fixed order, at most one name section comes after all of them, and all function bodies are present; then every post action ran once, in order, and the data count is set |
| WasmOrder.StepOutcome | wasm-compiler/src/core/compiler/frontend/Frontend.cpp:3085-3164 | one section fails when it is empty, longer than the rest of the module, out of order, a second name section, or not consumed exactly |
| WasmOrder.SectionSequencer.PostSectionAction | wasm-compiler/src/core/compiler/frontend/Frontend.cpp:2989-3027 | the new state and result are those of the post action |
| WasmOrder.SectionSequencer.MoveToTargetSection | wasm-compiler/src/core/compiler/frontend/Frontend.cpp:3060-3083 | the loop runs the post actions of the skipped sections; new state and result are those of the move |
| WasmOrder.SectionSequencer.NameSectionAction | wasm-compiler/src/core/compiler/frontend/Frontend.cpp:3104-3112 | a second name section fails; the first one moves to the end of the order |
| WasmOrder.SectionSequencer.SectionPass | wasm-compiler/src/core/compiler/frontend/Frontend.cpp:3085-3164 | the new state and result are those of one section step |
| WasmOrder.SectionSequencer.ParseSections | wasm-compiler/src/core/compiler/frontend/Frontend.cpp:3085-3173 | the loop over all sections and the final move give the state and result of the whole run |
| Aarch64Encoding.GprClass | src/core/compiler/backend/aarch64/aarch64_encoding.hpp:33-51 | isGPR holds exactly for R0..R28, FP, LR and ZR/SP and fails for F0..F31 |
| Aarch64Encoding.NegateCC | src/core/compiler/backend/aarch64/aarch64_encoding.hpp:86-92 | NONE stays NONE; every other code goes to the other code of its pair |
| Aarch64Encoding.NegateInvolution | src/core/compiler/backend/aarch64/aarch64_encoding.hpp:86-92 | negating twice gives the code back |
| Aarch64Encoding.NegatePairs | src/core/compiler/backend/aarch64/aarch64_encoding.hpp:79-92 | the pairs are EQ/NE, HS/LO, MI/PL, VS/VC, HI/LS, GE/LT, GT/LE and AL/NV |
| Aarch64Encoding.NegateHolds | src/core/compiler/backend/aarch64/aarch64_encoding.hpp:79-92 | the negated code holds exactly when the code does not, for every code but AL and NV |
| Aarch64Encoding.CCforBC | src/core/compiler/backend/aarch64/aarch64_encoding.hpp:99-105 | every branch condition has a code, NONE exactly for the unconditional one, never AL or NV |
| Aarch64Encoding.LdrTemplate | src/core/compiler/backend/aarch64/aarch64_encoding.hpp:1084-1089 | the template's V bit, size bit and load bit match register class, width and direction |
| Aarch64Encoding.StrTemplate | src/core/compiler/backend/aarch64/aarch64_encoding.hpp:1097-1102 | the same for stores |
| Aarch64Encoding.TemplatesDistinct | src/core/compiler/backend/aarch64/aarch64_encoding.hpp:1084-1102 | the eight templates are pairwise distinct |
| X86Encoding.GprClass | src/core/compiler/backend/x86_64/x86_64_encoding.hpp:33-38 | isGPR holds exactly for registers 0-15 and fails for XMM0..XMM15 |
| X86Encoding.NegateCC | src/core/compiler/backend/x86_64/x86_64_encoding.hpp:111-114 | every code goes to the other code of its pair; the result is a code iff the input is not NONE |
| X86Encoding.NegateInvolution | src/core/compiler/backend/x86_64/x86_64_encoding.hpp:111-114 | negating twice gives the code back |
| X86Encoding.NegatePairs | src/core/compiler/backend/x86_64/x86_64_encoding.hpp:104-114 | the pairs are O/NO, B/AE, E/NE, BE/A, S/NS, P/NP, L/GE, LE/G, with C/NC the alias of B/AE |
| X86Encoding.NegateHolds | src/core/compiler/backend/x86_64/x86_64_encoding.hpp:104-114 | the negated code holds exactly when the code does not |
| X86Encoding.CCforBC | src/core/compiler/backend/x86_64/x86_64_encoding.hpp:131-137 | every branch condition has a code, NONE exactly for the unconditional one |
| X86Encoding.TablesAgree | src/core/compiler/backend/x86_64/x86_64_encoding.hpp:131-137 | the x86 and AArch64 tables test the same relation for every branch condition but the two float comparisons where x86 uses unsigned codes |
| X86Encoding.B8FOr | src/core/compiler/backend/x86_64/x86_64_encoding.hpp:181-192 | an operand is marked 8-bit in the union iff it is in either argument |
| X86Encoding.B8FOrLaws | src/core/compiler/backend/x86_64/x86_64_encoding.hpp:181-192 | NONE is the identity; the union is commutative, idempotent and associative |
| X86Encoding.MovRRm | src/core/compiler/backend/x86_64/x86_64_encoding.hpp:852-857 | the move into a register has the machine type asked for, opcode 8B or 0F 10, REX.W exactly for 64-bit integers, prefix F2/F3 for doubles/singles |
| X86Encoding.MovRmR | src/core/compiler/backend/x86_64/x86_64_encoding.hpp:865-870 | the same for the move out of a register, opcode 89 or 0F 11 |
| X86Encoding.MovesDistinct | src/core/compiler/backend/x86_64/x86_64_encoding.hpp:852-870 | the four moves of each direction are distinct and no load is a store |
| TricoreEncoding.RegisterClasses | src/core/compiler/backend/tricore/tricore_encoding.hpp:35-64 | isDATA holds exactly for D0..D15, canBeExtReg exactly for even registers |
| TricoreEncoding.OtherExtReg | src/core/compiler/backend/tricore/tricore_encoding.hpp:72-76 | the other half of a data register's pair is a different data register of the same pair |
| TricoreEncoding.OtherExtAddrReg | src/core/compiler/backend/tricore/tricore_encoding.hpp:84-88 | the same for address registers |
| TricoreEncoding.OtherExtInvolution | src/core/compiler/backend/tricore/tricore_encoding.hpp:72-88 | taking the other half twice gives the register back |
| TricoreEncoding.PairHalves | src/core/compiler/backend/tricore/tricore_encoding.hpp:62-88 | exactly one half of each pair can start an extended register, and both halves are of the same class |
| TricoreEncoding.InstrWidths | src/core/compiler/backend/tricore/tricore_encoding.hpp:293-295 | every opcode template is a 16-bit instruction exactly when bit 0 is clear (it is even); so ADD Da,Db (0x0042) is 16-bit and ADD Dc,Da,Db (0x000B) is not |
| TricoreEncoding.FlagsOr | src/core/compiler/backend/tricore/tricore_encoding.hpp:105-124 | a comparison flag is set in the union iff it is set in either argument |
| TricoreEncoding.FlagsOrLaws | src/core/compiler/backend/tricore/tricore_encoding.hpp:105-124 | no flags is the identity; the union is commutative, idempotent and associative |
| CommonTables.GroupShapes | wasm-compiler/src/core/compiler/common/Common.hpp:52-67 | every entry of the operand-type table has real operand and result types, a second operand of the first's type or none, and only binary entries commutative; comparisons give I32, numeric operations keep their type, conversions are unary |
| CommonTables.GetArithArgs | wasm-compiler/src/core/compiler/common/Common.hpp:98-103 | the entry of an arithmetic opcode is well typed; a comparison's result is I32, a numeric operation's result has its operand type, and a conversion takes one operand |
| CommonTables.ArithArgsSize | wasm-compiler/src/core/compiler/common/Common.hpp:93-94 | the table has one entry per opcode from i32.eqz to i64.extend32_s |
| CommonTables.CommutativeExactly | wasm-compiler/src/core/compiler/common/Common.hpp:52-67 | an entry is marked commutative iff the opcode is eq/ne of any type, integer add/mul/and/or/xor or float add/mul/min/max |
| CommonTables.GroupTraps | wasm-compiler/src/core/compiler/common/Common.hpp:75-90 | within the trap table, exactly the integer div/rem entries and the float-to-integer truncations are set |
| CommonTables.OpcodeCanTrap | wasm-compiler/src/core/compiler/common/Common.hpp:357-360 | an arithmetic opcode can trap iff it is an integer division or remainder or a float-to-integer truncation |
| CommonTables.TrapsProduceIntegers | wasm-compiler/src/core/compiler/common/Common.hpp:75-90 | a trapping operation yields an integer, either from two operands of that type or from one float operand |
| CommonTables.GetArithArity | wasm-compiler/src/core/compiler/common/Common.cpp:58-68 | select takes three operands, a load one, an arithmetic opcode two iff its entry has a second operand type |
| CommonTables.ArityMatchesStandard | wasm-compiler/src/core/compiler/common/Common.cpp:58-68 | an arithmetic opcode takes two operands iff the WebAssembly standard makes it a binary operation, otherwise one |
| CommonTables.GetLoadResultType | wasm-compiler/src/core/compiler/common/Common.hpp:107-115 | a load pushes F32 iff f32.load, F64 iff f64.load, I64 iff i64.load or a narrow i64 load, I32 iff i32.load or a narrow i32 load |
| StackElements.EqualsVariable | wasm-compiler/src/core/compiler/common/StackElement.hpp:154-190 | a missing element is never equal; equal elements are data of the same type; two temporary results are equal iff type, storage kind and location agree |
| StackElements.EqualsSymmetric | wasm-compiler/src/core/compiler/common/StackElement.hpp:154-190 | equality of stack elements is symmetric |
| StackElements.EqualsReflexive | wasm-compiler/src/core/compiler/common/StackElement.hpp:154-190 | an element equals itself iff it stands for data |
| StackElements.EqualsTransitive | wasm-compiler/src/core/compiler/common/StackElement.hpp:154-190 | equality of stack elements is transitive |
| StackElements.MakeBlock | wasm-compiler/src/core/compiler/common/StackElement.hpp:202-215 | a block, loop or if-block element keeps its arguments and starts with the unchecked end state |
| StackElements.I32Const | wasm-compiler/src/core/compiler/common/StackElement.hpp:272-277 | an i32 constant holds its value in the low four bytes |
| StackElements.I64Const | wasm-compiler/src/core/compiler/common/StackElement.hpp:284-289 | an i64 constant holds its value in all eight bytes |
| StackElements.F32Const | wasm-compiler/src/core/compiler/common/StackElement.hpp:296-301 | an f32 constant holds its bit pattern in the low four bytes |
| StackElements.F64Const | wasm-compiler/src/core/compiler/common/StackElement.hpp:308-313 | an f64 constant holds its bit pattern in all eight bytes |
| StackElements.ConstEquality | wasm-compiler/src/core/compiler/common/StackElement.hpp:154-190 | two constants of one factory are equal iff their values are; constants of different types never are |
| StackElements.ConstantZero | wasm-compiler/src/core/compiler/common/StackElement.hpp:435-451 | a factory constant is zero iff its value or bit pattern is zero, so float -0.0 is not zero |
| StackElements.DummyConst | wasm-compiler/src/core/compiler/common/StackElement.hpp:321-334 | the dummy constant of a type is a zero constant of that type |
| StackElements.ScratchReg | wasm-compiler/src/core/compiler/common/StackElement.hpp:342-348 | a scratch-register element keeps its register and type |
| StackElements.TempResultOf | wasm-compiler/src/core/compiler/common/StackElement.hpp:369-384 | a temporary result keeps its type, storage kind and location, and lives in stack memory iff its storage is the stack frame |
| StackElements.Action | wasm-compiler/src/core/compiler/common/StackElement.hpp:424-431 | a deferred action keeps opcode, side effect and data offset and is not data |
| StackElements.ActionOf | wasm-compiler/src/core/compiler/common/StackElement.hpp:413-415 | the one-argument action is the action with no side effect and no data offset |
| CompilerCommon.MergeControlFlowState | wasm-compiler/src/core/compiler/common/Common.cpp:1111-1117 | the merged checked frame size is at most either input's, and is one of them |
| CompilerCommon.MergeLaws | wasm-compiler/src/core/compiler/common/Common.cpp:1111-1117 | merging is commutative, associative and idempotent, with the unchecked state as identity |
| CompilerCommon.FreshBlockNeutral | wasm-compiler/src/core/compiler/common/StackElement.hpp:202-215 | merging with a new block's end state changes nothing |
| CompilerCommon.CompilerState.EmitBranchMergePoint | wasm-compiler/src/core/compiler/common/Common.cpp:1120-1131 | at a block end the state is the merge with the block's end state when reachable and the end state alone otherwise; nothing else changes |
| CompilerCommon.CompilerState.MergeStateAtBranchDivergePoint | wasm-compiler/src/core/compiler/common/Common.cpp:1134-1140 | a reachable branch to a block or if-block merges the current state into that block's end state; branches to loops or empty targets change nothing |
| CompilerCommon.CompilerState.EmitBranchDivergePoints | wasm-compiler/src/core/compiler/common/Common.cpp:1149-1157 | after a branch table, exactly the listed non-loop blocks have the current state merged into their end state |
| CompilerCommon.ChainDescends | wasm-compiler/src/core/compiler/common/Common.cpp:1333-1352 | along sibling links each further operand lies strictly below the previous one |
| CompilerCommon.AdoptOperands | wasm-compiler/src/core/compiler/common/Common.cpp:1339-1350 | on the link lists alone: exactly the arity operands get the new element as parent and every other element keeps its parent; links stay well formed (siblings below, parents above); the new element takes the deepest operand's sibling, that operand's link is cut, and every other sibling link is unchanged |
| CompilerCommon.CompilerState.PushDeferredAction | wasm-compiler/src/core/compiler/common/Common.cpp:1333-1352 | the action is pushed on top with no parent; exactly its arity operands down the sibling chain get it as parent and no other element's parent changes; it takes over the deepest operand's sibling, that operand's link is cut and no other sibling link changes; a side effect sets the pending flag for good |
| ModuleInfos.OffsetHandler.constructor | wasm-compiler/src/core/compiler/common/ModuleInfo.hpp:107-108 | a new handle has offset 0 and no memory |
| ModuleInfos.OffsetHandler.SetOffset | wasm-compiler/src/core/compiler/common/ModuleInfo.hpp:55-58 | the handle keeps the offset and the memory writer |
| ModuleInfos.OffsetHandler.GetPtr | wasm-compiler/src/core/compiler/common/ModuleInfo.hpp:72-78 | the pointer is null iff no memory was set, otherwise the writer's base plus the offset |
| ModuleInfos.OffsetHandler.ElementAddress | wasm-compiler/src/core/compiler/common/ModuleInfo.hpp:93-96 | element i lies i element sizes past the pointer |
| ModuleInfos.ElementsContiguous | wasm-compiler/src/core/compiler/common/ModuleInfo.hpp:93-96 | elements follow each other without overlap, the first at base plus offset |
| ModuleInfos.DefsDisjoint | wasm-compiler/src/core/compiler/common/ModuleInfo.hpp:194-208 | imported records and then defined records tile the definitions array without overlap |
| ModuleInfos.SigInsideDef | wasm-compiler/src/core/compiler/common/ModuleInfo.hpp:194-208 | the signature index of an imported record lies inside that record |
| ModuleInfos.SigIndexRoundTrip | wasm-compiler/src/core/compiler/common/ModuleInfo.hpp:225-231 | reading the signature index at a function's place gives the index stored for that function, imported or defined |
| ModuleInfos.FunctionIsBuiltin | wasm-compiler/src/core/compiler/common/ModuleInfo.hpp:238-244 | only imported functions can be builtins; an import is one iff its builtin is defined |
| ModuleInfos.FunctionIsV2Import | wasm-compiler/src/core/compiler/common/ModuleInfo.hpp:249-254 | only imported functions can be V2 imports; an import is one iff it uses the V2 interface |
| ModuleInfos.LocalDef.MarkLocalInitialized | wasm-compiler/src/core/compiler/common/ModuleInfo.hpp:312-315 | a constant-zero local moves to REGISTER iff it has a register, else to STACKMEMORY; nothing else changes |
| ModuleInfos.ReferenceTable.SetupReferenceMap | wasm-compiler/src/core/compiler/common/ModuleInfo.hpp:402-427 | one empty slot per register, local and global plus one; the kinds' first slots are 0, registers, registers+locals and the last slot |
| ModuleInfos.GetReferencePosition | wasm-compiler/src/core/compiler/common/ModuleInfo.hpp:433-461 | a temporary result's slot is its stored reference position |
| ModuleInfos.ReferencePositionsDistinct | wasm-compiler/src/core/compiler/common/ModuleInfo.hpp:433-465 | after setup, every in-range register, local and global has its own slot below the stack-memory slot; equal slots mean the same variable |
| ModuleInfos.FixedFrameWidth | wasm-compiler/src/core/compiler/common/ModuleInfo.hpp:513-515 | the fixed frame is parameters, locals and the return address padded to a multiple of eight, and covers the frame before a return plus the locals |
| ModuleInfos.RegisterBudget | wasm-compiler/src/core/compiler/common/ModuleInfo.hpp:595-623 | within the budgets, statically allocated and scratch registers fit the register file, locals start after the globals, and forced pressure uses all non-scratch registers |
| CommonReferences.GroupIndex | wasm-compiler/src/core/compiler/common/Common.cpp:699-735 | the search from group j stops at the first group whose frame position is not above fp: every group passed lies above fp, the one found does not |
| CommonReferences.JoinsAt | wasm-compiler/src/core/compiler/common/Common.cpp:699-735 | a temporary result joins an existing group iff the group the search stops at has its frame position; otherwise its new group goes in that place |
| CommonReferences.FindGroup | wasm-compiler/src/core/compiler/common/Common.cpp:699-725 | the walk down the chain stops at a group not below e's frame position with every group before it above e; when that group is above e, the next lower group is below e or missing |
| CommonReferences.Push | wasm-compiler/src/core/compiler/common/Common.cpp:737-743 | e gets no next occurrence and the old top as previous one, the old top gets e as next, and the cell names e |
| CommonReferences.LinkTemp | wasm-compiler/src/core/compiler/common/Common.cpp:684-743 | for a temporary result in stack memory the updated links are exactly those of joining the group at its frame position or of starting a new group in its place in the chain |
| CommonReferences.LinkElement | wasm-compiler/src/core/compiler/common/Common.cpp:673-743 | `addReference` of a variable yields exactly the specified links and group tops, and the lists stay well formed with e linked last |
| CommonReferences.AddReferenceValid | wasm-compiler/src/core/compiler/common/Common.cpp:673-743 | after `addReference` slots still hold linked elements of their own slot, prev and next stay mutual and within one list, only tops lack a next, and the group chain keeps strictly decreasing frame positions |
| CommonReferences.AddReferenceTop | wasm-compiler/src/core/compiler/common/Common.cpp:737-743 | the added element is the top of its list, with no next, the old top as previous, and itself as the old top's next |
| CommonReferences.AddReferenceRanked | wasm-compiler/src/core/compiler/common/Common.cpp:737-743 | every previous occurrence was linked earlier than the element after it, so the lists stay acyclic |
| CommonReferences.ReachesTop | wasm-compiler/src/core/compiler/common/Common.cpp:737-743 | following next occurrences from a linked element ends at the top of its list, which is on the same list |
| CommonReferences.GroupFound | wasm-compiler/src/core/compiler/common/Common.cpp:790-809 | the search of `removeReference` finds the group of a linked temporary result, and a group top is the top of that group |
| CommonReferences.UnlinkElement | wasm-compiler/src/core/compiler/common/Common.cpp:776-835 | `removeReference` of a linked variable yields exactly the specified links and group tops, and the remaining lists stay well formed |
| CommonReferences.RemoveReferenceValid | wasm-compiler/src/core/compiler/common/Common.cpp:811-835 | after `removeReference` the lists without e are well formed: a sole element hands its cell to the next lower group, a top hands list and chain link to its predecessor, a middle element is spliced out |
| CommonReferences.WritableAlone | wasm-compiler/src/core/compiler/common/Common.cpp:84-105 | a scratch register is writable iff no other linked element has its reference slot |
| ReferenceLists.OccurrenceLists.constructor | wasm-compiler/src/core/compiler/common/ModuleInfo.hpp:402-427 | every reference slot starts empty and no element is linked |
| ReferenceLists.OccurrenceLists.AddReference | wasm-compiler/src/core/compiler/common/Common.cpp:673-744 | a constant changes nothing; a variable's links become the specified ones, it joins the linked elements, and the lists stay well formed |
| ReferenceLists.OccurrenceLists.RemoveReference | wasm-compiler/src/core/compiler/common/Common.cpp:776-836 | constants, invalid elements and deferred actions change nothing; a linked variable is unlinked as specified and the lists stay well formed |
| StackFrames.AlignFrame | wasm-compiler/src/core/compiler/backend/tricore/tricore_assembler.hpp:209-212 | the part of the aligned size above the parameter width is a multiple of 2^p, modulo 2^32 |
| StackFrames.AlignFrameLeast | wasm-compiler/src/core/compiler/backend/tricore/tricore_assembler.hpp:209-212 | without wrap-around the aligned size is the least size at or above the request whose part below the parameters is a multiple of 2^p |
| StackFrames.AlignFrameBounds | wasm-compiler/src/core/compiler/backend/tricore/tricore_assembler.hpp:209-212 | without wrap-around the aligned size is the part below the parameters rounded up to 2^p plus the parameters: at least the request, less than 2^p above it, and aligned |
| StackFrames.AlignFrameIdempotent | wasm-compiler/src/core/compiler/backend/tricore/tricore_assembler.hpp:209-212 | aligning an aligned frame size changes nothing |
| TricoreAssembler.NegateKind | wasm-compiler/src/core/compiler/backend/tricore/tricore_assembler.hpp:134-139 | the negated kind is the other member of its pair (the kinds are paired by their position divided by two) |
| TricoreAssembler.NegateJump | wasm-compiler/src/core/compiler/backend/tricore/tricore_assembler.hpp:134-139 | negation changes only the kind, to its partner; registers and immediate are kept |
| TricoreAssembler.NegateJumpInvolution | wasm-compiler/src/core/compiler/backend/tricore/tricore_assembler.hpp:134-139 | negating a jump condition twice gives it back |
| TricoreAssembler.FactoryNegations | wasm-compiler/src/core/compiler/backend/tricore/tricore_assembler.hpp:74-139 | bitTrue and bitFalse, eq and ne against a constant negate into each other; lt negates to ge and ne to eq for the other factories |
| TricoreAssembler.AlignStackFrameSize | wasm-compiler/src/core/compiler/backend/tricore/tricore_assembler.hpp:209-212 | the frame below the parameters is aligned to 8 bytes; without wrap-around it lies in [request, request + 8), so it is the least such size; aligning again changes nothing |
| TricoreAssembler.SplitImm | wasm-compiler/src/core/compiler/backend/tricore/tricore_assembler.cpp:423-483 | a 32-bit value is its sign-extended low half plus its high half shifted by 16, modulo 2^32; a value with a zero low half is its high half alone |
| TricoreAssembler.AddHalves | wasm-compiler/src/core/compiler/backend/tricore/tricore_assembler.cpp:423-483 | adding the low half and then the shifted high half adds the whole value modulo 2^32 |
| TricoreAssembler.AddImmCode | wasm-compiler/src/core/compiler/backend/tricore/tricore_assembler.cpp:423-483 | at most two instructions; for zero, nothing exactly when the target is the source register; a single instruction for a 4-bit signed value in a data register when the target is the register or D15 is involved |
| TricoreAssembler.AddImmEffect | wasm-compiler/src/core/compiler/backend/tricore/tricore_assembler.cpp:423-483 | running the emitted code sets the target register to the source register plus imm modulo 2^32 and changes no other register |
| TricoreAssembler.SubSpCode | wasm-compiler/src/core/compiler/backend/tricore/tricore_assembler.cpp:485-495 | nothing exactly for 0, one instruction below 256 |
| TricoreAssembler.SubSpEffect | wasm-compiler/src/core/compiler/backend/tricore/tricore_assembler.cpp:485-495 | running the emitted code lowers SP by imm modulo 2^32 and changes no other register |
| TricoreAssembler.MovImmCode | wasm-compiler/src/core/compiler/backend/tricore/tricore_assembler.cpp:497-529 | one or two instructions; one for a data register when the value fits 4 signed bits, 16 unsigned bits or the high half alone |
| TricoreAssembler.MovImmEffect | wasm-compiler/src/core/compiler/backend/tricore/tricore_assembler.cpp:497-529 | running the emitted code sets the register to imm and changes no other register |
| TricoreAssembler.FrameAdjustEffect | wasm-compiler/src/core/compiler/backend/tricore/tricore_assembler.cpp:390-421 | shrinking the frame raises SP by the difference; growing it lowers SP by the difference plus the entry adjustment, modulo 2^32 |
| TricoreAssembler.Assembler.AddImmToReg | wasm-compiler/src/core/compiler/backend/tricore/tricore_assembler.cpp:423-483 | appends the add code for the target (the register itself for NONE); the frame size is unchanged |
| TricoreAssembler.Assembler.SubSp | wasm-compiler/src/core/compiler/backend/tricore/tricore_assembler.cpp:485-495 | appends the SP subtraction code; the frame size is unchanged |
| TricoreAssembler.Assembler.MovImm | wasm-compiler/src/core/compiler/backend/tricore/tricore_assembler.cpp:497-529 | appends the move code; the frame size is unchanged |
| TricoreAssembler.Assembler.SetStackFrameSize | wasm-compiler/src/core/compiler/backend/tricore/tricore_assembler.cpp:390-421 | the current size emits nothing; a size above the limit fails with ReachedMaximumStackFrameSize and changes nothing; otherwise SP is adjusted and the size recorded only when not temporary |
| TricoreAssembler.Assembler.AdjustFrame | wasm-compiler/src/core/compiler/backend/tricore/tricore_assembler.cpp:405-409 | appends exactly the SP adjustment between the current and the requested frame size and leaves the recorded size alone |
| TricoreAssembler.LastTrapPositionMap.constructor | wasm-compiler/src/core/compiler/backend/tricore/tricore_assembler.hpp:523-550 | one slot per trap code, every slot 0 (no trap sequence yet) |
| TricoreAssembler.LastTrapPositionMap.Get | wasm-compiler/src/core/compiler/backend/tricore/tricore_assembler.hpp:533-542 | returns the stored position; it is reachable iff it is not 0 and its distance from the current position fits a signed field of the given width |
| TricoreAssembler.LastTrapPositionMap.Set | wasm-compiler/src/core/compiler/backend/tricore/tricore_assembler.hpp:544-546 | only the given trap code's slot changes, to the given position |
| TricoreAssembler.GetMachineTypeFromArgType | wasm-compiler/src/core/compiler/backend/tricore/tricore_assembler.cpp:785-795 | I32 exactly for arg types 0x40-0x7F, I64 exactly for 0x80-0xBF, INVALID otherwise |
| TricoreAssembler.FitsArgTypeExactly | wasm-compiler/src/core/compiler/backend/tricore/tricore_assembler.hpp:582-584 | an operand fits without a move iff the form is NONE, a data register stands in a data-register slot (D15 also in the d15 slot), or a constant in an immediate slot whose range holds it |
| TricoreAssembler.NeedMoveExactly | wasm-compiler/src/core/compiler/backend/tricore/tricore_assembler.hpp:592-595 | a move is needed iff a constant stands in a d15 or data-register slot |
| TricoreAssembler.ConstantLoadCost | wasm-compiler/src/core/compiler/backend/tricore/tricore_assembler.cpp:797-852 | loading a constant costs 2 bytes for a 4-bit signed value (or an 8-bit unsigned one into D15), 4 for a 16-bit signed or unsigned value, 8 otherwise |
| TricoreAssembler.CostBound | wasm-compiler/src/core/compiler/backend/tricore/tricore_assembler.cpp:797-852 | a finite operand cost is at most 8 bytes |
| TricoreAssembler.Movement | wasm-compiler/src/core/compiler/backend/tricore/tricore_assembler.cpp:869-886 | for one source order: invalid exactly when an operand that must be placed cannot be; otherwise the move cost of the first operand plus that of the second (none when it shares the first's place and form kind) plus the instruction's 2 or 4 bytes, so only the instruction when both already fit; one lift per operand moved into a register, the shared one not counted again; which operands need a move |
| TricoreAssembler.InstructionCost | wasm-compiler/src/core/compiler/backend/tricore/tricore_assembler.cpp:854-935 | invalid when D15 is needed and taken or a non-D15 hint meets a d15 destination; only a commutative instruction may swap its sources |
| TricoreAssembler.InstructionCostCheapest | wasm-compiler/src/core/compiler/backend/tricore/tricore_assembler.cpp:854-935 | without the same-register constraint, a commutative instruction costs the cheaper of the two source orders, any other the order as given |
| TricoreAssembler.InstructionCostKeepsDestination | wasm-compiler/src/core/compiler/backend/tricore/tricore_assembler.cpp:854-935 | with the same-register constraint, a valid movement puts first a source that can take the destination |
| Aarch64Assembler.WrapWidthAdd | src/core/compiler/backend/aarch64/aarch64_assembler.cpp:124-157 | adding to a wrapped value and wrapping again is wrapping the sum, in 32 or 64 bits |
| Aarch64Assembler.HalvesRoundTrip | src/core/compiler/backend/aarch64/aarch64_assembler.cpp:470-533 | the 16-bit halfwords of a value, reassembled, give the value modulo 2^(16n) |
| Aarch64Assembler.CountHalfwords | src/core/compiler/backend/aarch64/aarch64_assembler.cpp:474-485 | the loop counts exactly the 0x0000 and the 0xFFFF halfwords |
| Aarch64Assembler.WideMoves | src/core/compiler/backend/aarch64/aarch64_assembler.cpp:494-532 | the loop emits exactly the specified MOVZ/MOVN-then-MOVK sequence |
| Aarch64Assembler.MovWideEffect | src/core/compiler/backend/aarch64/aarch64_assembler.cpp:494-532 | running the halfword moves leaves exactly the wanted halfwords in the register |
| Aarch64Assembler.MovWideLoads | src/core/compiler/backend/aarch64/aarch64_assembler.cpp:470-533 | the halfword moves load imm (modulo the register width), one move per non-background halfword, or a single move when all are background |
| Aarch64Assembler.AddImm24Code | src/core/compiler/backend/aarch64/aarch64_assembler.cpp:124-157 | at most two ADD/SUB instructions, none exactly for delta 0, each with a 12-bit immediate optionally shifted by 12 |
| Aarch64Assembler.AddImm24Effect | src/core/compiler/backend/aarch64/aarch64_assembler.cpp:124-157 | running the code sets the destination to source plus delta modulo the register width and changes nothing else |
| Aarch64Assembler.GetMachineTypeFromArgType | src/core/compiler/backend/aarch64/aarch64_assembler.cpp:784-800 | I32, I64, F64 and F32 exactly for arg types 0x20-0x3F, 0x40-0x5F, 0x60-0x7F and 0x80-0x9F; INVALID otherwise |
| Aarch64Assembler.FitsArgTypeClass | src/core/compiler/backend/aarch64/aarch64_assembler.cpp:289-349 | a fitting operand is a register of the slot's class or a constant of the slot's machine type |
| Aarch64Assembler.FmovExpandsBack | src/core/compiler/backend/aarch64/aarch64_assembler.cpp:428-468 | an encodable value is what VFPExpandImm makes of its imm8 |
| Aarch64Assembler.FmovEncodesExpansion | src/core/compiler/backend/aarch64/aarch64_assembler.cpp:428-468 | every imm8 is encoded back from its VFPExpandImm expansion |
| StackFrames.AlignStackFrameSize16 | src/core/compiler/backend/aarch64/aarch64_assembler.cpp:233-236 | (the same rounding is `alignStackFrameSize` of x86-64 at x86_64_assembler.cpp:101-104) the frame below the parameters is aligned to 16 bytes; without wrap-around it lies in [request, request + 16), so it is the least such size; aligning again changes nothing |
| Aarch64Assembler.MovImmLoads | src/core/compiler/backend/aarch64/aarch64_assembler.cpp:470-533 | when the bitmask move is chosen (fewer than n-1 background halfwords of either kind and an encoding) it is the only instruction; otherwise the code is halfword moves into the register that, whatever it held, leave imm modulo the register width in it, one per non-background halfword or one in all |
| Aarch64Assembler.ProbeStackCode | src/core/compiler/backend/aarch64/aarch64_assembler.cpp:252-287 | nothing exactly when delta is below the 4096-byte page |
| Aarch64Assembler.ProbeStackShape | src/core/compiler/backend/aarch64/aarch64_assembler.cpp:252-287 | from a page on, the code starts by saving SP in the first scratch register, ends by restoring it from there, and its loop branch goes back to the instruction that lowers SP by a page |
| Aarch64Assembler.Assembler.constructor | src/core/compiler/backend/aarch64/aarch64_assembler.cpp:54-58 | the source constructor only stores its references (backend, binary, module info); the model's constructor stores the ABI and function parameters that stand for them, plus the current and maximum frame sizes of the module info, and starts with nothing emitted |
| Aarch64Assembler.Assembler.AddImm24ToReg | src/core/compiler/backend/aarch64/aarch64_assembler.cpp:124-157 | appends the add code (the destination as source for NONE); the frame size is unchanged |
| Aarch64Assembler.Assembler.MovImm | src/core/compiler/backend/aarch64/aarch64_assembler.cpp:470-533 | appends the move code; the frame size is unchanged |
| Aarch64Assembler.Assembler.FmovImm | src/core/compiler/backend/aarch64/aarch64_assembler.cpp:428-468 | reports success iff zero or encodable; emits one FMOV only for a register other than NONE |
| Aarch64Assembler.Assembler.ProbeStack | src/core/compiler/backend/aarch64/aarch64_assembler.cpp:252-287 | appends the probe code for the current position, the load in the middle being what `MovImm` emits; the frame size is unchanged |
| Aarch64Assembler.Assembler.SetStackFrameSize | src/core/compiler/backend/aarch64/aarch64_assembler.cpp:202-231 | the current size emits nothing; a size above the limit fails with ReachedMaximumStackFrameSize and changes nothing; otherwise SP moves by the difference and the size is recorded only when not temporary |
| Aarch64Assembler.FrameChangeMovesSp | src/core/compiler/backend/aarch64/aarch64_assembler.cpp:202-231 | changing the frame moves SP by the old size minus the new one, modulo 2^64 |
| X86Assembler.MachineTypeForArgType | src/core/compiler/backend/x86_64/x86_64_assembler.cpp:479-495 | the machine type is I32, I64, F32 or F64 exactly for the four blocks of 0x20 operand-type codes that TYPEMASK selects, INVALID for every other code |
| X86Assembler.ConstantForms | src/core/compiler/backend/x86_64/x86_64_assembler.cpp:513-537 | an I32 constant always fits imm32 and imm8_32, fits c1 iff it is 1 and imm8sx iff it survives sign extension from 8 bits; an I64 constant fits imm8sx_64 and imm32sx_64 iff it survives sign extension from 8 and 32 bits, and c1_64 iff it is 1 |
| X86Assembler.SignExtendFits | src/core/compiler/backend/x86_64/x86_64_assembler.cpp:513-537 | sign-extending the low bits of a value gives the value back iff it lies in the lower half of the field or in the top half-field below 2^width |
| X86Assembler.FitsArgTypeClass | src/core/compiler/backend/x86_64/x86_64_assembler.cpp:497-568 | any form other than NONE rejects an invalid storage; a register fits only forms of its own class (its exact type for floats), a constant only immediate forms of its own type, memory only the register-or-memory form of its own type |
| X86Assembler.ClassFormsFit | src/core/compiler/backend/x86_64/x86_64_assembler.cpp:540-568 | a register fits every register and register-or-memory form of its class, including the 128-bit restricted ones for floats; memory fits the register-or-memory form of its type and no register-only form |
| X86Assembler.ProbeStackCode | src/core/compiler/backend/x86_64/x86_64_assembler.cpp:150-184 | nothing is emitted exactly when the frame grows by less than a page |
| X86Assembler.LoopOnce | src/core/compiler/backend/x86_64/x86_64_assembler.cpp:172-179 | the four loop instructions lower SP by a page, read at the new SP, count the size down by a page and branch back exactly when the count was above a page |
| X86Assembler.LoopRuns | src/core/compiler/backend/x86_64/x86_64_assembler.cpp:172-179 | while the count stays above a page the branch is taken, so 4k instructions are k passes of the loop |
| X86Assembler.PassesEffect | src/core/compiler/backend/x86_64/x86_64_assembler.cpp:172-182 | from a count in (k-1 pages, k pages], k passes fall out of the loop with SP and the count k pages lower and the k pages below SP read in order |
| X86Assembler.ProbeStackRuns | src/core/compiler/backend/x86_64/x86_64_assembler.cpp:150-184 | running the emitted sequence for a frame of at least a page reads every page below SP down to the one that covers the frame, restores SP, and changes only the two scratch registers |
| X86Assembler.EmittedProbeAt | src/core/compiler/backend/x86_64/x86_64_assembler.cpp:150-184 | the code a `probeStack` call appends, at the end of the binary, is the sequence whose run `ProbeStackRuns` describes |
| X86Assembler.Assembler.ProbeStack | src/core/compiler/backend/x86_64/x86_64_assembler.cpp:150-184 | appends the probe sequence, whose loop branches back to the position after the two loads, and leaves the frame size alone |
| X86Assembler.Assembler.SetStackFrameSize | src/core/compiler/backend/x86_64/x86_64_assembler.cpp:108-139 | an unchanged size emits nothing; a size above the maximum fails with ReachedMaximumStackFrameSize and changes nothing; otherwise one LEA by old minus new is emitted and the size recorded unless temporary |
| X86Assembler.FrameChangeMovesSp | src/core/compiler/backend/x86_64/x86_64_assembler.cpp:123-128 | the LEA moves SP by the old size minus the new one, modulo 2^64, and leaves the flags untouched |
| BackendAllocation.X86ConventionsWellFormed | src/core/compiler/backend/x86_64/x86_64_cc.hpp:108-124 | the System V and Windows x64 conventions keep integer and floating-point registers in their own lists, Windows counts both classes jointly and System V separately |
| BackendAllocation.RegStackTracker.constructor | wasm-compiler/src/core/compiler/backend/x86_64/x86_64_backend.cpp:778-795 | a fresh tracker has handed out no register and no stack byte |
| BackendAllocation.GetREGForArg | wasm-compiler/src/core/compiler/backend/x86_64/x86_64_backend.cpp:1067-1109 | the register an argument gets is the convention's choice for the counters so far; the counter of the register's class goes up by one exactly when a register is given, and the stack bytes stay |
| BackendAllocation.ArgRegAt | wasm-compiler/src/core/compiler/backend/x86_64/x86_64_backend.cpp:1067-1109 | argument i of a call gets the register the convention chooses with the counters the first i arguments leave |
| BackendAllocation.ArgRegPick | wasm-compiler/src/core/compiler/backend/x86_64/x86_64_backend.cpp:1067-1109 | with a counter per class, an argument takes the next register of its own class's list and advances only that class's counter |
| BackendAllocation.CountersSeparate | wasm-compiler/src/core/compiler/backend/x86_64/x86_64_backend.cpp:1067-1109 | with separate counters, the integer counter ends at the number of integer arguments capped by the integer list, the float counter likewise |
| BackendAllocation.ArgRegsSeparate | wasm-compiler/src/core/compiler/backend/x86_64/x86_64_backend.cpp:1067-1109 | with separate counters, argument i takes entry k of its class's list, where k counts the earlier arguments of that class |
| BackendAllocation.ArgRegsDebug | wasm-compiler/src/core/compiler/backend/x86_64/x86_64_backend.cpp:1067-1109 | in debug mode no argument of a Wasm call gets a register |
| BackendAllocation.CountersMutual | wasm-compiler/src/core/compiler/backend/x86_64/x86_64_backend.cpp:1067-1109 | with one counter for both classes, the registers handed out are the argument count capped by the parameter list |
| BackendAllocation.ArgRegsMutual | wasm-compiler/src/core/compiler/backend/x86_64/x86_64_backend.cpp:1067-1109 | with one counter, argument i takes position i of its class's list, or the stack from the list's length on |
| BackendAllocation.CountSomeArgRegs | wasm-compiler/src/core/compiler/backend/x86_64/x86_64_backend.cpp:1067-1109 | the arguments that get a register are exactly as many as the two counters add up to |
| BackendAllocation.GetStackParamWidth | wasm-compiler/src/core/compiler/backend/x86_64/x86_64_backend.cpp:778-795 | the loop over the parameters (and, for a native call, the context pointer) sums eight bytes per parameter that gets no register |
| BackendAllocation.WasmStackParamWidth | wasm-compiler/src/core/compiler/backend/x86_64/x86_64_backend.cpp:778-795 | outside debug mode, a Wasm call's stack width is eight bytes per integer and per float argument beyond the parameter registers |
| BackendAllocation.DebugStackParamWidth | wasm-compiler/src/core/compiler/backend/x86_64/x86_64_backend.cpp:778-795 | in debug mode every Wasm argument takes eight stack bytes |
| BackendAllocation.CountersDebug | wasm-compiler/src/core/compiler/backend/x86_64/x86_64_backend.cpp:1067-1109 | in debug mode a Wasm call's counters stay at zero |
| BackendAllocation.MutualStackParamWidth | wasm-compiler/src/core/compiler/backend/x86_64/x86_64_backend.cpp:778-795 | with one counter, a native call's stack width is eight bytes per argument, context pointer included, beyond the parameter list |
| BackendAllocation.SeparateStackParamWidth | wasm-compiler/src/core/compiler/backend/x86_64/x86_64_backend.cpp:778-795 | with separate counters, a native call's stack width is eight bytes per integer argument (context pointer included) and per float argument beyond each list |
| BackendAllocation.OffsetInStackArgs | wasm-compiler/src/core/compiler/backend/x86_64/x86_64_backend.cpp:1054-1065 | a native argument under a right-to-left convention sits at the running byte count, any other counts down from the end of the area; the count grows by eight and the register counters stay |
| BackendAllocation.StackArgSlots | wasm-compiler/src/core/compiler/backend/x86_64/x86_64_backend.cpp:1054-1065 | in an area of n slots, Wasm argument j lands in slot n-1-j and a right-to-left native argument in slot j, mirror images of each other |
| BackendAllocation.GetREGForReturnValue | wasm-compiler/src/core/compiler/backend/x86_64/x86_64_backend.cpp:1118-1133 | a return value takes the next return register of its class while one is left, and only that class's counter advances |
| BackendAllocation.OffsetInStackReturnValues | wasm-compiler/src/core/compiler/backend/x86_64/x86_64_backend.cpp:1111-1116 | a return value on the stack sits at the running byte count, which grows by eight |
| BackendAllocation.RegLocals | wasm-compiler/src/core/compiler/backend/x86_64/x86_64_backend.cpp:453-500 | the locals that get a register are at most the multiplicity and stay within the class's budget |
| BackendAllocation.FrameLayout.constructor | wasm-compiler/src/core/compiler/backend/x86_64/x86_64_backend.cpp:453-500 | a fresh function has no locals, no parameters, no registers taken and the given frame size |
| BackendAllocation.FrameLayout.AllocateRegForGlobal | src/core/compiler/backend/aarch64/aarch64_backend.cpp:129-142 | an integer global takes the next register of the class after the globals so far; a float global gets none; nothing else changes |
| BackendAllocation.FrameLayout.AllocateLocal | wasm-compiler/src/core/compiler/backend/x86_64/x86_64_backend.cpp:453-500 | the first RegLocals locals take consecutive registers of their class, the rest eight-byte frame slots; the counters, the frame size and the parameter or direct-locals width grow accordingly, earlier locals stay, and the layout stays valid |
| BackendAllocation.PlaceLocals | wasm-compiler/src/core/compiler/backend/x86_64/x86_64_backend.cpp:453-500 | the allocation loop returns exactly the `PlacedLocals` sequence: the first RegLocals locals in consecutive registers, the rest in new eight-byte slots, with the counters and widths grown by the same amounts |
| BackendAllocation.PlacedStep | wasm-compiler/src/core/compiler/backend/x86_64/x86_64_backend.cpp:453-500 | one pass of the allocation loop places local i where the closed form `PlacedLocal` says |
| BackendAllocation.PlacedLocalsDisjoint | wasm-compiler/src/core/compiler/backend/x86_64/x86_64_backend.cpp:453-500 | two locals of one allocation never share a register or a frame slot; the frame slots are aligned and lie within the frame growth |
| BackendAllocation.GlobalsApartFromParams | wasm-compiler/src/core/compiler/backend/x86_64/x86_64_backend.cpp:1067-1109 | an integer argument of a Wasm call never gets a register that holds a global |
| BackendAllocation.GetRegAllocCandidate | wasm-compiler/src/core/compiler/backend/x86_64/x86_64_backend.cpp:133-192 | the candidate is free exactly when some non-static register of the class is free, and then it is the first one; otherwise it is the first unprotected scratch register on the stack, or failing that the last scratch register of the class on the stack |
| BackendAllocation.GetUnderlyingRegIfSuitable | wasm-compiler/src/core/compiler/backend/x86_64/x86_64_backend.cpp:3730-3747 | a register is returned exactly when the hint is a register of a suiting type outside the mask, and it is the hint's register |
| BackendAllocation.SuitableUnderLargerMask | wasm-compiler/src/core/compiler/backend/x86_64/x86_64_backend.cpp:3730-3747 | a register suitable under a larger mask is suitable, and the same, under a smaller one |
| BackendAllocation.X86MemcpyPlan | wasm-compiler/src/core/compiler/backend/x86_64/x86_64_backend.cpp:1614-1746 | the size is split into eight-byte words and fewer than eight bytes; each part is unrolled exactly when it has at most three steps |
| BackendAllocation.Aarch64MemcpyPlan | src/core/compiler/backend/aarch64/aarch64_backend.cpp:2038-2216 | the size is split into 16-byte pairs, at most one eight-byte word and fewer than eight bytes; each loop is unrolled exactly when it has at most two steps |
| BackendAllocation.MemcpyPlanUnique | src/core/compiler/backend/aarch64/aarch64_backend.cpp:2048-2053 | that split is the only one with those bounds |
| Aarch64Backend.InGprClassIsGPR | src/core/compiler/backend/aarch64/aarch64_encoding.hpp:49-51 | the register-class test of the spill code is the encoder's `isGPR` |
| Aarch64Backend.PairInRangeBounds | src/core/compiler/backend/aarch64/aarch64_backend.cpp:1171-1202 | the pair guard, with its unsigned subtraction, holds exactly for lists of 2 to 65 registers and a first register before the last |
| Aarch64Backend.SpillRestoreRegsRaw | src/core/compiler/backend/aarch64/aarch64_backend.cpp:1171-1202 | the loop emits the loads or stores the recursive `SpillOps` describes |
| Aarch64Backend.SlotsFromAt | src/core/compiler/backend/aarch64/aarch64_backend.cpp:1171-1202 | register j of the list is saved at byte 8j |
| Aarch64Backend.SpillSlots | src/core/compiler/backend/aarch64/aarch64_backend.cpp:1171-1202 | the emitted pairs and singles together save every register of the list at byte 8j, in order |
| Aarch64Backend.SpillOpsWellFormed | src/core/compiler/backend/aarch64/aarch64_backend.cpp:1171-1202 | every operation loads when restoring and stores when spilling; a pair joins two registers of one class at an offset the 7-bit field reaches; a single uses its register's class |
| Aarch64Backend.TempRegManager.constructor | wasm-compiler/src/core/compiler/backend/aarch64/aarch64_backend.hpp:62-65 | neither temporary register has been clobbered |
| Aarch64Backend.TempRegManager.GetTempGPR | wasm-compiler/src/core/compiler/backend/aarch64/aarch64_backend.hpp:72-88 | the first request gets the extra register, the second linMem, and each records the clobber; a third request is refused by the precondition, as the source's UNREACHABLE does |
| Aarch64Backend.Mask | wasm-compiler/src/core/compiler/backend/aarch64/aarch64_backend.hpp:551-554 | the mask holds the register and nothing else, whatever the width |
| Aarch64Backend.OuterMiddle | wasm-compiler/src/core/compiler/backend/aarch64/aarch64_backend.hpp:950-956 | below 2^32, the bits kept by 0xFF000FFF and the bits 12-23 add up to the value |
| Aarch64Backend.SplitDisp | wasm-compiler/src/core/compiler/backend/aarch64/aarch64_backend.hpp:941-964 | the displacement left for the instruction fits its field |
| Aarch64Backend.SplitDispAddress | wasm-compiler/src/core/compiler/backend/aarch64/aarch64_backend.hpp:941-964 | whichever way it is split, the displacement reaches the original address; nothing is emitted exactly when it fits, and otherwise the temporary register is the new base |
| Aarch64Backend.StackDispInFrame | wasm-compiler/src/core/compiler/backend/aarch64/aarch64_backend.hpp:929-934 | a frame slot's displacement from SP is the frame size minus its position |
| Aarch64Backend.GetMemRegDisp | wasm-compiler/src/core/compiler/backend/aarch64/aarch64_backend.hpp:918-965 | link data is addressed from jobMem and frame slots from SP; a displacement that fits is used as it is, otherwise it is split into the given temporary register or the manager's next one, and the manager changes only when it is asked |
| TricoreBackend.WidthInStack | wasm-compiler/src/core/compiler/backend/tricore/tricore_backend.cpp:759-761 | eight bytes for a 64-bit type, four otherwise |
| TricoreBackend.Tracker.constructor | wasm-compiler/src/core/compiler/backend/tricore/tricore_backend.cpp:732-743 | a fresh tracker has no register taken, none remembered and no stack bytes |
| TricoreBackend.Tracker.GetREGForArg | wasm-compiler/src/core/compiler/backend/tricore/tricore_backend.cpp:763-815 | the register and the new counters are the native or Wasm step for the old counters; the stack bytes stay |
| TricoreBackend.ImportArgStep | wasm-compiler/src/core/compiler/backend/tricore/tricore_backend.cpp:763-815 | with up to four parameter registers, one native argument takes a register not in use (a 64-bit one an even-aligned free pair), marks exactly it in use, keeps every earlier one in use, and changes nothing when it gets none |
| TricoreBackend.ImportArgs | wasm-compiler/src/core/compiler/backend/tricore/tricore_backend.cpp:763-815 | one register choice per argument |
| TricoreBackend.ImportArgsAt | wasm-compiler/src/core/compiler/backend/tricore/tricore_backend.cpp:763-815 | argument k gets the register of one step from the counters the first k arguments leave |
| TricoreBackend.ImportArgsGrow | wasm-compiler/src/core/compiler/backend/tricore/tricore_backend.cpp:763-815 | the counters stay well formed along the arguments, and a register in use stays in use |
| TricoreBackend.ImportArgsDistinct | wasm-compiler/src/core/compiler/backend/tricore/tricore_backend.cpp:763-815 | two native arguments never share a register, a 64-bit one starts at an even index, and its pair's odd half goes to no later argument |
| TricoreBackend.MissedRegDroppedBeyondFour | wasm-compiler/src/core/compiler/backend/tricore/tricore_backend.cpp:763-815 | with six registers, a second 64-bit argument replaces the remembered register, which is why the other results assume at most four |
| TricoreBackend.WasmArgStep | wasm-compiler/src/core/compiler/backend/tricore/tricore_backend.cpp:763-815 | a Wasm argument never remembers a register, a 64-bit one always goes on the stack, and a 32-bit one takes the next data register after the globals while the budget allows |
| TricoreBackend.Tracker.OffsetInStackArgs | wasm-compiler/src/core/compiler/backend/tricore/tricore_backend.cpp:745-757 | the offset is the stack-argument offset for the old byte count, which then grows by the value's width; the register counters stay |
| TricoreBackend.StackArgRegion | wasm-compiler/src/core/compiler/backend/tricore/tricore_backend.cpp:745-757 | a native argument sits at the running count, a Wasm argument ends where the native one would start from the other end of the area |
| TricoreBackend.Tracker.OffsetInStackReturnValues | wasm-compiler/src/core/compiler/backend/tricore/tricore_backend.cpp:817-821 | a return value on the stack sits at the running count, which grows by its width |
| TricoreBackend.Tracker.GetREGForReturnValue | wasm-compiler/src/core/compiler/backend/tricore/tricore_backend.cpp:823-845 | the register and the new counters are the return-value step for the old counters; the stack bytes stay |
| TricoreBackend.ReturnValueStep | wasm-compiler/src/core/compiler/backend/tricore/tricore_backend.cpp:823-845 | the count stays even; a 64-bit value takes the next pair; a 32-bit value takes the remembered register if there is one, else opens a pair and remembers its other half |
| TricoreBackend.RegLocals | wasm-compiler/src/core/compiler/backend/tricore/tricore_backend.cpp:80-125 | only four-byte locals get a data register, within the budget |
| TricoreBackend.PlacedStep | wasm-compiler/src/core/compiler/backend/tricore/tricore_backend.cpp:80-125 | one pass of the allocation loop places local i where the closed form says |
| TricoreBackend.PlaceLocals | wasm-compiler/src/core/compiler/backend/tricore/tricore_backend.cpp:80-125 | the allocation loop returns exactly the `PlacedLocals` sequence: four-byte locals take the next data registers while the budget lasts, the rest new slots of their width, with the counters and widths grown by the same amounts |
| TricoreBackend.AllocateLocal | wasm-compiler/src/core/compiler/backend/tricore/tricore_backend.cpp:80-125 | the first RegLocals locals take consecutive data registers, the rest frame slots of their width; the counters and widths grow accordingly, earlier locals stay, and the layout stays valid |
| TricoreBackend.LocalRegsStatic | wasm-compiler/src/core/compiler/backend/tricore/tricore_backend.cpp:80-125 | a data register at position n after the globals is statically allocated exactly when n is below the number of locals in registers |
| TricoreBackend.IsD15Available | src/core/compiler/backend/tricore/tricore_backend.hpp:520-525 | D15 is available exactly when it is writable and the locals have not used up their register budget |
| TricoreBackend.Mask | wasm-compiler/src/core/compiler/backend/tricore/tricore_backend.cpp:3001-3011 | no register gives an empty mask; a register is in its mask, alone for 32 bits and with the other half of its pair for 64 bits |
| TricoreBackend.ExecPadding | wasm-compiler/src/core/compiler/backend/tricore/tricore_backend.cpp:4826-4831 | the NOPs fill a padding of 0 or 2 bytes exactly |
| TricoreBackend.SplitDispSound | src/core/compiler/backend/tricore/tricore_backend.hpp:892-941 | the split keeps the address, leaves a displacement that fits, adds a positive amount above the range and a negative one below it, and uses the scratch register only when the displacement does not fit |
| TricoreBackend.GetMemRegDisp | src/core/compiler/backend/tricore/tricore_backend.hpp:892-941 | the amount added plus the displacement is the storage's displacement, and the displacement fits the field |
| TricoreBackend.SelectOffset | src/core/compiler/backend/tricore/tricore_backend.hpp:956-965 | the offset used plus what is added equals the offset plus what was added before, the offset used fits, and nothing is added exactly when the offset already fits |
| Runtimes.CheckIsReady | src/core/runtime/Runtime.cpp:85-92 | ready exactly when not disabled and, where required, started; a disabled runtime reports Runtime_is_disabled |
| Runtimes.StartOnce | src/core/runtime/Runtime.cpp:103-112 | start fails exactly when already started; otherwise it calls the pending function (none without one) at most once, marks the runtime started, and a second start fails |
| Runtimes.LinkMemory | src/core/runtime/Runtime.cpp:339-361 | refused exactly on TriCore for an odd base or a length of 2^30 or more; a linked region is empty exactly when its base is null |
| Runtimes.UnlinkMemory | src/core/runtime/Runtime.cpp:339-361 | linking a null, empty region unlinks |
| Runtimes.SetTraceBuffer | src/core/runtime/Runtime.cpp:372-379 | the first word holds the number of records that fit after it, and the rest of the buffer is untouched |
| Runtimes.DemuxTrapCode | src/core/runtime/Runtime.cpp:582-594 | the multiplexed linked-memory trap becomes not-linked exactly when no memory is linked and out-of-bounds otherwise; every other trap stays |
| Runtimes.DemuxIdempotent | src/core/runtime/Runtime.cpp:582-594 | demultiplexing twice is demultiplexing once |
| Runtimes.RecordsUntilEnd | src/core/runtime/Runtime.cpp:383-409 | the records visited are the prefix before the first empty record |
| Runtimes.Runtime.constructor | src/core/runtime/Runtime.hpp:103-107 | a new runtime is enabled, keeps its pending start function, has no memory linked, no trap recorded and empty stack-trace records |
| Runtimes.Runtime.Start | src/core/runtime/Runtime.cpp:103-112 | follows `StartStep`: on success the pending function is called and the runtime is marked started, on failure nothing changes |
| Runtimes.Runtime.LinkMemoryBuffer | src/core/runtime/Runtime.cpp:339-361 | the linked region becomes the checked one on success and stays otherwise |
| Runtimes.Runtime.ResetTrapInfo | src/core/runtime/Runtime.cpp:554-565 | the trap handler and re-entry pointers are cleared and nothing else changes |
| Runtimes.Runtime.HandleTrapCode | src/core/runtime/Runtime.cpp:596-601 | no trap returns normally and leaves the trap state; any trap clears it and is reported demultiplexed |
| Runtimes.Runtime.ResetStacktraceAndDebugRecords | src/core/runtime/Runtime.cpp:383-409 | every record becomes empty and the last-frame pointer is cleared |
| Runtimes.UntilEndPrefix | src/core/runtime/Runtime.cpp:383-409 | a prefix of non-empty records that ends at an empty record or at the end of the buffer is exactly what the iteration visits |
| Runtimes.Runtime.IterateStacktraceRecords | src/core/runtime/Runtime.cpp:383-409 | the loop visits exactly the records before the first empty one |
| Runtimes.NothingAfterReset | src/core/runtime/Runtime.cpp:383-409 | after a reset no record is visited |
| Runtimes.Swap | src/core/runtime/Runtime.hpp:67-86 | swapping distinct runtimes hands over the state, including the job memory and what lives in it (linked memory, trap pointers, stack-trace records, last frame pointer); the source is left disabled, not ready and without job memory or any of that state; swapping with itself changes nothing |
| Runtimes.GetLinearMemoryRegion | src/core/runtime/Runtime.cpp:616-639 | an empty region is always granted; a region past the declared pages fails with out-of-bounds; otherwise it is granted exactly when its last byte can be reached, else it fails with could-not-extend |
| Runtimes.BeforeNul | src/core/runtime/Runtime.cpp:677 | the part of a name `strncmp` compares: the prefix before the first NUL, which holds no NUL and is followed by one when shorter than the name |
| Runtimes.NameMatchesWithoutNul | src/core/runtime/Runtime.cpp:677 | for names without a NUL, the length test plus `strncmp` holds exactly when the names are equal |
| Runtimes.NameMatchesPastNul | src/core/runtime/Runtime.cpp:677 | every name matches itself, and same-length names that differ only after a shared NUL ("a\0b", "a\0c") match |
| Runtimes.FindByNameFirst | src/core/runtime/Runtime.cpp:661-688 | the lookup fails with Function_not_found exactly when no record's name matches (equal length and `strncmp` equal), and otherwise finds the first record whose name matches |
| Runtimes.RecordStartShift | src/core/runtime/Runtime.cpp:661-688 | the start of record i is the start of record i-1 past the first record |
| Runtimes.FindExportedFunctionByName | src/core/runtime/Runtime.cpp:661-688 | the loop over the export records, with the length-and-`strncmp` name test, gives the result of the recursive lookup |
| Runtimes.HasExportedFunctionWithName | src/core/runtime/Runtime.hpp:509-523 | a disabled runtime reports Runtime_is_disabled; otherwise true exactly when some record's name matches by length and `strncmp` |
| Runtimes.FindFunctionByExportedTableIndex | src/core/runtime/Runtime.cpp:691-703 | found exactly when the index is in the table and its entry is not 0xFFFFFFFF, and then it is the binary module's `offsetToEnd` of that entry; otherwise Function_not_found |
| Runtimes.GetGlobalPtr | src/core/runtime/Runtime.hpp:887-900 | a mutable global is in the link data; an immutable one is in the binary and refused exactly when it is to be written |
| Runtimes.GetSignatureType | src/core/runtime/Runtime.hpp:1069-1084 | the character at the offset when there is one, a size mismatch otherwise |
| Runtimes.ValidateNumReturnValue | src/core/runtime/Runtime.hpp:992-997 | accepted exactly when the character before the return types is the parameter terminator |
| Runtimes.ValidateParametersIff | src/core/runtime/Runtime.hpp:1033-1058 | the parameter checks from i pass exactly when the signature holds the expected types from i on |
| Runtimes.ValidateParameterTypesIff | src/core/runtime/Runtime.hpp:1033-1058 | the parameter types are accepted exactly when the signature holds them after its first character and then the terminator |
| Runtimes.ValidateSignatures | src/core/runtime/Runtime.cpp:748-756 | accepted exactly when the signatures are equal; a length difference is a size mismatch, other differences a signature mismatch |
| Disassembler.FirstAtLeast | disassembler/disassembler.cpp:161-184 | the first position from which the addresses reach the bound |
| Disassembler.SplitSpec | disassembler/disassembler.cpp:161-184 | the span is empty when every address lies below the base, starts at or after the base, and lies below the end of the range |
| Disassembler.Split | disassembler/disassembler.cpp:161-184 | the two loops give the span `SplitSpec` describes |
| Disassembler.SplitSorted | disassembler/disassembler.cpp:161-184 | for ascending addresses, the span holds exactly the known addresses inside the range |
| Disassembler.SplitHolds | disassembler/disassembler.cpp:161-184 | every address of the span is a known address inside the range |
| Disassembler.SplitContains | disassembler/disassembler.cpp:161-184 | every known address inside the range is in the span |
| Disassembler.ReadValue | disassembler/disassembler.cpp:354-363 | a read value fits its width |
| Disassembler.ForwardUndoesBackward | disassembler/disassembler.cpp:354-363 | reading forward from where a backward read ends gives the same value and the old cursor |
| Disassembler.ReadWritten | disassembler/disassembler.cpp:354-363 | a little-endian value is read back in both directions |
| Disassembler.Consume | disassembler/disassembler.cpp:413-441 | the cursor moves back by the size rounded up to the alignment, the padded bytes are printed, the string is the first `size` of them, and the base address is rounded down to the alignment |
| Disassembler.AlignDown | disassembler/disassembler.cpp:416 | the shifted address is the largest multiple of the alignment not above it |
| Disassembler.LeadingTabs | disassembler/disassembler.cpp:262-269 | the tabs at the start, up to the first other character |
| Disassembler.TrailingTabs | disassembler/disassembler.cpp:262-269 | the tabs at the end, back to the last other character |
| Disassembler.TrimTabs | disassembler/disassembler.cpp:262-269 | an all-tab string is kept; otherwise the result is the string without its leading and trailing tabs and starts and ends with another character |
| Disassembler.TrimTabsAround | disassembler/disassembler.cpp:262-269 | tabs added around a trimmed string are removed again |
| Disassembler.TrimTabsIdempotent | disassembler/disassembler.cpp:262-269 | trimming twice is trimming once |
| Disassembler.HexByte | disassembler/disassembler.cpp:96-129 | two hex digits per byte |
| Disassembler.HexByteRoundTrip | disassembler/disassembler.cpp:96-129 | the two digits read back to the byte |
| Disassembler.RawBytes | disassembler/disassembler.cpp:96-129 | three characters per byte less the last space |
| Disassembler.RawBytesAt | disassembler/disassembler.cpp:96-129 | byte k's digits are at 3k and 3k+1 |
| Disassembler.RawBytesSpace | disassembler/disassembler.cpp:96-129 | every byte but the last is followed by a space at 3k+2 |
| Disassembler.RawBytesRoundTrip | disassembler/disassembler.cpp:96-129 | every byte reads back from its place in the text |
| Disassembler.PadLeft | disassembler/disassembler.cpp:96-129 | right alignment in the column keeps the text at the end |
| Disassembler.Markers | disassembler/disassembler.cpp:96-129 | one "vv" per byte, space separated |
| Disassembler.PrintBytes | disassembler/disassembler.cpp:96-129 | the hex text goes right-aligned into the 29-character column when it fits; otherwise it becomes the second string and the first holds one marker per byte, at most ten |
| Disassembler.HexText | disassembler/disassembler.cpp:96-129 | the loop writes the text `RawBytes` describes |
| Disassembler.MarkerText | disassembler/disassembler.cpp:96-129 | the loop writes the markers `Markers` describes |
| Disassembler.PrintBytesForm | disassembler/disassembler.cpp:96-129 | the hex text overflows the column exactly for eleven bytes or more |
| Disassembler.RawChunk | disassembler/disassembler.cpp:210-231 | four bytes exactly when four remain and the next known address is at least four away, and then the chunk stops at it; otherwise one byte |
| Disassembler.Step | disassembler/disassembler.cpp:186-248 | an instruction is produced at base plus the position and lies within the code; a raw chunk is produced only between known addresses |
| Disassembler.DisasmStep | disassembler/disassembler.cpp:186-248 | one pass of the loop gives `Step` |
| Disassembler.Disasm | disassembler/disassembler.cpp:186-248 | the loop over the code gives the instructions `DisasmFrom` describes for the span of the known addresses |
| Disassembler.DisasmSpan | disassembler/disassembler.cpp:186-248 | the loop over the code gives `DisasmFrom` for the span |
| Disassembler.DisasmTurn | disassembler/disassembler.cpp:186-248 | one turn either finishes the list or advances the position, keeping what is left to produce |
| Disassembler.DisasmOne | disassembler/disassembler.cpp:186-248 | a failed decode ends the list; otherwise the instruction is the head of the rest |
| Disassembler.DisasmContiguous | disassembler/disassembler.cpp:186-248 | the instructions follow one another without gaps from the start position |
| Disassembler.DisasmNoRawWithoutAddresses | disassembler/disassembler.cpp:186-248 | without known addresses every entry is a decoded instruction |
| Disassembler.StacktraceRecordCount | disassembler/disassembler.cpp:552-555 | the count is below 2^31 |
| Disassembler.DebugMode | disassembler/disassembler.cpp:552-555 | the flag is 0 or the top bit |
| Disassembler.StacktraceWordSplit | disassembler/disassembler.cpp:552-555 | count and flag add up to the word |
| Disassembler.StacktraceWordRoundTrip | disassembler/disassembler.cpp:552-555 | the count and the flag read back from the word built of them |
| Disassembler.ReadWords | disassembler/disassembler.cpp:740-807 | n words are read exactly when n words remain |
| Disassembler.ReadPairs | disassembler/disassembler.cpp:740-807 | n pairs are read exactly when 2n words remain |
| Disassembler.ReadFunction | disassembler/disassembler.cpp:792-805 | a function record takes at least its index and local count, within the words |
| Disassembler.ReadFunctions | disassembler/disassembler.cpp:792-805 | n function records, within the words |
| Disassembler.ReadWordsAt | disassembler/disassembler.cpp:740-807 | the loop gives `ReadWords` |
| Disassembler.ReadPairsAt | disassembler/disassembler.cpp:740-807 | the loop gives `ReadPairs` |
| Disassembler.ReadFunctionAt | disassembler/disassembler.cpp:792-805 | the loop gives `ReadFunction` |
| Disassembler.ReadFunctionsAt | disassembler/disassembler.cpp:792-805 | the loop gives `ReadFunctions` |
| Disassembler.DisassembleDebugMap | disassembler/disassembler.cpp:740-807 | the reads of the header, the globals and the functions give `ReadDebugMap` |
| Disassembler.DebugMapRoundTrip | disassembler/disassembler.cpp:740-807 | a debug map laid out as words is read back whole, whatever follows it |
| SingleCaseTests.Sum | tests/SingleCaseTest.cpp:103-108 | adding two consistent tallies (failures within executed tests within all tests) gives a consistent tally, and the passed tests add up |
| SingleCaseTests.SumMonoid | tests/SingleCaseTest.cpp:103-108 | adding tallies is associative and commutative, and an empty tally adds nothing |
| SingleCaseTests.TestResult.AddAssign | tests/SingleCaseTest.cpp:103-108 | every count grows by the other tally's old count, also when a tally is added to itself, and consistency is kept |
| SingleCaseTests.NanMatches | tests/SingleCaseTest.cpp:457-469 | a value passes a NaN check only with an all-ones exponent and a nonzero fraction |
| SingleCaseTests.ResultPasses | tests/SingleCaseTest.cpp:445-509 | an exact expectation passes exactly on equal bits |
| SingleCaseTests.NanPatternsNested | tests/SingleCaseTest.cpp:457-469 | a canonical NaN passes the arithmetic check, and an arithmetic NaN the plain one |
| SingleCaseTests.F32NanIgnoresSign | tests/SingleCaseTest.cpp:457-469 | the f32 NaN checks give the same answer for a value and its negation |
| SingleCaseTests.F32CanonicalNans | tests/SingleCaseTest.cpp:457-469 | the f32 canonical NaNs are exactly 0x7FC00000 and 0xFFC00000 |
| SingleCaseTests.F64CanonicalNans | tests/SingleCaseTest.cpp:490-502 | the f64 canonical NaNs are exactly 0x7FF8000000000000 and 0xFFF8000000000000 |
| SingleCaseTests.F32ArithmeticNanQuiet | tests/SingleCaseTest.cpp:457-469 | an f32 value is an arithmetic NaN exactly when its exponent is all ones and its quiet bit is set |
| SingleCaseTests.Lookup | tests/SingleCaseTest.cpp:580-603 | the lookup fails exactly when no row has the text, and otherwise gives the code of a row with that text |
| SingleCaseTests.GetTrapCodeFromTrapText | tests/SingleCaseTest.cpp:580-603 | an unknown trap text gives no code; a known one gives the code of its row |
| SingleCaseTests.LookupRow | tests/SingleCaseTest.cpp:580-603 | in a table whose texts differ, looking up a row's text gives that row's code |
| SingleCaseTests.TrapTextsDistinct | tests/SingleCaseTest.cpp:581-596 | no two rows of the trap map share a text |
| SingleCaseTests.TrapTextCodes | tests/SingleCaseTest.cpp:580-603 | every text of the map gives its own code |
| SingleCaseTests.TrapTextsReported | tests/SingleCaseTest.cpp:580-603 | no text gives "no trap" or the multiplexed linked-memory code, and every code given is one the runtime reports unchanged |
| SingleCaseTests.IsExpectedTrap | tests/SingleCaseTest.cpp:604-615 | equal codes are accepted, and different codes only when both are out-of-bounds synonyms |
| SingleCaseTests.ExpectedTrapEquivalence | tests/SingleCaseTest.cpp:604-615 | accepting a trap is reflexive, symmetric and transitive |
| SingleCaseTests.DemuxedLinkedMemoryExpected | tests/SingleCaseTest.cpp:604-615 | with memory linked, the runtime's demultiplexed linked-memory trap is accepted exactly for an out-of-bounds expectation; without it, only for "not linked" |

## Left out

- WasmData.DecodeDataSegment: reads a segment's i32.const offset as a signed LEB128 (`DecodeConstOffset`, the corrected half of the Findings row), while Frontend.cpp:2517 reads it unsigned; a negative offset such as 41 7F 0B is therefore refused here and accepted as 127 by the source (`DecodeConstOffsetAsWritten` models that read).
- WasmData.ParseDataSection: follows `DecodeDataSegment`, so it reads offsets signed where the source reads them unsigned.
- WasmData.DataSectionRoundTrip: is proved for the signed-offset decoder, not for the source's unsigned read.
- The bytecode reader class and the `ErrorCode` values are not part of this model; `WasmReader.BytecodeReader` stands in for the reader's cursor, and its read-past-end and malformed-LEB errors stand in for the reader's exceptions.
- Section bodies other than type, memory, data count and data are abstract in `WasmOrder`: each section is a frame that says whether it is consumed exactly and how many function bodies it produces.
- Custom sections: the name and its UTF-8 check are not tied to the section walk; only whether a custom section is the name section matters.
- Everything the frontend writes to the output binary and to compiler memory (offsets, padding, the data-segment records, the name-section trailer after the loop).
- The `SignatureType` byte values and `WasmType` encodings are not shown; value types use the bytes of the WebAssembly standard, and two signatures are compared as values (equal bytes, as `strncmp` compares them, iff equal signatures).
- `PLACEHOLDER` is assumed to differ from every section id; an unknown id is refused by the move, so the invalid-section-type branch of the switch is not reached.
- The implementation limits (number of types, parameters, results) are parameters.
- The names of the 18 conditional branch conditions are not shown; `BranchCondition` uses their positions.
- X86Encoding.NegateCC: on NONE the source gives 0xFE, which is not a condition code; the model keeps that value rather than mapping it to NONE.
- DwarfBytes.PushLE32: the contract states the appended bytes, not a decoded value; `DwarfBytes.ReadLESmall` states the decode.
- OPCode.hpp is not part of this model; opcodes take the byte values of the WebAssembly binary format, which the frontend uses unchanged as opcodes (`CommonTables`).
- CommonTables.GetArithArgs: the source asserts only the lower bound of the opcode; the upper bound is the table's size, which the model requires as well.
- StackType.hpp is not part of this model; `StackElements.IsData` takes the base types numbered at or below GLOBAL to be the constants and variables, and the structural kinds, deferred actions and skips are never equal data.
- CompilerCommon: the stack's iterators are positions in a list of elements, the empty iterator and `stack_.end()` are both -1; the list's own storage and free-list are not modelled.
- CompilerCommon: the local and register recovery that `emitBranchMergePoint` and `emitBranchDivergePoint` do first (`initializedAllLocal`, `recoverAllLocalsToRegBranch`) emits machine code and is not modelled.
- CompilerCommon.CompilerState.PushDeferredAction: the source relies on the stack holding the action's operands; the model requires that the sibling chain reaches the deepest operand.
- ModuleInfos: the layout of `ImpFuncDef` past its three `uint32_t` fields is not known here, so its size is a parameter of the layout; the bytes of a record other than the signature index are not modelled, and `getImpFuncDef` and `getFuncDef` are modelled by the layout, the values they read by `FunctionTable`.
- ModuleInfos: the numeric values of `StackType` are not known here, so `referenceMap` is four named first slots; the reference slots hold stack positions, -1 for an empty iterator.
- CommonReferences: the stack's iterators are positions, -1 the empty iterator; the element at a position does not change while it is linked, and the extension-only count of used stack slots in `addReference` is not modelled.
- ModuleInfos: the `NBackend` constants (register counts, scratch registers, return-address width) are parameters (`WasmAbi`).
- The ELF container around the DWARF sections, the `.debug_info` and `.debug_abbrev` sections, and the text of `dump`.
- VariableStorage.hpp is not part of this model; `VariableStorages` keeps what the assemblers read of a storage: its machine type and its location (constant bits, register, stack position, link-data offset).
- The assemblers' instructions are abstract: each emitted instruction is a constructor named after its mnemonic, and `Run` gives it the register effect its mnemonic names; the instruction encoders are not modelled.
- TricoreAssembler.LastTrapPositionMap.constructor: the source's array is left to its owner's initialisation; the model starts every slot at 0, the value `get` reads as "no trap sequence yet".
- TricoreAssembler.OperandMovCost: the source indexes its nine-entry constant-cost row by `argType - d15` without a bound check; the model requires a constant's arg type to lie between d15 and const16sx, the only ones the instruction tables use for constants.
- TricoreAssembler.InstructionCost: `inSameLocation` is compared on the location alone and a target hint's equality with an operand on the whole storage.
- `selectInstr` and `emitAbstrInstr` of both assemblers, and `loadArgsToRegsAndPrepDest`: they emit the moves and the instruction the cost model chooses.
- Aarch64Assembler: `processLogicalImmediate` is a foreign encoder; whether a value is a bitmask immediate, and its encoding, are parameters (`logical`, `logicalImmediate`).
- Aarch64Assembler: `addImmToReg` for deltas beyond 24 bits (which loads the delta into a register) and the Windows variant of `probeStack` are not modelled; `addImm24ToReg` and the page-probing loop are.
- Aarch64Assembler.Assembler.FmovImm: floating-point values are their raw bit patterns; only the encodability test and the emitted imm8 are modelled.
- X86Assembler: the Windows variant of `probeStack` (which probes through the first scratch register and leaves SP alone) is not modelled; the model follows the other build.
- X86Assembler.ProbeStackRuns: only the registers, the addresses read and the position are stated; TEST's flags are not modelled because the SUB after it overwrites them, and a size of 2^31 or more (which MOV would sign-extend) is excluded, as no frame reaches INT32_MAX.
- BackendAllocation: registers are numbers and a backend is its `CallConv` constants; the moves, spills and loads the backends emit around allocation are not modelled, nor is the spill of the candidate `getRegAllocCandidate` picks when it is in use.
- BackendAllocation: the AArch64 stack-argument rules are those of the non-Apple build, where every stack argument takes eight bytes; the Apple variant (natural sizes with alignment padding) is not modelled.
- BackendAllocation.X86MemcpyPlan and BackendAllocation.Aarch64MemcpyPlan state how the size is split and which parts are unrolled, not the copy loops they emit.
- TricoreBackend: the results about native arguments assume at most four parameter registers; with more, a second 64-bit argument can overwrite the remembered register (`MissedRegDroppedBeyondFour`).
- TricoreBackend.GetMemRegDisp and Aarch64Backend.GetMemRegDisp: the instructions that add the split-off part to the scratch register are described by the returned split, not emitted; the unreachable storage types are excluded by the precondition.
- Aarch64Backend: `recoverTempGPRs`, which reloads the clobbered registers, emits code and is not modelled; the manager's flags are.
- Runtimes: the allocator callbacks, raw pointer writes into job memory, the stack fence, signal handling and interruption requests (a flag shared across threads) are not modelled; the job memory is a set of fields of the runtime.
- Runtimes.FindExportedFunctionByName: the `nameLength == SIZE_MAX` default, where the length comes from `strlen_s` capped at the maximum string length (Runtime.cpp:662-664), is not modelled; the name is a sequence that carries its length.
- Runtimes.FindFunctionByExportedTableIndex: the binary module class is not part of this model, so its `offsetToEnd` is a parameter rather than a definition.
- Runtimes.GetLinearMemoryRegion: the memory probe that extends linear memory is a parameter; the build with linear-memory bounds checks in generated code is not modelled.
- Runtimes: the trap and error codes are restricted to those the modelled operations produce.
- Runtimes.SetTraceBuffer: the published pointer is the index of word 2 of the buffer.
- Disassembler: Capstone's decoder is a parameter giving the size of the instruction at an address; a size of zero or beyond the remaining bytes is a decoding failure; the text Capstone produces is not modelled.
- Disassembler: the layout of the printed output (colour codes, column text, descriptions) is abstracted to the strings the helpers compute; `printMachineCode` and the walk of `disassemble` over the whole binary are not modelled.
- Disassembler: reading past the end of the binary is a failure (`None`) where the source reads out of bounds.
- SingleCaseTests: parsing the test-suite JSON, loading and running modules, and comparing i32/i64 results (plain equality) are not modelled; the counts are unbounded, as the header that gives their width is not part of this model.
- SingleCaseTests.GetTrapCodeFromTrapText: an unknown text ends the driver (`std::terminate`), which is `None` here.

## Findings

| source | as written | input that shows it | evidently intended | confidence | as-written member | corrected member |
|---|---|---|---|---|---|---|
| wasm-compiler/src/core/compiler/frontend/Frontend.cpp:2513-2521 | the i32.const offset of a data segment is read as an unsigned LEB128 | the offset expression 41 7F 0B (i32.const -1) is read as 127 and accepted in a one-page memory | read a signed LEB128 and reinterpret it as the 32-bit offset 0xFFFFFFFF, which the bounds check refuses | not executed | WasmData.DecodeConstOffsetAsWritten | WasmData.DecodeConstOffset |
