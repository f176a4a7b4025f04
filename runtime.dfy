/**
  The runtime that runs a compiled module (`Runtime.cpp`, `Runtime.hpp`):
  its start-function state, linking an outside memory buffer, the trace
  buffer header, the stack-trace records, trap codes, linear-memory
  regions, and the lookups of exported functions and of function
  signatures. The job memory is a set of fields of the `Runtime` object;
  the exported-function section is the list of its records in the order
  they are read (backwards from the end of the binary).
*/
module Runtimes {
  import opened UInt
  import D = DwarfBytes

  /** The trap codes the runtime and the spec-test driver distinguish. */
  datatype TrapCode =
    | NONE
    | UNREACHABLE
    | BUILTIN_TRAP
    | RUNTIME_INTERRUPT_REQUESTED
    | LINMEM_OUTOFBOUNDSACCESS
    | LINMEM_COULDNOTEXTEND
    | LINKEDMEMORY_OUTOFBOUNDS
    | LINKEDMEMORY_NOTLINKED
    | LINKEDMEMORY_MUX
    | INDIRECTCALL_WRONGSIG
    | INDIRECTCALL_OUTOFBOUNDS
    | DIV_OVERFLOW
    | DIV_ZERO
    | TRUNC_OVERFLOW
    | CALLED_FUNCTION_NOT_LINKED

  /** The `RuntimeError` codes the modelled operations throw. */
  datatype ErrorCode =
    | Runtime_is_disabled
    | Module_not_initialized__Call_start_function_first_
    | Start_function_has_already_been_called
    | Function_not_found
    | Linear_memory_address_out_of_bounds
    | Could_not_extend_linear_memory
    | Global_is_immutable_and_cannot_be_written
    | Function_signature_mismatch__signature_size_mismatch
    | Function_signature_mismatch__wrong_parameter_type
    | Function_signature_mismatch

  /** A result, a thrown `RuntimeError`, or a thrown `TrapException`. */
  datatype Outcome<T> = Ok(value: T) | Error(code: ErrorCode) | Trap(trap: TrapCode)

  // ---------------------------------------------------------------------
  // Start function (`checkIsReady`, `start`)
  // ---------------------------------------------------------------------

  /** `queuedStartFncOffset_` once the start function has run. */
  const STARTED: u32 := 0xFFFF_FFFE
  /** `queuedStartFncOffset_` of a module without start function. */
  const NO_START: u32 := 0xFFFF_FFFF

  /** `checkIsReady`: a disabled runtime is never ready; one that must have started needs `STARTED`. */
  function CheckIsReady(disabled: bool, queued: u32, mustHaveStarted: bool): (r: Outcome<()>)
    ensures r.Ok? <==> !disabled && (!mustHaveStarted || queued == STARTED)
    ensures disabled ==> r == Error(Runtime_is_disabled)
  {
    if disabled then Error(Runtime_is_disabled)
    else if mustHaveStarted && queued != STARTED then Error(Module_not_initialized__Call_start_function_first_)
    else Ok(())
  }

  /** What `start` does: the start functions it calls and the new queued offset, or its error. */
  datatype StartEffect = StartEffect(called: seq<u32>, next: u32)

  /** `start`: throws when already started; otherwise runs the pending start function, if any, and records `STARTED`. */
  function StartStep(queued: u32): Outcome<StartEffect> {
    if queued == STARTED then Error(Start_function_has_already_been_called)
    else if queued != NO_START then Ok(StartEffect([queued], STARTED))
    else Ok(StartEffect([], STARTED))
  }

  /**
    The start function runs at most once: a first `start` calls exactly
    the pending function (none without one) and leaves the runtime ready
    for calls that need it started; a second `start` throws.
  */
  lemma {:induction false} StartOnce(queued: u32, disabled: bool)
    ensures queued == STARTED <==> StartStep(queued).Error?
    ensures var r := StartStep(queued);
            r.Ok? ==> && r.value.next == STARTED
                      && (r.value.called == [queued] <==> queued != NO_START)
                      && |r.value.called| <= 1
                      && StartStep(r.value.next).Error?
                      && (CheckIsReady(disabled, r.value.next, true).Ok? <==> !disabled)
    ensures CheckIsReady(disabled, queued, true).Ok? ==> StartStep(queued).Error?
  {
  }

  // ---------------------------------------------------------------------
  // linkMemory, trace buffer, trap codes
  // ---------------------------------------------------------------------

  /** The linked memory (`linkedMemPtr`, `linkedMemLen`); base 0 is the null pointer. */
  datatype LinkedMemory = LinkedMemory(base: nat, length: u32)

  /**
    `linkMemory`: on TriCore an odd base or a length of 2^30 or more is
    refused; otherwise a zero length clears the base and a null base
    clears the length.
  */
  function LinkMemory(base: nat, length: u32, tricore: bool): (r: D.Option<LinkedMemory>)
    ensures r.None? <==> tricore && (base % 2 != 0 || length >= 0x4000_0000)
    ensures r.Some? ==> (r.value.length == 0 <==> r.value.base == 0)
    ensures r.Some? && base != 0 && length != 0 ==> r.value == LinkedMemory(base, length)
  {
    if tricore && base % 2 != 0 then D.None
    else if tricore && length >= 0x4000_0000 then D.None
    else if length == 0 then D.Some(LinkedMemory(0, 0))
    else if base == 0 then D.Some(LinkedMemory(0, 0))
    else D.Some(LinkedMemory(base, length))
  }

  /** `unlinkMemory`: linking nothing always succeeds and leaves nothing linked. */
  lemma {:induction false} UnlinkMemory(tricore: bool)
    ensures LinkMemory(0, 0, tricore) == D.Some(LinkedMemory(0, 0))
  {
  }

  /**
    `setTraceBuffer`: word 0 of the buffer receives the number of two-word
    entries after the two header words, and the published pointer is
    word 2.
  */
  method SetTraceBuffer(buffer: array<u32>) returns (published: nat)
    requires 2 <= buffer.Length < TWO32
    modifies buffer
    ensures published == 2 && buffer[0] == buffer.Length / 2 - 1
    ensures 2 + 2 * (buffer[0] as int) <= buffer.Length < 4 + 2 * (buffer[0] as int)
    ensures buffer[1..] == old(buffer[1..])
  {
    buffer[0] := buffer.Length / 2 - 1;
    published := 2;
  }

  /**
    `demuxTrapCode`: the shared code for linked memory becomes
    "not linked" when nothing is linked and "out of bounds" otherwise;
    every other code is kept.
  */
  function DemuxTrapCode(trap: TrapCode, linkedMemPtr: nat): (r: TrapCode)
    ensures r != LINKEDMEMORY_MUX
    ensures trap != LINKEDMEMORY_MUX ==> r == trap
    ensures trap == LINKEDMEMORY_MUX ==> (r == LINKEDMEMORY_NOTLINKED <==> linkedMemPtr == 0)
    ensures trap == LINKEDMEMORY_MUX ==> (r == LINKEDMEMORY_OUTOFBOUNDS <==> linkedMemPtr != 0)
  {
    if trap == LINKEDMEMORY_MUX then
      if linkedMemPtr == 0 then LINKEDMEMORY_NOTLINKED else LINKEDMEMORY_OUTOFBOUNDS
    else trap
  }

  /** Demultiplexing twice is demultiplexing once. */
  lemma {:induction false} DemuxIdempotent(trap: TrapCode, linkedMemPtr: nat)
    ensures DemuxTrapCode(DemuxTrapCode(trap, linkedMemPtr), linkedMemPtr) == DemuxTrapCode(trap, linkedMemPtr)
  {
  }

  // ---------------------------------------------------------------------
  // The runtime object
  // ---------------------------------------------------------------------

  /** The end marker of the stack-trace records. */
  const NO_RECORD: u32 := 0xFFFF_FFFF

  /** The visited function indices: the records up to the first end marker. */
  function RecordsUntilEnd(records: seq<u32>): (r: seq<u32>)
    ensures |r| <= |records| && r == records[..|r|]
    ensures NO_RECORD !in r
    ensures |r| < |records| ==> records[|r|] == NO_RECORD
  {
    if records == [] || records[0] == NO_RECORD then [] else [records[0]] + RecordsUntilEnd(records[1..])
  }

  /**
    A `Runtime`: whether it is disabled, the start-function state, the
    start functions run so far, the job memory's start, the binary module,
    and the parts of the job memory it writes: the linked memory, the trap
    information and the stack-trace records.
  */
  class Runtime {
    var disabled: bool
    var queuedStartFncOffset: u32
    var startCalls: seq<u32>
    var jobMemoryStart: nat
    var binaryModule: nat
    var linked: LinkedMemory
    var trapHandlerPtr: u64
    var trapStackReentry: u64
    var stacktraceRecords: seq<u32>
    var lastFrameRefPtr: u64

    constructor (jobMemoryStart: nat, binaryModule: nat, queued: u32, stacktraceRecordCount: nat)
      ensures !disabled && queuedStartFncOffset == queued && startCalls == []
      ensures this.jobMemoryStart == jobMemoryStart && this.binaryModule == binaryModule
      ensures linked == LinkedMemory(0, 0) && trapHandlerPtr == 0 && trapStackReentry == 0
      ensures |stacktraceRecords| == stacktraceRecordCount && lastFrameRefPtr == 0
    {
      disabled := false;
      queuedStartFncOffset := queued;
      startCalls := [];
      this.jobMemoryStart := jobMemoryStart;
      this.binaryModule := binaryModule;
      linked := LinkedMemory(0, 0);
      trapHandlerPtr := 0;
      trapStackReentry := 0;
      stacktraceRecords := seq(stacktraceRecordCount, _ => NO_RECORD);
      lastFrameRefPtr := 0;
    }

    /** `start`: the step of `StartStep` on this runtime. */
    method Start() returns (r: Outcome<()>)
      modifies this
      ensures var s := StartStep(old(queuedStartFncOffset));
              if s.Ok? then r == Ok(()) && queuedStartFncOffset == s.value.next
                            && startCalls == old(startCalls) + s.value.called
              else r == Error(s.code) && queuedStartFncOffset == old(queuedStartFncOffset) && startCalls == old(startCalls)
      ensures disabled == old(disabled) && linked == old(linked) && stacktraceRecords == old(stacktraceRecords)
    {
      if queuedStartFncOffset == STARTED {
        return Error(Start_function_has_already_been_called);
      }
      if queuedStartFncOffset != NO_START {
        startCalls := startCalls + [queuedStartFncOffset];
      }
      queuedStartFncOffset := STARTED;
      r := Ok(());
    }

    /** `linkMemory`: records the normalised buffer, or refuses it and changes nothing. */
    method LinkMemoryBuffer(base: nat, length: u32, tricore: bool) returns (ok: bool)
      modifies this
      ensures var l := LinkMemory(base, length, tricore);
              ok == l.Some? && linked == (if l.Some? then l.value else old(linked))
      ensures queuedStartFncOffset == old(queuedStartFncOffset) && disabled == old(disabled)
      ensures stacktraceRecords == old(stacktraceRecords)
    {
      var l := LinkMemory(base, length, tricore);
      if l.None? {
        return false;
      }
      linked := l.value;
      ok := true;
    }

    /** `resetTrapInfo`: clears the trap handler and reentry pointers. */
    method ResetTrapInfo()
      modifies this
      ensures trapHandlerPtr == 0 && trapStackReentry == 0
      ensures linked == old(linked) && queuedStartFncOffset == old(queuedStartFncOffset) && disabled == old(disabled)
      ensures stacktraceRecords == old(stacktraceRecords) && lastFrameRefPtr == old(lastFrameRefPtr)
    {
      trapHandlerPtr := 0;
      trapStackReentry := 0;
    }

    /**
      `handleTrapCode`: nothing for `NONE`; otherwise the trap information
      is reset and the demultiplexed code is thrown.
    */
    method HandleTrapCode(trap: TrapCode) returns (r: Outcome<()>)
      modifies this
      ensures trap == NONE ==> r == Ok(()) && trapHandlerPtr == old(trapHandlerPtr) && trapStackReentry == old(trapStackReentry)
      ensures trap != NONE ==> r == Trap(DemuxTrapCode(trap, linked.base)) && trapHandlerPtr == 0 && trapStackReentry == 0
      ensures linked == old(linked) && queuedStartFncOffset == old(queuedStartFncOffset) && disabled == old(disabled)
      ensures stacktraceRecords == old(stacktraceRecords)
    {
      if trap != NONE {
        ResetTrapInfo();
        return Trap(DemuxTrapCode(trap, linked.base));
      }
      r := Ok(());
    }

    /**
      `resetStacktraceAndDebugRecords`: with any records, every record
      becomes the end marker and the last frame pointer 0; without records
      nothing changes.
    */
    method ResetStacktraceAndDebugRecords()
      modifies this
      ensures |stacktraceRecords| == |old(stacktraceRecords)|
      ensures forall i :: 0 <= i < |stacktraceRecords| ==> stacktraceRecords[i] == NO_RECORD
      ensures lastFrameRefPtr == if |old(stacktraceRecords)| == 0 then old(lastFrameRefPtr) else 0
      ensures linked == old(linked) && queuedStartFncOffset == old(queuedStartFncOffset) && disabled == old(disabled)
    {
      var n := |stacktraceRecords|;
      if n == 0 {
        return;
      }
      var records := stacktraceRecords;
      var i := 0;
      while i < n
        invariant 0 <= i <= n && |records| == n
        invariant forall j :: 0 <= j < i ==> records[j] == NO_RECORD
      {
        records := records[i := NO_RECORD];
        i := i + 1;
      }
      stacktraceRecords := records;
      lastFrameRefPtr := 0;
    }

    /** `iterateStacktraceRecords`: the function indices in order, up to the first end marker. */
    method IterateStacktraceRecords() returns (visited: seq<u32>)
      ensures visited == RecordsUntilEnd(stacktraceRecords)
    {
      visited := [];
      var records := stacktraceRecords;
      var i := 0;
      while i < |records|
        invariant 0 <= i <= |records| && records == stacktraceRecords
        invariant visited == records[..i]
        invariant forall j :: 0 <= j < i ==> records[j] != NO_RECORD
      {
        if records[i] == NO_RECORD {
          break;
        }
        visited := visited + [records[i]];
        assert visited == records[..i + 1];
        i := i + 1;
      }
      UntilEndPrefix(records, i);
    }
  }

  /** The records before the first end marker, or all of them, are the visited ones. */
  lemma {:induction false} UntilEndPrefix(records: seq<u32>, i: nat)
    requires i <= |records| && (i == |records| || records[i] == NO_RECORD)
    requires forall j :: 0 <= j < i ==> records[j] != NO_RECORD
    ensures RecordsUntilEnd(records) == records[..i]
  {
    var r := RecordsUntilEnd(records);
    if |r| < i {
      assert false;
    } else if |r| > i {
      assert false;
    }
  }

  /** After a reset, iterating the stack-trace records visits nothing. */
  lemma {:induction false} NothingAfterReset(records: seq<u32>)
    requires forall i :: 0 <= i < |records| ==> records[i] == NO_RECORD
    ensures RecordsUntilEnd(records) == []
  {
  }

  /**
    `swap` (the move assignment): the left runtime takes over the right
    one's state, including the job memory and what lives in it (the linked
    memory, the trap pointers, the stack-trace records and the last frame
    pointer); the right one is disabled and left without job memory, so
    nothing of that state remains with it. A runtime swapped with itself is
    unchanged.
  */
  method Swap(lhs: Runtime, rhs: Runtime)
    modifies lhs, rhs
    ensures lhs == rhs ==> unchanged(lhs)
    ensures lhs != rhs ==> && lhs.disabled == old(rhs.disabled) && rhs.disabled
                           && lhs.queuedStartFncOffset == old(rhs.queuedStartFncOffset)
                           && lhs.binaryModule == old(rhs.binaryModule)
                           && lhs.jobMemoryStart == old(rhs.jobMemoryStart)
                           && rhs.queuedStartFncOffset == old(rhs.queuedStartFncOffset)
                           && rhs.binaryModule == old(rhs.binaryModule)
    ensures lhs != rhs ==> && lhs.linked == old(rhs.linked)
                           && lhs.trapHandlerPtr == old(rhs.trapHandlerPtr)
                           && lhs.trapStackReentry == old(rhs.trapStackReentry)
                           && lhs.stacktraceRecords == old(rhs.stacktraceRecords)
                           && lhs.lastFrameRefPtr == old(rhs.lastFrameRefPtr)
    ensures lhs != rhs ==> && rhs.jobMemoryStart == 0 && rhs.linked == LinkedMemory(0, 0)
                           && rhs.trapHandlerPtr == 0 && rhs.trapStackReentry == 0
                           && rhs.stacktraceRecords == [] && rhs.lastFrameRefPtr == 0
    ensures lhs.startCalls == old(lhs.startCalls) && rhs.startCalls == old(rhs.startCalls)
    ensures lhs != rhs ==> CheckIsReady(rhs.disabled, rhs.queuedStartFncOffset, false) == Error(Runtime_is_disabled)
  {
    if lhs != rhs {
      lhs.disabled := rhs.disabled;
      rhs.disabled := true;
      lhs.queuedStartFncOffset := rhs.queuedStartFncOffset;
      lhs.binaryModule := rhs.binaryModule;
      lhs.jobMemoryStart := rhs.jobMemoryStart;
      lhs.linked := rhs.linked;
      lhs.trapHandlerPtr := rhs.trapHandlerPtr;
      lhs.trapStackReentry := rhs.trapStackReentry;
      lhs.stacktraceRecords := rhs.stacktraceRecords;
      lhs.lastFrameRefPtr := rhs.lastFrameRefPtr;
      rhs.jobMemoryStart := 0;
      rhs.linked := LinkedMemory(0, 0);
      rhs.trapHandlerPtr := 0;
      rhs.trapStackReentry := 0;
      rhs.stacktraceRecords := [];
      rhs.lastFrameRefPtr := 0;
    }
  }

  // ---------------------------------------------------------------------
  // Linear memory region (`getLinearMemoryRegion`, build without bounds checks)
  // ---------------------------------------------------------------------

  /** Bytes per Wasm page. */
  const WASM_PAGE_SIZE: nat := 65536

  /**
    `getLinearMemoryRegion`: a region of size 0 is never checked; any
    other must end below the memory's pages (its last byte computed in 64
    bits) and must pass the memory probe, which receives that byte cut
    to 32 bits. The result is the offset from
    the linear-memory base.
  */
  function GetLinearMemoryRegion(offset: u32, size: u32, pages: u32, probe: u32 -> bool): (r: Outcome<nat>)
    ensures r.Ok? ==> r.value == offset
    ensures size == 0 ==> r == Ok(offset)
    ensures size != 0 && offset + size > pages * WASM_PAGE_SIZE ==> r == Error(Linear_memory_address_out_of_bounds)
    ensures size != 0 && offset + size <= pages * WASM_PAGE_SIZE ==>
              (r.Ok? <==> probe(Wrap32(offset + size - 1))) && (r.Error? ==> r.code == Could_not_extend_linear_memory)
  {
    if size == 0 then Ok(offset)
    else
      var maxAccessedByte := offset + size - 1;
      if maxAccessedByte >= pages * WASM_PAGE_SIZE then Error(Linear_memory_address_out_of_bounds)
      else if !probe(Wrap32(maxAccessedByte)) then Error(Could_not_extend_linear_memory)
      else Ok(offset)
  }

  // ---------------------------------------------------------------------
  // Exported functions (`findExportedFunctionByName`, table lookup)
  // ---------------------------------------------------------------------

  /** One record of the exported-function section, as read backwards. */
  datatype ExportRecord = ExportRecord(fncIndex: u32, name: seq<char>, signature: seq<char>, wrapperSize: u32)

  /** The lengths fit the 32-bit length fields. */
  predicate ValidRecord(rec: ExportRecord) {
    |rec.name| < TWO32 - 4 && |rec.signature| < TWO32 - 4 && rec.wrapperSize < TWO32 - 4
  }

  /** The bytes a record takes: four 32-bit fields and three blocks padded to four bytes. */
  function RecordWidth(rec: ExportRecord): nat
    requires ValidRecord(rec)
  {
    16 + RoundUpToPow2(|rec.name|, 2) + RoundUpToPow2(|rec.signature|, 2) + RoundUpToPow2(rec.wrapperSize, 2)
  }

  /** The characters `strncmp` compares: those before the first NUL. */
  function BeforeNul(s: seq<char>): (r: seq<char>)
    ensures r <= s && '\0' !in r
    ensures |r| < |s| ==> s[|r|] == '\0'
  {
    if s == [] || s[0] == '\0' then [] else [s[0]] + BeforeNul(s[1..])
  }

  /**
    The name test of the lookup: equal lengths, and `strncmp` over that
    length finds no difference, so bytes after a NUL the two names share
    are not compared.
  */
  predicate NameMatches(exportName: seq<char>, name: seq<char>) {
    |exportName| == |name| && BeforeNul(exportName) == BeforeNul(name)
  }

  /** Names without a NUL match exactly when they are equal. */
  lemma NameMatchesWithoutNul(exportName: seq<char>, name: seq<char>)
    requires '\0' !in exportName && '\0' !in name
    ensures NameMatches(exportName, name) <==> exportName == name
  {
    BeforeNulWhole(exportName);
    BeforeNulWhole(name);
  }

  lemma {:induction false} BeforeNulWhole(s: seq<char>)
    requires '\0' !in s
    ensures BeforeNul(s) == s
  {
    if s != [] {
      BeforeNulWhole(s[1..]);
    }
  }

  /** Equal names always match, and two names that differ only after a shared NUL match too. */
  lemma NameMatchesPastNul()
    ensures forall name: seq<char> :: NameMatches(name, name)
    ensures NameMatches("a\0b", "a\0c") && "a\0b" != "a\0c"
  {
    assert BeforeNul("a\0b") == ['a'] + BeforeNul("\0b");
    assert BeforeNul("a\0c") == ['a'] + BeforeNul("\0c");
  }

  /** The offset from the end of the binary of a record's name, for a record starting at `cursor`. */
  function NameOffset(rec: ExportRecord, cursor: nat): nat
    requires ValidRecord(rec)
  {
    cursor + 8 + RoundUpToPow2(|rec.name|, 2)
  }

  /**
    The name lookup, record by record from offset `cursor`: the name
    offset of the first record whose name has the searched length and
    bytes, or `Function_not_found`.
  */
  function FindByName(records: seq<ExportRecord>, cursor: nat, name: seq<char>): Outcome<nat>
    requires forall i :: 0 <= i < |records| ==> ValidRecord(records[i])
    decreases |records|
  {
    if records == [] then Error(Function_not_found)
    else if NameMatches(records[0].name, name) then Ok(NameOffset(records[0], cursor))
    else FindByName(records[1..], cursor + RecordWidth(records[0]), name)
  }

  /** A record of another name is skipped: the search goes on past its width. */
  lemma FindByNameSkip(records: seq<ExportRecord>, i: nat, cursor: nat, next: nat, name: seq<char>)
    requires forall j :: 0 <= j < |records| ==> ValidRecord(records[j])
    requires i < |records| && !NameMatches(records[i].name, name) && next == cursor + RecordWidth(records[i])
    ensures FindByName(records[i..], cursor, name) == FindByName(records[i + 1..], next, name)
  {
    assert records[i..][1..] == records[i + 1..];
  }

  /** The offset of record `i`: the section start plus the widths of the records before it. */
  function RecordStart(records: seq<ExportRecord>, cursor: nat, i: nat): nat
    requires i <= |records| && forall j :: 0 <= j < |records| ==> ValidRecord(records[j])
    decreases i
  {
    if i == 0 then cursor else RecordStart(records, cursor, i - 1) + RecordWidth(records[i - 1])
  }

  /**
    The lookup succeeds exactly when some record has the name, and then it
    gives the name offset of the first such record.
  */
  lemma {:induction false} FindByNameFirst(records: seq<ExportRecord>, cursor: nat, name: seq<char>)
    requires forall i :: 0 <= i < |records| ==> ValidRecord(records[i])
    ensures FindByName(records, cursor, name).Error? <==> forall i :: 0 <= i < |records| ==> !NameMatches(records[i].name, name)
    ensures FindByName(records, cursor, name).Error? ==> FindByName(records, cursor, name).code == Function_not_found
    ensures FindByName(records, cursor, name).Trap? == false
    ensures forall i :: 0 <= i < |records| && NameMatches(records[i].name, name) && (forall j :: 0 <= j < i ==> !NameMatches(records[j].name, name))
                        ==> FindByName(records, cursor, name) == Ok(NameOffset(records[i], RecordStart(records, cursor, i)))
    decreases |records|
  {
    if records != [] {
      var rest := records[1..];
      FindByNameFirst(rest, cursor + RecordWidth(records[0]), name);
      forall i | 1 <= i < |records|
        ensures RecordStart(records, cursor, i) == RecordStart(rest, cursor + RecordWidth(records[0]), i - 1)
      {
        RecordStartShift(records, cursor, i);
      }
      forall i | 0 <= i < |records| && NameMatches(records[i].name, name) && (forall j :: 0 <= j < i ==> !NameMatches(records[j].name, name))
        ensures FindByName(records, cursor, name) == Ok(NameOffset(records[i], RecordStart(records, cursor, i)))
      {
        if i > 0 {
          assert records[i] == rest[i - 1];
          assert forall j :: 0 <= j < i - 1 ==> !NameMatches(rest[j].name, name) by {
            forall j | 0 <= j < i - 1 ensures !NameMatches(rest[j].name, name) {
              assert rest[j] == records[j + 1];
            }
          }
        }
      }
      if FindByName(records, cursor, name).Error? {
        forall i | 0 <= i < |records| ensures !NameMatches(records[i].name, name) {
          if i > 0 {
            assert records[i] == rest[i - 1];
          }
        }
      }
    }
  }

  /** Dropping the first record moves every later record's start by its width. */
  lemma {:induction false} RecordStartShift(records: seq<ExportRecord>, cursor: nat, i: nat)
    requires 1 <= i <= |records| && forall j :: 0 <= j < |records| ==> ValidRecord(records[j])
    ensures RecordStart(records, cursor, i) == RecordStart(records[1..], cursor + RecordWidth(records[0]), i - 1)
    decreases i
  {
    if i > 1 {
      RecordStartShift(records, cursor, i - 1);
      assert records[1..][i - 2] == records[i - 1];
    }
  }

  /**
    `findExportedFunctionByName`: reads the record count, then walks the
    records, skipping index, name, signature and wrapper of each one that
    does not match.
  */
  method FindExportedFunctionByName(records: seq<ExportRecord>, sectionEnd: nat, name: seq<char>) returns (r: Outcome<nat>)
    requires forall i :: 0 <= i < |records| ==> ValidRecord(records[i])
    ensures r == FindByName(records, sectionEnd + 4, name)
  {
    var cursor: nat := sectionEnd + 4;
    var i := 0;
    while i < |records|
      invariant 0 <= i <= |records|
      invariant FindByName(records[i..], cursor, name) == FindByName(records, sectionEnd + 4, name)
    {
      var rec := records[i];
      if NameMatches(rec.name, name) {
        return Ok(NameOffset(rec, cursor));
      }
      var next := cursor + RecordWidth(rec);
      FindByNameSkip(records, i, cursor, next, name);
      cursor := next;
      i := i + 1;
    }
    r := Error(Function_not_found);
  }

  /**
    `hasExportedFunctionWithName`: a disabled runtime still throws; a
    missing name gives false instead of an error.
  */
  function HasExportedFunctionWithName(disabled: bool, records: seq<ExportRecord>, sectionEnd: nat, name: seq<char>): (r: Outcome<bool>)
    requires forall i :: 0 <= i < |records| ==> ValidRecord(records[i])
    ensures disabled <==> r == Error(Runtime_is_disabled)
    ensures !disabled ==> (r == Ok(true) <==> exists i :: 0 <= i < |records| && NameMatches(records[i].name, name))
  {
    FindByNameFirst(records, sectionEnd + 4, name);
    if disabled then Error(Runtime_is_disabled)
    else Ok(FindByName(records, sectionEnd + 4, name).Ok?)
  }

  /**
    `findFunctionByExportedTableIndex`: a table entry below the size that is
    not the empty marker, an offset from the start of the binary, turned into
    an offset from its end by the binary module's `offsetToEnd`.
  */
  function FindFunctionByExportedTableIndex(table: seq<u32>, tableIndex: u32, offsetToEnd: u32 -> u32): (r: Outcome<u32>)
    ensures r.Ok? <==> tableIndex < |table| && table[tableIndex] != 0xFFFF_FFFF
    ensures r.Ok? ==> r.value == offsetToEnd(table[tableIndex])
    ensures !r.Ok? ==> r == Error(Function_not_found)
  {
    if tableIndex < |table| && table[tableIndex] != 0xFFFF_FFFF then Ok(offsetToEnd(table[tableIndex]))
    else Error(Function_not_found)
  }

  // ---------------------------------------------------------------------
  // Globals and signatures (`ModuleGlobal::getPtr`, `FunctionInfo`)
  // ---------------------------------------------------------------------

  /** Where a global's value lives: in the binary (offset from its end) or in the link data (offset from the job memory). */
  datatype GlobalPtr = InBinary(offsetFromEnd: nat) | InLinkData(offsetFromStart: nat)

  /**
    `ModuleGlobal::getPtr`: a write to an immutable global throws; an
    immutable global is read from the binary just below its flag, a
    mutable one from the link data at its stored offset.
  */
  function GetGlobalPtr(binaryOffset: u32, isMutable: bool, linkDataOffset: u32, typeSize: nat, linkDataStart: nat,
                        willWrite: bool): (r: Outcome<GlobalPtr>)
    ensures !isMutable && willWrite <==> r == Error(Global_is_immutable_and_cannot_be_written)
    ensures isMutable ==> r == Ok(InLinkData(linkDataStart + linkDataOffset))
    ensures !isMutable && !willWrite ==> r == Ok(InBinary(binaryOffset + 4 + typeSize))
  {
    if !isMutable then
      if willWrite then Error(Global_is_immutable_and_cannot_be_written)
      else Ok(InBinary(binaryOffset + 4 + typeSize))
    else Ok(InLinkData(linkDataStart + linkDataOffset))
  }

  /** `getSignatureType`: the character at `offset`, or a size mismatch past the end. */
  function GetSignatureType(signature: seq<char>, offset: nat): (r: Outcome<char>)
    ensures r.Ok? <==> offset < |signature|
    ensures r.Ok? ==> r.value == signature[offset]
    ensures !r.Ok? ==> r == Error(Function_signature_mismatch__signature_size_mismatch)
  {
    if offset < |signature| then Ok(signature[offset]) else Error(Function_signature_mismatch__signature_size_mismatch)
  }

  /**
    `validateNumReturnValue<N>`: the end-of-parameters mark must sit just
    before the last `N` characters; the position is computed in `size_t`,
    so a signature shorter than `N + 1` wraps and fails.
  */
  function ValidateNumReturnValue(signature: seq<char>, numReturnValues: nat, paramEnd: char): (r: Outcome<()>)
    requires |signature| < TWO64 && numReturnValues < TWO64
    ensures r.Ok? <==> |signature| >= numReturnValues + 1 && signature[|signature| - numReturnValues - 1] == paramEnd
    ensures !r.Ok? ==> r == Error(Function_signature_mismatch__signature_size_mismatch)
  {
    var t := GetSignatureType(signature, Wrap64(|signature| - numReturnValues - 1));
    if t.Ok? && t.value == paramEnd then Ok(()) else Error(Function_signature_mismatch__signature_size_mismatch)
  }

  /**
    `validateParameterImpl`: parameter `i` is checked at position `i + 1`
    (after the opening mark), in order, stopping at the first position
    past the end or the first wrong type.
  */
  function ValidateParameters(signature: seq<char>, expected: seq<char>, i: nat): Outcome<()>
    requires i <= |expected|
    decreases |expected| - i
  {
    if i == |expected| then Ok(())
    else
      var t := GetSignatureType(signature, i + 1);
      if t.Error? then Error(t.code)
      else if t.value != expected[i] then Error(Function_signature_mismatch__wrong_parameter_type)
      else ValidateParameters(signature, expected, i + 1)
  }

  /** `validateParameterTypes`: the parameters, then the end-of-parameters mark at position `n + 1`. */
  function ValidateParameterTypes(signature: seq<char>, expected: seq<char>, paramEnd: char): Outcome<()> {
    var p := ValidateParameters(signature, expected, 0);
    if p.Error? then p
    else
      var t := GetSignatureType(signature, |expected| + 1);
      if t.Ok? && t.value == paramEnd then Ok(()) else Error(Function_signature_mismatch__signature_size_mismatch)
  }

  /** The parameter checks from `i` pass exactly when positions `i + 1 ..` hold the expected types. */
  lemma {:induction false} ValidateParametersIff(signature: seq<char>, expected: seq<char>, i: nat)
    requires i <= |expected|
    ensures ValidateParameters(signature, expected, i).Ok? <==>
            i == |expected| || (|expected| < |signature| && forall j :: i <= j < |expected| ==> signature[j + 1] == expected[j])
    ensures ValidateParameters(signature, expected, i).Trap? == false
    decreases |expected| - i
  {
    if i < |expected| {
      ValidateParametersIff(signature, expected, i + 1);
    }
  }

  /**
    A signature passes the parameter check exactly when its characters 1
    to `n` are the expected parameter types and character `n + 1` is the
    end-of-parameters mark.
  */
  lemma {:induction false} ValidateParameterTypesIff(signature: seq<char>, expected: seq<char>, paramEnd: char)
    ensures ValidateParameterTypes(signature, expected, paramEnd).Ok? <==>
            |expected| + 1 < |signature| && signature[1..|expected| + 1] == expected && signature[|expected| + 1] == paramEnd
  {
    ValidateParametersIff(signature, expected, 0);
    if |expected| + 1 < |signature| {
      var inner := signature[1..|expected| + 1];
      forall j | 0 <= j < |expected| ensures inner[j] == signature[j + 1] {
      }
    }
  }

  /** `FunctionInfo::validateSignatures`: the stored signature must equal the expected one. */
  function ValidateSignatures(signature: seq<char>, expected: seq<char>): (r: Outcome<()>)
    ensures r.Ok? <==> signature == expected
    ensures |signature| != |expected| ==> r == Error(Function_signature_mismatch__signature_size_mismatch)
    ensures |signature| == |expected| && signature != expected ==> r == Error(Function_signature_mismatch)
  {
    if |signature| != |expected| then Error(Function_signature_mismatch__signature_size_mismatch)
    else if signature != expected then Error(Function_signature_mismatch)
    else Ok(())
  }
}
