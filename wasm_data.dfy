/**
  The data-count and data sections of the Wasm frontend (`parseDataCountSection`,
  `parseDataSection`): the number of segments must agree with a preceding
  data-count section, only active segments of the one memory with an `i32.const`
  offset are supported, and every segment must lie within the initial memory.
*/
module WasmData {
  import opened UInt
  import opened DwarfBytes
  import opened WasmReader
  import opened WasmSections

  /** The size of a Wasm page in bytes. */
  const PAGE_SIZE: nat := 0x1_0000

  /** An active data segment of the default memory: where its bytes go, and the bytes. */
  datatype DataSegment = DataSegment(offset: u32, init: seq<u8>)

  /**
    The frontend's bounds check: the segment ends within the initial memory,
    and its end, computed without wrap-around, is at most `UINT32_MAX`.
  */
  predicate SegmentFits(offset: u32, size: nat, initialPages: u32) {
    offset as int + size <= initialPages as int * 0x1_0000 && offset as int + size <= U32_MAX
  }

  // ---------------------------------------------------------------------
  // The constant offset expression `i32.const n end`
  // ---------------------------------------------------------------------

  /**
    The offset expression as the frontend reads it: the operand of
    `i32.const` is read as an unsigned LEB128 number.
  */
  function DecodeConstOffsetAsWritten(bs: seq<u8>): (r: Result<(u32, nat)>)
    ensures r.Ok? ==> 3 <= r.value.1 <= |bs|
  {
    var op :- DecodeOpCode(bs);
    if op.0.Single? && I32_CONST <= op.0.byte <= F64_CONST then
      if op.0.byte != I32_CONST then Err(OffsetNotI32)
      else
        var offset :- Leb(bs[op.1..]);
        var end :- DecodeOpCode(bs[op.1 + offset.1..]);
        if end.0 != Single(END) then Err(MalformedConstantOffset)
        else Ok((offset.0, op.1 + offset.1 + end.1))
    else if op.0 == Single(GLOBAL_GET) then Err(ImportedGlobalsNotSupported)
    else Err(MalformedConstantOffset)
  }

  /**
    The offset expression with the operand of `i32.const` read as a signed
    LEB128 `int32_t` and reinterpreted as `uint32_t`, as the frontend reads
    the `i32.const` of a global's initialiser.
  */
  function DecodeConstOffset(bs: seq<u8>): (r: Result<(u32, nat)>)
    ensures r.Ok? ==> 3 <= r.value.1 <= |bs|
  {
    var op :- DecodeOpCode(bs);
    if op.0.Single? && I32_CONST <= op.0.byte <= F64_CONST then
      if op.0.byte != I32_CONST then Err(OffsetNotI32)
      else
        var value :- SignedLeb(bs[op.1..]);
        var end :- DecodeOpCode(bs[op.1 + value.1..]);
        if end.0 != Single(END) then Err(MalformedConstantOffset)
        else Ok((AsU32(value.0), op.1 + value.1 + end.1))
    else if op.0 == Single(GLOBAL_GET) then Err(ImportedGlobalsNotSupported)
    else Err(MalformedConstantOffset)
  }

  /** `i32.const n end` for the offset n, with n written as the `int32_t` of the same bits. */
  function ConstOffsetBytes(offset: u32): seq<u8> {
    [I32_CONST] + SLeb(AsI32(offset)) + [END]
  }

  /** Every offset reads back from its constant expression, whatever follows it. */
  lemma {:induction false} ConstOffsetRoundTrip(offset: u32, rest: seq<u8>)
    ensures DecodeConstOffset(ConstOffsetBytes(offset) + rest) == Ok((offset, |ConstOffsetBytes(offset)|))
  {
    var v := AsI32(offset);
    var tail := [END] + rest;
    var after := SLeb(v) + tail;
    var bs := ConstOffsetBytes(offset) + rest;
    assert bs == [I32_CONST] + after;
    SignedLebRoundTrip(v, tail);
    assert bs[1 + |SLeb(v)|..] == tail;
    ConstStep(bs, after, v, |SLeb(v)|, tail);
    AsI32AsU32(offset, v);
  }

  /** `i32.const`, an operand of m bytes, then `end`. */
  lemma {:induction false} ConstStep(bs: seq<u8>, after: seq<u8>, value: i32, m: nat, tail: seq<u8>)
    requires bs != [] && bs[0] == I32_CONST && bs[1..] == after
    requires SignedLeb(after) == Ok((value, m)) && 1 + m <= |bs| && bs[1 + m..] == tail
    requires tail != [] && tail[0] == END
    ensures DecodeConstOffset(bs) == Ok((AsU32(value), m + 2))
  {
  }

  /**
    `i32.const -1 end` places a one-byte segment at offset 0xFFFFFFFF, outside
    a memory of one page; read unsigned, the same bytes give offset 127, which
    passes the bounds check.
  */
  lemma {:induction false} NegativeOffsetMisread()
    ensures ConstOffsetBytes(U32_MAX) == [0x41, 0x7F, 0x0B]
    ensures DecodeConstOffset([0x41, 0x7F, 0x0B]) == Ok((U32_MAX, 3))
    ensures DecodeConstOffsetAsWritten([0x41, 0x7F, 0x0B]) == Ok((127, 3))
    ensures !SegmentFits(U32_MAX, 1, 1) && SegmentFits(127, 1, 1)
  {
    NegativeOffsetSigned();
    NegativeOffsetUnsigned();
  }

  /** Read signed, `i32.const -1 end` is the offset 0xFFFFFFFF. */
  lemma {:induction false} NegativeOffsetSigned()
    ensures ConstOffsetBytes(U32_MAX) == [0x41, 0x7F, 0x0B]
    ensures DecodeConstOffset([0x41, 0x7F, 0x0B]) == Ok((U32_MAX, 3))
  {
    assert SLeb(-1) == [0x7F];
    var bs: seq<u8> := [0x41, 0x7F, 0x0B];
    assert ConstOffsetBytes(U32_MAX) == bs;
    ConstOffsetRoundTrip(U32_MAX, []);
    assert bs + [] == bs;
  }

  /** Read unsigned, the same bytes are the offset 127. */
  lemma {:induction false} NegativeOffsetUnsigned()
    ensures DecodeConstOffsetAsWritten([0x41, 0x7F, 0x0B]) == Ok((127, 3))
  {
    var bs: seq<u8> := [0x41, 0x7F, 0x0B];
    assert DecodeOpCode(bs) == Ok((Single(0x41), 1));
    assert bs[1..] == [0x7F, 0x0B];
    assert ReadULeb(bs[1..]) == Some((127, 1));
    assert Leb(bs[1..]) == Ok((127, 1));
    assert bs[2..] == [0x0B];
    assert DecodeOpCode(bs[2..]) == Ok((Single(0x0B), 1));
  }

  // ---------------------------------------------------------------------
  // Segments and the section
  // ---------------------------------------------------------------------

  /** One segment: its mode (only 0, active in memory 0, is supported), then the active segment. */
  function DecodeDataSegment(bs: seq<u8>, hasMemory: bool, initialPages: u32): (r: Result<(DataSegment, nat)>)
    ensures r.Ok? ==> 1 <= r.value.1 <= |bs|
    ensures r.Ok? ==> hasMemory && SegmentFits(r.value.0.offset, |r.value.0.init|, initialPages)
    ensures r.Err? ==> r.code != DataCountMismatch
  {
    match Leb(bs)
    case Err(c) => Err(c)
    case Ok(mode) =>
      if mode.0 != 0 then Err(PassiveDataSegmentsNotImplemented)
      else if !hasMemory then Err(MemoryIndexOutOfBounds)
      else
        match DecodeActiveSegment(bs[mode.1..], initialPages)
        case Err(c) => Err(c)
        case Ok(segment) => Ok((segment.0, mode.1 + segment.1))
  }

  /** An active segment after its mode: the offset expression, then the bytes. */
  function DecodeActiveSegment(bs: seq<u8>, initialPages: u32): (r: Result<(DataSegment, nat)>)
    ensures r.Ok? ==> 1 <= r.value.1 <= |bs| && SegmentFits(r.value.0.offset, |r.value.0.init|, initialPages)
    ensures r.Err? ==> r.code != DataCountMismatch
  {
    match DecodeConstOffset(bs)
    case Err(c) => Err(c)
    case Ok(offset) =>
      match DecodeSegmentInit(bs[offset.1..], offset.0, initialPages)
      case Err(c) => Err(c)
      case Ok(init) => Ok((DataSegment(offset.0, init.0), offset.1 + init.1))
  }

  /** The size of the segment's bytes, checked against the memory, and the bytes. */
  function DecodeSegmentInit(bs: seq<u8>, offset: u32, initialPages: u32): (r: Result<(seq<u8>, nat)>)
    ensures r.Ok? ==> 1 <= r.value.1 <= |bs| && SegmentFits(offset, |r.value.0|, initialPages)
    ensures r.Err? ==> r.code != DataCountMismatch
  {
    match Leb(bs)
    case Err(c) => Err(c)
    case Ok(size) =>
      if !SegmentFits(offset, size.0 as nat, initialPages) then Err(DataSegmentOutOfBounds)
      else if size.1 + size.0 as nat > |bs| then Err(ReadPastEnd)
      else Ok((bs[size.1..size.1 + size.0 as nat], size.1 + size.0 as nat))
  }

  /** `count` segments, one after the other. */
  function DecodeSegments(bs: seq<u8>, count: nat, hasMemory: bool, initialPages: u32): (r: Result<(seq<DataSegment>, nat)>)
    ensures r.Ok? ==> r.value.1 <= |bs| && |r.value.0| == count
    ensures r.Err? ==> r.code != DataCountMismatch
    decreases count, 1
  {
    if count == 0 then Ok(([], 0)) else DecodeNextSegments(bs, count, hasMemory, initialPages)
  }

  /** The first of `count` segments, then the others. */
  function DecodeNextSegments(bs: seq<u8>, count: nat, hasMemory: bool, initialPages: u32)
    : (r: Result<(seq<DataSegment>, nat)>)
    requires count > 0
    ensures r.Ok? ==> r.value.1 <= |bs| && |r.value.0| == count
    ensures r.Err? ==> r.code != DataCountMismatch
    decreases count, 0
  {
    match DecodeDataSegment(bs, hasMemory, initialPages)
    case Err(c) => Err(c)
    case Ok(s) => Prepend([s.0], s.1, DecodeSegments(bs[s.1..], count - 1, hasMemory, initialPages))
  }

  /** A first segment followed by the others. */
  lemma {:induction false} SegmentsCons(bs: seq<u8>, n: nat, after: seq<u8>, count: nat, hasMemory: bool, initialPages: u32,
                     s: DataSegment, others: seq<DataSegment>, m: nat, segments: seq<DataSegment>, total: nat)
    requires count > 0 && n <= |bs| && bs[n..] == after
    requires DecodeDataSegment(bs, hasMemory, initialPages) == Ok((s, n))
    requires DecodeSegments(after, count - 1, hasMemory, initialPages) == Ok((others, m))
    requires segments == [s] + others && total == n + m
    ensures DecodeSegments(bs, count, hasMemory, initialPages) == Ok((segments, total))
  {
    assert DecodeSegments(bs, count, hasMemory, initialPages) == Prepend([s], n, Ok((others, m)));
    PrependOne(s, n, others, m, segments, total);
  }

  /** A first segment followed by others that fail. */
  lemma {:induction false} SegmentsConsErr(bs: seq<u8>, n: nat, after: seq<u8>, count: nat, hasMemory: bool,
                                           initialPages: u32, s: DataSegment, c: ErrorCode)
    requires count > 0 && n <= |bs| && bs[n..] == after
    requires DecodeDataSegment(bs, hasMemory, initialPages) == Ok((s, n))
    requires DecodeSegments(after, count - 1, hasMemory, initialPages) == Err(c)
    ensures DecodeSegments(bs, count, hasMemory, initialPages) == Err(c)
  {
    assert DecodeSegments(bs, count, hasMemory, initialPages) == Prepend([s], n, Err(c));
  }

  /** A segment that fails fails the whole loop. */
  lemma {:induction false} SegmentsLoopErr(bs: seq<u8>, count: nat, hasMemory: bool, initialPages: u32, c: ErrorCode)
    requires count > 0
    requires DecodeDataSegment(bs, hasMemory, initialPages) == Err(c)
    ensures DecodeSegments(bs, count, hasMemory, initialPages) == Err(c)
  {
  }

  /** The segment at the start of `bs` decodes to `s`, takes `n` bytes, and `after` follows it. */
  ghost predicate SegmentAt(bs: seq<u8>, n: nat, after: seq<u8>, s: DataSegment, hasMemory: bool,
                            initialPages: u32) {
    n <= |bs| && bs[n..] == after && DecodeDataSegment(bs, hasMemory, initialPages) == Ok((s, n))
  }

  /**
    The segments the loop has read so far, one after the other: segment i is
    read from `suffixes[i]`, takes `lengths[i]` bytes, and `suffixes[i + 1]`
    follows it.
  */
  ghost predicate SegmentChain(suffixes: seq<seq<u8>>, lengths: seq<nat>, segments: seq<DataSegment>,
                               hasMemory: bool, initialPages: u32) {
    |suffixes| == |segments| + 1 && |lengths| == |segments|
    && forall i :: 0 <= i < |segments| ==>
      SegmentAt(suffixes[i], lengths[i], suffixes[i + 1], segments[i], hasMemory, initialPages)
  }

  /** The segment read after a chain extends it. */
  lemma {:induction false} ChainExtend(suffixes: seq<seq<u8>>, lengths: seq<nat>, segments: seq<DataSegment>, hasMemory: bool,
                    initialPages: u32, n: nat, after: seq<u8>, s: DataSegment)
    requires SegmentChain(suffixes, lengths, segments, hasMemory, initialPages)
    requires SegmentAt(suffixes[|segments|], n, after, s, hasMemory, initialPages)
    ensures SegmentChain(suffixes + [after], lengths + [n], segments + [s], hasMemory, initialPages)
  {
    var suffixes', lengths', segments' := suffixes + [after], lengths + [n], segments + [s];
    forall i | 0 <= i < |segments'|
      ensures SegmentAt(suffixes'[i], lengths'[i], suffixes'[i + 1], segments'[i], hasMemory, initialPages)
    {
      if i < |segments| {
        assert suffixes'[i] == suffixes[i] && suffixes'[i + 1] == suffixes[i + 1];
        assert lengths'[i] == lengths[i] && segments'[i] == segments[i];
        assert SegmentAt(suffixes[i], lengths[i], suffixes[i + 1], segments[i], hasMemory, initialPages);
      } else {
        var last := |segments|;
        assert i == last;
        assert suffixes'[i] == suffixes[last] && suffixes'[i + 1] == after;
        assert lengths'[i] == n && segments'[i] == s;
      }
    }
  }

  /** A chain without its first segment is a chain. */
  lemma {:induction false} ChainTail(suffixes: seq<seq<u8>>, lengths: seq<nat>, segments: seq<DataSegment>, hasMemory: bool,
                  initialPages: u32)
    requires SegmentChain(suffixes, lengths, segments, hasMemory, initialPages) && segments != []
    ensures SegmentChain(suffixes[1..], lengths[1..], segments[1..], hasMemory, initialPages)
    ensures SegmentAt(suffixes[0], lengths[0], suffixes[1], segments[0], hasMemory, initialPages)
  {
    forall i | 0 <= i < |segments| - 1
      ensures SegmentAt(suffixes[1..][i], lengths[1..][i], suffixes[1..][i + 1], segments[1..][i], hasMemory,
                        initialPages)
    {
      assert SegmentAt(suffixes[i + 1], lengths[i + 1], suffixes[i + 2], segments[i + 1], hasMemory, initialPages);
    }
  }

  /**
    A chain of `count` segments from `first` to `last` is what
    `DecodeSegments` decodes from `first`: the `total` bytes between the two.
  */
  lemma {:induction false} ChainDecodes(suffixes: seq<seq<u8>>, lengths: seq<nat>, segments: seq<DataSegment>,
                                        hasMemory: bool, initialPages: u32, count: nat, first: seq<u8>,
                                        last: seq<u8>) returns (total: nat)
    requires SegmentChain(suffixes, lengths, segments, hasMemory, initialPages)
    requires count == |segments| && first == suffixes[0] && last == suffixes[count]
    ensures |first| == total + |last|
    ensures DecodeSegments(first, count, hasMemory, initialPages) == Ok((segments, total))
    decreases count
  {
    if count == 0 {
      return 0;
    }
    ChainTail(suffixes, lengths, segments, hasMemory, initialPages);
    var next := suffixes[1];
    assert suffixes[1..][0] == next && suffixes[1..][count - 1] == last;
    var m := ChainDecodes(suffixes[1..], lengths[1..], segments[1..], hasMemory, initialPages, count - 1, next, last);
    total := lengths[0] + m;
    ChainStep(first, lengths[0], next, segments, hasMemory, initialPages, m, total);
  }

  /** A first segment, then the rest decoded: the whole loop. */
  lemma {:induction false} ChainStep(first: seq<u8>, n: nat, next: seq<u8>, segments: seq<DataSegment>, hasMemory: bool,
                                     initialPages: u32, m: nat, total: nat)
    requires segments != [] && SegmentAt(first, n, next, segments[0], hasMemory, initialPages)
    requires DecodeSegments(next, |segments| - 1, hasMemory, initialPages) == Ok((segments[1..], m)) && total == n + m
    ensures DecodeSegments(first, |segments|, hasMemory, initialPages) == Ok((segments, total))
  {
    SplitFirst(segments);
    SegmentsCons(first, n, next, |segments|, hasMemory, initialPages, segments[0], segments[1..], m, segments, total);
  }

  /** A non-empty sequence is its first element followed by the rest. */
  lemma SplitFirst(segments: seq<DataSegment>)
    requires segments != []
    ensures segments == [segments[0]] + segments[1..]
  {
  }

  /** A chain of `done` segments followed by a segment that fails: the loop fails with it. */
  lemma {:induction false} ChainFails(suffixes: seq<seq<u8>>, lengths: seq<nat>, segments: seq<DataSegment>,
                                      hasMemory: bool, initialPages: u32, done: nat, count: nat, first: seq<u8>,
                                      failing: seq<u8>, c: ErrorCode)
    requires SegmentChain(suffixes, lengths, segments, hasMemory, initialPages) && done == |segments| < count
    requires first == suffixes[0] && failing == suffixes[done]
    requires DecodeDataSegment(failing, hasMemory, initialPages) == Err(c)
    // stated for every k equal to count, so that a caller holding count - 1 as a term can use it
    ensures forall k: nat {:trigger DecodeSegments(first, k, hasMemory, initialPages)} :: k == count ==>
      DecodeSegments(first, k, hasMemory, initialPages) == Err(c)
    decreases done
  {
    if done == 0 {
      SegmentsLoopErr(first, count, hasMemory, initialPages, c);
    } else {
      ChainTail(suffixes, lengths, segments, hasMemory, initialPages);
      var next := suffixes[1];
      assert suffixes[1..][0] == next && suffixes[1..][done - 1] == failing;
      ChainFails(suffixes[1..], lengths[1..], segments[1..], hasMemory, initialPages, done - 1, count - 1, next,
                 failing, c);
      SegmentsConsErr(first, lengths[0], next, count, hasMemory, initialPages, segments[0], c);
    }
  }

  /**
    The data section; `declared` is the count of a preceding data-count
    section, or `UINT32_MAX` when there was none.
  */
  function DecodeDataSection(bs: seq<u8>, declared: u32, hasMemory: bool, initialPages: u32)
    : (r: Result<(seq<DataSegment>, nat)>)
    ensures r.Ok? ==> 1 <= r.value.1 <= |bs|
  {
    DataSectionAfter(bs, declared, hasMemory, initialPages, Leb(bs))
  }

  /** The data section once its segment count has been read, or has failed. */
  function DataSectionAfter(bs: seq<u8>, declared: u32, hasMemory: bool, initialPages: u32, count: Result<(u32, nat)>)
    : (r: Result<(seq<DataSegment>, nat)>)
    requires count.Ok? ==> 1 <= count.value.1 <= |bs|
    ensures r.Ok? ==> 1 <= r.value.1 <= |bs|
  {
    match count
    case Err(c) => Err(c)
    case Ok(count) =>
      if declared != U32_MAX && declared != count.0 then Err(DataCountMismatch)
      else
        match DecodeSegments(bs[count.1..], count.0 as nat, hasMemory, initialPages)
        case Err(c) => Err(c)
        case Ok(segments) => Ok((segments.0, count.1 + segments.1))
  }

  /** The section read as its count, then that many segments. */
  lemma {:induction false} DataSectionOk(bs: seq<u8>, declared: u32, hasMemory: bool, initialPages: u32, count: u32,
                                         n: nat, after: seq<u8>, segments: seq<DataSegment>, m: nat, total: nat)
    requires Leb(bs) == Ok((count, n)) && (declared == U32_MAX || declared == count)
    requires n <= |bs| && bs[n..] == after
    requires DecodeSegments(after, count as nat, hasMemory, initialPages) == Ok((segments, m))
    requires total == n + m
    ensures DecodeDataSection(bs, declared, hasMemory, initialPages) == Ok((segments, total))
  {
    assert DecodeDataSection(bs, declared, hasMemory, initialPages)
        == DataSectionAfter(bs, declared, hasMemory, initialPages, Ok((count, n)));
    DataSectionAfterOk(bs, declared, hasMemory, initialPages, count, n, after, segments, m, total);
  }

  lemma {:induction false} DataSectionAfterOk(bs: seq<u8>, declared: u32, hasMemory: bool, initialPages: u32,
                                              count: u32, n: nat, after: seq<u8>, segments: seq<DataSegment>,
                                              m: nat, total: nat)
    requires (declared == U32_MAX || declared == count) && 1 <= n <= |bs| && bs[n..] == after
    requires DecodeSegments(after, count as nat, hasMemory, initialPages) == Ok((segments, m))
    requires total == n + m
    ensures DataSectionAfter(bs, declared, hasMemory, initialPages, Ok((count, n))) == Ok((segments, total))
  {
  }

  /** The section fails with the first segment that fails. */
  lemma {:induction false} DataSectionErr(bs: seq<u8>, declared: u32, hasMemory: bool, initialPages: u32, count: u32,
                                          n: nat, after: seq<u8>, c: ErrorCode)
    requires Leb(bs) == Ok((count, n)) && (declared == U32_MAX || declared == count)
    requires n <= |bs| && bs[n..] == after
    requires DecodeSegments(after, count as nat, hasMemory, initialPages) == Err(c)
    ensures DecodeDataSection(bs, declared, hasMemory, initialPages) == Err(c)
  {
  }

  function InitBytes(init: seq<u8>): seq<u8>
    requires |init| < TWO32
  {
    ULeb(|init|) + init
  }

  function SegmentBytes(s: DataSegment): seq<u8>
    requires |s.init| < TWO32
  {
    ULeb(0) + (ConstOffsetBytes(s.offset) + InitBytes(s.init))
  }

  function SegmentsBytes(segments: seq<DataSegment>): seq<u8>
    requires forall s :: s in segments ==> |s.init| < TWO32
  {
    if segments == [] then [] else SegmentBytes(segments[0]) + SegmentsBytes(segments[1..])
  }

  /** A data section of section 5.5.12 of the WebAssembly Core Specification, with active segments only. */
  function DataSectionBytes(segments: seq<DataSegment>): seq<u8>
    requires |segments| < TWO32 && forall s :: s in segments ==> |s.init| < TWO32
  {
    ULeb(|segments|) + SegmentsBytes(segments)
  }

  // ---------------------------------------------------------------------
  // Properties
  // ---------------------------------------------------------------------

  /** A segment's bytes read back when they fit the initial memory, and are out of bounds otherwise. */
  lemma {:induction false} InitRoundTrip(init: seq<u8>, rest: seq<u8>, offset: u32, initialPages: u32)
    requires |init| < TWO32
    ensures DecodeSegmentInit(InitBytes(init) + rest, offset, initialPages) ==
      if SegmentFits(offset, |init|, initialPages) then Ok((init, |InitBytes(init)| as nat))
      else Err(DataSegmentOutOfBounds)
  {
    var bs := InitBytes(init) + rest;
    assert bs == ULeb(|init|) + (init + rest);
    LebRoundTrip(|init|, init + rest);
    var m := |ULeb(|init|)|;
    assert bs[m..m + |init|] == init;
  }

  /**
    A segment reads back from its bytes when it fits the initial memory, and
    is rejected as out of bounds otherwise.
  */
  lemma {:induction false} SegmentRoundTrip(s: DataSegment, rest: seq<u8>, initialPages: u32)
    requires |s.init| < TWO32
    ensures DecodeDataSegment(SegmentBytes(s) + rest, true, initialPages) ==
      if SegmentFits(s.offset, |s.init|, initialPages) then Ok((s, |SegmentBytes(s)|))
      else Err(DataSegmentOutOfBounds)
  {
    var c := ConstOffsetBytes(s.offset);
    var tail := InitBytes(s.init) + rest;
    var active := c + tail;
    var bs := SegmentBytes(s) + rest;
    assert ULeb(0) == [0];
    assert bs == ULeb(0) + active;
    LebRoundTrip(0, active);
    ConstOffsetRoundTrip(s.offset, tail);
    InitRoundTrip(s.init, rest, s.offset, initialPages);
    ActiveStep(active, |c|, tail, s.offset, initialPages);
    ModeStep(bs, 1, active, initialPages);
  }

  /** A segment whose mode 0 takes n bytes is the active segment after it. */
  lemma {:induction false} ModeStep(bs: seq<u8>, n: nat, after: seq<u8>, initialPages: u32)
    requires Leb(bs) == Ok((0, n)) && n <= |bs| && bs[n..] == after
    ensures DecodeDataSegment(bs, true, initialPages) ==
      match DecodeActiveSegment(after, initialPages)
      case Err(c) => Err(c)
      case Ok(p) => Ok((p.0, n + p.1))
  {
  }

  /** An active segment whose offset expression takes n bytes is the bytes after it. */
  lemma {:induction false} ActiveStep(bs: seq<u8>, n: nat, after: seq<u8>, offset: u32, initialPages: u32)
    requires DecodeConstOffset(bs) == Ok((offset, n)) && n <= |bs| && bs[n..] == after
    ensures DecodeActiveSegment(bs, initialPages) ==
      match DecodeSegmentInit(after, offset, initialPages)
      case Err(c) => Err(c)
      case Ok(p) => Ok((DataSegment(offset, p.0), n + p.1))
  {
  }

  /** Segments that all fit read back from their bytes, whatever follows them. */
  lemma {:induction false} SegmentsRoundTrip(segments: seq<DataSegment>, rest: seq<u8>, initialPages: u32)
    requires forall s :: s in segments ==> |s.init| < TWO32 && SegmentFits(s.offset, |s.init|, initialPages)
    ensures DecodeSegments(SegmentsBytes(segments) + rest, |segments|, true, initialPages) ==
      Ok((segments, |SegmentsBytes(segments)|))
  {
    if segments == [] {
      assert SegmentsBytes(segments) == [];
      assert SegmentsBytes(segments) + rest == rest;
    } else {
      var s := segments[0];
      var sb := SegmentBytes(s);
      var others := SegmentsBytes(segments[1..]);
      var bs := SegmentsBytes(segments) + rest;
      SegmentsBytesSplit(segments, rest);
      SegmentRoundTrip(s, others + rest, initialPages);
      SegmentsRoundTrip(segments[1..], rest, initialPages);
      SegmentsCons(bs, |sb|, others + rest, |segments|, true, initialPages, s, segments[1..], |others|,
                   segments, |SegmentsBytes(segments)|);
    }
  }

  /** The bytes of the first segment, then those of the others. */
  lemma {:induction false} SegmentsBytesSplit(segments: seq<DataSegment>, rest: seq<u8>)
    requires segments != [] && forall s :: s in segments ==> |s.init| < TWO32
    ensures var sb := SegmentBytes(segments[0]);
      var bs := SegmentsBytes(segments) + rest;
      && bs == sb + (SegmentsBytes(segments[1..]) + rest)
      && bs[|sb|..] == SegmentsBytes(segments[1..]) + rest
      && |SegmentsBytes(segments)| == |sb| + |SegmentsBytes(segments[1..])|
      && [segments[0]] + segments[1..] == segments
  {
    var sb := SegmentBytes(segments[0]);
    assert SegmentsBytes(segments) == sb + SegmentsBytes(segments[1..]);
    assert SegmentsBytes(segments) + rest == sb + (SegmentsBytes(segments[1..]) + rest);
  }

  /**
    A data section whose segments all fit reads back from its bytes when no
    data-count section was seen or it declared the same number of segments.
  */
  lemma {:induction false} DataSectionRoundTrip(segments: seq<DataSegment>, rest: seq<u8>, declared: u32, initialPages: u32)
    requires |segments| < TWO32
    requires forall s :: s in segments ==> |s.init| < TWO32 && SegmentFits(s.offset, |s.init|, initialPages)
    requires declared == U32_MAX || declared as int == |segments|
    ensures DecodeDataSection(DataSectionBytes(segments) + rest, declared, true, initialPages) ==
      Ok((segments, |DataSectionBytes(segments)|))
  {
    var body := SegmentsBytes(segments) + rest;
    var bs := DataSectionBytes(segments) + rest;
    assert bs == ULeb(|segments|) + body;
    LebRoundTrip(|segments|, body);
    assert bs[|ULeb(|segments|)|..] == body;
    SegmentsRoundTrip(segments, rest, initialPages);
    DataSectionOk(bs, declared, true, initialPages, |segments| as u32, |ULeb(|segments|)|, body, segments,
                  |SegmentsBytes(segments)|, |DataSectionBytes(segments)|);
  }

  /**
    The segment count must equal the count of a preceding data-count section:
    the section fails with `DataCountMismatch` exactly when they differ, and an
    accepted section has as many segments as it declares.
  */
  lemma {:induction false} DataCountChecked(bs: seq<u8>, declared: u32, hasMemory: bool, initialPages: u32)
    ensures var r := DecodeDataSection(bs, declared, hasMemory, initialPages);
      r == Err(DataCountMismatch) <==> Leb(bs).Ok? && declared != U32_MAX && declared != Leb(bs).value.0
    ensures var r := DecodeDataSection(bs, declared, hasMemory, initialPages);
      r.Ok? ==>
        Leb(bs).Ok? && |r.value.0| == Leb(bs).value.0 as int && (declared != U32_MAX ==> |r.value.0| == declared as int)
  {
  }

  // ---------------------------------------------------------------------
  // The parsers
  // ---------------------------------------------------------------------

  /** `parseDataCountSection`: records the number of data segments the data section must have. */
  method ParseDataCountSection(br: BytecodeReader, info: ModuleInfo) returns (r: Result<()>)
    requires br.Valid()
    modifies br, info
    ensures br.Valid() && SameTypes(info) && SameMemory(info) && SameFunctions(info)
    ensures var spec := Leb(br.bytes[old(br.offset)..]);
      && (spec.Err? ==> r == Err(spec.code))
      && (spec.Ok? ==>
            r == Ok(()) && br.offset == old(br.offset) + spec.value.1 && info.numDataSegments == spec.value.0)
  {
    info.numDataSegments :- br.ReadLEB128U32();
    return Ok(());
  }

  /** The offset expression of an active segment. */
  method ParseConstOffset(br: BytecodeReader) returns (r: Result<u32>)
    requires br.Valid()
    modifies br
    ensures br.Valid()
    ensures Parsed(r, DecodeConstOffset(br.bytes[old(br.offset)..]), old(br.offset), br.offset)
  {
    ghost var bs := br.bytes[br.offset..];
    ghost var k0 := br.offset;
    var instruction :- ParseOpCode(br);
    if instruction.Single? && I32_CONST <= instruction.byte <= F64_CONST {
      if instruction.byte != I32_CONST {
        return Err(OffsetNotI32);
      }
      assert bs[1..] == br.bytes[br.offset..];
      var value :- br.ReadLEB128I32();
      assert bs[br.offset - k0..] == br.bytes[br.offset..];
      instruction :- ParseOpCode(br);
      if instruction != Single(END) {
        return Err(MalformedConstantOffset);
      }
      return Ok(AsU32(value));
    } else if instruction == Single(GLOBAL_GET) {
      return Err(ImportedGlobalsNotSupported);
    }
    return Err(MalformedConstantOffset);
  }

  /** One iteration of the loop over the segments: the mode and the memory. */
  method ParseDataSegment(br: BytecodeReader, info: ModuleInfo) returns (r: Result<DataSegment>)
    requires br.Valid()
    modifies br
    ensures br.Valid()
    ensures Parsed(r, DecodeDataSegment(br.bytes[old(br.offset)..], info.hasMemory, info.memoryInitialSize),
                   old(br.offset), br.offset)
  {
    ghost var bs := br.bytes[br.offset..];
    ghost var k0 := br.offset;
    var mode :- br.ReadLEB128U32();
    if mode != 0 {
      return Err(PassiveDataSegmentsNotImplemented);
    }
    if !info.hasMemory {
      return Err(MemoryIndexOutOfBounds);
    }
    assert bs[br.offset - k0..] == br.bytes[br.offset..];
    r := ParseActiveSegment(br, info.memoryInitialSize);
  }

  /** The offset expression, then the segment's bytes. */
  method ParseActiveSegment(br: BytecodeReader, initialPages: u32) returns (r: Result<DataSegment>)
    requires br.Valid()
    modifies br
    ensures br.Valid()
    ensures Parsed(r, DecodeActiveSegment(br.bytes[old(br.offset)..], initialPages), old(br.offset), br.offset)
  {
    ghost var bs := br.bytes[br.offset..];
    ghost var k0 := br.offset;
    var offset := ParseConstOffset(br);
    if offset.Err? {
      ParsedErr(offset, DecodeConstOffset(bs), k0, br.offset);
      return Err(offset.code);
    }
    ghost var n: nat := br.offset - k0;
    ParsedOk(offset, DecodeConstOffset(bs), k0, br.offset, offset.value, n);
    assert bs[n..] == br.bytes[br.offset..];
    ActiveStep(bs, n, br.bytes[br.offset..], offset.value, initialPages);
    var init :- ParseSegmentInit(br, offset.value, initialPages);
    return Ok(DataSegment(offset.value, init));
  }

  /** The size, the bounds check and the step over the segment's bytes. */
  method ParseSegmentInit(br: BytecodeReader, offset: u32, initialPages: u32) returns (r: Result<seq<u8>>)
    requires br.Valid()
    modifies br
    ensures br.Valid()
    ensures Parsed(r, DecodeSegmentInit(br.bytes[old(br.offset)..], offset, initialPages), old(br.offset), br.offset)
  {
    ghost var bs := br.bytes[br.offset..];
    ghost var k0 := br.offset;
    var segmentSize :- br.ReadLEB128U32();
    var endOffset := offset as int + segmentSize as int;
    if endOffset > initialPages as int * 65536 || offset > U32_MAX - segmentSize {
      return Err(DataSegmentOutOfBounds);
    }
    var start := br.offset;
    var stepped :- br.Step(segmentSize as nat);
    assert bs[start - k0..br.offset - k0] == br.bytes[start..br.offset];
    return Ok(br.bytes[start..br.offset]);
  }

  /** The loop over `count` segments. */
  method ParseSegments(br: BytecodeReader, info: ModuleInfo, count: u32) returns (r: Result<seq<DataSegment>>)
    requires br.Valid()
    modifies br
    ensures br.Valid()
    ensures Parsed(r, DecodeSegments(br.bytes[old(br.offset)..], count as nat, info.hasMemory, info.memoryInitialSize),
                   old(br.offset), br.offset)
  {
    ghost var bytes := br.bytes;
    ghost var k0 := br.offset;
    ghost var hasMemory := info.hasMemory;
    ghost var pages := info.memoryInitialSize;
    ghost var lengths: seq<nat> := [];
    ghost var suffixes: seq<seq<u8>> := [bytes[k0..]];
    var segments: seq<DataSegment> := [];
    var i: nat := 0;
    while i < count as nat
      invariant br.Valid() && br.bytes == bytes && k0 <= br.offset && i <= count as nat && |segments| == i
      invariant info.hasMemory == hasMemory && info.memoryInitialSize == pages
      invariant SegmentChain(suffixes, lengths, segments, hasMemory, pages)
      invariant suffixes[0] == bytes[k0..] && suffixes[i] == bytes[br.offset..]
      decreases count as nat - i
    {
      ghost var k := br.offset;
      ghost var spec := DecodeDataSegment(bytes[k..], hasMemory, pages);
      var result := ParseDataSegment(br, info);
      assert Parsed(result, spec, k, br.offset);
      if result.Err? {
        ParsedErr(result, spec, k, br.offset);
        ChainFails(suffixes, lengths, segments, hasMemory, pages, i, count as nat, bytes[k0..], bytes[k..],
                   result.code);
        return Err(result.code);
      }
      ghost var n: nat := br.offset - k;
      ParsedOk(result, spec, k, br.offset, result.value, n);
      assert bytes[k..][n..] == bytes[br.offset..];
      ChainExtend(suffixes, lengths, segments, hasMemory, pages, n, bytes[br.offset..], result.value);
      lengths := lengths + [n];
      suffixes := suffixes + [bytes[br.offset..]];
      segments := segments + [result.value];
      i := i + 1;
    }
    ghost var total := ChainDecodes(suffixes, lengths, segments, hasMemory, pages, i, bytes[k0..], bytes[br.offset..]);
    return Ok(segments);
  }

  /**
    `parseDataSection`: checks the segment count against a preceding
    data-count section (recording it when there was none) and reads the
    segments.
  */
  method ParseDataSection(br: BytecodeReader, info: ModuleInfo) returns (r: Result<seq<DataSegment>>)
    requires br.Valid()
    modifies br, info
    ensures br.Valid() && SameTypes(info) && SameMemory(info) && SameFunctions(info)
    ensures var spec := DecodeDataSection(br.bytes[old(br.offset)..], old(info.numDataSegments), info.hasMemory,
                                          info.memoryInitialSize);
      && Parsed(r, spec, old(br.offset), br.offset)
      && (spec.Ok? ==> info.numDataSegments as int == |spec.value.0|)
  {
    ghost var bs := br.bytes[br.offset..];
    ghost var k0 := br.offset;
    ghost var declared := info.numDataSegments;
    var count := br.ReadLEB128U32();
    if count.Err? {
      ParsedErr(count, Leb(bs), k0, br.offset);
      return Err(count.code);
    }
    var numDataSegments := count.value;
    ghost var k1 := br.offset;
    ghost var n: nat := k1 - k0;
    ParsedOk(count, Leb(bs), k0, k1, numDataSegments, n);
    if info.numDataSegments == U32_MAX {
      info.numDataSegments := numDataSegments;
    } else if info.numDataSegments != numDataSegments {
      return Err(DataCountMismatch);
    }
    assert bs[n..] == br.bytes[k1..];
    ghost var spec := DecodeSegments(br.bytes[k1..], numDataSegments as nat, info.hasMemory, info.memoryInitialSize);
    r := ParseSegments(br, info, numDataSegments);
    if r.Err? {
      ParsedErr(r, spec, k1, br.offset);
      DataSectionErr(bs, declared, info.hasMemory, info.memoryInitialSize, numDataSegments, n, br.bytes[k1..], r.code);
    } else {
      ghost var m: nat := br.offset - k1;
      ParsedOk(r, spec, k1, br.offset, r.value, m);
      DataSectionOk(bs, declared, info.hasMemory, info.memoryInitialSize, numDataSegments, n, br.bytes[k1..], r.value, m,
                    n + m);
    }
  }
}
