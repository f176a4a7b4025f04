/**
  The frontend's view of a Wasm binary: a cursor over the module bytes and
  the error codes the frontend throws.

  The bytecode reader class of the compiler is not part of this model; it is
  represented by the few reads the frontend makes of it (a byte, a ULEB128
  `uint32_t`, a little-endian `uint32_t`, a step and a jump). A read that
  would go past the end of the module fails with `ReadPastEnd`, and a ULEB128
  number that does not fit in 32 bits or takes more than five bytes fails
  with `MalformedLeb`; these two stand for the reader's own checks.
*/
module WasmReader {
  import opened UInt
  import opened DwarfBytes

  datatype ErrorCode =
    | ReadPastEnd | MalformedLeb
    | EmptyInput | WrongMagicNumber | VersionNotSupported | InvalidUtf8
    | UnknownInstruction | SimdNotImplemented
    | OnlyOneMemoryAllowed | UnknownSizeLimitFlag | MaximumBelowInitial | MemoryAbove65536Pages
    | DataCountMismatch | PassiveDataSegmentsNotImplemented | MemoryIndexOutOfBounds
    | OffsetNotI32 | MalformedConstantOffset | ImportedGlobalsNotSupported | DataSegmentOutOfBounds
    | WrongTypeForm | TooManyTypes | TooManyParams | TooManyResults
    | InvalidParamType | InvalidReturnType | FunctionTypeOutOfBounds
    | SectionOfSize0 | SectionPastModuleEnd | DuplicateOrMisorderedSection
    | MultipleNameSections | InvalidSectionType | SectionSizeMismatch | MissingFunctionBodies
    | ReachedMaximumStackFrameSize

  /** A value, or the code of the exception that was thrown instead. */
  datatype Result<T> = Ok(value: T) | Err(code: ErrorCode) {
    predicate IsFailure() {
      Err?
    }

    function PropagateFailure<U>(): Result<U>
      requires Err?
    {
      Err(code)
    }

    function Extract(): T
      requires Ok?
    {
      value
    }
  }

  /**
    `readLEB128<uint32_t>` on the bytes at the cursor: the value and the
    number of bytes it took.
  */
  function ReadU32Leb(bs: seq<u8>): (r: Option<(u32, nat)>)
    ensures r.Some? ==> 1 <= r.value.1 <= 5 && r.value.1 <= |bs|
    ensures r.Some? ==> ReadULeb(bs) == Some((r.value.0 as nat, r.value.1))
  {
    match ReadULeb(bs)
    case None => None
    case Some(p) => if p.0 < TWO32 && p.1 <= 5 then Some((p.0 as u32, p.1)) else None
  }

  /** Every `uint32_t` written as ULEB128 reads back, whatever follows it. */
  lemma {:induction false} ReadU32LebRoundTrip(v: u32, rest: seq<u8>)
    ensures ReadU32Leb(ULeb(v) + rest) == Some((v, |ULeb(v)|))
  {
    ULebRoundTrip(v, rest);
    ULebLength32(v);
  }

  /**
    `readLEB128<int32_t>` on the bytes at the cursor: the value and the number
    of bytes it took.
  */
  function ReadI32Leb(bs: seq<u8>): (r: Option<(i32, nat)>)
    ensures r.Some? ==> 1 <= r.value.1 <= 5 && r.value.1 <= |bs|
    ensures r.Some? ==> ReadSLeb(bs) == Some((r.value.0 as int, r.value.1))
  {
    match ReadSLeb(bs)
    case None => None
    case Some(p) => if -0x8000_0000 <= p.0 < 0x8000_0000 && p.1 <= 5 then Some((p.0 as i32, p.1)) else None
  }

  /** Every `int32_t` written as SLEB128 reads back, whatever follows it. */
  lemma {:induction false} ReadI32LebRoundTrip(v: i32, rest: seq<u8>)
    ensures ReadI32Leb(SLeb(v) + rest) == Some((v, |SLeb(v)|))
  {
    SLebRoundTrip(v, rest);
    SLebLength32(v);
  }

  /** A little-endian number of n bytes is below 256^n. */
  lemma {:induction false} ReadLEBound(bs: seq<u8>)
    ensures ReadLE(bs) < Pow256(|bs|)
  {
    if bs != [] {
      ReadLEBound(bs[1..]);
      MulMono(256, ReadLE(bs[1..]), Pow256(|bs| - 1) - 1);
    }
  }

  /** The parser's result and cursor agree with what the decoder says of the bytes it started on. */
  ghost predicate Parsed<T>(r: Result<T>, spec: Result<(T, nat)>, before: nat, after: nat) {
    (spec.Ok? ==> r == Ok(spec.value.0) && after == before + spec.value.1)
    && (spec.Err? ==> r == Err(spec.code))
  }

  lemma {:induction false} ParsedOk<T>(r: Result<T>, spec: Result<(T, nat)>, before: nat, after: nat, v: T, n: nat)
    requires Parsed(r, spec, before, after) && r == Ok(v) && n == after - before
    ensures spec == Ok((v, n))
  {
  }

  lemma {:induction false} ParsedErr<T>(r: Result<T>, spec: Result<(T, nat)>, before: nat, after: nat)
    requires Parsed(r, spec, before, after) && r.Err?
    ensures spec == Err(r.code)
  {
  }

  /**
    What a loop that has already read `done` over `used` bytes yields once the
    rest of its reads produce `r`.
  */
  function Prepend<T>(done: seq<T>, used: nat, r: Result<(seq<T>, nat)>): Result<(seq<T>, nat)> {
    match r
    case Err(c) => Err(c)
    case Ok(p) => Ok((done + p.0, used + p.1))
  }

  lemma {:induction false} PrependOne<T>(x: T, used: nat, xs: seq<T>, m: nat, all: seq<T>, total: nat)
    requires all == [x] + xs && total == used + m
    ensures Prepend([x], used, Ok((xs, m))) == Ok((all, total))
  {
  }

  function Byte(bs: seq<u8>): (r: Result<(u8, nat)>)
    ensures r.Ok? ==> r.value.1 == 1 <= |bs| && r.value.0 == bs[0]
    ensures r.Err? ==> bs == [] && r.code == ReadPastEnd
  {
    if bs == [] then Err(ReadPastEnd) else Ok((bs[0], 1))
  }

  function Leb(bs: seq<u8>): (r: Result<(u32, nat)>)
    ensures r.Ok? <==> ReadU32Leb(bs).Some?
    ensures r.Ok? ==> r.value == ReadU32Leb(bs).value && 1 <= r.value.1 <= |bs|
    ensures r.Err? ==> r.code == MalformedLeb
  {
    match ReadU32Leb(bs)
    case None => Err(MalformedLeb)
    case Some(p) => Ok(p)
  }

  lemma {:induction false} LebRoundTrip(v: u32, rest: seq<u8>)
    ensures Leb(ULeb(v) + rest) == Ok((v, |ULeb(v)|))
  {
    ReadU32LebRoundTrip(v, rest);
  }

  function SignedLeb(bs: seq<u8>): (r: Result<(i32, nat)>)
    ensures r.Ok? <==> ReadI32Leb(bs).Some?
    ensures r.Ok? ==> r.value == ReadI32Leb(bs).value && 1 <= r.value.1 <= |bs|
    ensures r.Err? ==> r.code == MalformedLeb
  {
    match ReadI32Leb(bs)
    case None => Err(MalformedLeb)
    case Some(p) => Ok(p)
  }

  lemma {:induction false} SignedLebRoundTrip(v: i32, rest: seq<u8>)
    ensures SignedLeb(SLeb(v) + rest) == Ok((v, |SLeb(v)|))
  {
    ReadI32LebRoundTrip(v, rest);
  }

  /** The cursor over the module bytes (`br_`). */
  class BytecodeReader {
    const bytes: seq<u8>
    var offset: nat

    ghost predicate Valid()
      reads this
    {
      offset <= |bytes|
    }

    constructor (bytes: seq<u8>)
      ensures this.bytes == bytes && offset == 0 && Valid()
    {
      this.bytes := bytes;
      offset := 0;
    }

    function BytesLeft(): nat
      reads this
      requires Valid()
    {
      |bytes| - offset
    }

    predicate HasNextByte()
      reads this
    {
      offset < |bytes|
    }

    method ReadByte() returns (r: Result<u8>)
      requires Valid()
      modifies this
      ensures Valid()
      ensures Parsed(r, Byte(bytes[old(offset)..]), old(offset), offset)
    {
      if offset >= |bytes| {
        return Err(ReadPastEnd);
      }
      r := Ok(bytes[offset]);
      offset := offset + 1;
    }

    method ReadLEB128U32() returns (r: Result<u32>)
      requires Valid()
      modifies this
      ensures Valid()
      ensures Parsed(r, Leb(bytes[old(offset)..]), old(offset), offset)
    {
      match ReadU32Leb(bytes[offset..])
      case None =>
        return Err(MalformedLeb);
      case Some(p) =>
        r := Ok(p.0);
        offset := offset + p.1;
    }

    method ReadLEB128I32() returns (r: Result<i32>)
      requires Valid()
      modifies this
      ensures Valid()
      ensures Parsed(r, SignedLeb(bytes[old(offset)..]), old(offset), offset)
    {
      match ReadI32Leb(bytes[offset..])
      case None =>
        return Err(MalformedLeb);
      case Some(p) =>
        r := Ok(p.0);
        offset := offset + p.1;
    }

    method ReadLEU32() returns (r: Result<u32>)
      requires Valid()
      modifies this
      ensures Valid()
      ensures old(offset) + 4 <= |bytes| ==>
        r == Ok(ReadLE(bytes[old(offset)..old(offset) + 4])) && offset == old(offset) + 4
      ensures old(offset) + 4 > |bytes| ==> r == Err(ReadPastEnd)
    {
      if offset + 4 > |bytes| {
        return Err(ReadPastEnd);
      }
      ReadLEBound(bytes[offset..offset + 4]);
      Pow256Values();
      r := Ok(ReadLE(bytes[offset..offset + 4]));
      offset := offset + 4;
    }

    method Step(n: nat) returns (r: Result<()>)
      requires Valid()
      modifies this
      ensures Valid()
      ensures old(offset) + n <= |bytes| ==> r == Ok(()) && offset == old(offset) + n
      ensures old(offset) + n > |bytes| ==> r == Err(ReadPastEnd)
    {
      if offset + n > |bytes| {
        return Err(ReadPastEnd);
      }
      offset := offset + n;
      return Ok(());
    }

    method JumpTo(position: nat)
      requires position <= |bytes|
      modifies this
      ensures Valid() && offset == position
    {
      offset := position;
    }
  }
}
